/** The per-URL work unit shared by both programs: one GET whose abstract
    outcome is turned into an integer result, either a status code or the
    number of lines of the body (processURL). */
module Executor {

  /** One byte of a response body. */
  type Byte = b: int | 0 <= b < 256

  /** The byte '\n'. */
  const NewLine: Byte := 10

  /** http.StatusOK */
  const StatusOK: int := 200

  /** http.StatusInternalServerError, reported for transport and read errors. */
  const StatusInternalServerError: int := 500

  /** What reading the whole body produced. */
  datatype BodyRead = ReadFailure | Body(bytes: seq<Byte>)

  /** What the HTTP client's Get produced: an error, or a status code
      together with what reading its body would produce. */
  datatype Response = TransportFailure | Reply(status: int, body: BodyRead)

  /** The number of '\n' bytes of `body` (bytes.Count with a one-byte separator). */
  function CountNewLines(body: seq<Byte>): (n: nat)
    ensures n == multiset(body)[NewLine]
    ensures n <= |body|
  {
    if body == [] then 0
    else
      assert body == [body[0]] + body[1..];
      (if body[0] == NewLine then 1 else 0) + CountNewLines(body[1..])
  }

  /** Counting does not depend on how the body is cut into chunks. */
  lemma CountNewLinesAppend(a: seq<Byte>, b: seq<Byte>)
    ensures CountNewLines(a + b) == CountNewLines(a) + CountNewLines(b)
  {
    assert multiset(a + b) == multiset(a) + multiset(b);
  }

  /** The line count of a body: its '\n' bytes, plus one for a last line
      that is not terminated by '\n'. */
  function LineCount(body: seq<Byte>): nat
  {
    var count := CountNewLines(body);
    if |body| > 0 && body[|body| - 1] != NewLine then count + 1 else count
  }

  lemma LineCountBounds(body: seq<Byte>)
    ensures LineCount(body) <= |body|
    ensures LineCount(body) == 0 <==> body == []
    ensures body != [] ==> LineCount(body) >= 1
  {
    if body != [] {
      var init, last := body[..|body| - 1], body[|body| - 1];
      assert body == init + [last];
      CountNewLinesAppend(init, [last]);
      assert CountNewLines([last]) == if last == NewLine then 1 else 0;
    }
  }

  /** A line: bytes without a '\n'. */
  predicate NoNewLine(s: seq<Byte>)
  {
    NewLine !in s
  }

  /** A body cut into '\n'-terminated lines and an unterminated tail. */
  datatype Text = Text(lines: seq<seq<Byte>>, tail: seq<Byte>)

  predicate WellFormed(t: Text)
  {
    && (forall k :: 0 <= k < |t.lines| ==> NoNewLine(t.lines[k]))
    && NoNewLine(t.tail)
  }

  /** The body that a text stands for: each line followed by '\n', then the tail. */
  function Unlines(lines: seq<seq<Byte>>, tail: seq<Byte>): seq<Byte>
  {
    if lines == [] then tail else lines[0] + [NewLine] + Unlines(lines[1..], tail)
  }

  /** Cuts a body at its '\n' bytes; Unlines puts it back together. */
  function SplitLines(body: seq<Byte>): (t: Text)
    ensures WellFormed(t)
    ensures Unlines(t.lines, t.tail) == body
  {
    if body == [] then Text([], [])
    else
      var rest := SplitLines(body[1..]);
      assert body == [body[0]] + body[1..];
      if body[0] == NewLine then
        assert ([[]] + rest.lines)[1..] == rest.lines;
        Text([[]] + rest.lines, rest.tail)
      else if rest.lines == [] then
        Text([], [body[0]] + rest.tail)
      else
        var first := [body[0]] + rest.lines[0];
        assert ([first] + rest.lines[1..])[1..] == rest.lines[1..];
        Text([first] + rest.lines[1..], rest.tail)
  }

  lemma {:induction false} UnlinesFacts(lines: seq<seq<Byte>>, tail: seq<Byte>)
    requires WellFormed(Text(lines, tail))
    ensures CountNewLines(Unlines(lines, tail)) == |lines|
    ensures tail != [] ==> |Unlines(lines, tail)| > 0 && Unlines(lines, tail)[|Unlines(lines, tail)| - 1] == tail[|tail| - 1]
    ensures tail == [] && lines != [] ==> |Unlines(lines, tail)| > 0 && Unlines(lines, tail)[|Unlines(lines, tail)| - 1] == NewLine
  {
    if lines == [] {
      assert multiset(tail)[NewLine] == 0;
    } else {
      var rest := Unlines(lines[1..], tail);
      assert WellFormed(Text(lines[1..], tail)) by {
        forall k | 0 <= k < |lines[1..]| ensures NoNewLine(lines[1..][k]) {
          assert lines[1..][k] == lines[k + 1];
        }
      }
      UnlinesFacts(lines[1..], tail);
      assert NoNewLine(lines[0]);
      assert CountNewLines(lines[0]) == 0 by {
        assert multiset(lines[0])[NewLine] == 0;
      }
      CountNewLinesAppend(lines[0], [NewLine]);
      CountNewLinesAppend(lines[0] + [NewLine], rest);
    }
  }

  /** A body built from well-formed lines and a tail has one line per
      terminated line, plus one for a non-empty tail. */
  lemma LineCountOfText(t: Text)
    requires WellFormed(t)
    ensures LineCount(Unlines(t.lines, t.tail)) == |t.lines| + (if t.tail == [] then 0 else 1)
  {
    UnlinesFacts(t.lines, t.tail);
  }

  /** The line count of any body is the number of lines it is cut into. */
  lemma LineCountIsNumberOfLines(body: seq<Byte>)
    ensures var t := SplitLines(body);
      LineCount(body) == |t.lines| + (if t.tail == [] then 0 else 1)
  {
    LineCountOfText(SplitLines(body));
  }

  /** processURL: the integer a URL's response is reported as. */
  function ProcessURL(resp: Response): (r: int)
    ensures resp.TransportFailure? ==> r == StatusInternalServerError
    ensures resp.Reply? && resp.status != StatusOK ==> r == resp.status
    ensures resp.Reply? && resp.status == StatusOK && resp.body.ReadFailure? ==> r == StatusInternalServerError
    ensures resp.Reply? && resp.status == StatusOK && resp.body.Body? ==>
      && r == LineCount(resp.body.bytes)
      && 0 <= r <= |resp.body.bytes|
      && (r == 0 <==> resp.body.bytes == [])
  {
    match resp
    case TransportFailure => StatusInternalServerError
    case Reply(status, body) =>
      if status != StatusOK then status
      else
        match body
        case ReadFailure => StatusInternalServerError
        case Body(bytes) =>
          LineCountBounds(bytes);
          LineCount(bytes)
  }

  /** A status other than 200 is reported without the body being looked at. */
  lemma NonOKIgnoresBody(status: int, b1: BodyRead, b2: BodyRead)
    requires status != StatusOK
    ensures ProcessURL(Reply(status, b1)) == ProcessURL(Reply(status, b2)) == status
  {
  }

  /** A failed request and a failed read are indistinguishable in the report. */
  lemma ErrorsGiveInternalServerError(status: int)
    ensures ProcessURL(TransportFailure) == StatusInternalServerError
    ensures ProcessURL(Reply(StatusOK, ReadFailure)) == StatusInternalServerError
    ensures status != StatusOK ==> ProcessURL(Reply(status, ReadFailure)) == status
  {
  }
}
