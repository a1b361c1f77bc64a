/** The vocabulary both collectors share: the tasks workers send back, the
    events a collector observes while waiting (a task arrives, the results
    channel is closed, or the run is cancelled) and the lines it prints. */
module Outcomes {
  import opened Executor

  /** A URL paired with its result (type task). */
  datatype Task = Task(url: string, result: int)

  /** One thing the collector's select can observe: a task received, the
      results channel found closed, or the cancellation context done. */
  datatype Event = Outcome(task: Task) | Close | Cancel

  /** One line of output: "<url>: <n>", "<url>: cancel", or "stopped". */
  datatype Line = ResultLine(url: string, n: int) | CancelLine(url: string) | Stopped

  /** The stream eventually closes or the run is cancelled; without either
      the collector would wait forever. */
  predicate HasStop(events: seq<Event>)
  {
    exists i :: 0 <= i < |events| && !events[i].Outcome?
  }

  /** The task each URL-list entry's executor produces, in input order,
      given the response each GET gets. */
  function Executed(urls: seq<string>, responses: seq<Response>): seq<Task>
    requires |responses| == |urls|
  {
    seq(|urls|, i requires 0 <= i < |urls| => Task(urls[i], ProcessURL(responses[i])))
  }

  predicate NoDuplicates(urls: seq<string>)
  {
    forall i, j :: 0 <= i < j < |urls| ==> urls[i] != urls[j]
  }

  lemma HasStopTail(events: seq<Event>)
    requires HasStop(events) && events[0].Outcome?
    ensures HasStop(events[1..])
  {
    var i :| 0 <= i < |events| && !events[i].Outcome?;
    assert events[1..][i - 1] == events[i];
  }

  /** The position of the event that ends the collector's loop. */
  function FirstStop(events: seq<Event>): (k: nat)
    requires HasStop(events)
    ensures k < |events| && !events[k].Outcome?
    ensures forall j :: 0 <= j < k ==> events[j].Outcome?
  {
    if !events[0].Outcome? then 0
    else
      HasStopTail(events);
      1 + FirstStop(events[1..])
  }

  /** The loop ended because cancellation fired, not because the stream closed. */
  predicate CancelledRun(events: seq<Event>)
    requires HasStop(events)
  {
    events[FirstStop(events)].Cancel?
  }

  /** The tasks the collector receives, in arrival order. */
  function Arrived(events: seq<Event>): (tasks: seq<Task>)
    requires HasStop(events)
    ensures |tasks| == FirstStop(events)
    ensures forall j :: 0 <= j < |tasks| ==> events[j] == Outcome(tasks[j])
  {
    if !events[0].Outcome? then []
    else
      HasStopTail(events);
      [events[0].task] + Arrived(events[1..])
  }

  /** The events of receiving `tasks` one after the other. */
  function Deliver(tasks: seq<Task>): seq<Event>
  {
    seq(|tasks|, j requires 0 <= j < |tasks| => Outcome(tasks[j]))
  }

  /** A stream that delivers some tasks and then stops is read as exactly
      those tasks, and the stopping event decides whether the run was cancelled. */
  lemma ArrivalsThenStop(tasks: seq<Task>, stop: Event, rest: seq<Event>)
    requires !stop.Outcome?
    ensures var events := Deliver(tasks) + [stop] + rest;
      && HasStop(events)
      && FirstStop(events) == |tasks|
      && Arrived(events) == tasks
      && (CancelledRun(events) <==> stop == Cancel)
  {
    var events := Deliver(tasks) + [stop] + rest;
    assert events[|tasks|] == stop;
    assert HasStop(events);
    assert forall j :: 0 <= j < |tasks| ==> events[j] == Outcome(tasks[j]);
    assert Arrived(events) == tasks;
  }

  /** Conversely every stream that stops is of that shape, with its arrivals
      before the first stopping event. */
  lemma StreamShape(events: seq<Event>)
    requires HasStop(events)
    ensures var k := FirstStop(events);
      events == Deliver(Arrived(events)) + [events[k]] + events[k + 1..]
  {
    var k, a := FirstStop(events), Arrived(events);
    assert events[..k] == Deliver(a) by {
      assert forall j :: 0 <= j < k ==> events[..k][j] == events[j] == Outcome(a[j]);
    }
    assert events == events[..k] + [events[k]] + events[k + 1..];
  }

  /** The URLs among `tasks`. */
  function UrlSet(tasks: seq<Task>): set<string>
  {
    set t | t in tasks :: t.url
  }

  lemma UrlSetSnoc(tasks: seq<Task>, t: Task)
    ensures UrlSet(tasks + [t]) == UrlSet(tasks) + {t.url}
  {
    assert forall x :: x in tasks + [t] <==> x in tasks || x == t;
  }
}
