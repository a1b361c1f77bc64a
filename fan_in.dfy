/** The fan-out/fan-in program (fan-in/main.go): one single-shot source per
    URL, a fan-in stage merging them into one stream, a collector loop that
    records results in a map until the stream closes or the run is
    cancelled, and a report of one line per URL-list entry in input order. */
module FanIn {
  import opened Executor
  import opened Outcomes

  /** worker: a fresh channel that carries the URL's task and is then
      closed. A channel is modelled by the tasks it carries before closing. */
  function Worker(url: string, resp: Response): seq<Task>
  {
    [Task(url, ProcessURL(resp))]
  }

  /** The channels main collects, one per URL-list entry, given the
      response each GET gets. */
  function Sources(urls: seq<string>, responses: seq<Response>): seq<seq<Task>>
    requires |responses| == |urls|
  {
    seq(|urls|, i requires 0 <= i < |urls| => Worker(urls[i], responses[i]))
  }

  /** Each source carries exactly one task, for its own URL, and closes;
      the sources correspond one to one with the URL list. */
  lemma SourcesSingleShot(urls: seq<string>, responses: seq<Response>)
    requires |responses| == |urls|
    ensures |Sources(urls, responses)| == |urls|
    ensures forall i :: 0 <= i < |urls| ==>
      && |Sources(urls, responses)[i]| == 1
      && Sources(urls, responses)[i][0].url == urls[i]
      && Sources(urls, responses)[i][0].result == ProcessURL(responses[i])
  {
  }

  /** The loop of main that starts one worker per URL and appends its
      channel to chans. */
  method SpawnWorkers(urls: seq<string>, responses: seq<Response>) returns (chans: seq<seq<Task>>)
    requires |responses| == |urls|
    ensures chans == Sources(urls, responses)
  {
    chans := [];
    for i := 0 to |urls|
      invariant |chans| == i
      invariant forall j :: 0 <= j < i ==> chans[j] == Worker(urls[j], responses[j])
    {
      chans := chans + [Worker(urls[i], responses[i])];
    }
  }

  /** Every task the channels carry, channel after channel. */
  function Flatten(chans: seq<seq<Task>>): seq<Task>
  {
    if chans == [] then [] else Flatten(chans[..|chans| - 1]) + chans[|chans| - 1]
  }

  /** fanIn: the merged channel carries every task of every source, in
      some interleaving of their arrivals. */
  predicate IsFanIn(chans: seq<seq<Task>>, merged: seq<Task>)
  {
    multiset(merged) == multiset(Flatten(chans))
  }

  /** The merged channel as the collector sees it: the merged tasks, then
      the close that follows the wait for every relay. */
  function FanInStream(merged: seq<Task>): seq<Event>
  {
    Deliver(merged) + [Close]
  }

  /** The sources carry, together, one task per URL-list entry, in input order. */
  lemma {:induction false} FlattenSources(urls: seq<string>, responses: seq<Response>)
    requires |responses| == |urls|
    ensures Flatten(Sources(urls, responses)) == Executed(urls, responses)
  {
    var chans := Sources(urls, responses);
    if urls != [] {
      var n := |urls|;
      assert chans[..n - 1] == Sources(urls[..n - 1], responses[..n - 1]);
      FlattenSources(urls[..n - 1], responses[..n - 1]);
      assert Executed(urls, responses) == Executed(urls[..n - 1], responses[..n - 1]) + chans[n - 1];
    }
  }

  /** The merged stream carries the outcome of every source and nothing
      else: one task per URL-list entry, in some order. */
  lemma FanInCarriesEverySource(urls: seq<string>, responses: seq<Response>, merged: seq<Task>)
    requires |responses| == |urls|
    requires IsFanIn(Sources(urls, responses), merged)
    ensures multiset(merged) == multiset(Executed(urls, responses))
    ensures |merged| == |urls|
  {
    FlattenSources(urls, responses);
    assert |multiset(merged)| == |multiset(Executed(urls, responses))|;
  }

  /** The merged stream closes only once every source's task has been delivered. */
  lemma FanInClosesLast(urls: seq<string>, responses: seq<Response>, merged: seq<Task>)
    requires |responses| == |urls|
    requires IsFanIn(Sources(urls, responses), merged)
    ensures HasStop(FanInStream(merged))
    ensures FirstStop(FanInStream(merged)) == |urls|
    ensures Arrived(FanInStream(merged)) == merged && !CancelledRun(FanInStream(merged))
  {
    FanInCarriesEverySource(urls, responses, merged);
    ArrivalsThenStop(merged, Close, []);
    assert FanInStream(merged) == Deliver(merged) + [Close] + [];
  }

  /** The members of a reordering of the executed tasks. */
  lemma ExecutedMembers(urls: seq<string>, responses: seq<Response>, merged: seq<Task>)
    requires |responses| == |urls|
    requires multiset(merged) == multiset(Executed(urls, responses))
    ensures forall i :: 0 <= i < |urls| ==> Task(urls[i], ProcessURL(responses[i])) in merged
    ensures forall t :: t in merged ==> exists i :: 0 <= i < |urls| && t == Task(urls[i], ProcessURL(responses[i]))
  {
    var all := Executed(urls, responses);
    forall i | 0 <= i < |urls| ensures Task(urls[i], ProcessURL(responses[i])) in merged {
      assert all[i] in multiset(all);
    }
    forall t | t in merged ensures exists i :: 0 <= i < |urls| && t == Task(urls[i], ProcessURL(responses[i])) {
      assert t in multiset(all);
      var i :| 0 <= i < |all| && all[i] == t;
    }
  }

  /** The results map after recording `tasks` in arrival order. */
  function Record(tasks: seq<Task>): (m: map<string, int>)
    ensures m.Keys == UrlSet(tasks)
  {
    if tasks == [] then map[]
    else
      var t := tasks[|tasks| - 1];
      assert tasks == tasks[..|tasks| - 1] + [t];
      UrlSetSnoc(tasks[..|tasks| - 1], t);
      Record(tasks[..|tasks| - 1])[t.url := t.result]
  }

  /** Recording one more task sets its URL to its result and leaves every
      other URL as it was. */
  lemma RecordStep(tasks: seq<Task>, t: Task)
    ensures t.url in Record(tasks + [t]) && Record(tasks + [t])[t.url] == t.result
    ensures forall u :: u != t.url ==> (u in Record(tasks + [t]) <==> u in Record(tasks))
    ensures forall u :: u != t.url && u in Record(tasks) ==> Record(tasks + [t])[u] == Record(tasks)[u]
  {
    assert (tasks + [t])[..|tasks|] == tasks;
  }

  /** Last write wins: a URL holds the result of its last arrival. */
  lemma RecordLastWriteWins(tasks: seq<Task>)
    ensures forall j :: 0 <= j < |tasks| && (forall k :: j < k < |tasks| ==> tasks[k].url != tasks[j].url) ==>
      Record(tasks)[tasks[j].url] == tasks[j].result
  {
    forall j | 0 <= j < |tasks| && (forall k :: j < k < |tasks| ==> tasks[k].url != tasks[j].url)
      ensures Record(tasks)[tasks[j].url] == tasks[j].result
    {
      RecordKeepsLast(tasks, j);
    }
  }

  /** The same for one arrival: no later arrival of its URL overwrites it. */
  lemma {:induction false} RecordKeepsLast(tasks: seq<Task>, j: nat)
    requires j < |tasks|
    requires forall k :: j < k < |tasks| ==> tasks[k].url != tasks[j].url
    ensures tasks[j].url in Record(tasks) && Record(tasks)[tasks[j].url] == tasks[j].result
  {
    var n := |tasks|;
    var init, t := tasks[..n - 1], tasks[n - 1];
    assert tasks == init + [t];
    RecordSnoc(init, t);
    if j < n - 1 {
      assert init[j] == tasks[j] && t.url != tasks[j].url;
      assert forall k :: j < k < n - 1 ==> init[k] == tasks[k];
      RecordKeepsLast(init, j);
    }
  }

  /** Every recorded result is the result of an arrival of that URL. */
  lemma {:induction false} RecordFromArrival(tasks: seq<Task>)
    ensures forall u :: u in Record(tasks) ==> exists j :: 0 <= j < |tasks| && tasks[j] == Task(u, Record(tasks)[u])
  {
    if tasks != [] {
      var n := |tasks|;
      var init, t := tasks[..n - 1], tasks[n - 1];
      RecordFromArrival(init);
      assert tasks == init + [t];
      RecordStep(init, t);
      forall u | u in Record(tasks) ensures exists j :: 0 <= j < n && tasks[j] == Task(u, Record(tasks)[u]) {
        if u == t.url {
          assert tasks[n - 1] == Task(u, Record(tasks)[u]);
        } else {
          var j :| 0 <= j < n - 1 && init[j] == Task(u, Record(init)[u]);
          assert tasks[j] == Task(u, Record(tasks)[u]);
        }
      }
    }
  }

  lemma RecordSnoc(tasks: seq<Task>, t: Task)
    ensures Record(tasks + [t]) == Record(tasks)[t.url := t.result]
  {
    assert (tasks + [t])[..|tasks|] == tasks;
  }

  /** The collector loop of main: record each arriving task until the
      stream closes or cancellation fires; `stopped` says "stopped" was printed. */
  method Collect(events: seq<Event>) returns (results: map<string, int>, stopped: bool)
    requires HasStop(events)
    ensures results == Record(Arrived(events))
    ensures stopped == CancelledRun(events)
  {
    ghost var arrived := Arrived(events);
    ghost var stop := FirstStop(events);
    results := map[];
    stopped := false;
    var i := 0;
    while true
      invariant 0 <= i <= stop
      invariant results == Record(arrived[..i])
      decreases |events| - i
    {
      match events[i]
      case Outcome(res) =>
        assert arrived[..i + 1] == arrived[..i] + [res];
        RecordSnoc(arrived[..i], res);
        results := results[res.url := res.result];
        i := i + 1;
      case Close =>
        break;
      case Cancel =>
        stopped := true;
        break;
    }
    assert i == stop;
    assert arrived[..i] == arrived;
  }

  /** The report: one line per URL-list entry, in input order, with the
      recorded result or, when there is none, the cancel marker. */
  function Report(urls: seq<string>, results: map<string, int>): (lines: seq<Line>)
    ensures |lines| == |urls|
    ensures forall i :: 0 <= i < |urls| ==>
      lines[i] == if urls[i] in results then ResultLine(urls[i], results[urls[i]]) else CancelLine(urls[i])
  {
    if urls == [] then []
    else
      var init, u := urls[..|urls| - 1], urls[|urls| - 1];
      assert forall i :: 0 <= i < |init| ==> init[i] == urls[i];
      Report(init, results) + [if u in results then ResultLine(u, results[u]) else CancelLine(u)]
  }

  /** The report loop of main. */
  method PrintReport(urls: seq<string>, results: map<string, int>) returns (lines: seq<Line>)
    ensures lines == Report(urls, results)
  {
    lines := [];
    for i := 0 to |urls|
      invariant lines == Report(urls[..i], results)
    {
      assert urls[..i + 1][..i] == urls[..i];
      var count, ok := if urls[i] in results then results[urls[i]] else 0, urls[i] in results;
      if ok {
        lines := lines + [ResultLine(urls[i], count)];
      } else {
        lines := lines + [CancelLine(urls[i])];
      }
    }
    assert urls[..|urls|] == urls;
  }

  /** Everything main prints from the collector loop on. */
  function FanInOutput(events: seq<Event>, urls: seq<string>): seq<Line>
    requires HasStop(events)
  {
    (if CancelledRun(events) then [Stopped] else []) + Report(urls, Record(Arrived(events)))
  }

  /** The collector loop followed by the report loop. */
  method CollectAndReport(events: seq<Event>, urls: seq<string>) returns (out: seq<Line>)
    requires HasStop(events)
    ensures out == FanInOutput(events, urls)
  {
    var results, stopped := Collect(events);
    var lines := PrintReport(urls, results);
    out := (if stopped then [Stopped] else []) + lines;
  }

  /** Entries with the same URL get the same line. */
  lemma ReportDuplicatesAgree(urls: seq<string>, results: map<string, int>)
    ensures forall i, j :: 0 <= i < |urls| && 0 <= j < |urls| && urls[i] == urls[j] ==>
      Report(urls, results)[i] == Report(urls, results)[j]
  {
  }

  /** "stopped" is printed exactly on cancellation, and then first; one
      line per URL-list entry follows it. */
  lemma FanInStoppedFirst(events: seq<Event>, urls: seq<string>)
    requires HasStop(events)
    ensures var out, off := FanInOutput(events, urls), if CancelledRun(events) then 1 else 0;
      && |out| == |urls| + off
      && (CancelledRun(events) ==> out[0] == Stopped)
      && (Stopped in out ==> CancelledRun(events))
  {
    ReportHasNoStop(urls, Record(Arrived(events)));
  }

  /** After the optional "stopped", entry i shows the result of the last
      task for its URL that arrived before the loop ended. */
  lemma FanInLastResultShown(events: seq<Event>, urls: seq<string>)
    requires HasStop(events)
    ensures var off := if CancelledRun(events) then 1 else 0;
      && off <= |FanInOutput(events, urls)|
      && var report, arrived := FanInOutput(events, urls)[off..], Arrived(events);
      && |report| == |urls|
      && (forall i, j |
            && 0 <= i < |urls| && 0 <= j < |arrived| && arrived[j].url == urls[i]
            && (forall k :: j < k < |arrived| ==> arrived[k].url != urls[i])
            :: report[i] == ResultLine(urls[i], arrived[j].result))
  {
    var off := if CancelledRun(events) then 1 else 0;
    var arrived := Arrived(events);
    assert FanInOutput(events, urls)[off..] == Report(urls, Record(arrived));
    ReportShowsLastWrite(urls, arrived);
  }

  lemma ReportShowsLastWrite(urls: seq<string>, arrived: seq<Task>)
    ensures forall i, j |
      && 0 <= i < |urls| && 0 <= j < |arrived| && arrived[j].url == urls[i]
      && (forall k :: j < k < |arrived| ==> arrived[k].url != urls[i])
      :: Report(urls, Record(arrived))[i] == ResultLine(urls[i], arrived[j].result)
  {
    forall i, j |
      && 0 <= i < |urls| && 0 <= j < |arrived| && arrived[j].url == urls[i]
      && (forall k :: j < k < |arrived| ==> arrived[k].url != urls[i])
      ensures Report(urls, Record(arrived))[i] == ResultLine(urls[i], arrived[j].result)
    {
      LastWriteLine(urls, arrived, i, j);
    }
  }

  /** The cancel lines: after the optional "stopped", entry i is a cancel
      line exactly when no task for its URL arrived before the loop ended. */
  lemma FanInCancelLinesExactlyMissing(events: seq<Event>, urls: seq<string>)
    requires HasStop(events)
    ensures var off := if CancelledRun(events) then 1 else 0;
      && off <= |FanInOutput(events, urls)|
      && var report := FanInOutput(events, urls)[off..];
      && |report| == |urls|
      && (forall i :: 0 <= i < |urls| ==> (report[i] == CancelLine(urls[i]) <==> urls[i] !in UrlSet(Arrived(events))))
  {
    var off := if CancelledRun(events) then 1 else 0;
    var arrived := Arrived(events);
    assert FanInOutput(events, urls)[off..] == Report(urls, Record(arrived));
    ReportCancelsMissing(urls, arrived);
  }

  lemma ReportCancelsMissing(urls: seq<string>, arrived: seq<Task>)
    ensures forall i :: 0 <= i < |urls| ==> (Report(urls, Record(arrived))[i] == CancelLine(urls[i]) <==> urls[i] !in UrlSet(arrived))
  {
    forall i | 0 <= i < |urls|
      ensures Report(urls, Record(arrived))[i] == CancelLine(urls[i]) <==> urls[i] !in UrlSet(arrived)
    {
      CancelLineIffMissing(urls, arrived, i);
    }
  }

  lemma ReportHasNoStop(urls: seq<string>, results: map<string, int>)
    ensures Stopped !in Report(urls, results)
  {
  }

  /** An entry's report line is a cancel line exactly when its URL never arrived. */
  lemma CancelLineIffMissing(urls: seq<string>, tasks: seq<Task>, i: nat)
    requires i < |urls|
    ensures Report(urls, Record(tasks))[i] == CancelLine(urls[i]) <==> urls[i] !in UrlSet(tasks)
  {
  }

  /** The report line of an entry shows the last result that arrived for its URL. */
  lemma LastWriteLine(urls: seq<string>, tasks: seq<Task>, i: nat, j: nat)
    requires i < |urls| && j < |tasks| && tasks[j].url == urls[i]
    requires forall k :: j < k < |tasks| ==> tasks[k].url != urls[i]
    ensures Report(urls, Record(tasks))[i] == ResultLine(urls[i], tasks[j].result)
  {
    RecordKeepsLast(tasks, j);
  }

  /** A run that is not cancelled: every entry gets a result line, none a
      cancel line; with distinct URLs each line carries its own URL's result. */
  lemma FanInCompleteRun(urls: seq<string>, responses: seq<Response>, merged: seq<Task>)
    requires |responses| == |urls|
    requires IsFanIn(Sources(urls, responses), merged)
    ensures HasStop(FanInStream(merged))
    ensures var out := FanInOutput(FanInStream(merged), urls);
      && |out| == |urls|
      && (forall i :: 0 <= i < |urls| ==> out[i].ResultLine? && out[i].url == urls[i])
      && (NoDuplicates(urls) ==> forall i :: 0 <= i < |urls| ==> out[i] == ResultLine(urls[i], ProcessURL(responses[i])))
  {
    FanInCarriesEverySource(urls, responses, merged);
    FanInCompleteOutput(merged, urls);
    CompleteReport(urls, responses, merged);
  }

  /** A stream that delivers its tasks and then closes prints the report of
      all of them and no "stopped". */
  lemma FanInCompleteOutput(merged: seq<Task>, urls: seq<string>)
    ensures HasStop(FanInStream(merged))
    ensures FanInOutput(FanInStream(merged), urls) == Report(urls, Record(merged))
  {
    ArrivalsThenStop(merged, Close, []);
    assert FanInStream(merged) == Deliver(merged) + [Close] + [];
  }

  lemma CompleteReport(urls: seq<string>, responses: seq<Response>, merged: seq<Task>)
    requires |responses| == |urls|
    requires multiset(merged) == multiset(Executed(urls, responses))
    ensures var out := Report(urls, Record(merged));
      && |out| == |urls|
      && (forall i :: 0 <= i < |urls| ==> out[i].ResultLine? && out[i].url == urls[i])
      && (NoDuplicates(urls) ==> forall i :: 0 <= i < |urls| ==> out[i] == ResultLine(urls[i], ProcessURL(responses[i])))
  {
    ExecutedMembers(urls, responses, merged);
    var results := Record(merged);
    assert forall i :: 0 <= i < |urls| ==> urls[i] in results;
    if NoDuplicates(urls) {
      assert merged[..|merged|] == merged;
      OwnResults(urls, responses, merged, |merged|);
    }
  }

  /** A run cancelled after the first `k` merged tasks: "stopped", then per
      entry its own result when its task arrived and a cancel line otherwise. */
  lemma FanInCancelledRun(urls: seq<string>, responses: seq<Response>, merged: seq<Task>, k: nat, rest: seq<Event>)
    requires |responses| == |urls|
    requires IsFanIn(Sources(urls, responses), merged)
    requires k <= |merged|
    requires NoDuplicates(urls)
    ensures HasStop(Deliver(merged[..k]) + [Cancel] + rest)
    ensures var out := FanInOutput(Deliver(merged[..k]) + [Cancel] + rest, urls);
      && |out| == |urls| + 1
      && out[0] == Stopped
      && (forall i :: 0 <= i < |urls| ==>
            out[1..][i] == if urls[i] in UrlSet(merged[..k]) then ResultLine(urls[i], ProcessURL(responses[i])) else CancelLine(urls[i]))
  {
    var prefix := merged[..k];
    CancelAfter(prefix, rest, urls);
    assert FanInOutput(Deliver(prefix) + [Cancel] + rest, urls)[1..] == Report(urls, Record(prefix));
    FanInCarriesEverySource(urls, responses, merged);
    OwnResults(urls, responses, merged, k);
    ReportOfOwnResults(urls, responses, Record(prefix));
  }

  /** What is printed when cancellation fires after some arrivals. */
  lemma CancelAfter(prefix: seq<Task>, rest: seq<Event>, urls: seq<string>)
    ensures HasStop(Deliver(prefix) + [Cancel] + rest)
    ensures FanInOutput(Deliver(prefix) + [Cancel] + rest, urls) == [Stopped] + Report(urls, Record(prefix))
  {
    ArrivalsThenStop(prefix, Cancel, rest);
  }

  lemma ReportOfOwnResults(urls: seq<string>, responses: seq<Response>, results: map<string, int>)
    requires |responses| == |urls|
    requires forall i :: 0 <= i < |urls| && urls[i] in results ==> results[urls[i]] == ProcessURL(responses[i])
    ensures forall i :: 0 <= i < |urls| ==>
      Report(urls, results)[i] == if urls[i] in results then ResultLine(urls[i], ProcessURL(responses[i])) else CancelLine(urls[i])
  {
  }

  /** With distinct URLs, whatever was recorded for a URL from part of the
      stream is that URL's own result. */
  lemma OwnResults(urls: seq<string>, responses: seq<Response>, merged: seq<Task>, k: nat)
    requires |responses| == |urls|
    requires multiset(merged) == multiset(Executed(urls, responses))
    requires k <= |merged|
    requires NoDuplicates(urls)
    ensures forall i :: 0 <= i < |urls| && urls[i] in Record(merged[..k]) ==> Record(merged[..k])[urls[i]] == ProcessURL(responses[i])
  {
    forall i | 0 <= i < |urls| && urls[i] in Record(merged[..k]) ensures Record(merged[..k])[urls[i]] == ProcessURL(responses[i]) {
      OwnResult(urls, responses, merged, k, i);
    }
  }

  lemma OwnResult(urls: seq<string>, responses: seq<Response>, merged: seq<Task>, k: nat, i: nat)
    requires |responses| == |urls|
    requires multiset(merged) == multiset(Executed(urls, responses))
    requires k <= |merged|
    requires NoDuplicates(urls)
    requires i < |urls| && urls[i] in Record(merged[..k])
    ensures Record(merged[..k])[urls[i]] == ProcessURL(responses[i])
  {
    var prefix := merged[..k];
    ExecutedMembers(urls, responses, merged);
    RecordFromArrival(prefix);
    var v := Record(prefix)[urls[i]];
    var j :| 0 <= j < |prefix| && prefix[j] == Task(urls[i], v);
    assert prefix[j] == merged[j] && merged[j] in merged;
    var i' :| 0 <= i' < |urls| && merged[j] == Task(urls[i'], ProcessURL(responses[i']));
    assert i' == i;
  }
}
