/** The bounded worker-pool program (worker_pool/main.go): the URLs are put
    on a jobs queue, workers turn each job into a task, and handleResults
    prints every task as it arrives, "stopped" on cancellation, and a cancel
    line for every URL it never heard back about. */
module WorkerPool {
  import opened Executor
  import opened Outcomes

  /** The jobs channel as the submitting side sees it: what has been sent
      on it, and whether it has been closed. */
  class JobQueue {
    var sent: seq<string>
    var closed: bool

    constructor ()
      ensures sent == [] && !closed
    {
      sent := [];
      closed := false;
    }

    /** A send; sending on a closed channel panics, so the channel must be open. */
    method Send(url: string)
      requires !closed
      modifies this
      ensures sent == old(sent) + [url] && !closed
    {
      sent := sent + [url];
    }

    /** close(jobs); closing a closed channel panics. */
    method Close()
      requires !closed
      modifies this
      ensures closed && sent == old(sent)
    {
      closed := true;
    }
  }

  /** The submission loop of main: each URL is sent once, in input order,
      and the queue is closed afterwards. */
  method SubmitJobs(jobs: JobQueue, urls: seq<string>)
    requires !jobs.closed
    modifies jobs
    ensures jobs.sent == old(jobs.sent) + urls
    ensures jobs.closed
  {
    for i := 0 to |urls|
      invariant jobs.sent == old(jobs.sent) + urls[..i]
      invariant !jobs.closed
    {
      jobs.Send(urls[i]);
      assert urls[..i + 1] == urls[..i] + [urls[i]];
    }
    assert urls[..|urls|] == urls;
    jobs.Close();
  }

  /** The task a worker sends on the results channel for each job, job by
      job: position i holds job i's task, whatever order the tasks arrive in. */
  function Work(jobs: seq<string>, responses: seq<Response>): (tasks: seq<Task>)
    requires |responses| == |jobs|
    ensures tasks == Executed(jobs, responses)
  {
    if jobs == [] then []
    else
      var first := Task(jobs[0], ProcessURL(responses[0]));
      assert [first] + Executed(jobs[1..], responses[1..]) == Executed(jobs, responses);
      [first] + Work(jobs[1..], responses[1..])
  }

  /** The lines printed for arriving tasks, in arrival order. */
  function ResultLines(tasks: seq<Task>): seq<Line>
  {
    seq(|tasks|, j requires 0 <= j < |tasks| => ResultLine(tasks[j].url, tasks[j].result))
  }

  /** The cancel pass: a cancel line for every entry of `urls` whose URL is
      not among `received`, in input order. */
  function CancelLines(urls: seq<string>, received: set<string>): (lines: seq<Line>)
    ensures forall k :: 0 <= k < |lines| ==> lines[k].CancelLine? && lines[k].url !in received
  {
    if urls == [] then []
    else
      var init, u := urls[..|urls| - 1], urls[|urls| - 1];
      CancelLines(init, received) + (if u in received then [] else [CancelLine(u)])
  }

  /** Every cancel line names an entry of the list, and every entry whose
      URL was not received gets one. */
  lemma {:induction false} CancelLinesCover(urls: seq<string>, received: set<string>)
    ensures forall l :: l in CancelLines(urls, received) ==> l.url in urls
    ensures forall i :: 0 <= i < |urls| && urls[i] !in received ==> CancelLine(urls[i]) in CancelLines(urls, received)
  {
    if urls != [] {
      var init := urls[..|urls| - 1];
      CancelLinesCover(init, received);
      assert forall i :: 0 <= i < |init| ==> init[i] == urls[i];
    }
  }

  /** The cancel pass of a list is that of its parts, one after the other:
      cancel lines come in input order, and a duplicated entry is repeated. */
  lemma {:induction false} CancelLinesAppend(a: seq<string>, b: seq<string>, received: set<string>)
    ensures CancelLines(a + b, received) == CancelLines(a, received) + CancelLines(b, received)
  {
    if b != [] {
      var init, u := b[..|b| - 1], b[|b| - 1];
      assert (a + b)[..|a + b| - 1] == a + init;
      assert (a + b)[|a + b| - 1] == u;
      CancelLinesAppend(a, init, received);
    } else {
      assert a + b == a;
    }
  }

  /** The processedURLs map: every received URL marked true. */
  function Processed(tasks: seq<Task>): map<string, bool>
  {
    map u | u in UrlSet(tasks) :: true
  }

  /** Everything handleResults prints for the events it observes. */
  function PoolOutput(events: seq<Event>, urls: seq<string>): seq<Line>
    requires HasStop(events)
  {
    var arrived := Arrived(events);
    ResultLines(arrived)
      + (if CancelledRun(events) then [Stopped] else [])
      + CancelLines(urls, UrlSet(arrived))
  }

  lemma ResultLinesSnoc(tasks: seq<Task>, t: Task)
    ensures ResultLines(tasks + [t]) == ResultLines(tasks) + [ResultLine(t.url, t.result)]
  {
  }

  lemma ResultLinesAppend(a: seq<Task>, b: seq<Task>)
    ensures ResultLines(a + b) == ResultLines(a) + ResultLines(b)
  {
  }

  /** The result lines printed depend only on which tasks arrive, not on
      the order they arrive in, up to the order of the lines. */
  lemma {:induction false} ResultLinesReordered(a: seq<Task>, b: seq<Task>)
    requires multiset(a) == multiset(b)
    ensures multiset(ResultLines(a)) == multiset(ResultLines(b))
    decreases |a|
  {
    if a == [] {
      assert |multiset(b)| == 0;
    } else {
      var init, x := a[..|a| - 1], a[|a| - 1];
      assert a == init + [x];
      assert x in multiset(b);
      var j :| 0 <= j < |b| && b[j] == x;
      RemoveOne(init, x, b, j);
      ResultLinesReordered(init, b[..j] + b[j + 1..]);
      assert b == b[..j] + [x] + b[j + 1..];
      ReorderStep(init, x, b[..j], b[j + 1..]);
    }
  }

  lemma ReorderStep(init: seq<Task>, x: Task, before: seq<Task>, after: seq<Task>)
    requires multiset(ResultLines(init)) == multiset(ResultLines(before + after))
    ensures multiset(ResultLines(init + [x])) == multiset(ResultLines(before + [x] + after))
  {
    ResultLinesAround(before, x, after);
    ResultLinesSnoc(init, x);
  }

  /** Taking the same task out of two orderings of one multiset leaves orderings of one multiset. */
  lemma RemoveOne(init: seq<Task>, x: Task, b: seq<Task>, j: nat)
    requires j < |b| && b[j] == x
    requires multiset(init + [x]) == multiset(b)
    ensures multiset(init) == multiset(b[..j] + b[j + 1..])
  {
    var rest := b[..j] + b[j + 1..];
    assert b == b[..j] + [x] + b[j + 1..];
    assert multiset(b) == multiset(rest) + multiset{x};
    assert multiset(init + [x]) == multiset(init) + multiset{x};
    assert multiset(init) == multiset(init + [x]) - multiset{x};
    assert multiset(rest) == multiset(b) - multiset{x};
  }

  lemma ResultLinesAround(before: seq<Task>, x: Task, after: seq<Task>)
    ensures multiset(ResultLines(before + [x] + after))
         == multiset(ResultLines(before + after)) + multiset{ResultLine(x.url, x.result)}
  {
    var l := ResultLine(x.url, x.result);
    var rb, ra := ResultLines(before), ResultLines(after);
    ResultLinesAppend(before + [x], after);
    ResultLinesSnoc(before, x);
    ResultLinesAppend(before, after);
    assert ResultLines(before + [x] + after) == rb + [l] + ra;
    assert ResultLines(before + after) == rb + ra;
    assert multiset(rb + [l] + ra) == multiset(rb) + multiset{l} + multiset(ra);
    assert multiset(rb + ra) == multiset(rb) + multiset(ra);
  }

  lemma ProcessedSnoc(tasks: seq<Task>, t: Task)
    ensures Processed(tasks + [t]) == Processed(tasks)[t.url := true]
  {
    UrlSetSnoc(tasks, t);
  }

  /** handleResults: the receive loop, which ends at the first close or
      cancellation, followed by the cancel pass over the URL list. */
  method HandleResults(events: seq<Event>, urls: seq<string>) returns (out: seq<Line>)
    requires HasStop(events)
    ensures out == PoolOutput(events, urls)
  {
    ghost var arrived := Arrived(events);
    ghost var stop := FirstStop(events);
    var processed: map<string, bool> := map[];
    out := [];
    var i := 0;
    while true
      invariant 0 <= i <= stop
      invariant processed == Processed(arrived[..i])
      invariant out == ResultLines(arrived[..i])
      decreases |events| - i
    {
      match events[i]
      case Outcome(res) =>
        assert arrived[..i + 1] == arrived[..i] + [res];
        ResultLinesSnoc(arrived[..i], res);
        ProcessedSnoc(arrived[..i], res);
        out := out + [ResultLine(res.url, res.result)];
        processed := processed[res.url := true];
        i := i + 1;
      case Close =>
        break;
      case Cancel =>
        out := out + [Stopped];
        break;
    }
    assert i == stop;
    assert arrived[..i] == arrived;
    assert processed.Keys == UrlSet(arrived);
    var cancels := CancelPass(urls, processed);
    out := out + cancels;
  }

  /** The loop over the URL list after the collector loop: a cancel line for
      every entry missing from the processed map. */
  method CancelPass(urls: seq<string>, processed: map<string, bool>) returns (lines: seq<Line>)
    ensures lines == CancelLines(urls, processed.Keys)
  {
    lines := [];
    for k := 0 to |urls|
      invariant lines == CancelLines(urls[..k], processed.Keys)
    {
      assert urls[..k + 1][..k] == urls[..k];
      if urls[k] !in processed {
        lines := lines + [CancelLine(urls[k])];
      }
    }
    assert urls[..|urls|] == urls;
  }

  /** "stopped" is printed exactly when the run was cancelled, and at most once. */
  lemma PoolStoppedOnlyOnCancel(events: seq<Event>, urls: seq<string>)
    requires HasStop(events)
    ensures Stopped in PoolOutput(events, urls) <==> CancelledRun(events)
    ensures multiset(PoolOutput(events, urls))[Stopped] <= 1
  {
    var arrived := Arrived(events);
    var a, b := ResultLines(arrived), CancelLines(urls, UrlSet(arrived));
    var s := if CancelledRun(events) then [Stopped] else [];
    assert Stopped !in a;
    assert Stopped !in b;
    assert multiset(a)[Stopped] == 0;
    assert multiset(b)[Stopped] == 0;
    assert PoolOutput(events, urls) == a + s + b;
    assert multiset(a + s + b) == multiset(a) + multiset(s) + multiset(b);
  }

  lemma NoResultLineAfter(a: seq<Line>, tail: seq<Line>)
    requires forall l :: l in tail ==> !l.ResultLine?
    ensures forall j :: |a| <= j < |a + tail| ==> !(a + tail)[j].ResultLine?
  {
    forall j | |a| <= j < |a + tail| ensures !(a + tail)[j].ResultLine? {
      assert (a + tail)[j] == tail[j - |a|];
    }
  }

  /** Every task received before the loop ends is printed once, in arrival
      order, and nothing that comes after the stopping event is printed. */
  lemma PoolResultsInArrivalOrder(events: seq<Event>, urls: seq<string>)
    requires HasStop(events)
    ensures var out, k := PoolOutput(events, urls), FirstStop(events);
      && k <= |out|
      && (forall j :: 0 <= j < k ==> out[j] == ResultLine(events[j].task.url, events[j].task.result))
      && (forall j :: k <= j < |out| ==> !out[j].ResultLine?)
  {
    var arrived := Arrived(events);
    var tail := (if CancelledRun(events) then [Stopped] else []) + CancelLines(urls, UrlSet(arrived));
    assert forall l :: l in tail ==> !l.ResultLine?;
    NoResultLineAfter(ResultLines(arrived), tail);
  }

  /** The cancel lines are exactly the URL-list entries with no received
      task: none for a received URL, one for every entry that was not. */
  lemma PoolCancelLinesExactlyMissing(events: seq<Event>, urls: seq<string>)
    requires HasStop(events)
    ensures var out, received := PoolOutput(events, urls), UrlSet(Arrived(events));
      && (forall l :: l in out && l.CancelLine? ==> l.url in urls && l.url !in received)
      && (forall i :: 0 <= i < |urls| ==> (CancelLine(urls[i]) in out <==> urls[i] !in received))
  {
    var arrived := Arrived(events);
    var received := UrlSet(arrived);
    var a, b := ResultLines(arrived), CancelLines(urls, received);
    var s := if CancelledRun(events) then [Stopped] else [];
    CancelLinesCover(urls, received);
    assert forall l :: l in a ==> l.ResultLine?;
    assert forall l :: l in b ==> l.url !in received;
    assert forall l :: l in PoolOutput(events, urls) <==> l in a || l in s || l in b;
  }

  lemma {:induction false} CancelLinesNone(urls: seq<string>, received: set<string>)
    requires forall i :: 0 <= i < |urls| ==> urls[i] in received
    ensures CancelLines(urls, received) == []
  {
    if urls != [] {
      CancelLinesNone(urls[..|urls| - 1], received);
    }
  }

  /** A run that is not cancelled: when the results channel carries, in
      some order, the task of every submitted job and then closes, every
      task is printed and no cancel line follows, whatever the order. */
  lemma PoolCompleteRun(urls: seq<string>, responses: seq<Response>, merged: seq<Task>, rest: seq<Event>)
    requires |responses| == |urls|
    requires multiset(merged) == multiset(Work(urls, responses))
    ensures HasStop(Deliver(merged) + [Close] + rest)
    ensures var out := PoolOutput(Deliver(merged) + [Close] + rest, urls);
      && out == ResultLines(merged)
      && |out| == |urls|
  {
    ArrivalsThenStop(merged, Close, rest);
    EveryJobReceived(urls, responses, merged);
    CancelLinesNone(urls, UrlSet(merged));
  }

  /** When the tasks received are those of all jobs, in any order, every
      URL-list entry was received. */
  lemma EveryJobReceived(urls: seq<string>, responses: seq<Response>, merged: seq<Task>)
    requires |responses| == |urls|
    requires multiset(merged) == multiset(Work(urls, responses))
    ensures |merged| == |urls|
    ensures forall i :: 0 <= i < |urls| ==> urls[i] in UrlSet(merged)
  {
    var w := Work(urls, responses);
    assert |merged| == |urls| by {
      assert |multiset(merged)| == |multiset(w)|;
    }
    forall i | 0 <= i < |urls| ensures urls[i] in UrlSet(merged) {
      assert w[i] in multiset(w);
      assert w[i] in merged;
    }
  }
}
