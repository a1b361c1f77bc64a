/** The two dispatch strategies seen from outside: they run the same
    executions, and a run that is not cancelled prints the same lines. */
module Strategies {
  import opened Executor
  import opened Outcomes
  import WorkerPool
  import FanIn

  /** The pool's workers and the fan-in sources execute every URL-list
      entry once, with the same outcome. */
  lemma SameExecutions(urls: seq<string>, responses: seq<Response>)
    requires |responses| == |urls|
    ensures WorkerPool.Work(urls, responses) == Executed(urls, responses)
    ensures FanIn.Flatten(FanIn.Sources(urls, responses)) == Executed(urls, responses)
  {
    FanIn.FlattenSources(urls, responses);
  }

  /** Without cancellation and with distinct URLs, the worker pool (printing
      in arrival order) and fan-in (printing in input order) print the same
      lines, whatever order each stream delivers its tasks in. */
  lemma SameLinesWithoutCancel(urls: seq<string>, responses: seq<Response>,
                               poolStream: seq<Task>, rest: seq<Event>, fanInStream: seq<Task>)
    requires |responses| == |urls|
    requires NoDuplicates(urls)
    requires multiset(poolStream) == multiset(WorkerPool.Work(urls, responses))
    requires FanIn.IsFanIn(FanIn.Sources(urls, responses), fanInStream)
    ensures HasStop(Deliver(poolStream) + [Close] + rest)
    ensures HasStop(FanIn.FanInStream(fanInStream))
    ensures multiset(WorkerPool.PoolOutput(Deliver(poolStream) + [Close] + rest, urls))
         == multiset(FanIn.FanInOutput(FanIn.FanInStream(fanInStream), urls))
  {
    FanIn.FanInCarriesEverySource(urls, responses, fanInStream);
    SameLines(urls, responses, poolStream, rest, fanInStream);
  }

  lemma SameLines(urls: seq<string>, responses: seq<Response>,
                  poolStream: seq<Task>, rest: seq<Event>, fanInStream: seq<Task>)
    requires |responses| == |urls|
    requires NoDuplicates(urls)
    requires multiset(poolStream) == multiset(WorkerPool.Work(urls, responses))
    requires multiset(fanInStream) == multiset(Executed(urls, responses))
    ensures HasStop(Deliver(poolStream) + [Close] + rest)
    ensures HasStop(FanIn.FanInStream(fanInStream))
    ensures multiset(WorkerPool.PoolOutput(Deliver(poolStream) + [Close] + rest, urls))
         == multiset(FanIn.FanInOutput(FanIn.FanInStream(fanInStream), urls))
  {
    var executed := Executed(urls, responses);
    SameExecutions(urls, responses);
    WorkerPool.PoolCompleteRun(urls, responses, poolStream, rest);
    FanIn.FanInCompleteOutput(fanInStream, urls);
    FanInLinesAreExecuted(urls, responses, fanInStream);
    WorkerPool.ResultLinesReordered(poolStream, executed);
  }

  lemma FanInLinesAreExecuted(urls: seq<string>, responses: seq<Response>, merged: seq<Task>)
    requires |responses| == |urls|
    requires NoDuplicates(urls)
    requires multiset(merged) == multiset(Executed(urls, responses))
    ensures FanIn.Report(urls, FanIn.Record(merged)) == WorkerPool.ResultLines(Executed(urls, responses))
  {
    FanIn.CompleteReport(urls, responses, merged);
  }
}
