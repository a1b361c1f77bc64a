/** Small concrete runs of both programs. */
module Scenarios {
  import opened Executor
  import opened Outcomes
  import WorkerPool
  import FanIn

  /** A body without a final '\n' gets one more line; an empty body has none. */
  lemma LineCountExamples()
    ensures LineCount([]) == 0
    ensures LineCount([97, NewLine, 98]) == 2
    ensures LineCount([97, NewLine, 98, NewLine]) == 2
    ensures LineCount([NewLine, NewLine]) == 2
  {
  }

  /** A 404 is reported as 404 and a timed-out request as 500. */
  lemma StatusExamples()
    ensures ProcessURL(Reply(404, Body([97, NewLine]))) == 404
    ensures ProcessURL(TransportFailure) == 500
    ensures ProcessURL(Reply(StatusOK, Body([97, NewLine, 98]))) == 2
  {
  }

  /** Fan-in: cancellation after "a" arrived, before "b" and "c" did;
      "stopped" comes first, then the report in input order. */
  lemma CancelAfterFirstFanIn()
    ensures HasStop([Outcome(Task("a", 3)), Cancel])
    ensures FanIn.FanInOutput([Outcome(Task("a", 3)), Cancel], ["a", "b", "c"])
         == [Stopped, ResultLine("a", 3), CancelLine("b"), CancelLine("c")]
  {
    ArrivalsThenStop([Task("a", 3)], Cancel, []);
    assert Deliver([Task("a", 3)]) + [Cancel] + [] == [Outcome(Task("a", 3)), Cancel];
    var urls: seq<string> := ["a", "b", "c"];
    assert urls[..2] == ["a", "b"] && urls[..2][..1] == ["a"] && urls[..2][..1][..0] == [];
  }

  /** Worker pool: the same cancellation prints the result that arrived,
      then "stopped", then the cancel pass. */
  lemma CancelAfterFirstPool()
    ensures HasStop([Outcome(Task("a", 3)), Cancel])
    ensures WorkerPool.PoolOutput([Outcome(Task("a", 3)), Cancel], ["a", "b", "c"])
         == [ResultLine("a", 3), Stopped, CancelLine("b"), CancelLine("c")]
  {
    var events := [Outcome(Task("a", 3)), Cancel];
    ArrivalsThenStop([Task("a", 3)], Cancel, []);
    assert Deliver([Task("a", 3)]) + [Cancel] + [] == events;
    assert UrlSet([Task("a", 3)]) == {"a"};
    var c1 := WorkerPool.CancelLines(["a"], {"a"});
    assert c1 == [] by {
      assert ["a"][..0] == [];
    }
    var c2 := WorkerPool.CancelLines(["a", "b"], {"a"});
    assert c2 == [CancelLine("b")] by {
      assert ["a", "b"][..1] == ["a"];
    }
    assert WorkerPool.CancelLines(["a", "b", "c"], {"a"}) == [CancelLine("b"), CancelLine("c")] by {
      assert ["a", "b", "c"][..2] == ["a", "b"];
    }
    assert WorkerPool.ResultLines([Task("a", 3)]) == [ResultLine("a", 3)];
  }
}
