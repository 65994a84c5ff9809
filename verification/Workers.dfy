/** The thread table of worker.c: one row of n threads for each handler, created and joined by
    nested loops over one flat array. */
module Workers {
  import opened StatusWord
  import opened Protocol

  // handlers[], in the order of the pipeline.
  const HANDLERS: seq<Stage> := [Parse, Load, Build, Send]

  lemma HandlerAt(i: nat, j: nat, n: nat)
    requires i < 4 && j < n
    ensures 0 <= i * n + j < 4 * n && Handler(i * n + j, n) == HANDLERS[i]
  {
    if i == 0 {
    } else if i == 1 {
    } else if i == 2 {
    } else {
      assert i == 3;
    }
  }

  // The threads that run the handler of a stage.
  function PoolOf(threads: seq<Worker>, stage: Stage): set<nat> {
    set t | 0 <= t < |threads| && threads[t].stage == stage
  }

  function Range(from: nat, n: nat): (r: set<nat>)
    ensures forall t: nat :: t in r <==> from <= t < from + n
  {
    if n == 0 then {} else Range(from, n - 1) + {from + n - 1}
  }

  lemma {:induction false} RangeSize(from: nat, n: nat)
    ensures |Range(from, n)| == n
  {
    if n > 0 {
      RangeSize(from, n - 1);
    }
  }

  // Every stage has a pool, and all pools are of the same size.
  lemma PoolSize(n: nat, stage: Stage)
    ensures |PoolOf(InitWorkers(n), stage)| == n
  {
    var from := match stage case Parse => 0 case Load => n case Build => 2 * n case Send => 3 * n;
    assert PoolOf(InitWorkers(n), stage) == Range(from, n);
    RangeSize(from, n);
  }

  // init_workers: thread i * n + j runs handler i. No index comes twice in a row, as is asserted.
  method CreateWorkers(n: nat) returns (threads: array<Worker>)
    requires n > 0
    ensures fresh(threads) && threads[..] == InitWorkers(n)
    ensures forall stage: Stage :: |PoolOf(threads[..], stage)| == n
  {
    threads := new Worker[4 * n](_ => Worker(Parse, Looping));
    var previous := -1;
    var i: nat := 0;
    while i < 4
      invariant i <= 4 && previous == i * n - 1
      invariant forall t :: 0 <= t < i * n <= 4 * n ==> threads[t] == Worker(Handler(t, n), Looping)
    {
      var j: nat := 0;
      while j < n
        invariant j <= n && previous == i * n + j - 1
        invariant i * n + j <= 4 * n
        invariant forall t :: 0 <= t < i * n + j ==> threads[t] == Worker(Handler(t, n), Looping)
      {
        var index := i * n + j;
        HandlerAt(i, j, n);
        assert index != previous;
        threads[index] := Worker(HANDLERS[i], Looping);
        previous := index;
        j := j + 1;
      }
      i := i + 1;
    }
    assert threads[..] == InitWorkers(n);
    forall stage: Stage ensures |PoolOf(threads[..], stage)| == n {
      PoolSize(n, stage);
    }
  }

  // close_workers, after the broadcast: every thread is joined once.
  method JoinWorkers(n: nat) returns (joined: seq<nat>)
    requires n > 0
    ensures joined == seq(4 * n, t => t)
  {
    joined := [];
    for i := 0 to 4
      invariant joined == seq(i * n, t => t)
    {
      for j := 0 to n
        invariant joined == seq(i * n + j, t => t)
      {
        joined := joined + [i * n + j];
      }
    }
  }
}
