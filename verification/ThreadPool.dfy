/** The worker pool: a locked task queue, a stop flag and a fixed number of workers, whose locked
    sections may interleave in any order. Tasks are named by their submission number. */
module ThreadPool {

  /** Tasks below `taken` have left the queue; the rest, up to `submitted`, are queued in order. */
  datatype Pool = Pool(workers: nat, submitted: nat, taken: nat, running: map<nat, nat>, finished: set<nat>,
                       stop: bool, lateSubmit: bool, exited: set<nat>)

  datatype Event = Submit | Take(worker: nat) | Finish(worker: nat) | Stop | Exit(worker: nat)

  /** At the top of its loop: neither running a task nor gone. */
  predicate AtWait(p: Pool, w: nat) { w < p.workers && w !in p.running && w !in p.exited }

  predicate Enabled(p: Pool, ev: Event) {
    match ev
    case Submit => true
    case Take(w) => AtWait(p, w) && p.taken < p.submitted
    case Finish(w) => w in p.running
    case Stop => !p.stop
    case Exit(w) => AtWait(p, w) && p.stop && p.taken == p.submitted
  }

  function Apply(p: Pool, ev: Event): Pool
    requires Enabled(p, ev)
  {
    match ev
    case Submit => p.(submitted := p.submitted + 1, lateSubmit := p.lateSubmit || p.stop)
    case Take(w) => p.(taken := p.taken + 1, running := p.running[w := p.taken])
    case Finish(w) => p.(finished := p.finished + {p.running[w]}, running := p.running - {w})
    case Stop => p.(stop := true)
    case Exit(w) => p.(exited := p.exited + {w})
  }

  function NewPool(workers: nat): Pool { Pool(workers, 0, 0, map[], {}, false, false, {}) }

  ghost predicate IsRun(p: Pool, evs: seq<Event>)
    decreases |evs|
  {
    evs != [] ==> Enabled(p, evs[0]) && IsRun(Apply(p, evs[0]), evs[1..])
  }

  ghost function After(p: Pool, evs: seq<Event>): Pool
    requires IsRun(p, evs)
    decreases |evs|
  {
    if evs == [] then p else After(Apply(p, evs[0]), evs[1..])
  }

  /** A task is with a worker. */
  predicate Held(p: Pool, t: nat) { exists w :: w in p.running && p.running[w] == t }

  /** Every task that left the queue is finished or in the hands of exactly one worker, never both; no
      worker is gone while a task is queued, unless it was submitted after the shutdown began. */
  ghost predicate Inv(p: Pool) {
    && p.taken <= p.submitted
    && (forall w :: w in p.running ==> w < p.workers && w !in p.exited)
    && (forall v, w :: v in p.running && w in p.running && p.running[v] == p.running[w] ==> v == w)
    && (forall t :: t in p.finished ==> t < p.taken && !Held(p, t))
    && (forall t: nat :: Held(p, t) ==> t < p.taken)
    && (forall t :: 0 <= t < p.taken ==> t in p.finished || Held(p, t))
    && (p.exited != {} ==> p.stop && (p.taken == p.submitted || p.lateSubmit))
  }

  lemma TakeKeepsInv(p: Pool, w: nat)
    requires Inv(p) && Enabled(p, Take(w))
    ensures Inv(Apply(p, Take(w)))
  {
    var q := Apply(p, Take(w));
    assert q.running[w] == p.taken;
    forall t: nat ensures Held(q, t) <==> Held(p, t) || t == p.taken {
      if Held(p, t) {
        var v :| v in p.running && p.running[v] == t;
        assert v in q.running && q.running[v] == t;
      }
    }
    assert !Held(p, p.taken);
    forall u, v | u in q.running && v in q.running && q.running[u] == q.running[v] ensures u == v {
      if u != w { assert Held(p, q.running[u]); }
      if v != w { assert Held(p, q.running[v]); }
    }
  }

  lemma FinishKeepsInv(p: Pool, w: nat)
    requires Inv(p) && Enabled(p, Finish(w))
    ensures Inv(Apply(p, Finish(w)))
  {
    var q := Apply(p, Finish(w));
    var done := p.running[w];
    assert Held(p, done);
    forall t: nat ensures Held(q, t) <==> Held(p, t) && t != done {
      if Held(p, t) && t != done {
        var v :| v in p.running && p.running[v] == t;
        assert v in q.running && q.running[v] == t;
      }
      if Held(q, t) {
        var v :| v in q.running && q.running[v] == t;
        assert v in p.running && p.running[v] == t;
      }
    }
  }

  lemma InvStep(p: Pool, ev: Event)
    requires Inv(p) && Enabled(p, ev)
    ensures Inv(Apply(p, ev))
  {
    match ev
    case Take(w) => TakeKeepsInv(p, w);
    case Finish(w) => FinishKeepsInv(p, w);
    case _ => assert forall t: nat :: Held(Apply(p, ev), t) <==> Held(p, t);
  }

  lemma {:induction false} InvAlways(p: Pool, evs: seq<Event>)
    requires Inv(p) && IsRun(p, evs)
    ensures Inv(After(p, evs)) && After(p, evs).workers == p.workers
    decreases |evs|
  {
    if evs != [] {
      InvStep(p, evs[0]);
      InvAlways(Apply(p, evs[0]), evs[1..]);
    }
  }

  /** The destructor has joined every worker. */
  predicate Joined(p: Pool) { forall w :: 0 <= w < p.workers ==> w in p.exited }

  /** When the destructor returns, with at least one worker and nothing submitted after it began, every
      submitted task has run, once, and none is still running. */
  lemma JoinedMeansAllDone(workers: nat, evs: seq<Event>)
    requires workers > 0 && IsRun(NewPool(workers), evs)
    requires Joined(After(NewPool(workers), evs)) && !After(NewPool(workers), evs).lateSubmit
    ensures var p := After(NewPool(workers), evs);
            p.running == map[] && forall t :: t in p.finished <==> 0 <= t < p.submitted
  {
    InvAlways(NewPool(workers), evs);
    var p := After(NewPool(workers), evs);
    assert 0 in p.exited;
    assert forall w :: w in p.running ==> w in p.exited;
  }

  /** The shutdown cannot get stuck: until every worker is gone some worker can move, and every worker
      step uses up part of a finite amount of work. */
  function WorkLeft(p: Pool): int
    requires p.taken <= p.submitted
  {
    2 * (p.submitted - p.taken) + |p.running| + (p.workers - |p.exited|)
  }

  lemma ShutdownMakesProgress(p: Pool)
    requires Inv(p) && p.stop && !Joined(p)
    ensures exists ev: Event :: (ev.Take? || ev.Finish? || ev.Exit?) && Enabled(p, ev)
  {
    var w :| 0 <= w < p.workers && w !in p.exited;
    if w in p.running {
      assert Enabled(p, Finish(w));
    } else if p.taken < p.submitted {
      assert Enabled(p, Take(w));
    } else {
      assert Enabled(p, Exit(w));
    }
  }

  lemma WorkerStepsUseUpWork(p: Pool, ev: Event)
    requires p.taken <= p.submitted && Enabled(p, ev) && (ev.Take? || ev.Finish? || ev.Exit?)
    ensures Apply(p, ev).taken <= Apply(p, ev).submitted
    ensures WorkLeft(Apply(p, ev)) < WorkLeft(p)
  {
    if ev.Take? {
      assert Apply(p, ev).running.Keys == p.running.Keys + {ev.worker};
    } else if ev.Finish? {
      assert Apply(p, ev).running.Keys == p.running.Keys - {ev.worker};
    }
  }

  // ---------------------------------------------------------------- counting

  function Submits(evs: seq<Event>): nat {
    if evs == [] then 0 else (if evs[0] == Submit then 1 else 0) + Submits(evs[1..])
  }

  /** Conservation: at every moment the tasks submitted so far are the queued, the running and the finished
      ones, each counted once. */
  lemma {:induction false} TasksAreConserved(p: Pool, evs: seq<Event>)
    requires Inv(p) && IsRun(p, evs)
    ensures var q := After(p, evs);
            (q.submitted - q.taken) + |q.running| + |q.finished|
            == (p.submitted - p.taken) + |p.running| + |p.finished| + Submits(evs)
    decreases |evs|
  {
    if evs != [] {
      CountStep(p, evs[0]);
      InvStep(p, evs[0]);
      TasksAreConserved(Apply(p, evs[0]), evs[1..]);
    }
  }

  lemma CountStep(p: Pool, ev: Event)
    requires Inv(p) && Enabled(p, ev)
    ensures var q := Apply(p, ev);
            (q.submitted - q.taken) + |q.running| + |q.finished|
            == (p.submitted - p.taken) + |p.running| + |p.finished| + (if ev == Submit then 1 else 0)
  {
    if ev.Finish? {
      var w := ev.worker;
      assert Held(p, p.running[w]);
      var rest := p.running - {w};
      assert p.running == rest[w := p.running[w]];
    }
  }
}
