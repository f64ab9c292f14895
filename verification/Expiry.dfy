/** Key expiry: a priority queue that may hold stale entries next to the authoritative map of
    deadlines, and one sweeper thread. Each mutex-protected section is one step; any thread's
    steps may come between any two steps of the sweeper. */
module Expiry {
  import opened Text

  type Time = int  // nanoseconds of the steady clock

  datatype HeapEntry = HeapEntry(when: Time, key: string)

  type Heap = multiset<HeapEntry>

  /** An entry the priority queue may report as its top: none is earlier. Ties are arbitrary. */
  ghost predicate IsTop(heap: Heap, e: HeapEntry) {
    e in heap && forall f :: f in heap ==> e.when <= f.when
  }

  lemma {:induction false} TopExists(heap: Heap)
    requires heap != multiset{}
    ensures exists e :: IsTop(heap, e)
    decreases |heap|
  {
    var e :| e in heap;
    var rest := heap - multiset{e};
    assert heap == rest + multiset{e};
    if rest == multiset{} {
      assert IsTop(heap, e);
    } else {
      TopExists(rest);
      var t :| IsTop(rest, t);
      if t.when <= e.when { assert IsTop(heap, t); } else { assert IsTop(heap, e); }
    }
  }

  // ---------------------------------------------------------------- the machine

  /** Idle: holds the lock at the loop head. Waiting: asleep until the deadline it read off the top.
      Firing: has erased the key's deadline and released the lock, the callback still to run. */
  datatype Sweeper = Idle | Waiting(deadline: Time) | Firing(key: string)

  /** `notified`: a schedule has signalled the sweeper since it last went to sleep. */
  datatype State = State(heap: Heap, live: map<string, Time>, now: Time, sweeper: Sweeper, notified: bool)

  datatype Event =
    | Tick(time: Time)
    | Schedule(key: string, when: Time)
    | Cancel(key: string)
    | BeginWait(top: HeapEntry)
    | WakeEarly
    | Timeout(top: HeapEntry)
    | CallbackDone

  ghost predicate Enabled(s: State, ev: Event) {
    match ev
    case Tick(t) => s.now <= t
    case Schedule(_, _) => true
    case Cancel(_) => true
    case BeginWait(top) => s.sweeper == Idle && IsTop(s.heap, top)
    case WakeEarly => s.sweeper.Waiting?
    case Timeout(top) => s.sweeper.Waiting? && s.sweeper.deadline <= s.now && IsTop(s.heap, top)
    case CallbackDone => s.sweeper.Firing?
  }

  /** The popped entry is the key's current deadline, not one superseded or cancelled since. */
  predicate IsLive(live: map<string, Time>, e: HeapEntry) {
    e.key in live && live[e.key] == e.when
  }

  function Apply(s: State, ev: Event): State {
    match ev
    case Tick(t) => s.(now := t)
    case Schedule(k, when) =>
      s.(live := s.live[k := when], heap := s.heap + multiset{HeapEntry(when, k)}, notified := true)
    case Cancel(k) => s.(live := s.live - {k})
    case BeginWait(top) => s.(sweeper := Waiting(top.when), notified := false)
    case WakeEarly => s.(sweeper := Idle)
    case Timeout(top) =>
      var popped := s.(heap := s.heap - multiset{top});
      if IsLive(s.live, top) then popped.(live := s.live - {top.key}, sweeper := Firing(top.key))
      else popped.(sweeper := Idle)
    case CallbackDone => s.(sweeper := Idle)
  }

  ghost predicate IsRun(s: State, evs: seq<Event>)
    decreases |evs|
  {
    evs == [] || (Enabled(s, evs[0]) && IsRun(Apply(s, evs[0]), evs[1..]))
  }

  function After(s: State, evs: seq<Event>): State
    decreases |evs|
  {
    if evs == [] then s else After(Apply(s, evs[0]), evs[1..])
  }

  /** Every live deadline has its own heap entry. A waiting sweeper's deadline is no earlier than the
      top, so waking up at it is never too early for whatever is then popped; and unless it has been
      notified it is no later than any entry, so it is never too late either. */
  ghost predicate Inv(s: State) {
    && (forall k :: k in s.live ==> HeapEntry(s.live[k], k) in s.heap)
    && (s.sweeper.Waiting? ==> exists e :: e in s.heap && e.when <= s.sweeper.deadline)
    && (s.sweeper.Waiting? && !s.notified ==> forall e :: e in s.heap ==> s.sweeper.deadline <= e.when)
  }

  lemma InvStep(s: State, ev: Event)
    requires Inv(s) && Enabled(s, ev)
    ensures Inv(Apply(s, ev))
  {
    var t := Apply(s, ev);
    forall k | k in t.live ensures HeapEntry(t.live[k], k) in t.heap {
      if k in s.live { assert HeapEntry(s.live[k], k) in s.heap; }
    }
    if t.sweeper.Waiting? {
      if s.sweeper.Waiting? {
        var e :| e in s.heap && e.when <= s.sweeper.deadline;
        assert e in t.heap;
      } else {
        assert ev.top in t.heap;
      }
    }
  }

  lemma {:induction false} InvAlways(s: State, evs: seq<Event>)
    requires Inv(s) && IsRun(s, evs)
    ensures Inv(After(s, evs))
    decreases |evs|
  {
    if evs != [] {
      InvStep(s, evs[0]);
      InvAlways(Apply(s, evs[0]), evs[1..]);
    }
  }

  const START: State := State(multiset{}, map[], 0, Idle, false)

  // ---------------------------------------------------------------- refinement of a deadline map

  /** The specification: a map of deadlines in which a key may expire once its deadline has come. */
  ghost predicate SpecStep(live: map<string, Time>, now: Time, ev: Event, live': map<string, Time>,
                           fired: Option<string>)
  {
    match ev
    case Schedule(k, when) => live' == live[k := when] && fired == None
    case Cancel(k) => live' == live - {k} && fired == None
    case Timeout(_) =>
      (match fired
       case None => live' == live
       case Some(k) => k in live && live[k] <= now && live' == live - {k})
    case _ => live' == live && fired == None
  }

  function FiredBy(s: State, ev: Event): Option<string> {
    if ev.Timeout? && IsLive(s.live, ev.top) then Some(ev.top.key) else None
  }

  /** A sweeper that times out finds a queue that is not empty, and pops an entry that is due even
      if it is not the one it waited for. */
  lemma TimeoutIsDue(s: State, top: HeapEntry)
    requires Inv(s) && Enabled(s, Timeout(top))
    ensures s.heap != multiset{} && top.when <= s.now
  {
    var e :| e in s.heap && e.when <= s.sweeper.deadline;
  }

  /** Every step of every run is a step of the deadline map: nothing fires early, nothing that was
      superseded or cancelled fires, and a fire removes the deadline. */
  lemma LazyHeapRefinesDeadlineMap(evs: seq<Event>, ev: Event)
    requires IsRun(START, evs) && Enabled(After(START, evs), ev)
    ensures var s := After(START, evs);
            SpecStep(s.live, s.now, ev, Apply(s, ev).live, FiredBy(s, ev))
  {
    InvAlways(START, evs);
    if ev.Timeout? { TimeoutIsDue(After(START, evs), ev.top); }
  }

  /** No live deadline is slept through. In every run a sleeping sweeper either has been notified, and
      will look at the queue again, or sleeps until no later than the earliest live deadline; and
      whenever a live deadline has come, the top it looks at has come as well. */
  lemma NothingDueIsMissed(evs: seq<Event>, k: string)
    requires IsRun(START, evs) && k in After(START, evs).live
    ensures var s := After(START, evs);
            && (s.sweeper.Waiting? && !s.notified ==> s.sweeper.deadline <= s.live[k])
            && (s.live[k] <= s.now ==> exists top :: IsTop(s.heap, top) && top.when <= s.now)
  {
    var s := After(START, evs);
    InvAlways(START, evs);
    assert HeapEntry(s.live[k], k) in s.heap;
    TopExists(s.heap);
    var top :| IsTop(s.heap, top);
    assert top.when <= HeapEntry(s.live[k], k).when;
  }

  function Fires(s: State, evs: seq<Event>, k: string): nat
    decreases |evs|
  {
    if evs == [] then 0
    else (if FiredBy(s, evs[0]) == Some(k) then 1 else 0) + Fires(Apply(s, evs[0]), evs[1..], k)
  }

  function Schedules(evs: seq<Event>, k: string): nat {
    if evs == [] then 0
    else (if evs[0].Schedule? && evs[0].key == k then 1 else 0) + Schedules(evs[1..], k)
  }

  /** Each schedule fires at most once: from any state, a key fires no more often than it is
      scheduled, counting the deadline it starts with. */
  lemma {:induction false} FiresAtMostOncePerSchedule(s: State, evs: seq<Event>, k: string)
    ensures Fires(s, evs, k) + (if k in After(s, evs).live then 1 else 0)
            <= Schedules(evs, k) + (if k in s.live then 1 else 0)
    decreases |evs|
  {
    if evs != [] { FiresAtMostOncePerSchedule(Apply(s, evs[0]), evs[1..], k); }
  }

  // ---------------------------------------------------------------- every due deadline is reached

  function Timeouts(evs: seq<Event>): nat {
    if evs == [] then 0 else (if evs[0].Timeout? then 1 else 0) + Timeouts(evs[1..])
  }

  function AllSchedules(evs: seq<Event>): nat {
    if evs == [] then 0 else (if evs[0].Schedule? then 1 else 0) + AllSchedules(evs[1..])
  }

  /** Entries are conserved: each schedule puts one into the queue and each timeout takes one out, whether it
      is live or stale. */
  lemma {:induction false} EntriesAreConserved(s: State, evs: seq<Event>)
    requires IsRun(s, evs)
    ensures |After(s, evs).heap| + Timeouts(evs) == |s.heap| + AllSchedules(evs)
    decreases |evs|
  {
    if evs != [] { EntriesAreConserved(Apply(s, evs[0]), evs[1..]); }
  }

  /** The events leave the key's deadline to the sweeper. */
  predicate LeftAlone(evs: seq<Event>, k: string) {
    forall i :: 0 <= i < |evs| ==> !((evs[i].Schedule? || evs[i].Cancel?) && evs[i].key == k)
  }

  /** A deadline that is left alone is either live or has fired, once. */
  lemma {:induction false} LiveOrFired(s: State, evs: seq<Event>, k: string)
    requires LeftAlone(evs, k)
    ensures Fires(s, evs, k) + (if k in After(s, evs).live then 1 else 0) == if k in s.live then 1 else 0
    decreases |evs|
  {
    if evs != [] {
      assert LeftAlone(evs[1..], k);
      assert !((evs[0].Schedule? || evs[0].Cancel?) && evs[0].key == k);
      LiveOrFired(Apply(s, evs[0]), evs[1..], k);
    }
  }

  /** No stale entry holds up a live one. In every run from a reachable state, a live deadline that is left
      alone has fired, exactly once, when the sweeper has timed out as often as there were entries in the
      queue and have been scheduled since. */
  lemma LiveDeadlineFires(before: seq<Event>, evs: seq<Event>, k: string)
    requires IsRun(START, before) && IsRun(After(START, before), evs)
    requires k in After(START, before).live && LeftAlone(evs, k)
    requires Timeouts(evs) >= |After(START, before).heap| + AllSchedules(evs)
    ensures Fires(After(START, before), evs, k) == 1
  {
    var s := After(START, before);
    InvAlways(START, before);
    InvAlways(s, evs);
    EntriesAreConserved(s, evs);
    LiveOrFired(s, evs, k);
    assert After(s, evs).heap == multiset{};
  }

  /** And the sweeper can always go on: it starts to wait when the queue is not empty, it times out when the
      deadline it waits for has come, it can be woken and then waits for the top, and it returns from the
      callback. */
  lemma SweeperCanGoOn(evs: seq<Event>)
    requires IsRun(START, evs)
    ensures var s := After(START, evs);
            match s.sweeper
            case Idle => s.heap != multiset{} ==> exists top :: Enabled(s, BeginWait(top))
            case Waiting(deadline) =>
              && (deadline <= s.now ==> exists top :: Enabled(s, Timeout(top)))
              && Enabled(s, WakeEarly)
              && exists top :: IsTop(s.heap, top) && Enabled(Apply(s, WakeEarly), BeginWait(top))
                               && Apply(Apply(s, WakeEarly), BeginWait(top)).sweeper == Waiting(top.when)
            case Firing(_) => Enabled(s, CallbackDone)
  {
    var s := After(START, evs);
    InvAlways(START, evs);
    if s.heap != multiset{} {
      TopExists(s.heap);
      var top :| IsTop(s.heap, top);
      assert s.sweeper.Idle? ==> Enabled(s, BeginWait(top));
      assert s.sweeper.Waiting? && s.sweeper.deadline <= s.now ==> Enabled(s, Timeout(top));
      assert s.sweeper.Waiting? ==> Enabled(Apply(s, WakeEarly), BeginWait(top));
    }
  }

  // ---------------------------------------------------------------- the manager object

  class ExpiryManager {
    var heap: Heap
    var currentExpiry: map<string, Time>

    constructor ()
      ensures heap == multiset{} && currentExpiry == map[]
    {
      heap, currentExpiry := multiset{}, map[];
    }

    /** The part of the machine state this object holds. */
    ghost function Machine(now: Time, sweeper: Sweeper, notified: bool): State
      reads this
    {
      State(heap, currentExpiry, now, sweeper, notified)
    }

    method Schedule(key: string, when: Time)
      modifies this
      ensures currentExpiry == old(currentExpiry)[key := when]
      ensures forall now, sw, n :: Machine(now, sw, true) == Apply(old(Machine(now, sw, n)), Event.Schedule(key, when))
    {
      currentExpiry := currentExpiry[key := when];
      heap := heap + multiset{HeapEntry(when, key)};
    }

    method Cancel(key: string)
      modifies this
      ensures currentExpiry == old(currentExpiry) - {key}
      ensures forall now, sw, n :: Machine(now, sw, n) == Apply(old(Machine(now, sw, n)), Event.Cancel(key))
    {
      currentExpiry := currentExpiry - {key};
    }

    /** The one deadline at which a popped entry of this key would fire. */
    method ExpiryOf(key: string) returns (when: Option<Time>)
      ensures when.None? <==> key !in currentExpiry
      ensures forall t :: when == Some(t) <==> IsLive(currentExpiry, HeapEntry(t, key))
    {
      if key !in currentExpiry {
        return None;
      }
      return Some(currentExpiry[key]);
    }

    /** The body of the sweep loop after a timed-out wait: pop the top and, when it is live, erase
        the deadline and hand the key to the callback. An empty queue is left alone. */
    method SweepTimeout(now: Time) returns (fired: Option<string>, ghost top: Option<HeapEntry>)
      modifies this
      ensures top.Some? <==> old(heap) != multiset{}
      ensures top.None? ==> fired == None && heap == old(heap) && currentExpiry == old(currentExpiry)
      ensures top.Some? ==> IsTop(old(heap), top.value)
      ensures top.Some? ==>
                forall sw, n :: var s := old(Machine(now, sw, n)); var t := Apply(s, Timeout(top.value));
                                heap == t.heap && currentExpiry == t.live && fired == FiredBy(s, Timeout(top.value))
    {
      if heap == multiset{} {
        return None, None;
      }
      TopExists(heap);
      var entry :| entry in heap && forall f :: f in heap ==> entry.when <= f.when;
      top := Some(entry);
      heap := heap - multiset{entry};
      if entry.key in currentExpiry && currentExpiry[entry.key] == entry.when {
        currentExpiry := currentExpiry - {entry.key};
        fired := Some(entry.key);
      } else {
        fired := None;
      }
    }
  }
}
