/** The store together with the sweeper. The sweeper erases a deadline that has come, releases the
    timer's lock, and only then calls back to delete the key: requests may come in between. Each
    request is one step and so is each locked section of the sweeper. */
module ExpiringStore {
  import opened Text
  import opened Numbers
  import opened Protocol
  import opened Lru
  import opened Executor
  import opened Contents
  import opened TtlTable
  import Expiry

  /** The live deadlines are the timer's. */
  datatype Node = Node(entries: Entries, capacity: nat, timer: Expiry.State)

  function Data(s: Node): Db { Db(s.entries, s.capacity, s.timer.live) }

  const START: Node := Node([], 0, Expiry.START)

  datatype Event = Client(cmd: Command) | Sweeper(step: Expiry.Event)

  /** What a command asks of the timer. */
  function TimerCall(db: Db, cmd: Command, now: Expiry.Time): Option<Expiry.Event> {
    var n := |cmd.args|;
    match cmd.kind
    case SET =>
      if n == 2 then Some(Expiry.Cancel(cmd.args[0]))
      else if n == 4 && EqualsIgnoreCase(cmd.args[2], "EX") && PositiveSeconds(cmd.args[3]).Some?
      then Some(Expiry.Schedule(cmd.args[0], Deadline(now, PositiveSeconds(cmd.args[3]).value)))
      else None
    case DEL => if n == 1 then Some(Expiry.Cancel(cmd.args[0])) else None
    case EXPIRE =>
      if n == 2 && Has(db.entries, cmd.args[0]) && PositiveSeconds(cmd.args[1]).Some?
      then Some(Expiry.Schedule(cmd.args[0], Deadline(now, PositiveSeconds(cmd.args[1]).value)))
      else None
    case PERSIST => if n == 1 && Has(db.entries, cmd.args[0]) then Some(Expiry.Cancel(cmd.args[0])) else None
    case _ => None
  }

  function Timed(timer: Expiry.State, call: Option<Expiry.Event>): Expiry.State {
    match call case None => timer case Some(ev) => Expiry.Apply(timer, ev)
  }

  ghost predicate Enabled(s: Node, ev: Event) {
    match ev
    case Client(cmd) => WellFormed(cmd)
    case Sweeper(step) => !step.Schedule? && !step.Cancel? && Expiry.Enabled(s.timer, step)
  }

  function Apply(s: Node, ev: Event): Node {
    match ev
    case Client(cmd) =>
      var entries := Exec(Data(s), cmd, s.timer.now).db.entries;
      s.(entries := entries, timer := Timed(s.timer, TimerCall(Data(s), cmd, s.timer.now)))
    case Sweeper(step) =>
      var entries := if step.CallbackDone? && s.timer.sweeper.Firing?
                     then Remove(s.entries, s.timer.sweeper.key) else s.entries;
      s.(entries := entries, timer := Expiry.Apply(s.timer, step))
  }

  function After(s: Node, evs: seq<Event>): Node {
    if evs == [] then s else Apply(After(s, evs[..|evs| - 1]), evs[|evs| - 1])
  }

  ghost predicate IsRun(s: Node, evs: seq<Event>) {
    evs == [] || (IsRun(s, evs[..|evs| - 1]) && Enabled(After(s, evs[..|evs| - 1]), evs[|evs| - 1]))
  }

  // ---------------------------------------------------------------- both halves are the ones above

  lemma SetCallsTimer(s: Node, cmd: Command)
    requires cmd.kind == SET
    ensures Timed(s.timer, TimerCall(Data(s), cmd, s.timer.now)).live
            == ExecSet(Data(s), cmd, s.timer.now).db.deadlines
    ensures ExecSet(Data(s), cmd, s.timer.now).db.capacity == s.capacity
  {
  }

  lemma OthersCallTimer(s: Node, cmd: Command)
    requires TouchesData(cmd.kind) && cmd.kind != SET && |cmd.args| == Arity(cmd.kind)
    ensures Timed(s.timer, TimerCall(Data(s), cmd, s.timer.now)).live
            == ExecData(Data(s), cmd, s.timer.now).db.deadlines
    ensures ExecData(Data(s), cmd, s.timer.now).db.capacity == s.capacity
  {
  }

  /** The timer calls of a command are exactly what it does to the table of deadlines. */
  lemma RequestIsExec(s: Node, cmd: Command)
    ensures Data(Apply(s, Client(cmd))) == Exec(Data(s), cmd, s.timer.now).db
  {
    if cmd.kind == SET {
      SetCallsTimer(s, cmd);
    } else if TouchesData(cmd.kind) && |cmd.args| == Arity(cmd.kind) {
      OthersCallTimer(s, cmd);
    }
  }

  lemma TimerInvStep(s: Node, ev: Event)
    requires Expiry.Inv(s.timer) && Enabled(s, ev)
    ensures Expiry.Inv(Apply(s, ev).timer)
  {
    match ev
    case Sweeper(step) => Expiry.InvStep(s.timer, step);
    case Client(cmd) =>
      var call := TimerCall(Data(s), cmd, s.timer.now);
      if call.Some? { Expiry.InvStep(s.timer, call.value); }
  }

  /** In every run the deadlines keep their heap entries and the sweeper is never early or late. */
  lemma {:induction false} TimerInvAlways(s: Node, evs: seq<Event>)
    requires Expiry.Inv(s.timer) && IsRun(s, evs)
    ensures Expiry.Inv(After(s, evs).timer)
  {
    if evs != [] {
      TimerInvAlways(s, evs[..|evs| - 1]);
      TimerInvStep(After(s, evs[..|evs| - 1]), evs[|evs| - 1]);
    }
  }

  /** In every run, what is handed to the callback had a live deadline, and that had come. */
  lemma PoppedKeyWasDue(evs: seq<Event>, top: Expiry.HeapEntry)
    requires IsRun(START, evs) && Enabled(After(START, evs), Sweeper(Expiry.Timeout(top)))
    requires var s := After(START, evs); Apply(s, Sweeper(Expiry.Timeout(top))).timer.sweeper == Expiry.Firing(top.key)
    ensures var s := After(START, evs);
            top.key in s.timer.live && s.timer.live[top.key] == top.when <= s.timer.now
  {
    TimerInvAlways(START, evs);
    Expiry.TimeoutIsDue(After(START, evs).timer, top);
  }

  // ---------------------------------------------------------------- between pop and callback

  function Commands(evs: seq<Event>): seq<Command> {
    if evs == [] then []
    else
      var last := evs[|evs| - 1];
      Commands(evs[..|evs| - 1]) + (if last.Client? then [last.cmd] else [])
  }

  predicate NoCallback(evs: seq<Event>) {
    forall i :: 0 <= i < |evs| ==> evs[i] != Sweeper(Expiry.CallbackDone)
  }

  lemma WindowStep(s: Node, ev: Event)
    requires s.timer.sweeper.Firing? && s.capacity == 0 && Enabled(s, ev) && ev != Sweeper(Expiry.CallbackDone)
    ensures Apply(s, ev).timer.sweeper == s.timer.sweeper && Apply(s, ev).capacity == 0
    ensures MapOf(Apply(s, ev).entries) == if ev.Client? then MapStep(MapOf(s.entries), ev.cmd) else MapOf(s.entries)
  {
    if ev.Client? { ExecIsMapStep(Data(s), ev.cmd, s.timer.now); }
  }

  lemma CommandsStep(m: Contents, evs: seq<Event>)
    requires evs != []
    ensures var init, last := Commands(evs[..|evs| - 1]), evs[|evs| - 1];
            ExecuteAll(m, Commands(evs))
            == if last.Client? then MapStep(ExecuteAll(m, init), last.cmd) else ExecuteAll(m, init)
  {
    var init, last := Commands(evs[..|evs| - 1]), evs[|evs| - 1];
    if last.Client? { assert (init + [last.cmd])[..|init|] == init; } else { assert init + [] == init; }
  }

  /** Until the callback the sweeper does nothing, and the contents are those the requests make. */
  lemma {:induction false} WindowIsRequests(s: Node, evs: seq<Event>)
    requires s.timer.sweeper.Firing? && s.capacity == 0 && IsRun(s, evs) && NoCallback(evs)
    ensures var t := After(s, evs);
            && t.timer.sweeper == s.timer.sweeper && t.capacity == 0
            && MapOf(t.entries) == ExecuteAll(MapOf(s.entries), Commands(evs))
  {
    if evs != [] {
      WindowIsRequests(s, evs[..|evs| - 1]);
      WindowStep(After(s, evs[..|evs| - 1]), evs[|evs| - 1]);
      CommandsStep(MapOf(s.entries), evs);
    }
  }

  /** Some request creates the key and no later one deletes it. */
  ghost predicate CreatedForGood(cmds: seq<Command>, k: string) {
    exists i :: 0 <= i < |cmds| && CreatedAt(cmds, k, i)
  }

  ghost predicate CreatedAt(cmds: seq<Command>, k: string, i: nat)
    requires i < |cmds|
  {
    Creates(cmds[i], k) && forall j :: i < j < |cmds| ==> !Drops(cmds[j], k)
  }

  lemma CreatedStep(init: seq<Command>, last: Command, k: string)
    ensures CreatedForGood(init + [last], k)
            <==> Creates(last, k) || (CreatedForGood(init, k) && !Drops(last, k))
  {
    var cmds := init + [last];
    if Creates(last, k) { assert CreatedAt(cmds, k, |init|); }
    if CreatedForGood(init, k) && !Drops(last, k) {
      var i :| 0 <= i < |init| && CreatedAt(init, k, i);
      assert CreatedAt(cmds, k, i);
    }
    if CreatedForGood(cmds, k) {
      var i :| 0 <= i < |cmds| && CreatedAt(cmds, k, i);
      if i < |init| {
        forall j | i < j < |init| ensures !Drops(init[j], k) { assert cmds[j] == init[j]; }
        assert CreatedAt(init, k, i);
        assert cmds[|init|] == last;
      }
    }
  }

  /** Which requests bring an absent key back can be read off the requests alone. */
  lemma {:induction false} PresentIffCreatedForGood(m: Contents, cmds: seq<Command>, k: string)
    requires k !in m
    ensures k in ExecuteAll(m, cmds) <==> CreatedForGood(cmds, k)
  {
    if cmds != [] {
      var init, last := cmds[..|cmds| - 1], cmds[|cmds| - 1];
      PresentIffCreatedForGood(m, init, k);
      PresenceStep(ExecuteAll(m, init), last, k);
      assert cmds == init + [last];
      CreatedStep(init, last, k);
    }
  }

  lemma CallbackDeletesKey(s: Node)
    requires s.timer.sweeper.Firing?
    ensures MapOf(Apply(s, Sweeper(Expiry.CallbackDone)).entries) == MapOf(s.entries) - {s.timer.sweeper.key}
  {
    MapRemove(s.entries, s.timer.sweeper.key);
  }

  /** Popping a deadline and calling back later amounts to expiring the key at the pop, as far as the
      contents go, if and only if no request in between creates the key for good. The state may be any
      state in which a live deadline is popped, with any requests until the callback. */
  lemma DelayedCallbackIsAtomicIff(s: Node, top: Expiry.HeapEntry, evs: seq<Event>)
    requires s.capacity == 0 && Expiry.IsLive(s.timer.live, top)
    requires Enabled(s, Sweeper(Expiry.Timeout(top)))
    requires IsRun(Apply(s, Sweeper(Expiry.Timeout(top))), evs) && NoCallback(evs)
    ensures var held := After(Apply(s, Sweeper(Expiry.Timeout(top))), evs);
            && Enabled(held, Sweeper(Expiry.CallbackDone))
            && (MapOf(Apply(held, Sweeper(Expiry.CallbackDone)).entries)
                == ExecuteAll(MapOf(s.entries) - {top.key}, Commands(evs))
                <==> !CreatedForGood(Commands(evs), top.key))
  {
    var k, cmds, m := top.key, Commands(evs), MapOf(s.entries);
    var held := After(Apply(s, Sweeper(Expiry.Timeout(top))), evs);
    WindowIsRequests(Apply(s, Sweeper(Expiry.Timeout(top))), evs);
    CallbackDeletesKey(held);
    PresentIffCreatedForGood(m - {k}, cmds, k);
    var late, atomic := ExecuteAll(m, cmds) - {k}, ExecuteAll(m - {k}, cmds);
    forall j | j != k ensures AgreeOn(late, atomic, j) { ExecuteAllIsLocal(m, m - {k}, cmds, j); }
    if k !in atomic { SameByKey(late, atomic); }
  }

  // ---------------------------------------------------------------- what is deleted

  /** A request that was accepted and may have stored a value under the key or removed it. */
  predicate WritesKey(s: Node, ev: Event, k: string) {
    && ev.Client? && Logged(Data(s), ev.cmd, s.timer.now)
    && ev.cmd.kind in {SET, DEL, INCR, DECR} && ev.cmd.args != [] && ev.cmd.args[0] == k
  }

  /** No event from the n-th on writes the key. */
  ghost predicate UnwrittenFrom(s: Node, evs: seq<Event>, n: nat, k: string) {
    forall j :: n <= j < |evs| ==> !WritesKey(After(s, evs[..j]), evs[j], k)
  }

  lemma OtherRequestKeepsValue(s: Node, cmd: Command, k: string)
    requires s.capacity == 0 && !WritesKey(s, Client(cmd), k)
    ensures AgreeOn(MapOf(s.entries), MapStep(MapOf(s.entries), cmd), k)
  {
    if !Logged(Data(s), cmd, s.timer.now) { UnloggedChangesNothing(Data(s), cmd, s.timer.now); }
  }

  /** What a pending callback is about to delete. If no write of a key is accepted from the n-th event after
      the pop on, its value is the one held when that event came: with n = 0 the value held at the pop, and
      with the n-th event following an accepted write, what that write left. */
  lemma {:induction false} PendingDeletionIsOfLastWrite(s: Node, evs: seq<Event>, n: nat, k: string)
    requires s.timer.sweeper.Firing? && s.capacity == 0 && IsRun(s, evs) && NoCallback(evs)
    requires n <= |evs| && UnwrittenFrom(s, evs, n, k)
    ensures AgreeOn(MapOf(After(s, evs[..n]).entries), MapOf(After(s, evs).entries), k)
  {
    if n == |evs| {
      assert evs[..n] == evs;
    } else {
      var m := |evs| - 1;
      var init := evs[..m];
      assert forall j :: 0 <= j <= m ==> init[..j] == evs[..j];
      PendingDeletionIsOfLastWrite(s, init, n, k);
      WindowIsRequests(s, init);
      WindowStep(After(s, init), evs[m]);
      if evs[m].Client? { OtherRequestKeepsValue(After(s, init), evs[m].cmd, k); }
    }
  }

  /** The callback leaves every key with a deadline stored, if and only if the key it deletes has not
      been given a new deadline in the meantime. */
  lemma CallbackKeepsConsistentIff(s: Node)
    requires Consistent(Data(s)) && s.timer.sweeper.Firing?
    ensures Consistent(Data(Apply(s, Sweeper(Expiry.CallbackDone)))) <==> s.timer.sweeper.key !in s.timer.live
  {
    var k := s.timer.sweeper.key;
    forall j ensures Has(Remove(s.entries, k), j) <==> j != k && Has(s.entries, j) {
      LookupRemove(s.entries, k, j);
    }
    if k in s.timer.live { assert !Has(Remove(s.entries, k), k); }
  }

  // ---------------------------------------------------------------- a lost write

  /** The key is set with a deadline of one second, the sweeper pops it a second later, a plain SET is
      acknowledged, and the callback deletes what it stored. */
  function LosingRun(k: string, first: string, second: string): seq<Event> {
    var due := Expiry.HeapEntry(TICKS_PER_SECOND, k);
    [ Client(Command(SET, "SET", [k, first, "EX", "1"])),
      Sweeper(Expiry.BeginWait(due)),
      Sweeper(Expiry.Tick(TICKS_PER_SECOND)),
      Sweeper(Expiry.Timeout(due)),
      Client(Command(SET, "SET", [k, second])),
      Sweeper(Expiry.CallbackDone) ]
  }

  /** The node while the key is set, its deadline in the heap, and the sweeper in some state. */
  function Armed(k: string, v: string, now: Expiry.Time, sweeper: Expiry.Sweeper, notified: bool): Node {
    var due := Expiry.HeapEntry(TICKS_PER_SECOND, k);
    Node([Entry(k, v)], 0, Expiry.State(multiset{due}, map[k := TICKS_PER_SECOND], now, sweeper, notified))
  }

  lemma SetWithDeadline(k: string, v: string)
    ensures Apply(START, Client(Command(SET, "SET", [k, v, "EX", "1"]))) == Armed(k, v, 0, Expiry.Idle, true)
  {
    var cmd := Command(SET, "SET", [k, v, "EX", "1"]);
    assert Decimal(1) == "1";
    PositiveSecondsDecimal(1);
    assert EqualsIgnoreCase("EX", "EX");
    assert Deadline(0, 1) == TICKS_PER_SECOND;
    assert Set([], 0, k, v) == [Entry(k, v)];
    assert Exec(Data(START), cmd, 0) == ExecSet(Data(START), cmd, 0);
    var due := Expiry.HeapEntry(TICKS_PER_SECOND, k);
    assert multiset{} + multiset{due} == multiset{due};
  }

  lemma PopDue(k: string, v: string)
    ensures var due := Expiry.HeapEntry(TICKS_PER_SECOND, k);
            var waiting := Armed(k, v, TICKS_PER_SECOND, Expiry.Waiting(TICKS_PER_SECOND), false);
            var popped := Expiry.State(multiset{}, map[], TICKS_PER_SECOND, Expiry.Firing(k), false);
            && Enabled(waiting, Sweeper(Expiry.Timeout(due)))
            && Apply(waiting, Sweeper(Expiry.Timeout(due))) == Node([Entry(k, v)], 0, popped)
  {
    var due := Expiry.HeapEntry(TICKS_PER_SECOND, k);
    assert Expiry.IsTop(multiset{due}, due);
    assert multiset{due} - multiset{due} == multiset{};
    assert map[k := TICKS_PER_SECOND] - {k} == map[];
  }

  lemma SetAndCallback(k: string, first: string, second: string, timer: Expiry.State)
    requires timer.sweeper == Expiry.Firing(k) && timer.live == map[]
    ensures var s := Node([Entry(k, first)], 0, timer);
            var cmd := Command(SET, "SET", [k, second]);
            && Exec(Data(s), cmd, timer.now).reply == Ok()
            && Apply(s, Client(cmd)).entries == [Entry(k, second)]
            && MapOf(Apply(s, Client(cmd)).entries) == map[k := second]
            && k !in Apply(s, Client(cmd)).timer.live
            && Enabled(Apply(s, Client(cmd)), Sweeper(Expiry.CallbackDone))
            && Apply(Apply(s, Client(cmd)), Sweeper(Expiry.CallbackDone)).entries == []
  {
    OneEntry(k, first);
    OneEntry(k, second);
    var s := Node([Entry(k, first)], 0, timer);
    var cmd := Command(SET, "SET", [k, second]);
    assert Exec(Data(s), cmd, timer.now) == ExecSet(Data(s), cmd, timer.now);
  }

  /** One more step of a run that goes through the first `n` events of a list. */
  lemma Extend(s: Node, evs: seq<Event>, n: nat)
    requires n < |evs| && IsRun(s, evs[..n]) && Enabled(After(s, evs[..n]), evs[n])
    ensures IsRun(s, evs[..n + 1]) && After(s, evs[..n + 1]) == Apply(After(s, evs[..n]), evs[n])
  {
    assert evs[..n + 1][..n] == evs[..n];
  }

  lemma ExtendTwice(s: Node, evs: seq<Event>, n: nat)
    requires n + 2 == |evs| && IsRun(s, evs[..n]) && Enabled(After(s, evs[..n]), evs[n])
    requires Enabled(Apply(After(s, evs[..n]), evs[n]), evs[n + 1])
    ensures IsRun(s, evs) && After(s, evs[..n + 1]) == Apply(After(s, evs[..n]), evs[n])
    ensures After(s, evs) == Apply(After(s, evs[..n + 1]), evs[n + 1])
  {
    Extend(s, evs, n);
    Extend(s, evs, n + 1);
    assert evs[..n + 2] == evs;
  }

  lemma LosingRunWaits(k: string, first: string, second: string)
    requires IsToken(k) && IsToken(first) && IsToken(second)
    ensures var evs := LosingRun(k, first, second);
            && IsRun(START, evs[..3])
            && After(START, evs[..3]) == Armed(k, first, TICKS_PER_SECOND, Expiry.Waiting(TICKS_PER_SECOND), false)
  {
    var evs := LosingRun(k, first, second);
    var due := Expiry.HeapEntry(TICKS_PER_SECOND, k);
    assert KindOf("SET") == SET && IsToken("SET") && IsToken("EX") && IsToken("1");
    assert evs[..0] == [];
    SetWithDeadline(k, first);
    Extend(START, evs, 0);
    assert Expiry.IsTop(multiset{due}, due);
    Extend(START, evs, 1);
    Extend(START, evs, 2);
  }

  lemma LosingRunPops(k: string, first: string, second: string)
    requires IsToken(k) && IsToken(first) && IsToken(second)
    ensures var evs := LosingRun(k, first, second);
            && IsRun(START, evs[..4])
            && After(START, evs[..4])
               == Node([Entry(k, first)], 0,
                       Expiry.State(multiset{}, map[], TICKS_PER_SECOND, Expiry.Firing(k), false))
  {
    var evs := LosingRun(k, first, second);
    LosingRunWaits(k, first, second);
    PopDue(k, first);
    Extend(START, evs, 3);
  }

  /** From an empty store with an idle sweeper this is a run; the second SET is acknowledged and leaves
      the key without a deadline; and in the end nothing is stored. */
  lemma AcknowledgedSetIsLost(k: string, first: string, second: string)
    requires IsToken(k) && IsToken(first) && IsToken(second)
    ensures var evs := LosingRun(k, first, second);
            && IsRun(START, evs)
            && Exec(Data(After(START, evs[..4])), evs[4].cmd, TICKS_PER_SECOND).reply == Ok()
            && MapOf(After(START, evs[..5]).entries) == map[k := second]
            && k !in After(START, evs[..5]).timer.live
            && After(START, evs).entries == []
  {
    var evs := LosingRun(k, first, second);
    assert KindOf("SET") == SET && IsToken("SET");
    LosingRunPops(k, first, second);
    SetAndCallback(k, first, second, After(START, evs[..4]).timer);
    ExtendTwice(START, evs, 4);
  }
}
