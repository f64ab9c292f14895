/** Executing a write and appending its line to the log are two steps of the thread that serves the
    request, with no lock held across them. Any number of threads may interleave here: one per client,
    and the link to this server's own primary. */
module LogOrder {
  import opened Text
  import opened Numbers
  import opened Protocol
  import opened Lru
  import opened Executor
  import opened Contents
  import opened Snapshot
  import opened KeyChanges
  import D = Durability
  import Expiry

  /** `pending` holds the lines executed by threads that have yet to log them. `executed` records, in order,
      the lines of accepted writes since the snapshot on disk was taken. */
  datatype Racing = Racing(server: D.Server, pending: Pending, executed: seq<Line>)

  const START: Racing := Racing(D.Fresh(0), map[], [])

  datatype Event =
    | Execute(who: Thread, line: Line, now: Expiry.Time)
    | Record(who: Thread)
    | TakeSnapshot
    | Crash(clock: nat -> Expiry.Time)

  predicate Enabled(s: Racing, ev: Event) {
    match ev
    case Execute(who, _, _) => who !in s.pending
    case Record(who) => who in s.pending
    case _ => true
  }

  /** A replica rejects its clients' writes, and a client's SYNC is not executed. */
  predicate Admitted(s: Racing, who: Thread, line: Line) {
    && Parse(line).Request?
    && (who.ClientThread? ==>
          && Parse(line).cmd.kind != SYNC
          && !(IsWrite(Parse(line).cmd.kind) && s.server.role == D.REPLICA))
  }

  function ExecuteStep(s: Racing, who: Thread, cmd: Command, line: Line, now: Expiry.Time): Racing {
    var out := Exec(s.server.db, cmd, now);
    var server := D.Perform(s.server.(db := out.db), out.effect);
    if Logged(s.server.db, cmd, now)
    then Racing(server, s.pending[who := line], s.executed + [line])
    else Racing(server, s.pending, if out.effect == SaveSnapshot then [] else s.executed)
  }

  function Apply(s: Racing, ev: Event): Racing
    requires Enabled(s, ev)
  {
    match ev
    case Execute(who, line, now) =>
      if Admitted(s, who, line) then ExecuteStep(s, who, Parse(line).cmd, line, now) else s
    case Record(who) => s.(server := D.RecordWrite(s.server, s.pending[who]), pending := s.pending - {who})
    case TakeSnapshot => s.(server := D.Save(s.server), executed := [])
    case Crash(clock) =>
      Racing(s.server.(db := D.Recovered(s.server, clock), role := D.PRIMARY), map[], Recorded(s))
  }

  /** The lines in the log. */
  function Recorded(s: Racing): seq<Line> { GetLines(s.server.aof) }

  /** Run back to back, the two steps of an admitted request are the one step of the atomic model. */
  lemma BackToBackIsAtomic(s: Racing, who: Thread, line: Line, now: Expiry.Time)
    requires who !in s.pending && Admitted(s, who, line)
    ensures var executed := Apply(s, Execute(who, line, now));
            var done := if who in executed.pending then Apply(executed, Record(who)) else executed;
            done.server == D.ExecuteAndRecord(s.server, Parse(line).cmd, line, now) && done.pending == s.pending
  {
    var cmd := Parse(line).cmd;
    var executed := Apply(s, Execute(who, line, now));
    if Logged(s.server.db, cmd, now) {
      assert executed.pending[who] == line;
      assert s.pending[who := line] - {who} == s.pending;
    }
  }

  // ---------------------------------------------------------------- the invariant

  /** What the snapshot on disk restores. */
  ghost function Base(s: Racing): Contents {
    Fold(map[], match s.server.snapshot case None => [] case Some(text) => GetLines(text))
  }

  /** Memory is the snapshot and the executed lines, in the order of execution. */
  ghost predicate Inv(s: Racing) {
    && Good(s.server.db) && s.server.db.capacity == 0 && Terminated(s.server.aof)
    && MapOf(s.server.db.entries) == Fold(Base(s), s.executed)
  }

  /** A restart gives the snapshot and the logged lines, in the order of logging. */
  lemma RecoveredIsLogged(s: Racing, clock: nat -> Expiry.Time)
    requires s.server.db.capacity == 0
    ensures MapOf(D.Recovered(s.server, clock).entries) == Fold(Base(s), Recorded(s))
    ensures Good(D.Recovered(s.server, clock)) && D.Recovered(s.server, clock).capacity == 0
  {
    ReplayIsFold(Empty(0), D.OnDisk(s.server), clock);
    FoldAppend(map[], match s.server.snapshot case None => [] case Some(text) => GetLines(text), Recorded(s));
  }

  /** The event writes a snapshot. */
  predicate Snapshots(ev: Event) {
    ev.TakeSnapshot? || (ev.Execute? && D.IsSave(ev.line))
  }

  lemma SaveKeepsInv(s: Racing)
    requires Good(s.server.db) && s.server.db.capacity == 0 && AllFit(s.server.db.entries)
    ensures Inv(s.(server := D.Save(s.server), executed := []))
  {
    SnapshotIsWhole(s.server.db.entries);
  }

  lemma LoggedKeepsInv(s: Racing, who: Thread, line: Line, now: Expiry.Time)
    requires Inv(s) && Parse(line).Request? && Logged(s.server.db, Parse(line).cmd, now)
    ensures var t := ExecuteStep(s, who, Parse(line).cmd, line, now);
            && Inv(t) && t.pending == s.pending[who := line]
            && t.executed == s.executed + [line] && t.server.aof == s.server.aof
            && Base(t) == Base(s) && MapOf(t.server.db.entries) == MapStep(MapOf(s.server.db.entries), Parse(line).cmd)
  {
    var cmd := Parse(line).cmd;
    PrintParse(line);
    ExecKeepsGood(s.server.db, cmd, now);
    ExecIsMapStep(s.server.db, cmd, now);
    LoggedHasNoEffect(s.server.db, cmd, now);
    FoldOne(Base(s), s.executed, line);
  }

  lemma ExecuteKeepsInv(s: Racing, who: Thread, line: Line, now: Expiry.Time)
    requires Inv(s) && Parse(line).Request? && (D.IsSave(line) ==> AllFit(s.server.db.entries))
    ensures Inv(ExecuteStep(s, who, Parse(line).cmd, line, now))
  {
    var cmd := Parse(line).cmd;
    if Logged(s.server.db, cmd, now) {
      LoggedKeepsInv(s, who, line, now);
    } else {
      PrintParse(line);
      ExecKeepsGood(s.server.db, cmd, now);
      ExecIsMapStep(s.server.db, cmd, now);
      UnloggedChangesNothing(s.server.db, cmd, now);
      if Exec(s.server.db, cmd, now).effect == SaveSnapshot {
        D.SaveEffect(s.server.db, cmd, now);
        SaveKeepsInv(s);
      }
    }
  }

  lemma RecordKeepsDisk(s: Racing, who: Thread)
    requires Terminated(s.server.aof) && who in s.pending
    ensures var t := Apply(s, Record(who));
            && Terminated(t.server.aof) && Recorded(t) == Recorded(s) + [s.pending[who]]
            && Base(t) == Base(s) && t.server.db == s.server.db && t.executed == s.executed
  {
    GetLinesAppend(s.server.aof, s.pending[who]);
  }

  lemma InvStep(s: Racing, ev: Event)
    requires Inv(s) && Enabled(s, ev) && (Snapshots(ev) ==> AllFit(s.server.db.entries))
    ensures Inv(Apply(s, ev))
  {
    match ev
    case Execute(who, line, now) => if Admitted(s, who, line) { ExecuteKeepsInv(s, who, line, now); }
    case Record(who) => RecordKeepsDisk(s, who);
    case TakeSnapshot => SaveKeepsInv(s);
    case Crash(clock) => RecoveredIsLogged(s, clock);
  }

  // ---------------------------------------------------------------- runs

  /** Every snapshot of the run is taken of entries that the parser can read back. */
  ghost predicate IsRun(s: Racing, evs: seq<Event>)
    decreases |evs|
  {
    evs != [] ==>
      && Enabled(s, evs[0]) && (Snapshots(evs[0]) ==> AllFit(s.server.db.entries))
      && IsRun(Apply(s, evs[0]), evs[1..])
  }

  ghost function After(s: Racing, evs: seq<Event>): Racing
    requires IsRun(s, evs)
    decreases |evs|
  {
    if evs == [] then s else After(Apply(s, evs[0]), evs[1..])
  }

  lemma {:induction false} InvAlways(s: Racing, evs: seq<Event>)
    requires Inv(s) && IsRun(s, evs)
    ensures Inv(After(s, evs))
    decreases |evs|
  {
    if evs != [] {
      InvStep(s, evs[0]);
      InvAlways(Apply(s, evs[0]), evs[1..]);
    }
  }

  /** The key's lines since the snapshot are in the log, all of them, only them, and in the order in which
      they were executed. */
  predicate InOrder(s: Racing, k: string) { On(Recorded(s), k) == On(s.executed, k) }

  /** In every state of every run, a key whose lines are logged in the order of execution is recovered. */
  lemma InOrderIsRecovered(evs: seq<Event>, k: string, clock: nat -> Expiry.Time)
    requires IsRun(START, evs) && InOrder(After(START, evs), k)
    ensures var s := After(START, evs).server;
            AgreeOn(MapOf(D.Recovered(s, clock).entries), MapOf(s.db.entries), k)
  {
    var s := After(START, evs);
    InvAlways(START, evs);
    KeyIsRecovered(s, k, clock);
  }

  lemma KeyIsRecovered(s: Racing, k: string, clock: nat -> Expiry.Time)
    requires Inv(s) && InOrder(s, k)
    ensures AgreeOn(MapOf(D.Recovered(s.server, clock).entries), MapOf(s.server.db.entries), k)
  {
    RecoveredIsLogged(s, clock);
    FoldOnKey(Base(s), Base(s), Recorded(s), k);
    FoldOnKey(Base(s), Base(s), s.executed, k);
  }

  // ---------------------------------------------------------------- one writer per key

  ghost function Live(s: Racing): Contents { MapOf(s.server.db.entries) }

  /** What a restart would give, by `RecoveredIsLogged`. */
  ghost function OnFile(s: Racing): Contents { Fold(Base(s), Recorded(s)) }

  /** No key is written by two threads, and no snapshot is taken while a counter command is between its two
      steps. */
  ghost predicate OneWriter(s: Racing, evs: seq<Event>, owner: string -> Thread)
    requires IsRun(s, evs)
    decreases |evs|
  {
    evs != [] ==>
      && (evs[0].Execute? ==> forall k :: Touches(evs[0].line, k) ==> owner(k) == evs[0].who)
      && (Snapshots(evs[0]) ==> NoCounterPending(s.pending))
      && OneWriter(Apply(s, evs[0]), evs[1..], owner)
  }

  ghost predicate Ahead(s: Racing, owner: string -> Thread) { AheadByOne(Live(s), OnFile(s), s.pending, owner) }

  lemma SavedIsLive(s: Racing)
    requires Good(s.server.db) && s.server.db.capacity == 0 && AllFit(s.server.db.entries)
    ensures var t := s.(server := D.Save(s.server), executed := []);
            Inv(t) && OnFile(t) == Live(s) && Live(t) == Live(s)
  {
    SaveKeepsInv(s);
    assert Recorded(s.(server := D.Save(s.server), executed := [])) == [];
  }

  lemma SnapshotIsAhead(s: Racing, owner: string -> Thread)
    requires Inv(s) && Ahead(s, owner) && AllFit(s.server.db.entries)
    ensures Ahead(s.(server := D.Save(s.server), executed := []), owner) <==> NoCounterPending(s.pending)
  {
    SavedIsLive(s);
    SnapshotIsAheadByOneIff(Live(s), OnFile(s), s.pending, owner);
  }

  lemma LoggedIsAhead(s: Racing, who: Thread, line: Line, now: Expiry.Time, owner: string -> Thread)
    requires Inv(s) && Ahead(s, owner) && who !in s.pending
    requires Parse(line).Request? && Logged(s.server.db, Parse(line).cmd, now)
    requires forall k :: Touches(line, k) ==> owner(k) == who
    ensures Ahead(ExecuteStep(s, who, Parse(line).cmd, line, now), owner)
  {
    LoggedKeepsInv(s, who, line, now);
    if IsCounterLine(line) { AcceptedCounterReads(s.server.db, Parse(line).cmd, now); }
    ExecuteIsAheadByOne(Live(s), OnFile(s), s.pending, owner, who, line);
  }

  lemma UnloggedIsAhead(s: Racing, who: Thread, line: Line, now: Expiry.Time, owner: string -> Thread)
    requires Inv(s) && Ahead(s, owner) && Parse(line).Request? && !Logged(s.server.db, Parse(line).cmd, now)
    requires Exec(s.server.db, Parse(line).cmd, now).effect != SaveSnapshot
    ensures Ahead(ExecuteStep(s, who, Parse(line).cmd, line, now), owner)
  {
    ExecIsMapStep(s.server.db, Parse(line).cmd, now);
    UnloggedChangesNothing(s.server.db, Parse(line).cmd, now);
  }

  lemma ExecuteIsAhead(s: Racing, who: Thread, line: Line, now: Expiry.Time, owner: string -> Thread)
    requires Inv(s) && Ahead(s, owner) && who !in s.pending && Parse(line).Request?
    requires forall k :: Touches(line, k) ==> owner(k) == who
    requires D.IsSave(line) ==> NoCounterPending(s.pending) && AllFit(s.server.db.entries)
    ensures Ahead(ExecuteStep(s, who, Parse(line).cmd, line, now), owner)
  {
    var cmd := Parse(line).cmd;
    if Logged(s.server.db, cmd, now) {
      LoggedIsAhead(s, who, line, now, owner);
    } else if Exec(s.server.db, cmd, now).effect == SaveSnapshot {
      D.SaveEffect(s.server.db, cmd, now);
      SnapshotIsAhead(s, owner);
    } else {
      UnloggedIsAhead(s, who, line, now, owner);
    }
  }

  lemma RecordIsAhead(s: Racing, who: Thread, owner: string -> Thread)
    requires Inv(s) && Ahead(s, owner) && who in s.pending
    ensures Ahead(Apply(s, Record(who)), owner)
  {
    RecordKeepsDisk(s, who);
    FoldOne(Base(s), Recorded(s), s.pending[who]);
    PassIsAheadByOne(Live(s), OnFile(s), s.pending, owner, who);
  }

  lemma CrashIsAhead(s: Racing, clock: nat -> Expiry.Time, owner: string -> Thread)
    requires Inv(s)
    ensures Ahead(Apply(s, Crash(clock)), owner)
  {
    RecoveredIsLogged(s, clock);
    QuietIsAheadByOne(OnFile(s), owner);
  }

  lemma {:induction false} OneWriterIsAhead(s: Racing, evs: seq<Event>, owner: string -> Thread)
    requires Inv(s) && Ahead(s, owner) && IsRun(s, evs) && OneWriter(s, evs, owner)
    ensures Ahead(After(s, evs), owner)
    decreases |evs|
  {
    if evs != [] {
      match evs[0] {
        case Execute(who, line, now) => if Admitted(s, who, line) { ExecuteIsAhead(s, who, line, now, owner); }
        case Record(who) => RecordIsAhead(s, who, owner);
        case TakeSnapshot => SnapshotIsAhead(s, owner);
        case Crash(clock) => CrashIsAhead(s, clock, owner);
      }
      InvStep(s, evs[0]);
      OneWriterIsAhead(Apply(s, evs[0]), evs[1..], owner);
    }
  }

  /** If no key has two writers and no snapshot comes between the two steps of a counter command, then in
      every state of every run a restart recovers every key whose last write has been logged, so every key
      whose last write was answered; and everything when no thread is between its two steps. */
  lemma OneWriterRecovers(evs: seq<Event>, owner: string -> Thread, clock: nat -> Expiry.Time)
    requires IsRun(START, evs) && OneWriter(START, evs, owner)
    ensures var s := After(START, evs);
            var back := MapOf(D.Recovered(s.server, clock).entries);
            && (forall k :: Outstanding(s.pending, k, owner) == [] ==> AgreeOn(Live(s), back, k))
            && (s.pending == map[] ==> back == Live(s))
  {
    var s := After(START, evs);
    InvAlways(START, evs);
    QuietIsAheadByOne(map[], owner);
    OneWriterIsAhead(START, evs, owner);
    RecoveredIsLogged(s, clock);
    AheadByNone(Live(s), OnFile(s), s.pending, owner);
  }

  // ---------------------------------------------------------------- a snapshot between the two steps

  /** A thread executes an accepted write, a snapshot is taken, and only then the thread logs its line. */
  ghost function Straddled(s: Racing, who: Thread, line: Line, now: Expiry.Time): Racing
    requires who !in s.pending && Admitted(s, who, line) && Logged(s.server.db, Parse(line).cmd, now)
  {
    var executed := Apply(s, Execute(who, line, now));
    Apply(Apply(executed, TakeSnapshot), Record(who))
  }

  lemma StraddledContents(s: Racing, who: Thread, line: Line, now: Expiry.Time)
    requires Inv(s) && who !in s.pending && Admitted(s, who, line) && Logged(s.server.db, Parse(line).cmd, now)
    requires AllFit(Exec(s.server.db, Parse(line).cmd, now).db.entries)
    ensures var f := Straddled(s, who, line, now);
            && Live(f) == LineStep(Live(s), line) && OnFile(f) == LineStep(Live(f), line)
            && f.server.db.capacity == 0 && f.pending == s.pending
  {
    var executed := ExecuteStep(s, who, Parse(line).cmd, line, now);
    LoggedKeepsInv(s, who, line, now);
    LoggedData(s, who, line, now);
    SaveThenRecord(executed, who);
    OneRecorded(s.pending, who, line);
  }

  lemma OneRecorded(pending: Pending, who: Thread, line: Line)
    requires who !in pending
    ensures pending[who := line] - {who} == pending
  {
  }

  lemma LoggedData(s: Racing, who: Thread, line: Line, now: Expiry.Time)
    requires Parse(line).Request? && Logged(s.server.db, Parse(line).cmd, now)
    ensures ExecuteStep(s, who, Parse(line).cmd, line, now).server.db == Exec(s.server.db, Parse(line).cmd, now).db
  {
    LoggedHasNoEffect(s.server.db, Parse(line).cmd, now);
  }

  lemma SaveThenRecord(s: Racing, who: Thread)
    requires Inv(s) && AllFit(s.server.db.entries) && who in s.pending
    ensures var f := Apply(Apply(s, TakeSnapshot), Record(who));
            && Live(f) == Live(s) && OnFile(f) == LineStep(Live(s), s.pending[who])
            && f.server.db.capacity == 0 && f.pending == s.pending - {who}
  {
    var saved := Apply(s, TakeSnapshot);
    SavedIsLive(s);
    RecordKeepsDisk(saved, who);
    FoldOne(Base(saved), Recorded(saved), s.pending[who]);
  }

  /** The line is then in the snapshot and in the log. A restart recovers the state if and only if the
      command does not count. */
  lemma StraddledIsRecoveredIff(s: Racing, who: Thread, line: Line, now: Expiry.Time, clock: nat -> Expiry.Time)
    requires Inv(s) && who !in s.pending && Admitted(s, who, line) && Logged(s.server.db, Parse(line).cmd, now)
    requires AllFit(Exec(s.server.db, Parse(line).cmd, now).db.entries)
    ensures var f := Straddled(s, who, line, now);
            MapOf(D.Recovered(f.server, clock).entries) == Live(f) <==> !ChangeOf(Parse(line).cmd).Add?
  {
    var f, cmd := Straddled(s, who, line, now), Parse(line).cmd;
    StraddledContents(s, who, line, now);
    RecoveredIsLogged(f, clock);
    if ChangeOf(cmd).Add? { AcceptedCounterReads(s.server.db, cmd, now); }
    StepAgainIff(Live(s), cmd);
  }

  lemma CountsToTwo(k: string)
    ensures var cmd := Command(INCR, "INCR", [k]);
            && MapStep(map[], cmd) == map[k := "1"]
            && MapStep(map[k := "1"], cmd) == map[k := "2"]
  {
    assert Decimal(1) == "1" && Decimal(2) == "2";
    StollDecimal(1);
  }

  /** One client, one counter, one snapshot: the server holds 1 and a restart gives 2. */
  lemma SnapshotCountsTwice(k: string, line: Line, now: Expiry.Time, clock: nat -> Expiry.Time)
    requires IsToken(k) && |k| <= D.MAX_COUNTER_KEY && line == "INCR " + k
    ensures var evs := [Execute(ClientThread(0), line, now)] + ([TakeSnapshot] + ([Record(ClientThread(0))] + []));
            && IsRun(START, evs)
            && var s := After(START, evs);
               && s.pending == map[]
               && Live(s) == map[k := "1"]
               && MapOf(D.Recovered(s.server, clock).entries) == map[k := "2"]
  {
    var t, cmd := ClientThread(0), Command(INCR, "INCR", [k]);
    D.ParseIncr(k);
    D.IncrNewKey(k, now);
    var es := [Entry(k, "1")];
    assert es[1..] == [] && AllFit(es);
    var executed := Apply(START, Execute(t, line, now));
    assert executed.server.db.entries == es && executed.pending[t] == line;
    var saved := Apply(executed, TakeSnapshot);
    RunCons(saved, Record(t), []);
    RunCons(executed, TakeSnapshot, [Record(t)] + []);
    RunCons(START, Execute(t, line, now), [TakeSnapshot] + ([Record(t)] + []));
    StraddledContents(START, t, line, now);
    RecoveredIsLogged(Straddled(START, t, line, now), clock);
    CountsToTwo(k);
  }

  // ---------------------------------------------------------------- two writers of one key

  ghost predicate BothAccepted(s: Racing, t: Thread, u: Thread, a: Line, b: Line, now: Expiry.Time)
    requires t != u && t !in s.pending && u !in s.pending
  {
    && Admitted(s, t, a) && Logged(s.server.db, Parse(a).cmd, now)
    && var next := Apply(s, Execute(t, a, now));
       Admitted(next, u, b) && Logged(next.server.db, Parse(b).cmd, now)
  }

  /** Two threads execute an accepted write each. */
  ghost function BothExecuted(s: Racing, t: Thread, u: Thread, a: Line, b: Line, now: Expiry.Time): (f: Racing)
    requires t != u && t !in s.pending && u !in s.pending && BothAccepted(s, t, u, a, b, now)
    ensures f.pending == s.pending[t := a][u := b]
  {
    Apply(Apply(s, Execute(t, a, now)), Execute(u, b, now))
  }

  /** And they log them in the opposite order. */
  ghost function Swapped(s: Racing, t: Thread, u: Thread, a: Line, b: Line, now: Expiry.Time): Racing
    requires t != u && t !in s.pending && u !in s.pending && BothAccepted(s, t, u, a, b, now)
  {
    Apply(Apply(BothExecuted(s, t, u, a, b, now), Record(u)), Record(t))
  }

  lemma RecordTwice(s: Racing, t: Thread, u: Thread)
    requires t != u && t in s.pending && u in s.pending && Terminated(s.server.aof)
    ensures var f := Apply(Apply(s, Record(u)), Record(t));
            && Recorded(f) == Recorded(s) + [s.pending[u]] + [s.pending[t]]
            && Base(f) == Base(s) && f.server.db == s.server.db && f.pending == s.pending - {u} - {t}
  {
    RecordKeepsDisk(s, u);
    RecordKeepsDisk(Apply(s, Record(u)), t);
  }

  lemma BothExecutedContents(s: Racing, t: Thread, u: Thread, a: Line, b: Line, now: Expiry.Time)
    requires Inv(s) && t != u && t !in s.pending && u !in s.pending && BothAccepted(s, t, u, a, b, now)
    ensures var f := BothExecuted(s, t, u, a, b, now);
            && Inv(f) && f.server.aof == s.server.aof && Base(f) == Base(s)
            && MapOf(f.server.db.entries)
               == MapStep(MapStep(MapOf(s.server.db.entries), Parse(a).cmd), Parse(b).cmd)
  {
    LoggedKeepsInv(s, t, a, now);
    LoggedKeepsInv(Apply(s, Execute(t, a, now)), u, b, now);
  }

  lemma FoldTwo(m: Contents, lines: seq<Line>, x: Line, y: Line)
    ensures Fold(m, lines + [x] + [y]) == LineStep(LineStep(Fold(m, lines), x), y)
  {
    FoldOne(m, lines, x);
    FoldOne(m, lines + [x], y);
  }

  lemma BothRecorded(pending: Pending, t: Thread, u: Thread, a: Line, b: Line)
    requires t != u && t !in pending && u !in pending
    ensures pending[t := a][u := b] - {u} - {t} == pending
  {
  }

  lemma SwappedContents(s: Racing, t: Thread, u: Thread, a: Line, b: Line, now: Expiry.Time)
    requires Inv(s) && t != u && t !in s.pending && u !in s.pending && BothAccepted(s, t, u, a, b, now)
    ensures var f := Swapped(s, t, u, a, b, now);
            && f.server.db.capacity == 0 && f.pending == s.pending
            && MapOf(f.server.db.entries)
               == MapStep(MapStep(MapOf(s.server.db.entries), Parse(a).cmd), Parse(b).cmd)
            && Fold(Base(f), Recorded(f)) == LineStep(LineStep(Fold(Base(s), Recorded(s)), b), a)
  {
    BothExecutedContents(s, t, u, a, b, now);
    RecordTwice(BothExecuted(s, t, u, a, b, now), t, u);
    FoldTwo(Base(s), Recorded(s), b, a);
    BothRecorded(s.pending, t, u, a, b);
  }

  /** From a state that a restart would rebuild: two threads' writes, logged in the order opposite to their
      execution, are recovered if and only if they are harmless to swap. */
  lemma SwapIsRecoveredIff(s: Racing, t: Thread, u: Thread, a: Line, b: Line, now: Expiry.Time,
                           clock: nat -> Expiry.Time)
    requires Inv(s) && Fold(Base(s), Recorded(s)) == MapOf(s.server.db.entries)
    requires t != u && t !in s.pending && u !in s.pending && BothAccepted(s, t, u, a, b, now)
    ensures var f := Swapped(s, t, u, a, b, now).server;
            MapOf(D.Recovered(f, clock).entries) == MapOf(f.db.entries) <==> Harmless(Parse(a).cmd, Parse(b).cmd)
  {
    SwappedContents(s, t, u, a, b, now);
    RecoveredIsLogged(Swapped(s, t, u, a, b, now), clock);
    StepsCommuteIff(MapOf(s.server.db.entries), Parse(a).cmd, Parse(b).cmd);
  }

  lemma SetsAreAccepted(k: string, first: string, second: string, now: Expiry.Time)
    requires Storable(Entry(k, first)) && Storable(Entry(k, second))
    requires Fits(Entry(k, first)) && Fits(Entry(k, second))
    ensures var t, u := ClientThread(0), ClientThread(1);
            BothAccepted(START, t, u, DumpLine(Entry(k, first)), DumpLine(Entry(k, second)), now)
  {
    ParseSnapshotLine(Entry(k, first));
    ParseSnapshotLine(Entry(k, second));
  }

  lemma RunCons(s: Racing, ev: Event, rest: seq<Event>)
    requires Enabled(s, ev) && (Snapshots(ev) ==> AllFit(s.server.db.entries)) && IsRun(Apply(s, ev), rest)
    ensures IsRun(s, [ev] + rest) && After(s, [ev] + rest) == After(Apply(s, ev), rest)
  {
    assert ([ev] + rest)[1..] == rest;
  }

  /** The steps by which the swapped state is reached. */
  function SwappingRun(t: Thread, u: Thread, a: Line, b: Line, now: Expiry.Time): seq<Event> {
    [Execute(t, a, now)] + ([Execute(u, b, now)] + ([Record(u)] + ([Record(t)] + [])))
  }

  lemma SwappedIsReached(s: Racing, t: Thread, u: Thread, a: Line, b: Line, now: Expiry.Time)
    requires t != u && t !in s.pending && u !in s.pending && BothAccepted(s, t, u, a, b, now)
    ensures var evs := SwappingRun(t, u, a, b, now);
            IsRun(s, evs) && After(s, evs) == Swapped(s, t, u, a, b, now)
  {
    assert !D.IsSave(a) && !D.IsSave(b);
    var two := BothExecuted(s, t, u, a, b, now);
    var three := Apply(two, Record(u));
    RunCons(three, Record(t), []);
    RunCons(two, Record(u), [Record(t)] + []);
    RunCons(Apply(s, Execute(t, a, now)), Execute(u, b, now), [Record(u)] + ([Record(t)] + []));
    RunCons(s, Execute(t, a, now), [Execute(u, b, now)] + ([Record(u)] + ([Record(t)] + [])));
  }

  /** Two clients set one key. The second value is what the server holds and the first is what a restart
      brings back, although both were accepted and both are in the log. */
  lemma SwappedSetsRestoreOldValue(k: string, first: string, second: string, now: Expiry.Time,
                                   clock: nat -> Expiry.Time)
    requires Storable(Entry(k, first)) && Storable(Entry(k, second))
    requires Fits(Entry(k, first)) && Fits(Entry(k, second))
    ensures var a, b := DumpLine(Entry(k, first)), DumpLine(Entry(k, second));
            var evs := SwappingRun(ClientThread(0), ClientThread(1), a, b, now);
            && IsRun(START, evs)
            && var s := After(START, evs);
               && s.pending == map[]
               && MapOf(s.server.db.entries) == map[k := second]
               && MapOf(D.Recovered(s.server, clock).entries) == map[k := first]
  {
    var t, u, a, b := ClientThread(0), ClientThread(1), DumpLine(Entry(k, first)), DumpLine(Entry(k, second));
    SetsAreAccepted(k, first, second, now);
    SwappedIsReached(START, t, u, a, b, now);
    SwappedContents(START, t, u, a, b, now);
    RecoveredIsLogged(Swapped(START, t, u, a, b, now), clock);
    SetTwice(k, first, second);
    SetTwice(k, second, first);
  }
}
