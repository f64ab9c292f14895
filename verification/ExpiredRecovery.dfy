/** Crash recovery in runs in which deadlines fire. A key that expires is removed from the store and
    nothing is logged, so the files still hold it. */
module ExpiredRecovery {
  import opened Text
  import opened Numbers
  import opened Protocol
  import opened Lru
  import opened Executor
  import opened Contents
  import opened Snapshot
  import D = Durability
  import TtlTable
  import Expiry

  /** `undead` holds the keys that have fired since the files were last in step with memory and that no SET
      or DEL has settled since, with the value they had when they fired; counter commands that were logged
      since then are applied to it, because replay will apply them to it. */
  datatype Watched = Watched(server: D.Server, undead: Contents)

  const START: Watched := Watched(D.Fresh(0), map[])

  datatype Event = Step(ev: D.Event) | Fire(key: string)

  /** A logged command, as far as keys that have fired are concerned. */
  function Settle(undead: Contents, cmd: Command): Contents {
    if cmd.args == [] then undead
    else
      var k := cmd.args[0];
      match cmd.kind
      case SET | DEL => if Creates(cmd, k) || Drops(cmd, k) then undead - {k} else undead
      case INCR | DECR => if k in undead then MapStep(undead, cmd) else undead
      case _ => undead
  }

  /** The command of a line that is executed at all. */
  function Admitted(s: D.Server, ev: D.Event): Option<Command> {
    match ev
    case TimerSave => None
    case Restart(_) => None
    case Client(line, _) =>
      if Parse(line).Request? && Parse(line).cmd.kind != SYNC && !(IsWrite(Parse(line).cmd.kind) && s.role == D.REPLICA)
      then Some(Parse(line).cmd) else None
    case FromPrimary(line, _) => if Parse(line).Request? then Some(Parse(line).cmd) else None
  }

  function UndeadAfterLine(s: Watched, cmd: Command, line: Line, now: Expiry.Time): Contents {
    if D.IsSave(line) then map[]
    else if Logged(s.server.db, cmd, now) then Settle(s.undead, cmd)
    else s.undead
  }

  function UndeadAfter(s: Watched, ev: D.Event): Contents {
    match ev
    case TimerSave => map[]
    case Restart(_) => map[]
    case _ =>
      match Admitted(s.server, ev)
      case None => s.undead
      case Some(cmd) => UndeadAfterLine(s, cmd, ev.line, ev.now)
  }

  function Apply(s: Watched, ev: Event): Watched {
    match ev
    case Step(e) => Watched(D.Apply(s.server, e), UndeadAfter(s, e))
    case Fire(k) =>
      var held := MapOf(s.server.db.entries);
      Watched(s.server.(db := TtlTable.Fire(s.server.db, k)),
              if k in held && k !in s.undead then s.undead[k := held[k]] else s.undead)
  }

  function After(s: Watched, evs: seq<Event>): Watched
    decreases |evs|
  {
    if evs == [] then s else After(Apply(s, evs[0]), evs[1..])
  }

  // ---------------------------------------------------------------- the invariant

  /** What is on disk is what is in memory, and the keys that have fired. */
  ghost predicate Inv(s: Watched) {
    && Good(s.server.db) && s.server.db.capacity == 0 && Terminated(s.server.aof)
    && Fold(map[], D.OnDisk(s.server)) == MapOf(s.server.db.entries) + s.undead
  }

  lemma BumpOver(m: Contents, undead: Contents, k: string, delta: int)
    ensures Bump(m + undead, k, delta) == Bump(m, k, delta) + (if k in undead then Bump(undead, k, delta) else undead)
  {
    if k in undead {
      BumpUndead(m, undead, k, delta);
    } else {
      var all, each := Bump(m + undead, k, delta), Bump(m, k, delta) + undead;
      forall j ensures AgreeOn(all, each, j) {
      }
      SameByKey(all, each);
    }
  }

  lemma BumpUndead(m: Contents, undead: Contents, k: string, delta: int)
    requires k in undead
    ensures Bump(m + undead, k, delta) == Bump(m, k, delta) + Bump(undead, k, delta)
  {
    var all, each := Bump(m + undead, k, delta), Bump(m, k, delta) + Bump(undead, k, delta);
    forall j ensures AgreeOn(all, each, j) {
    }
    SameByKey(all, each);
  }

  /** Replaying a command over memory and the fired keys together is replaying it over each. */
  lemma StepOver(m: Contents, undead: Contents, cmd: Command)
    ensures MapStep(m + undead, cmd) == MapStep(m, cmd) + Settle(undead, cmd)
  {
    if cmd.args != [] {
      var k := cmd.args[0];
      match cmd.kind
      case SET => if Creates(cmd, k) { assert (m + undead)[k := cmd.args[1]] == m[k := cmd.args[1]] + (undead - {k}); }
      case DEL =>
        if |cmd.args| == 1 {
          assert cmd.args == [k];
          assert (m + undead) - {k} == (m - {k}) + (undead - {k});
        }
      case INCR => if |cmd.args| == 1 { BumpOver(m, undead, k, 1); }
      case DECR => if |cmd.args| == 1 { BumpOver(m, undead, k, -1); }
      case _ =>
    }
  }

  lemma InStepIsInv(s: D.Server)
    requires D.Inv(s)
    ensures Inv(Watched(s, map[]))
  {
    assert MapOf(s.db.entries) + map[] == MapOf(s.db.entries);
  }

  lemma RecordedDisk(s: D.Server, cmd: Command, line: Line, now: Expiry.Time)
    requires Terminated(s.aof) && Logged(s.db, cmd, now)
    ensures var after := D.ExecuteAndRecord(s, cmd, line, now);
            && after.db == Exec(s.db, cmd, now).db && Terminated(after.aof)
            && D.OnDisk(after) == D.OnDisk(s) + [line]
  {
    LoggedHasNoEffect(s.db, cmd, now);
    GetLinesAppend(s.aof, line);
    assert D.OnDisk(D.RecordWrite(s.(db := Exec(s.db, cmd, now).db), line)) == D.OnDisk(s) + [line];
  }

  lemma RecordKeepsInv(s: Watched, cmd: Command, line: Line, now: Expiry.Time)
    requires Inv(s) && Parse(line) == Request(cmd) && Logged(s.server.db, cmd, now)
    ensures Inv(Watched(D.ExecuteAndRecord(s.server, cmd, line, now), Settle(s.undead, cmd)))
  {
    PrintParse(line);
    ExecKeepsGood(s.server.db, cmd, now);
    ExecIsMapStep(s.server.db, cmd, now);
    RecordedDisk(s.server, cmd, line, now);
    FoldOne(map[], D.OnDisk(s.server), line);
    StepOver(MapOf(s.server.db.entries), s.undead, cmd);
  }

  lemma SameDiskKeepsInv(s: Watched, db: Db, role: D.Role)
    requires Inv(s) && Good(db) && db.capacity == 0 && MapOf(db.entries) == MapOf(s.server.db.entries)
    ensures Inv(Watched(s.server.(db := db, role := role), s.undead))
  {
    assert D.OnDisk(s.server.(db := db, role := role)) == D.OnDisk(s.server);
  }

  lemma QuietIsSameDisk(s: D.Server, cmd: Command, line: Line, now: Expiry.Time)
    requires !Logged(s.db, cmd, now) && Exec(s.db, cmd, now).effect != SaveSnapshot
    ensures var after := D.ExecuteAndRecord(s, cmd, line, now);
            after == s.(db := Exec(s.db, cmd, now).db, role := after.role)
  {
  }

  lemma QuietKeepsInv(s: Watched, cmd: Command, line: Line, now: Expiry.Time)
    requires Inv(s) && Parse(line) == Request(cmd) && !Logged(s.server.db, cmd, now) && !D.IsSave(line)
    ensures Inv(Watched(D.ExecuteAndRecord(s.server, cmd, line, now), s.undead))
  {
    PrintParse(line);
    ExecKeepsGood(s.server.db, cmd, now);
    ExecIsMapStep(s.server.db, cmd, now);
    UnloggedChangesNothing(s.server.db, cmd, now);
    if Exec(s.server.db, cmd, now).effect == SaveSnapshot { D.SaveEffect(s.server.db, cmd, now); }
    QuietIsSameDisk(s.server, cmd, line, now);
    SameDiskKeepsInv(s, Exec(s.server.db, cmd, now).db, D.ExecuteAndRecord(s.server, cmd, line, now).role);
  }

  lemma SavingIsSave(s: D.Server, cmd: Command, line: Line, now: Expiry.Time)
    requires Parse(line) == Request(cmd) && D.IsSave(line)
    ensures D.ExecuteAndRecord(s, cmd, line, now) == D.Save(s)
  {
  }

  lemma LineKeepsInv(s: Watched, cmd: Command, line: Line, now: Expiry.Time)
    requires Inv(s) && Parse(line) == Request(cmd) && (D.IsSave(line) ==> AllFit(s.server.db.entries))
    ensures Inv(Watched(D.ExecuteAndRecord(s.server, cmd, line, now), UndeadAfterLine(s, cmd, line, now)))
  {
    if D.IsSave(line) {
      SavingIsSave(s.server, cmd, line, now);
      D.SaveKeepsInv(s.server);
      InStepIsInv(D.Save(s.server));
    } else if Logged(s.server.db, cmd, now) {
      RecordKeepsInv(s, cmd, line, now);
    } else {
      QuietKeepsInv(s, cmd, line, now);
    }
  }

  lemma AdmittedIsExecuted(s: D.Server, ev: D.Event)
    requires ev.Client? || ev.FromPrimary?
    ensures match Admitted(s, ev)
            case None => D.Apply(s, ev) == s
            case Some(cmd) => Parse(ev.line) == Request(cmd)
                              && D.Apply(s, ev) == D.ExecuteAndRecord(s, cmd, ev.line, ev.now)
  {
    assert Tokenize("") == [];
  }

  lemma StepKeepsInv(s: Watched, ev: D.Event)
    requires Inv(s) && (D.Snapshots(ev) ==> AllFit(s.server.db.entries))
    ensures Inv(Apply(s, Step(ev)))
  {
    match ev
    case TimerSave =>
      D.SaveKeepsInv(s.server);
      InStepIsInv(D.Save(s.server));
    case Restart(clock) => RestartKeepsInv(s, clock);
    case _ =>
      AdmittedIsExecuted(s.server, ev);
      if Admitted(s.server, ev).Some? { LineKeepsInv(s, Admitted(s.server, ev).value, ev.line, ev.now); }
  }

  lemma RestartKeepsInv(s: Watched, clock: nat -> Expiry.Time)
    requires Inv(s)
    ensures MapOf(D.Recovered(s.server, clock).entries) == MapOf(s.server.db.entries) + s.undead
    ensures Inv(Apply(s, Step(D.Restart(clock))))
  {
    ReplayIsFold(Empty(0), D.OnDisk(s.server), clock);
    var after := D.Apply(s.server, D.Restart(clock));
    assert D.OnDisk(after) == D.OnDisk(s.server);
    InStepIsInv(after);
  }

  lemma FiredOver(held: Contents, undead: Contents, k: string)
    ensures held + undead == (held - {k}) + (if k in held && k !in undead then undead[k := held[k]] else undead)
  {
  }

  lemma FireKeepsInv(s: Watched, k: string)
    requires Inv(s)
    ensures Inv(Apply(s, Fire(k)))
  {
    var db := s.server.db;
    MapRemove(db.entries, k);
    OperationsKeepValid(db.entries, db.capacity, k, "");
    RemoveKeepsStorable(db.entries, k);
    assert D.OnDisk(Apply(s, Fire(k)).server) == D.OnDisk(s.server);
    FiredOver(MapOf(db.entries), s.undead, k);
  }

  // ---------------------------------------------------------------- runs

  ghost predicate SavesFit(s: Watched, evs: seq<Event>)
    decreases |evs|
  {
    evs != [] ==>
      && (evs[0].Step? && D.Snapshots(evs[0].ev) ==> AllFit(s.server.db.entries))
      && SavesFit(Apply(s, evs[0]), evs[1..])
  }

  lemma {:induction false} InvAlways(s: Watched, evs: seq<Event>)
    requires Inv(s) && SavesFit(s, evs)
    ensures Inv(After(s, evs))
    decreases |evs|
  {
    if evs != [] {
      match evs[0] {
        case Step(ev) => StepKeepsInv(s, ev);
        case Fire(k) => FireKeepsInv(s, k);
      }
      InvAlways(Apply(s, evs[0]), evs[1..]);
    }
  }

  lemma OverIsSameIff(m: Contents, over: Contents)
    ensures m + over == m <==> forall k :: k in over ==> k in m && m[k] == over[k]
  {
    if m + over == m {
      forall k | k in over ensures k in m && m[k] == over[k] { assert (m + over)[k] == over[k]; }
    }
  }

  /** After any run of requests, replicated lines, snapshots, restarts and fired deadlines, a restart gives
      the live contents with the undead keys on top. So it rebuilds exactly what was live if and only if
      every undead key is live again with the value that replay gives it. */
  lemma RecoveryBringsBackFiredKeys(evs: seq<Event>, clock: nat -> Expiry.Time)
    requires SavesFit(START, evs)
    ensures var s := After(START, evs);
            var live, back := MapOf(s.server.db.entries), MapOf(D.Recovered(s.server, clock).entries);
            && back == live + s.undead
            && (back == live <==> forall k :: k in s.undead ==> k in live && live[k] == s.undead[k])
  {
    assert D.OnDisk(D.Fresh(0)) == [];
    InStepIsInv(D.Fresh(0));
    InvAlways(START, evs);
    var s := After(START, evs);
    RestartKeepsInv(s, clock);
    OverIsSameIff(MapOf(s.server.db.entries), s.undead);
  }

  // ---------------------------------------------------------------- which keys, and with what value

  /** The key expires while it is stored. */
  predicate Fires(s: Watched, ev: Event, k: string) { ev == Fire(k) && k in MapOf(s.server.db.entries) }

  /** The files are brought in step with memory, at least for this key: a snapshot, a restart, or a logged
      SET or DEL. */
  predicate Settles(s: Watched, ev: Event, k: string) {
    && ev.Step?
    && match ev.ev
       case TimerSave => true
       case Restart(_) => true
       case _ =>
         && Admitted(s.server, ev.ev).Some?
         && var cmd := Admitted(s.server, ev.ev).value;
            D.IsSave(ev.ev.line)
            || (Logged(s.server.db, cmd, ev.ev.now) && cmd.kind in {SET, DEL} && (Creates(cmd, k) || Drops(cmd, k)))
  }

  lemma SettleKeys(undead: Contents, cmd: Command, k: string)
    ensures k in Settle(undead, cmd)
            <==> k in undead && !(cmd.kind in {SET, DEL} && (Creates(cmd, k) || Drops(cmd, k)))
  {
  }

  lemma UndeadStep(s: Watched, ev: Event, k: string)
    ensures k in Apply(s, ev).undead <==> Fires(s, ev, k) || (k in s.undead && !Settles(s, ev, k))
  {
    if ev.Step? && Admitted(s.server, ev.ev).Some? { SettleKeys(s.undead, Admitted(s.server, ev.ev).value, k); }
  }

  /** For each event of a run, whether the key fires at it. */
  function FiresAt(s: Watched, evs: seq<Event>, k: string): (flags: seq<bool>)
    ensures |flags| == |evs|
  {
    if evs == [] then []
    else
      var n := |evs| - 1;
      FiresAt(s, evs[..n], k) + [Fires(After(s, evs[..n]), evs[n], k)]
  }

  /** For each event of a run, whether it settles the key. */
  function SettlesAt(s: Watched, evs: seq<Event>, k: string): (flags: seq<bool>)
    ensures |flags| == |evs|
  {
    if evs == [] then []
    else
      var n := |evs| - 1;
      SettlesAt(s, evs[..n], k) + [Settles(After(s, evs[..n]), evs[n], k)]
  }

  /** It fires at some event and is settled at no later one. */
  ghost predicate FiredForGood(fires: seq<bool>, settles: seq<bool>)
    requires |fires| == |settles|
  {
    exists i :: 0 <= i < |fires| && fires[i] && forall j :: i < j < |settles| ==> !settles[j]
  }

  lemma FiredStep(fires: seq<bool>, settles: seq<bool>, fire: bool, settle: bool)
    requires |fires| == |settles|
    ensures FiredForGood(fires + [fire], settles + [settle]) <==> fire || (FiredForGood(fires, settles) && !settle)
  {
    var f, t, n := fires + [fire], settles + [settle], |fires|;
    if fire { assert f[n]; }
    if FiredForGood(fires, settles) && !settle {
      var i :| 0 <= i < n && fires[i] && forall j :: i < j < n ==> !settles[j];
      assert f[i] && forall j :: i < j < |t| ==> !t[j];
    }
    if FiredForGood(f, t) && !fire {
      var i :| 0 <= i < |f| && f[i] && forall j :: i < j < |t| ==> !t[j];
      assert i < n && fires[i] && !t[n];
      assert forall j :: i < j < n ==> settles[j] == t[j];
    }
  }

  lemma {:induction false} AfterLast(s: Watched, evs: seq<Event>)
    requires evs != []
    ensures After(s, evs) == Apply(After(s, evs[..|evs| - 1]), evs[|evs| - 1])
    decreases |evs|
  {
    if |evs| == 1 {
      assert evs[..0] == [] && evs[1..] == [];
    } else {
      AfterLast(Apply(s, evs[0]), evs[1..]);
      assert evs[..|evs| - 1][1..] == evs[1..][..|evs| - 2];
    }
  }

  /** Which keys are undead, read off the run: those that fired while stored, with no snapshot, restart, SET
      or DEL of them since. */
  lemma {:induction false} UndeadIffFiredAndNotSettled(evs: seq<Event>, k: string)
    ensures k in After(START, evs).undead <==> FiredForGood(FiresAt(START, evs, k), SettlesAt(START, evs, k))
    decreases |evs|
  {
    if evs != [] {
      var n := |evs| - 1;
      var s := After(START, evs[..n]);
      UndeadIffFiredAndNotSettled(evs[..n], k);
      AfterLast(START, evs);
      UndeadStep(s, evs[n], k);
      FiredStep(FiresAt(START, evs[..n], k), SettlesAt(START, evs[..n], k), Fires(s, evs[n], k), Settles(s, evs[n], k));
    }
  }

  /** No counter command is logged for a key that has fired and not been settled. */
  ghost predicate NoCounterOnUndead(s: Watched, evs: seq<Event>)
    decreases |evs|
  {
    evs != [] ==>
      && (evs[0].Step? && Admitted(s.server, evs[0].ev).Some? ==>
            var cmd := Admitted(s.server, evs[0].ev).value;
            cmd.kind in {INCR, DECR} && |cmd.args| == 1 ==> cmd.args[0] !in s.undead)
      && NoCounterOnUndead(Apply(s, evs[0]), evs[1..])
  }

  ghost predicate Apart(s: Watched) { forall k :: k in s.undead ==> k !in MapOf(s.server.db.entries) }

  lemma LineKeepsApart(s: Watched, cmd: Command, line: Line, now: Expiry.Time)
    requires s.server.db.capacity == 0 && Apart(s)
    requires cmd.kind in {INCR, DECR} && |cmd.args| == 1 ==> cmd.args[0] !in s.undead
    ensures Apart(Watched(D.ExecuteAndRecord(s.server, cmd, line, now), UndeadAfterLine(s, cmd, line, now)))
  {
    var m := MapOf(s.server.db.entries);
    ExecIsMapStep(s.server.db, cmd, now);
    assert D.ExecuteAndRecord(s.server, cmd, line, now).db == Exec(s.server.db, cmd, now).db;
    if !Logged(s.server.db, cmd, now) {
      UnloggedChangesNothing(s.server.db, cmd, now);
    } else {
      forall k | k in Settle(s.undead, cmd) ensures k !in MapStep(m, cmd) { PresenceStep(m, cmd, k); }
    }
  }

  lemma StepKeepsApart(s: Watched, ev: D.Event)
    requires s.server.db.capacity == 0 && Apart(s)
    requires Admitted(s.server, ev).Some? ==>
               var cmd := Admitted(s.server, ev).value;
               cmd.kind in {INCR, DECR} && |cmd.args| == 1 ==> cmd.args[0] !in s.undead
    ensures Apart(Apply(s, Step(ev)))
  {
    if ev.Client? || ev.FromPrimary? {
      AdmittedIsExecuted(s.server, ev);
      if Admitted(s.server, ev).Some? { LineKeepsApart(s, Admitted(s.server, ev).value, ev.line, ev.now); }
    }
  }

  lemma {:induction false} ApartAlways(s: Watched, evs: seq<Event>)
    requires Inv(s) && Apart(s) && SavesFit(s, evs) && NoCounterOnUndead(s, evs)
    ensures Apart(After(s, evs))
    decreases |evs|
  {
    if evs != [] {
      match evs[0] {
        case Step(ev) =>
          StepKeepsApart(s, ev);
          StepKeepsInv(s, ev);
        case Fire(k) =>
          FireKeepsInv(s, k);
          MapRemove(s.server.db.entries, k);
      }
      ApartAlways(Apply(s, evs[0]), evs[1..]);
    }
  }

  /** If counters of fired keys are left alone, recovery adds to the live contents exactly the undead keys,
      none of which is live; so it is exact if and only if there are none. */
  lemma RecoveryAddsExactlyUndead(evs: seq<Event>, clock: nat -> Expiry.Time)
    requires SavesFit(START, evs) && NoCounterOnUndead(START, evs)
    ensures var s := After(START, evs);
            var live, back := MapOf(s.server.db.entries), MapOf(D.Recovered(s.server, clock).entries);
            && back.Keys == live.Keys + s.undead.Keys && live.Keys !! s.undead.Keys
            && back == live + s.undead
            && (back == live <==> s.undead == map[])
  {
    RecoveryBringsBackFiredKeys(evs, clock);
    assert D.OnDisk(D.Fresh(0)) == [];
    InStepIsInv(D.Fresh(0));
    ApartAlways(START, evs);
    var s := After(START, evs);
    if s.undead != map[] {
      var k :| k in s.undead;
      assert k !in MapOf(s.server.db.entries);
    }
  }

  /** Recovery contradicts the promise of the data "exactly as it was" with two events: a key is set with a
      deadline, and expires. It is gone, and after a restart it is back. */
  lemma ExpiredKeyComesBack(k: string, v: string, line: Line, now: Expiry.Time, clock: nat -> Expiry.Time)
    requires Parse(line) == Request(Command(SET, "SET", [k, v, "EX", "1"]))
    ensures var s := After(START, [Step(D.Client(line, now)), Fire(k)]);
            && MapOf(s.server.db.entries) == map[]
            && MapOf(D.Recovered(s.server, clock).entries) == map[k := v]
  {
    SetWithDeadline(k, v, line, now);
    FireOnlyKey(Apply(START, Step(D.Client(line, now))), k, v);
    AfterTwo(START, Step(D.Client(line, now)), Fire(k));
    RecoveryBringsBackFiredKeys([Step(D.Client(line, now)), Fire(k)], clock);
  }

  lemma AfterTwo(s: Watched, a: Event, b: Event)
    ensures After(s, [a, b]) == Apply(Apply(s, a), b)
  {
    assert [a, b][1..] == [b] && [b][1..] == [];
    assert After(Apply(s, a), [b]) == After(Apply(Apply(s, a), b), []);
  }

  lemma FireOnlyKey(s: Watched, k: string, v: string)
    requires s.server.db.entries == [Entry(k, v)] && s.undead == map[]
    ensures MapOf(Apply(s, Fire(k)).server.db.entries) == map[] && Apply(s, Fire(k)).undead == map[k := v]
  {
    var es := [Entry(k, v)];
    assert es[1..] == [] && MapOf(es) == map[k := v];
    MapRemove(es, k);
  }

  lemma SetWithDeadline(k: string, v: string, line: Line, now: Expiry.Time)
    requires Parse(line) == Request(Command(SET, "SET", [k, v, "EX", "1"]))
    ensures var s := Apply(START, Step(D.Client(line, now)));
            s.server.db.entries == [Entry(k, v)] && s.undead == map[]
    ensures SavesFit(START, [Step(D.Client(line, now)), Fire(k)])
  {
    var cmd := Command(SET, "SET", [k, v, "EX", "1"]);
    var a, b := Step(D.Client(line, now)), Fire(k);
    assert Tokenize("") == [];
    assert Decimal(1) == "1";
    PositiveSecondsDecimal(1);
    assert EqualsIgnoreCase("EX", "EX");
    assert Set([], 0, k, v) == [Entry(k, v)];
    assert Exec(Empty(0), cmd, now) == ExecSet(Empty(0), cmd, now);
    assert [a, b][1..] == [b] && [b][1..] == [];
    assert SavesFit(Apply(Apply(START, a), b), []);
    assert SavesFit(Apply(START, a), [b]);
  }
}
