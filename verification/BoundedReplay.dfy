/** Recovery of a store of any capacity, down to the recency order: when the files on disk rebuild the
    very same list, with the same evictions and deadlines on the same keys. */
module BoundedReplay {
  import opened Text
  import opened Protocol
  import opened Lru
  import opened Executor
  import opened Contents
  import opened Snapshot
  import opened Durability
  import Connection
  import TtlTable
  import Expiry

  /** Recovery reproduces the recency list and the keys with a deadline, at any replay times. */
  ghost predicate Exact(s: Server) {
    Terminated(s.aof) && forall clock :: SameShape(Recovered(s, clock), s.db)
  }

  // ---------------------------------------------------------------- what keeps it exact

  lemma ReplayOneMore(start: Db, disk: seq<Line>, db: Db, line: Line, clock: nat -> Expiry.Time, now: Expiry.Time)
    requires SameShape(Replay(start, disk, clock), db) && Parse(line).Request?
    ensures SameShape(Replay(start, disk + [line], clock), Exec(db, Parse(line).cmd, now).db)
  {
    ReplaySnoc(start, disk, line, clock);
    assert Tokenize("") == [];
    ShapeStep(Replay(start, disk, clock), db, Parse(line).cmd, clock(|disk|), now);
  }

  lemma RecordIsExact(s: Server, cmd: Command, line: Line, now: Expiry.Time)
    requires Exact(s) && Parse(line) == Request(cmd)
    ensures Exact(RecordWrite(s.(db := Exec(s.db, cmd, now).db), line))
  {
    var after := RecordWrite(s.(db := Exec(s.db, cmd, now).db), line);
    GetLinesAppend(s.aof, line);
    assert OnDisk(after) == OnDisk(s) + [line];
    CapacityIsFixed(s.db, cmd, now);
    forall clock: nat -> Expiry.Time ensures SameShape(Recovered(after, clock), after.db) {
      assert SameShape(Recovered(s, clock), s.db);
      ReplayOneMore(Empty(s.db.capacity), OnDisk(s), s.db, line, clock, now);
    }
  }

  lemma CapacityIsFixed(db: Db, cmd: Command, now: Expiry.Time)
    ensures Exec(db, cmd, now).db.capacity == db.capacity
  {
  }

  /** A change that does not reach the disk keeps recovery exact if and only if it keeps the shape. */
  lemma UnrecordedIsExactIff(s: Server, db: Db, role: Role)
    requires Exact(s) && db.capacity == s.db.capacity
    ensures Exact(s.(db := db, role := role)) <==> SameShape(s.db, db)
  {
    var after := s.(db := db, role := role);
    assert OnDisk(after) == OnDisk(s);
    assert forall clock :: Recovered(after, clock) == Recovered(s, clock);
    var clock: nat -> Expiry.Time := (_: nat) => 0;
    assert SameShape(Recovered(s, clock), s.db);
  }

  lemma RemoveFront(es: Entries)
    requires es != [] && Distinct(es)
    ensures Remove(es, es[0].key) == es[1..]
  {
    LookupIndex(es[1..], es[0].key);
    RemoveFacts(es[1..], es[0].key);
  }

  lemma TouchIsIdentityIff(es: Entries, k: string)
    requires Distinct(es)
    ensures Touch(es, k) == es <==> !Has(es, k) || es[0].key == k
  {
    if Has(es, k) {
      var v := Lookup(es, k).value;
      assert ([Entry(k, v)] + Remove(es, k))[0] == Entry(k, v);
      if es[0].key == k {
        RemoveFront(es);
        assert es == [es[0]] + es[1..];
      }
    }
  }

  lemma {:induction false} KeptLength(es: Entries)
    ensures |Kept(es)| <= |es|
    ensures |Kept(es)| == |es| <==> AllFit(es)
  {
    if es != [] {
      var init, last := es[..|es| - 1], es[|es| - 1];
      KeptLength(init);
      assert es == init + [last];
    }
  }

  lemma ReversalIsIdentityIff(es: Entries)
    requires Distinct(es)
    ensures Reverse(es) == es <==> |es| <= 1
  {
    if |es| == 1 {
      assert es[..0] == [] && Reverse(es) == [es[0]] + [];
    } else if |es| > 1 {
      assert Reverse(es)[0] == es[|es| - 1];
    }
  }

  /** A reload comes back in reverse, so it is the same list only if there is nothing to reverse. */
  lemma ReloadIsIdentityIff(es: Entries, capacity: nat)
    requires Valid(es, capacity)
    ensures Trim(Reverse(Kept(es)), capacity) == es <==> AllFit(es) && |es| <= 1
  {
    KeptLength(es);
    KeptDistinct(es);
    var loaded := Reverse(Kept(es));
    ReverseMembers(Kept(es), Entry("", ""));
    assert Trim(loaded, capacity) == loaded;
    if AllFit(es) { ReversalIsIdentityIff(es); }
  }

  /** A snapshot, which keeps neither order nor deadlines, is exact only of one entry at most. */
  predicate NothingToLose(db: Db) { AllFit(db.entries) && |db.entries| <= 1 && db.deadlines == map[] }

  lemma RecoveredAfterSave(s: Server, clock: nat -> Expiry.Time)
    requires Good(s.db)
    ensures var es, c := s.db.entries, s.db.capacity;
            Recovered(Save(s), clock) == Db(Trim(Reverse(Kept(es)), c), c, map[])
  {
    DumpReadsBack(s.db.entries);
    assert OnDisk(Save(s)) == DumpLines(s.db.entries);
    LoadReverses(s.db.entries, s.db.capacity, clock);
  }

  lemma SameShapeAfterSaveIff(s: Server, clock: nat -> Expiry.Time)
    requires Good(s.db)
    ensures SameShape(Recovered(Save(s), clock), s.db) <==> NothingToLose(s.db)
  {
    RecoveredAfterSave(s, clock);
    ReloadIsIdentityIff(s.db.entries, s.db.capacity);
    assert s.db.deadlines == map[] <==> s.db.deadlines.Keys == {};
  }

  lemma SaveIsExactIff(s: Server)
    requires Good(s.db)
    ensures Exact(Save(s)) <==> NothingToLose(s.db)
  {
    var epoch: nat -> Expiry.Time := (_: nat) => 0;
    SameShapeAfterSaveIff(s, epoch);
    forall clock: nat -> Expiry.Time ensures SameShape(Recovered(Save(s), clock), Save(s).db) <==> NothingToLose(s.db) {
      SameShapeAfterSaveIff(s, clock);
    }
  }

  /** A deadline that fires is not logged either: recovery stays exact if and only if it finds neither the
      key nor a deadline. */
  lemma FireIsExactIff(s: Server, k: string)
    requires Exact(s) && Good(s.db)
    ensures Exact(s.(db := TtlTable.Fire(s.db, k))) <==> !Has(s.db.entries, k) && k !in s.db.deadlines
  {
    var fired := TtlTable.Fire(s.db, k);
    UnrecordedIsExactIff(s, fired, s.role);
    RemoveFacts(s.db.entries, k);
    assert k in s.db.deadlines <==> fired.deadlines.Keys != s.db.deadlines.Keys;
  }

  // ---------------------------------------------------------------- the exact condition, step by step

  /** GET moves an entry without being logged, unless it finds nothing or finds it at the front. */
  predicate KeepsOrder(db: Db, cmd: Command) {
    match cmd.kind
    case GET => |cmd.args| == 1 && Has(db.entries, cmd.args[0]) ==> db.entries[0].key == cmd.args[0]
    case SAVE => cmd.args == [] ==> NothingToLose(db)
    case _ => true
  }

  predicate EventKeepsOrder(s: Server, ev: Event) {
    match ev
    case TimerSave => NothingToLose(s.db)
    case Restart(_) => true
    case _ => Parse(ev.line).Request? ==> KeepsOrder(s.db, Parse(ev.line).cmd)
  }

  lemma GetIsExactIff(s: Server, cmd: Command, line: Line, now: Expiry.Time)
    requires Exact(s) && Good(s.db) && cmd.kind == GET
    ensures Exact(ExecuteAndRecord(s, cmd, line, now)) <==> KeepsOrder(s.db, cmd)
  {
    var out := Exec(s.db, cmd, now);
    assert ExecuteAndRecord(s, cmd, line, now) == s.(db := out.db, role := s.role);
    CapacityIsFixed(s.db, cmd, now);
    UnrecordedIsExactIff(s, out.db, s.role);
    if |cmd.args| == 1 { TouchIsIdentityIff(s.db.entries, cmd.args[0]); }
  }

  lemma ExecuteIsExactIff(s: Server, cmd: Command, line: Line, now: Expiry.Time)
    requires Exact(s) && Good(s.db) && Parse(line) == Request(cmd)
    ensures Exact(ExecuteAndRecord(s, cmd, line, now)) <==> KeepsOrder(s.db, cmd)
  {
    if cmd.kind == GET {
      GetIsExactIff(s, cmd, line, now);
    } else if Logged(s.db, cmd, now) {
      LoggedHasNoEffect(s.db, cmd, now);
      RecordIsExact(s, cmd, line, now);
    } else {
      UnloggedChangesNothing(s.db, cmd, now);
      var after := ExecuteAndRecord(s, cmd, line, now);
      if Exec(s.db, cmd, now).effect == SaveSnapshot {
        SaveEffect(s.db, cmd, now);
        SaveIsExactIff(s);
      } else {
        UnrecordedIsExactIff(s, s.db, after.role);
      }
    }
  }

  /** From a state that recovers exactly, an event leads to one that does, if and only if it is no GET that
      moves an entry and no snapshot of anything that a snapshot cannot hold. */
  lemma StepIsExactIff(s: Server, ev: Event)
    requires Exact(s) && Good(s.db)
    ensures Exact(Durability.Apply(s, ev)) <==> EventKeepsOrder(s, ev)
  {
    match ev
    case TimerSave => SaveIsExactIff(s);
    case Restart(clock) => UnrecordedIsExactIff(s, Recovered(s, clock), PRIMARY);
    case _ => if Parse(ev.line).Request? { ExecuteIsExactIff(s, Parse(ev.line).cmd, ev.line, ev.now); }
  }

  // ---------------------------------------------------------------- runs

  ghost predicate OrderKept(s: Server, evs: seq<Event>)
    decreases |evs|
  {
    evs != [] ==> EventKeepsOrder(s, evs[0]) && OrderKept(Durability.Apply(s, evs[0]), evs[1..])
  }

  lemma {:induction false} ExactAlways(s: Server, evs: seq<Event>)
    requires Exact(s) && Connection.Sound(s.db) && OrderKept(s, evs)
    ensures Exact(Durability.Run(s, evs))
    decreases |evs|
  {
    if evs != [] {
      StepIsExactIff(s, evs[0]);
      Connection.StepKeepsSound(s, evs[0]);
      ExactAlways(Durability.Apply(s, evs[0]), evs[1..]);
    }
  }

  /** In every run whose GETs find nothing or the front entry, and whose snapshots are of one entry at most
      without a deadline, the files rebuild the very same recency list, with the same evictions and with
      deadlines on the same keys, whatever the capacity and across restarts. */
  lemma BoundedReplayIsExact(capacity: nat, evs: seq<Event>)
    requires OrderKept(Fresh(capacity), evs)
    ensures Exact(Durability.Run(Fresh(capacity), evs))
  {
    assert OnDisk(Fresh(capacity)) == [];
    ExactAlways(Fresh(capacity), evs);
  }

  // ---------------------------------------------------------------- a GET that changes an eviction

  lemma ParseGet(k: string)
    requires IsToken(k) && |k| <= MAX_LINE - 4
    ensures Parse("GET " + k) == Request(Command(GET, "GET", [k]))
  {
    assert IsToken("GET") && "GET" + " " + k == "GET " + k;
    KeyRequests("GET", k);
  }

  /** A server that has only ever stored entries: the list and the log. */
  function Holding(entries: Entries, logged: seq<Line>): Server {
    Server(Db(entries, 2, map[]), PRIMARY, None, Unlines(logged))
  }

  lemma UnlinesSnoc(ls: seq<Line>, l: Line)
    ensures Unlines(ls + [l]) == Unlines(ls) + (l + "\n")
  {
    if ls != [] {
      UnlinesSnoc(ls[1..], l);
      assert (ls + [l])[1..] == ls[1..] + [l];
    }
  }

  lemma SetIsHandled(es: Entries, logged: seq<Line>, e: Entry, now: Expiry.Time)
    requires Storable(e) && Fits(e)
    ensures Durability.Apply(Holding(es, logged), Client(DumpLine(e), now))
            == Holding(Set(es, 2, e.key, e.value), logged + [DumpLine(e)])
  {
    ParseSnapshotLine(e);
    UnlinesSnoc(logged, DumpLine(e));
    var s, cmd := Holding(es, logged), Command(SET, "SET", [e.key, e.value]);
    assert Exec(s.db, cmd, now) == ExecSet(s.db, cmd, now);
    assert s.db.deadlines - {e.key} == map[];
    assert DumpLine(e)[0] == 'S';
  }

  lemma GetIsHandled(es: Entries, logged: seq<Line>, k: string, line: Line, now: Expiry.Time)
    requires IsToken(k) && |k| <= MAX_LINE - 4 && line == "GET " + k
    ensures Durability.Apply(Holding(es, logged), Client(line, now)) == Holding(Touch(es, k), logged)
  {
    ParseGet(k);
    var s := Holding(es, logged);
    assert Exec(s.db, Command(GET, "GET", [k]), now) == ExecGet(s.db, k);
    assert line[0] == 'G';
  }

  lemma TwoEntries(a: Entry, b: Entry)
    requires a.key != b.key
    ensures Set([], 2, a.key, a.value) == [a] && Set([a], 2, b.key, b.value) == [b, a]
    ensures Touch([b, a], a.key) == [a, b]
  {
    assert [a][1..] == [] && [b, a][1..] == [a];
    assert Lookup([a], a.key) == Some(a.value) && Remove([a], a.key) == [];
    assert Lookup([a], b.key) == Lookup([], b.key);
    assert [Entry(b.key, b.value)] + [a] == [b, a];
  }

  /** With room for two: set a, set b, get a, set c. The live store has evicted b, and the one rebuilt from
      the log has evicted a. */
  lemma GetChangesEviction(a: Entry, b: Entry, c: Entry, get: Line, now: Expiry.Time, clock: nat -> Expiry.Time)
    requires AllStorable([a, b, c]) && AllFit([a, b, c]) && Distinct([a, b, c]) && get == "GET " + a.key
    ensures Storable(a) && Storable(b) && Storable(c)
    ensures var s := Durability.Run(Fresh(2), [Client(DumpLine(a), now), Client(DumpLine(b), now), Client(get, now),
                                               Client(DumpLine(c), now)]);
            s.db.entries == [c, a] && Recovered(s, clock).entries == [c, b]
  {
    var all := [a, b, c];
    assert a == all[0] && b == all[1] && c == all[2];
    var log := [DumpLine(a), DumpLine(b), DumpLine(c)];
    TwoEntries(a, b);
    GetDecidesEviction(a, b, c);
    GetRun(a, b, c, get, now);
    GetLinesUnlines(log);
    assert OnDisk(Holding([c, a], log)) == log;
    ReplayThree(a, b, c, clock);
  }

  lemma RunFour(s: Server, t: Server, u: Server, v: Server, w: Server, a: Event, b: Event, c: Event, d: Event)
    requires t == Durability.Apply(s, a) && u == Durability.Apply(t, b)
    requires v == Durability.Apply(u, c) && w == Durability.Apply(v, d)
    ensures Durability.Run(s, [a, b, c, d]) == w
  {
    RunTwo(u, c, d);
    RunCons(t, b, [c, d]);
    RunCons(s, a, [b] + [c, d]);
    assert [a] + ([b] + [c, d]) == [a, b, c, d];
  }

  lemma SetBoth(a: Entry, b: Entry, now: Expiry.Time)
    requires Storable(a) && Storable(b) && Fits(a) && Fits(b) && a.key != b.key
    ensures Durability.Apply(Fresh(2), Client(DumpLine(a), now)) == Holding([a], [DumpLine(a)])
    ensures Durability.Apply(Holding([a], [DumpLine(a)]), Client(DumpLine(b), now))
            == Holding([b, a], [DumpLine(a), DumpLine(b)])
  {
    TwoEntries(a, b);
    SetIsHandled([], [], a, now);
    SetIsHandled([a], [DumpLine(a)], b, now);
    assert [] + [DumpLine(a)] == [DumpLine(a)] && [DumpLine(a)] + [DumpLine(b)] == [DumpLine(a), DumpLine(b)];
  }

  lemma GetRun(a: Entry, b: Entry, c: Entry, get: Line, now: Expiry.Time)
    requires Storable(a) && Storable(b) && Storable(c) && Fits(a) && Fits(b) && Fits(c) && get == "GET " + a.key
    requires a.key != b.key && Set([a, b], 2, c.key, c.value) == [c, a]
    ensures Durability.Run(Fresh(2), [Client(DumpLine(a), now), Client(DumpLine(b), now), Client(get, now),
                                      Client(DumpLine(c), now)])
            == Holding([c, a], [DumpLine(a), DumpLine(b), DumpLine(c)])
  {
    var la, lb, lc := DumpLine(a), DumpLine(b), DumpLine(c);
    SetBoth(a, b, now);
    TwoEntries(a, b);
    GetIsHandled([b, a], [la, lb], a.key, get, now);
    SetIsHandled([a, b], [la, lb], c, now);
    assert [la, lb] + [lc] == [la, lb, lc];
    RunFour(Fresh(2), Holding([a], [la]), Holding([b, a], [la, lb]), Holding([a, b], [la, lb]),
            Holding([c, a], [la, lb, lc]), Client(la, now), Client(lb, now), Client(get, now), Client(lc, now));
  }

  lemma ReplayThree(a: Entry, b: Entry, c: Entry, clock: nat -> Expiry.Time)
    requires Storable(a) && Storable(b) && Storable(c) && Fits(a) && Fits(b) && Fits(c)
    requires a.key != b.key && Set([b, a], 2, c.key, c.value) == [c, b]
    ensures Replay(Empty(2), [DumpLine(a), DumpLine(b), DumpLine(c)], clock).entries == [c, b]
  {
    var la, lb, lc := DumpLine(a), DumpLine(b), DumpLine(c);
    TwoEntries(a, b);
    assert [la, lb, lc][..2] == [la, lb] && [la, lb][..1] == [la] && [la][..0] == [];
    ReplaySnapshotLine(Empty(2), a, clock(0));
    assert Replay(Empty(2), [la], clock) == Db([a], 2, map[]);
    ReplaySnapshotLine(Db([a], 2, map[]), b, clock(1));
    assert Replay(Empty(2), [la, lb], clock) == Db([b, a], 2, map[]);
    ReplaySnapshotLine(Db([b, a], 2, map[]), c, clock(2));
  }
}
