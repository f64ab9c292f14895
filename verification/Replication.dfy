/** One primary, one replica that starts empty, and the stream of lines between them. Registration,
    capturing the dump and sending it are separate steps, as they are in the program: writes may
    come between any two of them. Executing a write and propagating its line is one step, no
    deadline fires and both stores are unbounded. */
module Replication {
  import opened Text
  import opened Protocol
  import opened Lru
  import opened Executor
  import opened Contents
  import opened Snapshot
  import D = Durability
  import Expiry

  /** Where the SYNC connection stands. Once the dump is sent, `dumpEnd` is the length the stream had
      right then and `history` holds the primary's contents then and after each later line. */
  datatype Phase =
    | Detached
    | Registered
    | Captured(dump: Entries)
    | Streaming(dumpEnd: nat, history: seq<Contents>)

  /** `stream` is everything written to the replica's connection; the replica has executed the first
      `applied` lines of it. */
  datatype Link = Link(primary: Db, replica: Db, phase: Phase, stream: seq<Line>, applied: nat)

  datatype Event =
    | PrimaryRequest(line: Line, now: Expiry.Time)
    | ReplicaRequest(line: Line, now: Expiry.Time)
    | Register
    | Capture
    | Send
    | ApplyNext(now: Expiry.Time)

  predicate Enabled(l: Link, ev: Event) {
    match ev
    case PrimaryRequest(_, _) => true
    case ReplicaRequest(_, _) => true
    case Register => l.phase == Detached
    case Capture => l.phase == Registered
    case Send => l.phase.Captured?
    case ApplyNext(_) => l.applied < |l.stream|
  }

  /** Appends a propagated line, and to the history the contents it led to. */
  function Propagate(l: Link, line: Line): Link {
    if l.phase.Detached? then l
    else
      var phase := if l.phase.Streaming?
                   then l.phase.(history := l.phase.history + [MapOf(l.primary.entries)]) else l.phase;
      l.(stream := l.stream + [line], phase := phase)
  }

  function PrimaryStep(l: Link, line: Line, now: Expiry.Time): Link {
    match Parse(line)
    case ProtocolError(_) => l
    case Request(cmd) =>
      var executed := l.(primary := Exec(l.primary, cmd, now).db);
      if Logged(l.primary, cmd, now) then Propagate(executed, line) else executed
  }

  /** A client of the replica: its writes are rejected, its reads are executed. */
  function ReplicaStep(l: Link, line: Line, now: Expiry.Time): Link {
    match Parse(line)
    case ProtocolError(_) => l
    case Request(cmd) => if IsWrite(cmd.kind) then l else l.(replica := Exec(l.replica, cmd, now).db)
  }

  function Apply(l: Link, ev: Event): Link
    requires Enabled(l, ev)
  {
    match ev
    case PrimaryRequest(line, now) => PrimaryStep(l, line, now)
    case ReplicaRequest(line, now) => ReplicaStep(l, line, now)
    case Register => l.(phase := Registered)
    case Capture => l.(phase := Captured(l.primary.entries))
    case Send =>
      var stream := l.stream + GetLines(Dump(l.phase.dump));
      l.(stream := stream, phase := Streaming(|stream|, [MapOf(l.primary.entries)]))
    case ApplyNext(now) =>
      l.(replica := ReplayLine(l.replica, l.stream[l.applied], now), applied := l.applied + 1)
  }

  // ---------------------------------------------------------------- invariant

  /** What the replica will hold once it has executed everything written so far. */
  ghost function Drained(l: Link): Contents { Fold(map[], l.stream) }

  ghost predicate PhaseInv(l: Link) {
    var p := MapOf(l.primary.entries);
    match l.phase
    case Detached => l.stream == []
    case Registered => Drained(l).Keys <= p.Keys
    case Captured(dump) =>
      && AllStorable(dump) && Distinct(dump)
      && Drained(l).Keys <= p.Keys
      && forall k :: k !in MapOf(dump) ==> AgreeOn(Drained(l), p, k)
    case Streaming(dumpEnd, history) =>
      Matches(l.stream, dumpEnd, history) && history[|history| - 1] == p
  }

  ghost predicate Inv(l: Link) {
    && Good(l.primary) && l.primary.capacity == 0
    && Good(l.replica) && l.replica.capacity == 0
    && l.applied <= |l.stream|
    && MapOf(l.replica.entries) == Fold(map[], l.stream[..l.applied])
    && PhaseInv(l)
  }

  /** Every pair is still what the primary holds. */
  predicate StillHolds(dump: Contents, p: Contents) {
    forall k :: k in dump ==> k in p && p[k] == dump[k]
  }

  /** The condition under which sending a captured dump brings the replica in step. A dump line the
      replica can read overwrites what was propagated before it, so its pair must still hold. A dump
      line over the limit is skipped, so the lines propagated since registration must have made its key
      what it is. */
  ghost predicate InStepAfterSend(l: Link)
    requires l.phase.Captured?
  {
    var read, p := MapOf(Kept(l.phase.dump)), MapOf(l.primary.entries);
    && StillHolds(read, p)
    && forall k :: k in MapOf(l.phase.dump) && k !in read ==> AgreeOn(Drained(l), p, k)
  }

  lemma SendAddsKept(l: Link)
    requires l.phase.Captured? && AllStorable(l.phase.dump) && Distinct(l.phase.dump)
    ensures GetLines(Dump(l.phase.dump)) == DumpLines(l.phase.dump)
    ensures Drained(Apply(l, Send)) == Drained(l) + MapOf(Kept(l.phase.dump))
  {
    DumpReadsBack(l.phase.dump);
    FoldAppend(map[], l.stream, DumpLines(l.phase.dump));
    FoldDump(Drained(l), l.phase.dump);
  }

  /** The exact condition for the dump to leave the replica in step, for every dump. */
  lemma SendIsInStepIff(l: Link)
    requires Inv(l) && Enabled(l, Send)
    ensures Drained(Apply(l, Send)) == MapOf(l.primary.entries) <==> InStepAfterSend(l)
  {
    var dump, read, p := MapOf(l.phase.dump), MapOf(Kept(l.phase.dump)), MapOf(l.primary.entries);
    SendAddsKept(l);
    var drained := Drained(l) + read;
    if InStepAfterSend(l) {
      forall k ensures AgreeOn(drained, p, k) {
        if k !in dump { KeptIsPart(l.phase.dump, k); assert AgreeOn(Drained(l), p, k); }
      }
      SameByKey(drained, p);
    } else if k :| k in read && !(k in p && p[k] == read[k]) {
      assert drained[k] == read[k];
    } else {
      var k :| k in dump && k !in read && !AgreeOn(Drained(l), p, k);
      assert AgreeOn(drained, Drained(l), k);
    }
  }

  lemma KeptIsPart(es: Entries, k: string)
    requires Distinct(es)
    ensures k in MapOf(Kept(es)) ==> k in MapOf(es)
    ensures AllFit(es) ==> Kept(es) == es
  {
    KeptDistinct(es);
    LookupMap(Kept(es), k);
    LookupMap(es, k);
    LookupIndex(Kept(es), k);
    LookupIndex(es, k);
    if Has(Kept(es), k) { KeptMembers(es, Entry(k, Lookup(Kept(es), k).value)); }
  }

  /** When every dump line is short enough to be read, that is: no captured pair has changed. */
  lemma SendOfShortDumpIsInStepIff(l: Link)
    requires Inv(l) && Enabled(l, Send) && AllFit(l.phase.dump)
    ensures Drained(Apply(l, Send)) == MapOf(l.primary.entries)
            <==> StillHolds(MapOf(l.phase.dump), MapOf(l.primary.entries))
  {
    SendIsInStepIff(l);
    KeptIsPart(l.phase.dump, "");
  }

  // ---------------------------------------------------------------- each step keeps it

  lemma PropagateKeepsInv(l: Link, cmd: Command, line: Line, db: Db)
    requires Inv(l) && Parse(line) == Request(cmd)
    requires Good(db) && db.capacity == 0 && MapOf(db.entries) == MapStep(MapOf(l.primary.entries), cmd)
    ensures Inv(Propagate(l.(primary := db), line))
  {
    var after := Propagate(l.(primary := db), line);
    var p, p' := MapOf(l.primary.entries), MapOf(db.entries);
    if !l.phase.Detached? {
      FoldOne(map[], l.stream, line);
      assert after.stream[..l.applied] == l.stream[..l.applied];
      assert Drained(after) == MapStep(Drained(l), cmd);
      match l.phase
      case Registered => MapStepMonotone(Drained(l), p, cmd);
      case Captured(dump) =>
        MapStepMonotone(Drained(l), p, cmd);
        forall k | k !in MapOf(dump) ensures AgreeOn(Drained(after), p', k) {
          MapStepIsLocal(Drained(l), p, cmd, k);
        }
      case Streaming(dumpEnd, history) => MatchesGrows(l.stream, dumpEnd, history, line);
    }
  }

  /** The history matches the stream: its i-th entry is what the stream up to `dumpEnd + i` yields. */
  ghost predicate Matches(stream: seq<Line>, dumpEnd: nat, history: seq<Contents>) {
    && history != [] && |stream| == dumpEnd + |history| - 1
    && forall i :: 0 <= i < |history| ==> Fold(map[], stream[..dumpEnd + i]) == history[i]
  }

  lemma MatchesGrows(stream: seq<Line>, dumpEnd: nat, history: seq<Contents>, line: Line)
    requires Matches(stream, dumpEnd, history)
    ensures Matches(stream + [line], dumpEnd, history + [LineStep(history[|history| - 1], line)])
  {
    FoldOne(map[], stream, line);
    var grown := history + [LineStep(history[|history| - 1], line)];
    forall i | 0 <= i < |grown| ensures Fold(map[], (stream + [line])[..dumpEnd + i]) == grown[i] {
      if i < |history| {
        assert (stream + [line])[..dumpEnd + i] == stream[..dumpEnd + i];
      } else {
        assert (stream + [line])[..dumpEnd + i] == stream + [line];
        assert stream[..dumpEnd + |history| - 1] == stream;
      }
    }
  }

  lemma PrimaryKeepsInv(l: Link, line: Line, now: Expiry.Time)
    requires Inv(l)
    ensures Inv(PrimaryStep(l, line, now))
  {
    if Parse(line).Request? {
      var cmd := Parse(line).cmd;
      PrintParse(line);
      ExecKeepsGood(l.primary, cmd, now);
      ExecIsMapStep(l.primary, cmd, now);
      if Logged(l.primary, cmd, now) {
        PropagateKeepsInv(l, cmd, line, Exec(l.primary, cmd, now).db);
      } else {
        UnloggedChangesNothing(l.primary, cmd, now);
      }
    }
  }

  lemma ReplicaKeepsInv(l: Link, line: Line, now: Expiry.Time)
    requires Inv(l)
    ensures Inv(ReplicaStep(l, line, now))
  {
    if Parse(line).Request? && !IsWrite(Parse(line).cmd.kind) {
      var cmd := Parse(line).cmd;
      PrintParse(line);
      ExecKeepsGood(l.replica, cmd, now);
      ExecIsMapStep(l.replica, cmd, now);
      UnloggedChangesNothing(l.replica, cmd, now);
    }
  }

  lemma ApplyNextKeepsInv(l: Link, now: Expiry.Time)
    requires Inv(l) && l.applied < |l.stream|
    ensures Inv(Apply(l, ApplyNext(now)))
  {
    ReplayLineFacts(l.replica, l.stream[l.applied], now);
    FoldOne(map[], l.stream[..l.applied], l.stream[l.applied]);
    assert l.stream[..l.applied + 1] == l.stream[..l.applied] + [l.stream[l.applied]];
  }

  lemma CaptureKeepsInv(l: Link)
    requires Inv(l) && l.phase == Registered
    ensures Inv(Apply(l, Capture))
  {
  }

  lemma PrefixOfAppend(a: seq<Line>, b: seq<Line>, n: nat)
    requires n <= |a|
    ensures (a + b)[..n] == a[..n]
    ensures (a + b)[..|a + b|] == a + b
  {
  }

  lemma SendKeepsInv(l: Link)
    requires Inv(l) && Enabled(l, Send) && InStepAfterSend(l)
    ensures Inv(Apply(l, Send))
  {
    SendIsInStepIff(l);
    PrefixOfAppend(l.stream, GetLines(Dump(l.phase.dump)), l.applied);
  }

  /** A send is clean when it brings the replica in step, by the condition above. */
  ghost predicate Clean(l: Link, ev: Event)
    requires Enabled(l, ev)
  {
    ev == Send ==> InStepAfterSend(l)
  }

  lemma InvStep(l: Link, ev: Event)
    requires Inv(l) && Enabled(l, ev) && Clean(l, ev)
    ensures Inv(Apply(l, ev))
  {
    match ev
    case PrimaryRequest(line, now) => PrimaryKeepsInv(l, line, now);
    case ReplicaRequest(line, now) => ReplicaKeepsInv(l, line, now);
    case Register =>
    case Capture => CaptureKeepsInv(l);
    case Send => SendKeepsInv(l);
    case ApplyNext(now) => ApplyNextKeepsInv(l, now);
  }

  // ---------------------------------------------------------------- runs

  ghost predicate IsRun(l: Link, evs: seq<Event>)
    decreases |evs|
  {
    evs != [] ==> Enabled(l, evs[0]) && Clean(l, evs[0]) && IsRun(Apply(l, evs[0]), evs[1..])
  }

  ghost function After(l: Link, evs: seq<Event>): Link
    requires IsRun(l, evs)
    decreases |evs|
  {
    if evs == [] then l else After(Apply(l, evs[0]), evs[1..])
  }

  lemma {:induction false} InvAlways(l: Link, evs: seq<Event>)
    requires Inv(l) && IsRun(l, evs)
    ensures Inv(After(l, evs))
    decreases |evs|
  {
    if evs != [] {
      InvStep(l, evs[0]);
      InvAlways(Apply(l, evs[0]), evs[1..]);
    }
  }

  /** A primary with any contents and a replica with none. */
  ghost predicate Initial(l: Link) {
    && Good(l.primary) && l.primary.capacity == 0
    && l.replica == Empty(0) && l.phase == Detached && l.stream == [] && l.applied == 0
  }

  /** In step with the primary: after the dump, the pending lines take the replica exactly to the
      primary; a replica that has executed the dump equals the primary as it was one line per pending
      line ago; so a drained replica has missed nothing. Before the dump, it will hold no key that
      the primary lacks. */
  ghost predicate InStep(l: Link) {
    var p, r := MapOf(l.primary.entries), MapOf(l.replica.entries);
    && l.applied <= |l.stream|
    && (l.phase.Streaming? ==>
          && Fold(r, l.stream[l.applied..]) == p
          && (l.applied == |l.stream| ==> r == p)
          && (l.applied >= l.phase.dumpEnd ==>
                && l.applied - l.phase.dumpEnd < |l.phase.history|
                && r == l.phase.history[l.applied - l.phase.dumpEnd]))
    && (l.phase.Registered? || l.phase.Captured? ==> Fold(r, l.stream[l.applied..]).Keys <= p.Keys)
  }

  lemma PendingLeadsToDrained(l: Link)
    requires Inv(l)
    ensures Fold(MapOf(l.replica.entries), l.stream[l.applied..]) == Drained(l)
  {
    FoldAppend(map[], l.stream[..l.applied], l.stream[l.applied..]);
    assert l.stream[..l.applied] + l.stream[l.applied..] == l.stream;
  }

  lemma InvMeansInStep(l: Link)
    requires Inv(l)
    ensures InStep(l)
  {
    PendingLeadsToDrained(l);
    assert l.stream[..|l.stream|] == l.stream;
    if l.phase.Streaming? {
      var n := |l.phase.history| - 1;
      assert Fold(map[], l.stream[..l.phase.dumpEnd + n]) == l.phase.history[n];
    }
  }

  /** Replication prefix consistency: every state of every run with clean sends is in step. */
  lemma ReplicaFollowsPrimary(start: Link, evs: seq<Event>)
    requires Initial(start) && IsRun(start, evs)
    ensures InStep(After(start, evs))
  {
    assert start.stream[..0] == [];
    InvAlways(start, evs);
    InvMeansInStep(After(start, evs));
  }

  // ---------------------------------------------------------------- an unclean send

  lemma OneEntry(e: Entry)
    ensures Distinct([e]) && MapOf([e]) == map[e.key := e.value]
    ensures Storable(e) ==> AllStorable([e])
    ensures Fits(e) ==> AllFit([e])
  {
    assert [e][1..] == [];
  }

  lemma Overwrite(k: string, first: string, second: string, now: Expiry.Time)
    requires Storable(Entry(k, second)) && Fits(Entry(k, second))
    ensures var db, cmd := Db([Entry(k, first)], 0, map[]), Command(SET, "SET", [k, second]);
            && Exec(db, cmd, now) == Outcome(Db([Entry(k, second)], 0, map[]), "+OK", NoEffect)
            && Parse(SnapshotLine(Entry(k, second))) == Request(cmd)
  {
    ParseSnapshotLine(Entry(k, second));
    var es := [Entry(k, first)];
    assert es[1..] == [] && Lookup(es, k) == Some(first) && Remove(es, k) == [];
    assert Set(es, 0, k, second) == [Entry(k, second)];
  }

  /** The state after three steps from a primary that holds one key: register, capture, and a request
      that overwrites the key. The captured dump has yet to be sent. */
  function Overwritten(before: Entry, after: Entry): Link
    requires Storable(after)
  {
    Link(Db([after], 0, map[]), Empty(0), Captured([before]), [DumpLine(after)], 0)
  }

  lemma OverwrittenIsReached(k: string, first: string, second: string, now: Expiry.Time)
    requires Storable(Entry(k, second)) && Fits(Entry(k, second))
    ensures var before, after := Entry(k, first), Entry(k, second);
            var start := Link(Db([before], 0, map[]), Empty(0), Detached, [], 0);
            var captured := Apply(Apply(start, Register), Capture);
            Apply(captured, PrimaryRequest(DumpLine(after), now)) == Overwritten(before, after)
  {
    var before, after := Entry(k, first), Entry(k, second);
    var captured := Link(Db([before], 0, map[]), Empty(0), Captured([before]), [], 0);
    Overwrite(k, first, second, now);
    assert Logged(captured.primary, Command(SET, "SET", [k, second]), now);
    assert [] + [DumpLine(after)] == [DumpLine(after)];
    assert PrimaryStep(captured, DumpLine(after), now) == Overwritten(before, after);
  }

  /** The program's own note says that a write racing with the dump is harmless unless it is INCR or
      DECR. It is not: this plain SET reaches the replica before the older dump line, and the drained
      replica keeps the old value. */
  lemma OvertakenSetIsLost(k: string, first: string, second: string)
    requires Storable(Entry(k, first)) && Fits(Entry(k, first))
    requires Storable(Entry(k, second)) && Fits(Entry(k, second))
    ensures var l := Overwritten(Entry(k, first), Entry(k, second));
            && MapOf(l.primary.entries) == map[k := second]
            && Drained(Apply(l, Send)) == map[k := first]
  {
    var before, after := Entry(k, first), Entry(k, second);
    var l := Overwritten(before, after);
    OneEntry(before);
    OneEntry(after);
    LineStepOfDump(map[], after);
    FoldOne(map[], [], DumpLine(after));
    assert [] + [DumpLine(after)] == [DumpLine(after)];
    assert Drained(l) == map[k := second];
    SendAddsKept(l);
    KeptDistinct([before]);
  }

  /** Nor need anything change between capture and send: a counter whose key is as long as an INCR line
      can carry is captured, but its dump line is longer than the replica's parser accepts, and the
      drained replica lacks it. */
  lemma LongCounterIsNotReplicated(k: string, line: Line, now: Expiry.Time)
    requires IsToken(k) && |k| == MAX_LINE - 5 && line == "INCR " + k
    ensures var start := Link(Empty(0), Empty(0), Detached, [], 0);
            var captured := Apply(Apply(Apply(start, PrimaryRequest(line, now)), Register), Capture);
            && MapOf(captured.primary.entries) == MapOf(captured.phase.dump) == map[k := "1"]
            && Drained(Apply(captured, Send)) == map[]
  {
    var start := Link(Empty(0), Empty(0), Detached, [], 0);
    var es := [Entry(k, "1")];
    D.ParseIncr(k);
    D.IncrNewKey(k, now);
    assert PrimaryStep(start, line, now) == start.(primary := Db(es, 0, map[]));
    assert es[1..] == [] && es[..0] == [];
    var captured := start.(primary := Db(es, 0, map[]), phase := Captured(es));
    assert !Fits(es[0]) && Kept(es) == [];
    SendAddsKept(captured);
  }
}
