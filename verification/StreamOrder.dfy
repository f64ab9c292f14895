/** The stream of a replica when executing a write and propagating its line are two steps of the thread that
    serves the request. The replica is in step when the run begins; from then on it executes whatever is
    sent, in the order in which it is sent. */
module StreamOrder {
  import opened Text
  import opened Protocol
  import opened Lru
  import opened Executor
  import opened Contents
  import opened Snapshot
  import opened KeyChanges
  import Expiry

  /** `base` is what both servers held at the beginning, `executed` the accepted writes of the primary since
      then, and `sent` the lines propagated since then. */
  datatype Link = Link(primary: Db, base: Contents, pending: Pending, executed: seq<Line>, sent: seq<Line>)

  function InStep(db: Db): Link { Link(db, MapOf(db.entries), map[], [], []) }

  datatype Event = Execute(who: Thread, line: Line, now: Expiry.Time) | Propagate(who: Thread)

  predicate Enabled(l: Link, ev: Event) {
    match ev
    case Execute(who, _, _) => who !in l.pending
    case Propagate(who) => who in l.pending
  }

  function Apply(l: Link, ev: Event): Link
    requires Enabled(l, ev)
  {
    match ev
    case Execute(who, line, now) =>
      (match Parse(line)
       case ProtocolError(_) => l
       case Request(cmd) =>
         var executed := l.(primary := Exec(l.primary, cmd, now).db);
         if Logged(l.primary, cmd, now)
         then executed.(pending := l.pending[who := line], executed := l.executed + [line])
         else executed)
    case Propagate(who) => l.(sent := l.sent + [l.pending[who]], pending := l.pending - {who})
  }

  function Live(l: Link): Contents { MapOf(l.primary.entries) }

  /** What the replica holds once it has executed everything sent. */
  function Drained(l: Link): Contents { Fold(l.base, l.sent) }

  ghost predicate Inv(l: Link) {
    Good(l.primary) && l.primary.capacity == 0 && Live(l) == Fold(l.base, l.executed)
  }

  lemma ExecuteKeepsInv(l: Link, who: Thread, line: Line, now: Expiry.Time)
    requires Inv(l) && who !in l.pending
    ensures var t := Apply(l, Execute(who, line, now));
            && Inv(t) && t.base == l.base && t.sent == l.sent
            && (if Parse(line).Request? && Logged(l.primary, Parse(line).cmd, now)
                then Live(t) == LineStep(Live(l), line) && t.pending == l.pending[who := line]
                else Live(t) == Live(l) && t.pending == l.pending)
  {
    if Parse(line).Request? {
      var cmd := Parse(line).cmd;
      PrintParse(line);
      ExecKeepsGood(l.primary, cmd, now);
      ExecIsMapStep(l.primary, cmd, now);
      if Logged(l.primary, cmd, now) {
        FoldOne(l.base, l.executed, line);
      } else {
        UnloggedChangesNothing(l.primary, cmd, now);
      }
    }
  }

  lemma PropagateSends(l: Link, who: Thread)
    requires who in l.pending
    ensures var t := Apply(l, Propagate(who));
            Drained(t) == LineStep(Drained(l), l.pending[who]) && Live(t) == Live(l) && (Inv(l) ==> Inv(t))
  {
    FoldOne(l.base, l.sent, l.pending[who]);
  }

  // ---------------------------------------------------------------- runs

  ghost predicate IsRun(l: Link, evs: seq<Event>)
    decreases |evs|
  {
    evs != [] ==> Enabled(l, evs[0]) && IsRun(Apply(l, evs[0]), evs[1..])
  }

  ghost function After(l: Link, evs: seq<Event>): Link
    requires IsRun(l, evs)
    decreases |evs|
  {
    if evs == [] then l else After(Apply(l, evs[0]), evs[1..])
  }

  lemma {:induction false} InvAlways(l: Link, evs: seq<Event>)
    requires Inv(l) && IsRun(l, evs)
    ensures Inv(After(l, evs)) && After(l, evs).base == l.base
    decreases |evs|
  {
    if evs != [] {
      match evs[0] {
        case Execute(who, line, now) => ExecuteKeepsInv(l, who, line, now);
        case Propagate(who) => PropagateSends(l, who);
      }
      InvAlways(Apply(l, evs[0]), evs[1..]);
    }
  }

  /** In every state of every run, a key whose lines have been sent in the order of execution is on the
      drained replica what it is on the primary. */
  lemma InOrderReachesReplica(db: Db, evs: seq<Event>, k: string)
    requires Good(db) && db.capacity == 0 && IsRun(InStep(db), evs)
    requires On(After(InStep(db), evs).sent, k) == On(After(InStep(db), evs).executed, k)
    ensures AgreeOn(Drained(After(InStep(db), evs)), Live(After(InStep(db), evs)), k)
  {
    var l := After(InStep(db), evs);
    InvAlways(InStep(db), evs);
    FoldOnKey(l.base, l.base, l.sent, k);
    FoldOnKey(l.base, l.base, l.executed, k);
  }

  // ---------------------------------------------------------------- one writer per key

  ghost predicate OneWriter(evs: seq<Event>, owner: string -> Thread) {
    forall i, k :: 0 <= i < |evs| && evs[i].Execute? && Touches(evs[i].line, k) ==> owner(k) == evs[i].who
  }

  ghost predicate Ahead(l: Link, owner: string -> Thread) { AheadByOne(Live(l), Drained(l), l.pending, owner) }

  lemma ExecuteIsAhead(l: Link, who: Thread, line: Line, now: Expiry.Time, owner: string -> Thread)
    requires Inv(l) && Ahead(l, owner) && who !in l.pending
    requires forall k :: Touches(line, k) ==> owner(k) == who
    ensures Ahead(Apply(l, Execute(who, line, now)), owner)
  {
    ExecuteKeepsInv(l, who, line, now);
    if Parse(line).Request? && Logged(l.primary, Parse(line).cmd, now) {
      if IsCounterLine(line) { AcceptedCounterReads(l.primary, Parse(line).cmd, now); }
      ExecuteIsAheadByOne(Live(l), Drained(l), l.pending, owner, who, line);
    }
  }

  lemma {:induction false} OneWriterIsAhead(l: Link, evs: seq<Event>, owner: string -> Thread)
    requires Inv(l) && Ahead(l, owner) && IsRun(l, evs) && OneWriter(evs, owner)
    ensures Ahead(After(l, evs), owner)
    decreases |evs|
  {
    if evs != [] {
      match evs[0] {
        case Execute(who, line, now) =>
          ExecuteIsAhead(l, who, line, now, owner);
          ExecuteKeepsInv(l, who, line, now);
        case Propagate(who) =>
          PropagateSends(l, who);
          PassIsAheadByOne(Live(l), Drained(l), l.pending, owner, who);
      }
      OneWriterIsAhead(Apply(l, evs[0]), evs[1..], owner);
    }
  }

  /** If no key has two writers, then in every state of every run the drained replica holds, under every key
      whose last write has been sent, what the primary holds; and it equals the primary when no thread is
      between its two steps. */
  lemma OneWriterReachesReplica(db: Db, evs: seq<Event>, owner: string -> Thread)
    requires Good(db) && db.capacity == 0 && IsRun(InStep(db), evs) && OneWriter(evs, owner)
    ensures var l := After(InStep(db), evs);
            && (forall k :: Outstanding(l.pending, k, owner) == [] ==> AgreeOn(Live(l), Drained(l), k))
            && (l.pending == map[] ==> Live(l) == Drained(l))
  {
    QuietIsAheadByOne(MapOf(db.entries), owner);
    OneWriterIsAhead(InStep(db), evs, owner);
    var l := After(InStep(db), evs);
    AheadByNone(Live(l), Drained(l), l.pending, owner);
  }

  // ---------------------------------------------------------------- two writers of one key

  predicate BothAccepted(l: Link, t: Thread, u: Thread, a: Line, b: Line, now: Expiry.Time)
    requires t != u && t !in l.pending && u !in l.pending
  {
    && Parse(a).Request? && Logged(l.primary, Parse(a).cmd, now)
    && Parse(b).Request? && Logged(Apply(l, Execute(t, a, now)).primary, Parse(b).cmd, now)
  }

  /** Two threads execute an accepted write each, and propagate them in the opposite order. */
  ghost function Swapped(l: Link, t: Thread, u: Thread, a: Line, b: Line, now: Expiry.Time): Link
    requires t != u && t !in l.pending && u !in l.pending && BothAccepted(l, t, u, a, b, now)
  {
    var executed := Apply(Apply(l, Execute(t, a, now)), Execute(u, b, now));
    Apply(Apply(executed, Propagate(u)), Propagate(t))
  }

  lemma SwappedContents(l: Link, t: Thread, u: Thread, a: Line, b: Line, now: Expiry.Time)
    requires Inv(l) && t != u && t !in l.pending && u !in l.pending && BothAccepted(l, t, u, a, b, now)
    ensures var f := Swapped(l, t, u, a, b, now);
            && Live(f) == LineStep(LineStep(Live(l), a), b)
            && Drained(f) == LineStep(LineStep(Drained(l), b), a)
  {
    ExecuteKeepsInv(l, t, a, now);
    var one := Apply(l, Execute(t, a, now));
    ExecuteKeepsInv(one, u, b, now);
    var two := Apply(one, Execute(u, b, now));
    PropagateSends(two, u);
    PropagateSends(Apply(two, Propagate(u)), t);
  }

  /** From a state in which the replica is in step: two threads' writes that are sent in the order opposite to
      their execution leave it in step if and only if they are harmless to swap. */
  lemma SwapReachesReplicaIff(l: Link, t: Thread, u: Thread, a: Line, b: Line, now: Expiry.Time)
    requires Inv(l) && Drained(l) == Live(l)
    requires t != u && t !in l.pending && u !in l.pending && BothAccepted(l, t, u, a, b, now)
    ensures var f := Swapped(l, t, u, a, b, now);
            Drained(f) == Live(f) <==> Harmless(Parse(a).cmd, Parse(b).cmd)
  {
    SwappedContents(l, t, u, a, b, now);
    StepsCommuteIff(Live(l), Parse(a).cmd, Parse(b).cmd);
  }

  lemma SetsAreAccepted(k: string, first: string, second: string, now: Expiry.Time)
    requires Storable(Entry(k, first)) && Fits(Entry(k, first))
    requires Storable(Entry(k, second)) && Fits(Entry(k, second))
    ensures BothAccepted(InStep(Empty(0)), ClientThread(0), ClientThread(1), DumpLine(Entry(k, first)),
                         DumpLine(Entry(k, second)), now)
  {
    ParseSnapshotLine(Entry(k, first));
    ParseSnapshotLine(Entry(k, second));
  }

  lemma SwappedSets(l: Link, t: Thread, u: Thread, k: string, first: string, second: string, now: Expiry.Time)
    requires Storable(Entry(k, first)) && Fits(Entry(k, first))
    requires Storable(Entry(k, second)) && Fits(Entry(k, second))
    requires Inv(l) && Live(l) == Drained(l) == map[] && t != u && t !in l.pending && u !in l.pending
    requires BothAccepted(l, t, u, DumpLine(Entry(k, first)), DumpLine(Entry(k, second)), now)
    ensures var f := Swapped(l, t, u, DumpLine(Entry(k, first)), DumpLine(Entry(k, second)), now);
            Live(f) == map[k := second] && Drained(f) == map[k := first]
  {
    var x, y := Entry(k, first), Entry(k, second);
    SwappedContents(l, t, u, DumpLine(x), DumpLine(y), now);
    SetTwice(k, first, second);
    SetTwice(k, second, first);
  }

  /** Two clients set one key: the primary holds the second value and the drained replica the first. */
  lemma SwappedSetsDiverge(k: string, first: string, second: string, now: Expiry.Time)
    requires Storable(Entry(k, first)) && Fits(Entry(k, first))
    requires Storable(Entry(k, second)) && Fits(Entry(k, second))
    ensures var l, t, u := InStep(Empty(0)), ClientThread(0), ClientThread(1);
            var a, b := DumpLine(Entry(k, first)), DumpLine(Entry(k, second));
            && BothAccepted(l, t, u, a, b, now)
            && var f := Swapped(l, t, u, a, b, now);
               Live(f) == map[k := second] && Drained(f) == map[k := first]
  {
    SetsAreAccepted(k, first, second, now);
    SwappedSets(InStep(Empty(0)), ClientThread(0), ClientThread(1), k, first, second, now);
  }
}
