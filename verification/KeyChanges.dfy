/** What commands do to the value under their key, and what that means for two threads: which orders make a
    difference, and how far the lines that have been passed on may lag behind the lines that have been
    executed. `LogOrder` applies it to the log and `StreamOrder` to the stream of a replica. */
module KeyChanges {
  import opened Text
  import opened Numbers
  import opened Protocol
  import opened Lru
  import opened Executor
  import opened Contents
  import Expiry

  // ---------------------------------------------------------------- key by key

  predicate Touches(line: Line, k: string) {
    && Parse(line).Request? && Parse(line).cmd.kind in {SET, DEL, INCR, DECR}
    && Parse(line).cmd.args != [] && Parse(line).cmd.args[0] == k
  }

  /** The lines that may change what is stored under a key, in order. */
  function On(lines: seq<Line>, k: string): seq<Line> {
    if lines == [] then []
    else
      var init, last := On(lines[..|lines| - 1], k), lines[|lines| - 1];
      if Touches(last, k) then init + [last] else init
  }

  lemma LineIsLocal(a: Contents, b: Contents, line: Line, k: string)
    requires AgreeOn(a, b, k)
    ensures AgreeOn(LineStep(a, line), LineStep(b, line), k)
    ensures !Touches(line, k) ==> AgreeOn(LineStep(a, line), b, k)
  {
    if Parse(line).Request? { MapStepIsLocal(a, b, Parse(line).cmd, k); }
  }

  /** What a key becomes depends on its own lines only. */
  lemma {:induction false} FoldOnKey(a: Contents, b: Contents, lines: seq<Line>, k: string)
    requires AgreeOn(a, b, k)
    ensures AgreeOn(Fold(a, lines), Fold(b, On(lines, k)), k)
  {
    if lines != [] {
      var init, last := lines[..|lines| - 1], lines[|lines| - 1];
      FoldOnKey(a, b, init, k);
      LineIsLocal(Fold(a, init), Fold(b, On(init, k)), last, k);
      if Touches(last, k) { FoldOne(b, On(init, k), last); }
    }
  }

  // ---------------------------------------------------------------- what a command does to a value

  /** What a command does to the value under its key. */
  datatype Change = Keep | Put(value: string) | Drop | Add(delta: int)

  function ChangeOf(cmd: Command): (c: Change)
    ensures c.Add? ==> c.delta == 1 || c.delta == -1
    ensures !c.Keep? ==> cmd.args != []
  {
    var n := |cmd.args|;
    match cmd.kind
    case SET =>
      if n == 2 || (n == 4 && EqualsIgnoreCase(cmd.args[2], "EX") && PositiveSeconds(cmd.args[3]).Some?)
      then Put(cmd.args[1]) else Keep
    case DEL => if n == 1 then Drop else Keep
    case INCR => if n == 1 then Add(1) else Keep
    case DECR => if n == 1 then Add(-1) else Keep
    case _ => Keep
  }

  function Held(m: Contents, k: string): Option<string> { if k in m then Some(m[k]) else None }

  function Changed(held: Option<string>, c: Change): Option<string> {
    match c
    case Keep => held
    case Put(v) => Some(v)
    case Drop => None
    case Add(delta) =>
      match held
      case None => Some(Decimal(delta))
      case Some(text) =>
        match Stoll(text)
        case None => held
        case Some(n) => Some(Decimal(Wrap64(n + delta)))
  }

  lemma StepIsChange(m: Contents, cmd: Command, k: string)
    ensures Held(MapStep(m, cmd), k)
            == if cmd.args != [] && cmd.args[0] == k then Changed(Held(m, k), ChangeOf(cmd)) else Held(m, k)
  {
  }

  /** The order of the two makes no difference: equal values, two deletions, two counter steps, or a counter
      step that fails on the value that is set. */
  predicate Commute(c: Change, d: Change) {
    match c
    case Keep => true
    case Put(v) => d.Keep? || (d.Put? && d.value == v) || (d.Add? && Stoll(v) == None)
    case Drop => d.Keep? || d.Drop?
    case Add(_) => d.Keep? || d.Add? || (d.Put? && Stoll(d.value) == None)
  }

  /** The number a counter command would start from. */
  function Reading(held: Option<string>): (r: Option<int>)
    ensures r.Some? ==> IsInt64(r.value)
  {
    match held case None => Some(0) case Some(text) => Stoll(text)
  }

  lemma AddChanges(held: Option<string>, delta: int)
    requires IsInt64(delta)
    ensures match Reading(held)
            case None => Changed(held, Add(delta)) == held
            case Some(n) => Changed(held, Add(delta)) == Some(Decimal(Wrap64(n + delta)))
                            && Reading(Changed(held, Add(delta))) == Some(Wrap64(n + delta))
  {
    if Reading(held).Some? { StollDecimal(Wrap64(Reading(held).value + delta)); }
  }

  lemma StepIsNotIdentity(n: int, delta: int)
    requires IsInt64(n) && (delta == 1 || delta == -1)
    ensures Wrap64(n + delta) != n
  {
  }

  /** A counter command that was accepted found a number. */
  lemma AcceptedCounterReads(db: Db, cmd: Command, now: Expiry.Time)
    requires Logged(db, cmd, now) && ChangeOf(cmd).Add?
    ensures Reading(Held(MapOf(db.entries), cmd.args[0])).Some?
  {
    LookupMap(db.entries, cmd.args[0]);
  }

  /** A counter step always changes a value that reads as a number. */
  lemma AddIsNotIdentity(held: Option<string>, delta: int)
    requires (delta == 1 || delta == -1) && Reading(held).Some?
    ensures Changed(held, Add(delta)) != held && Reading(Changed(held, Add(delta))).Some?
  {
    AddChanges(held, delta);
    StepIsNotIdentity(Reading(held).value, delta);
  }

  lemma PutAddCommuteIff(held: Option<string>, v: string, delta: int)
    requires delta == 1 || delta == -1
    ensures Changed(Changed(held, Put(v)), Add(delta)) == Changed(Changed(held, Add(delta)), Put(v))
            <==> Stoll(v) == None
  {
    if Stoll(v) == None { AddChanges(Some(v), delta); } else { AddIsNotIdentity(Some(v), delta); }
  }

  /** A counter step, by what the counter reads. */
  lemma AddOnce(held: Option<string>, n: int, delta: int) returns (next: Option<string>)
    requires Reading(held) == Some(n) && IsInt64(delta)
    ensures next == Changed(held, Add(delta)) == Some(Decimal(Wrap64(n + delta)))
    ensures Reading(next) == Some(Wrap64(n + delta))
  {
    next := Changed(held, Add(delta));
    AddChanges(held, delta);
  }

  lemma AddTwice(held: Option<string>, n: int, a: int, b: int, w: int)
    requires Reading(held) == Some(n) && IsInt64(a) && IsInt64(b) && w == Wrap64(n + a)
    ensures Changed(Changed(held, Add(a)), Add(b)) == Some(Decimal(Wrap64(w + b)))
  {
    var once := AddOnce(held, n, a);
    var twice := AddOnce(once, w, b);
  }

  lemma NumbersCommute(held: Option<string>, n: int, a: int, b: int, v: int, w: int)
    requires Reading(held) == Some(n) && IsInt64(a) && IsInt64(b)
    requires v == Wrap64(n + a) && w == Wrap64(n + b) && Wrap64(v + b) == Wrap64(w + a)
    ensures Changed(Changed(held, Add(a)), Add(b)) == Changed(Changed(held, Add(b)), Add(a))
  {
    AddTwice(held, n, a, b, v);
    AddTwice(held, n, b, a, w);
  }

  lemma AddsCommute(held: Option<string>, a: int, b: int)
    requires IsInt64(a) && IsInt64(b)
    ensures Changed(Changed(held, Add(a)), Add(b)) == Changed(Changed(held, Add(b)), Add(a))
  {
    if Reading(held) == None {
      AddChanges(held, a);
      AddChanges(held, b);
    } else {
      var n := Reading(held).value;
      WrapsCommute(n, a, b);
      NumbersCommute(held, n, a, b, Wrap64(n + a), Wrap64(n + b));
    }
  }

  lemma ChangesCommuteIff(held: Option<string>, c: Change, d: Change)
    requires c.Add? ==> c.delta == 1 || c.delta == -1
    requires d.Add? ==> d.delta == 1 || d.delta == -1
    ensures Changed(Changed(held, c), d) == Changed(Changed(held, d), c) <==> Commute(c, d)
  {
    if c.Add? && d.Add? { AddsCommute(held, c.delta, d.delta); }
    if c.Put? && d.Add? { PutAddCommuteIff(held, c.value, d.delta); }
    if c.Add? && d.Put? { PutAddCommuteIff(held, d.value, c.delta); }
  }

  /** Commands of different keys never mind the order. */
  predicate Harmless(a: Command, b: Command) {
    (a.args != [] && b.args != [] && a.args[0] != b.args[0]) || Commute(ChangeOf(a), ChangeOf(b))
  }

  lemma SwappedKey(m: Contents, a: Command, b: Command, k: string)
    ensures var there, back := MapStep(MapStep(m, a), b), MapStep(MapStep(m, b), a);
            && (Harmless(a, b) ==> AgreeOn(there, back, k))
            && (!Harmless(a, b) && a.args[0] == k ==> !AgreeOn(there, back, k))
  {
    StepIsChange(m, a, k);
    StepIsChange(m, b, k);
    StepIsChange(MapStep(m, a), b, k);
    StepIsChange(MapStep(m, b), a, k);
    ChangesCommuteIff(Held(m, k), ChangeOf(a), ChangeOf(b));
  }

  lemma StepsCommuteIff(m: Contents, a: Command, b: Command)
    ensures MapStep(MapStep(m, a), b) == MapStep(MapStep(m, b), a) <==> Harmless(a, b)
  {
    if Harmless(a, b) {
      forall k ensures AgreeOn(MapStep(MapStep(m, a), b), MapStep(MapStep(m, b), a), k) { SwappedKey(m, a, b, k); }
      SameByKey(MapStep(MapStep(m, a), b), MapStep(MapStep(m, b), a));
    } else {
      SwappedKey(m, a, b, a.args[0]);
    }
  }

  // ---------------------------------------------------------------- lines executed and not passed on yet

  /** Who may execute a write: a connection, or the link to this server's own primary. */
  datatype Thread = ClientThread(id: nat) | PrimaryLink

  /** The line that each thread has executed and not passed on yet. */
  type Pending = map<Thread, Line>

  /** The key's line among them, if there is one, when each key has one writer. */
  function Outstanding(pending: Pending, k: string, owner: string -> Thread): seq<Line> {
    if owner(k) in pending && Touches(pending[owner(k)], k) then [pending[owner(k)]] else []
  }

  predicate IsCounterLine(line: Line) { Parse(line).Request? && ChangeOf(Parse(line).cmd).Add? }

  /** What is live under a key is what was passed on and at most one line more. */
  ghost predicate KeyAhead(live: Contents, passed: Contents, pending: Pending, owner: string -> Thread, k: string) {
    && AgreeOn(live, Fold(passed, Outstanding(pending, k, owner)), k)
    && (forall who :: who in pending && Touches(pending[who], k) ==> owner(k) == who)
    && (Outstanding(pending, k, owner) != [] && IsCounterLine(pending[owner(k)]) ==> Reading(Held(passed, k)).Some?)
  }

  ghost predicate AheadByOne(live: Contents, passed: Contents, pending: Pending, owner: string -> Thread) {
    forall k :: KeyAhead(live, passed, pending, owner, k)
  }

  lemma FoldSingle(m: Contents, line: Line)
    ensures Fold(m, [line]) == LineStep(m, line)
  {
    FoldOne(m, [], line);
    assert [] + [line] == [line];
  }

  lemma QuietIsAheadByOne(live: Contents, owner: string -> Thread)
    ensures AheadByOne(live, live, map[], owner)
  {
  }

  lemma ExecutedKey(live: Contents, passed: Contents, pending: Pending, owner: string -> Thread,
                    who: Thread, line: Line, k: string)
    requires KeyAhead(live, passed, pending, owner, k) && who !in pending
    requires Touches(line, k) ==> owner(k) == who
    requires Touches(line, k) && IsCounterLine(line) ==> Reading(Held(live, k)).Some?
    ensures KeyAhead(LineStep(live, line), passed, pending[who := line], owner, k)
  {
    LineIsLocal(live, Fold(passed, Outstanding(pending, k, owner)), line, k);
    if Touches(line, k) {
      FoldSingle(passed, line);
    } else {
      assert Outstanding(pending[who := line], k, owner) == Outstanding(pending, k, owner);
    }
  }

  /** A thread executes a write that succeeds. */
  lemma ExecuteIsAheadByOne(live: Contents, passed: Contents, pending: Pending, owner: string -> Thread,
                            who: Thread, line: Line)
    requires AheadByOne(live, passed, pending, owner) && who !in pending
    requires forall k :: Touches(line, k) ==> owner(k) == who
    requires forall k :: Touches(line, k) && IsCounterLine(line) ==> Reading(Held(live, k)).Some?
    ensures AheadByOne(LineStep(live, line), passed, pending[who := line], owner)
  {
    var next, after := LineStep(live, line), pending[who := line];
    forall k ensures KeyAhead(next, passed, after, owner, k) {
      assert KeyAhead(live, passed, pending, owner, k);
      ExecutedKey(live, passed, pending, owner, who, line, k);
    }
  }

  lemma PassedKey(live: Contents, passed: Contents, pending: Pending, owner: string -> Thread, who: Thread, k: string)
    requires KeyAhead(live, passed, pending, owner, k) && who in pending
    ensures KeyAhead(live, LineStep(passed, pending[who]), pending - {who}, owner, k)
  {
    var line, rest := pending[who], Outstanding(pending - {who}, k, owner);
    LineIsLocal(passed, passed, line, k);
    if Touches(line, k) {
      FoldSingle(passed, line);
    } else {
      assert rest == Outstanding(pending, k, owner);
      FoldIsLocal(LineStep(passed, line), passed, rest, k);
    }
  }

  lemma {:induction false} FoldIsLocal(a: Contents, b: Contents, lines: seq<Line>, k: string)
    requires AgreeOn(a, b, k)
    ensures AgreeOn(Fold(a, lines), Fold(b, lines), k)
  {
    if lines != [] {
      var n := |lines| - 1;
      FoldIsLocal(a, b, lines[..n], k);
      LineIsLocal(Fold(a, lines[..n]), Fold(b, lines[..n]), lines[n], k);
    }
  }

  /** The thread passes its line on. */
  lemma PassIsAheadByOne(live: Contents, passed: Contents, pending: Pending, owner: string -> Thread, who: Thread)
    requires AheadByOne(live, passed, pending, owner) && who in pending
    ensures AheadByOne(live, LineStep(passed, pending[who]), pending - {who}, owner)
  {
    var next, after := LineStep(passed, pending[who]), pending - {who};
    forall k ensures KeyAhead(live, next, after, owner, k) {
      assert KeyAhead(live, passed, pending, owner, k);
      PassedKey(live, passed, pending, owner, who, k);
    }
  }

  /** Applying a line again changes nothing, unless it counts. */
  lemma AgainIsSameIff(held: Option<string>, c: Change)
    requires c.Add? ==> (c.delta == 1 || c.delta == -1) && Reading(held).Some?
    ensures Changed(Changed(held, c), c) == Changed(held, c) <==> !c.Add?
  {
    if c.Add? {
      AddIsNotIdentity(held, c.delta);
      AddIsNotIdentity(Changed(held, c), c.delta);
    }
  }

  lemma StepAgainIff(m: Contents, cmd: Command)
    requires ChangeOf(cmd).Add? ==> Reading(Held(m, cmd.args[0])).Some?
    ensures MapStep(MapStep(m, cmd), cmd) == MapStep(m, cmd) <==> !ChangeOf(cmd).Add?
  {
    var once := MapStep(m, cmd);
    forall k ensures Held(MapStep(once, cmd), k) == Held(once, k) <==> !(ChangeOf(cmd).Add? && cmd.args[0] == k) {
      StepIsChange(m, cmd, k);
      StepIsChange(once, cmd, k);
      if cmd.args != [] && cmd.args[0] == k { AgainIsSameIff(Held(m, k), ChangeOf(cmd)); }
    }
    if ChangeOf(cmd).Add? {
      assert Held(MapStep(once, cmd), cmd.args[0]) != Held(once, cmd.args[0]);
    } else {
      forall k ensures AgreeOn(MapStep(once, cmd), once, k) {
        assert Held(MapStep(once, cmd), k) == Held(once, k);
      }
      SameByKey(MapStep(once, cmd), once);
    }
  }

  lemma AgainOnKeyIff(live: Contents, passed: Contents, line: Line, k: string)
    requires AgreeOn(live, LineStep(passed, line), k) && Touches(line, k)
    requires IsCounterLine(line) ==> Reading(Held(passed, k)).Some?
    ensures AgreeOn(live, LineStep(live, line), k) <==> !IsCounterLine(line)
  {
    var cmd := Parse(line).cmd;
    StepIsChange(passed, cmd, k);
    StepIsChange(live, cmd, k);
    AgainIsSameIff(Held(passed, k), ChangeOf(cmd));
  }

  lemma SnapshotKeyIff(live: Contents, passed: Contents, pending: Pending, owner: string -> Thread, k: string)
    requires KeyAhead(live, passed, pending, owner, k)
    ensures KeyAhead(live, live, pending, owner, k)
            <==> Outstanding(pending, k, owner) == [] || !IsCounterLine(pending[owner(k)])
  {
    if Outstanding(pending, k, owner) != [] {
      var line := pending[owner(k)];
      FoldSingle(passed, line);
      FoldSingle(live, line);
      AgainOnKeyIff(live, passed, line, k);
    }
  }

  predicate NoCounterPending(pending: Pending) { forall who :: who in pending ==> !IsCounterLine(pending[who]) }

  /** What is passed on is replaced by what is live, as a snapshot does, with lines still pending: they will
      be applied a second time. That does no harm if and only if none of them counts. */
  lemma SnapshotIsAheadByOneIff(live: Contents, passed: Contents, pending: Pending, owner: string -> Thread)
    requires AheadByOne(live, passed, pending, owner)
    ensures AheadByOne(live, live, pending, owner) <==> NoCounterPending(pending)
  {
    if NoCounterPending(pending) {
      forall k ensures KeyAhead(live, live, pending, owner, k) {
        assert KeyAhead(live, passed, pending, owner, k);
        SnapshotKeyIff(live, passed, pending, owner, k);
      }
    } else {
      var who :| who in pending && IsCounterLine(pending[who]);
      var k := Parse(pending[who]).cmd.args[0];
      assert Touches(pending[who], k);
      assert KeyAhead(live, passed, pending, owner, k);
      SnapshotKeyIff(live, passed, pending, owner, k);
    }
  }

  /** A key none of whose lines is outstanding is the same on both sides; all are when nothing is pending. */
  lemma AheadByNone(live: Contents, passed: Contents, pending: Pending, owner: string -> Thread)
    requires AheadByOne(live, passed, pending, owner)
    ensures forall k :: Outstanding(pending, k, owner) == [] ==> AgreeOn(live, passed, k)
    ensures pending == map[] ==> live == passed
  {
    forall k | Outstanding(pending, k, owner) == [] ensures AgreeOn(live, passed, k) {
      assert KeyAhead(live, passed, pending, owner, k);
    }
    if pending == map[] {
      forall k ensures AgreeOn(live, passed, k) { assert Outstanding(pending, k, owner) == []; }
      SameByKey(live, passed);
    }
  }
}
