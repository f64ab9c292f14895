/** Two reference views of command execution that forget what replay cannot restore.
    `MapStep` says what a command does to the key-value map of an unbounded store, whatever the
    recency order, the deadlines and the clock; `SameShape` says what it does to the recency list and
    the set of keys with a deadline, whatever the clock. Replay of lines is defined here as well. */
module Contents {
  import opened Text
  import opened Numbers
  import opened Protocol
  import opened Lru
  import opened Executor
  import Expiry

  type Contents = map<string, string>

  function Bump(m: Contents, k: string, delta: int): Contents {
    if k !in m then m[k := Decimal(delta)]
    else match Stoll(m[k])
      case None => m
      case Some(n) => m[k := Decimal(Wrap64(n + delta))]
  }

  function MapStep(m: Contents, cmd: Command): Contents {
    var n := |cmd.args|;
    match cmd.kind
    case SET =>
      if n == 2 || (n == 4 && EqualsIgnoreCase(cmd.args[2], "EX") && PositiveSeconds(cmd.args[3]).Some?)
      then m[cmd.args[0] := cmd.args[1]] else m
    case DEL => if n == 1 then m - {cmd.args[0]} else m
    case INCR => if n == 1 then Bump(m, cmd.args[0], 1) else m
    case DECR => if n == 1 then Bump(m, cmd.args[0], -1) else m
    case _ => m
  }

  lemma AddIsBump(db: Db, k: string, delta: int)
    requires db.capacity == 0 && (delta == 1 || delta == -1)
    ensures MapOf(ExecAdd(db, k, delta).db.entries) == Bump(MapOf(db.entries), k, delta)
  {
    LookupMap(db.entries, k);
    match Incremented(db.entries, k, delta)
    case None =>
    case Some(n) => UnboundedIsMap(db.entries, k, Decimal(n));
  }

  lemma SetIsMapStep(db: Db, cmd: Command, now: Expiry.Time)
    requires db.capacity == 0 && cmd.kind == SET
    ensures MapOf(ExecSet(db, cmd, now).db.entries) == MapStep(MapOf(db.entries), cmd)
  {
    if |cmd.args| >= 2 { UnboundedIsMap(db.entries, cmd.args[0], cmd.args[1]); }
  }

  lemma ReadsKeepMap(db: Db, k: string, text: string, now: Expiry.Time)
    requires db.capacity == 0
    ensures MapOf(ExecGet(db, k).db.entries) == MapOf(db.entries)
    ensures ExecTtl(db, k, now).db.entries == db.entries
    ensures ExecExpire(db, k, text, now).db.entries == db.entries
    ensures ExecPersist(db, k).db.entries == db.entries
  {
    UnboundedIsMap(db.entries, k, "");
  }

  /** Executing against an unbounded store is `MapStep` on its contents: the recency order, the
      deadlines and the time of day have no influence on what is stored. */
  lemma ExecIsMapStep(db: Db, cmd: Command, now: Expiry.Time)
    requires db.capacity == 0
    ensures MapOf(Exec(db, cmd, now).db.entries) == MapStep(MapOf(db.entries), cmd)
  {
    if cmd.kind == SET {
      SetIsMapStep(db, cmd, now);
    } else if TouchesData(cmd.kind) && |cmd.args| == Arity(cmd.kind) {
      var k := cmd.args[0];
      match cmd.kind
      case DEL => MapRemove(db.entries, k);
      case INCR => AddIsBump(db, k, 1);
      case DECR => AddIsBump(db, k, -1);
      case EXPIRE => ReadsKeepMap(db, k, cmd.args[1], now);
      case _ => ReadsKeepMap(db, k, "", now);
    }
  }

  /** What every command answers, read off the contents and the deadlines: a table of the commands with their
      arguments and replies, written without reference to how they are executed. */
  function MapReply(m: Contents, deadlines: map<string, Expiry.Time>, cmd: Command, now: Expiry.Time): string {
    match cmd.kind
    case SET => SetReply(cmd)
    case GET | DEL | INCR | DECR | TTL | PERSIST =>
      if |cmd.args| != 1 then ArityError(cmd) else KeyReply(m, deadlines, cmd.kind, cmd.args[0], now)
    case EXPIRE =>
      if |cmd.args| != 2 then ArityError(cmd)
      else if cmd.args[0] !in m then Integer(0)
      else if PositiveSeconds(cmd.args[1]).Some? then Integer(1)
      else Err("value is not an integer or out of range")
    case PING | SAVE => if cmd.args != [] then ArityError(cmd) else "+OK"
    case REPLICAOF =>
      if |cmd.args| != 2 then ArityError(cmd)
      else if (EqualsIgnoreCase(cmd.args[0], "NO") && EqualsIgnoreCase(cmd.args[1], "ONE")) || Stoi(cmd.args[1]).Some?
      then "+OK" else Err("invalid port in 'REPLICAOF' command")
    case SYNC => Err("SYNC is only valid " + "as the first line of a fresh connection")
    case ROUTE => Err("ROUTE is only valid " + "against tinykv-router, not tinykv-server")
    case NODES => Err("NODES is only valid " + "against tinykv-router, not tinykv-server")
    case UNKNOWN => Err("unknown command '" + cmd.name + "'")
  }

  function KeyReply(m: Contents, deadlines: map<string, Expiry.Time>, kind: Kind, k: string, now: Expiry.Time): string
    requires kind in {GET, DEL, INCR, DECR, TTL, PERSIST}
  {
    match kind
    case GET => if k in m then Bulk(m[k]) else Nil()
    case DEL => Integer(if k in m then 1 else 0)
    case INCR => BumpReply(m, k, 1)
    case DECR => BumpReply(m, k, -1)
    case TTL => Integer(if k !in m then -2 else if k !in deadlines then -1 else Remaining(deadlines[k], now))
    case PERSIST => Integer(if k in m && k in deadlines then 1 else 0)
  }

  /** SET never looks at what is stored. */
  function SetReply(cmd: Command): string {
    if |cmd.args| == 2 then Ok()
    else if |cmd.args| == 4 && EqualsIgnoreCase(cmd.args[2], "EX") then
      if PositiveSeconds(cmd.args[3]).Some? then Ok() else Err("invalid expire time in 'SET' command")
    else ArityError(cmd)
  }

  /** The number the counter holds afterwards, or an error that leaves it alone. */
  function BumpReply(m: Contents, k: string, delta: int): string {
    match Stoll(if k in m then m[k] else "0")
    case None => Err("value is not an integer or out of range")
    case Some(n) => Integer(Wrap64(n + delta))
  }

  lemma KeyReplyIsMapReply(db: Db, cmd: Command, now: Expiry.Time)
    requires cmd.kind in {GET, DEL, INCR, DECR, TTL, PERSIST} && |cmd.args| == 1
    ensures Exec(db, cmd, now).reply == KeyReply(MapOf(db.entries), db.deadlines, cmd.kind, cmd.args[0], now)
  {
    LookupMap(db.entries, cmd.args[0]);
    if cmd.kind in {INCR, DECR} { BumpReplyIsAdd(db, cmd.args[0], if cmd.kind == INCR then 1 else -1); }
  }

  lemma ControlReplyIsMapReply(db: Db, cmd: Command, now: Expiry.Time)
    requires !TouchesData(cmd.kind)
    ensures Exec(db, cmd, now).reply == MapReply(MapOf(db.entries), db.deadlines, cmd, now)
  {
  }

  lemma ArityReplyIsMapReply(db: Db, cmd: Command, now: Expiry.Time)
    requires TouchesData(cmd.kind) && cmd.kind != SET && |cmd.args| != (if cmd.kind == EXPIRE then 2 else 1)
    ensures Exec(db, cmd, now).reply == MapReply(MapOf(db.entries), db.deadlines, cmd, now)
  {
  }

  /** At any capacity the recency list answers every command like the map of its contents. */
  lemma ReplyIsMapReply(db: Db, cmd: Command, now: Expiry.Time)
    ensures Exec(db, cmd, now).reply == MapReply(MapOf(db.entries), db.deadlines, cmd, now)
  {
    if !TouchesData(cmd.kind) {
      ControlReplyIsMapReply(db, cmd, now);
    } else if cmd.kind == SET {
      assert Exec(db, cmd, now) == ExecSet(db, cmd, now);
    } else if |cmd.args| != (if cmd.kind == EXPIRE then 2 else 1) {
      ArityReplyIsMapReply(db, cmd, now);
    } else if cmd.kind == EXPIRE {
      LookupMap(db.entries, cmd.args[0]);
    } else {
      KeyReplyIsMapReply(db, cmd, now);
    }
  }

  lemma BumpReplyIsAdd(db: Db, k: string, delta: int)
    ensures ExecAdd(db, k, delta).reply == BumpReply(MapOf(db.entries), k, delta)
  {
    LookupMap(db.entries, k);
    assert Decimal(0) == "0";
    StollDecimal(0);
  }

  /** A command that is not logged leaves the database alone, except that GET reorders it. So every
      error reply and every read-only command is invisible to durability and replication. */
  lemma UnloggedChangesNothing(db: Db, cmd: Command, now: Expiry.Time)
    requires !Logged(db, cmd, now)
    ensures cmd.kind != GET ==> Exec(db, cmd, now).db == db
    ensures MapStep(MapOf(db.entries), cmd) == MapOf(db.entries)
  {
    IntegerIsReplyLine(0);
    IntegerIsReplyLine(1);
    match cmd.kind
    case INCR => if |cmd.args| == 1 { UnloggedAdd(db, cmd.args[0], 1); }
    case DECR => if |cmd.args| == 1 { UnloggedAdd(db, cmd.args[0], -1); }
    case _ =>
  }

  lemma UnloggedAdd(db: Db, k: string, delta: int)
    requires !Succeeded(ExecAdd(db, k, delta).reply)
    ensures ExecAdd(db, k, delta).db == db
    ensures Bump(MapOf(db.entries), k, delta) == MapOf(db.entries)
  {
    LookupMap(db.entries, k);
    match Incremented(db.entries, k, delta)
    case None =>
    case Some(n) => IntegerIsReplyLine(n);
  }

  /** The command changes what is stored or when it expires. */
  predicate ChangesData(db: Db, cmd: Command, now: Expiry.Time) {
    var after := Exec(db, cmd, now).db;
    MapOf(after.entries) != MapOf(db.entries) || after.deadlines != db.deadlines
  }

  lemma ReadsChangeNothing(db: Db, cmd: Command, now: Expiry.Time)
    requires !IsWrite(cmd.kind)
    ensures !ChangesData(db, cmd, now)
  {
    if cmd.kind == GET && |cmd.args| == 1 { UnboundedIsMap(db.entries, cmd.args[0], ""); }
  }

  lemma StoringChangesData(k: string, v: string, now: Expiry.Time)
    ensures ChangesData(Db([], 1, map[]), Command(SET, "", [k, v]), now)
    ensures ChangesData(Db([Entry(k, v)], 1, map[]), Command(DEL, "", [k]), now)
  {
    OneEntry(k, v);
    assert k in map[k := v];
  }

  lemma CountingChangesData(k: string, now: Expiry.Time)
    ensures ChangesData(Db([], 1, map[]), Command(INCR, "", [k]), now)
    ensures ChangesData(Db([], 1, map[]), Command(DECR, "", [k]), now)
  {
    OneEntry(k, Decimal(1));
    OneEntry(k, Decimal(-1));
    assert Incremented([], k, 1) == Some(1) && Incremented([], k, -1) == Some(-1);
    assert k in map[k := Decimal(1)] && k in map[k := Decimal(-1)];
  }

  lemma TimingChangesData(k: string, v: string, seconds: int, now: Expiry.Time)
    requires seconds == 1
    ensures ChangesData(Db([Entry(k, v)], 1, map[]), Command(EXPIRE, "", [k, Decimal(seconds)]), now)
    ensures ChangesData(Db([Entry(k, v)], 1, map[k := now]), Command(PERSIST, "", [k]), now)
  {
    OneEntry(k, v);
    PositiveSecondsDecimal(seconds);
    var db, cmd := Db([Entry(k, v)], 1, map[]), Command(EXPIRE, "", [k, Decimal(seconds)]);
    assert Exec(db, cmd, now) == ExecExpire(db, k, Decimal(seconds), now);
    assert k in Exec(db, cmd, now).db.deadlines;
  }

  lemma WriteCanChangeData(kind: Kind) returns (db: Db, cmd: Command)
    requires IsWrite(kind)
    ensures cmd.kind == kind && ChangesData(db, cmd, 0)
  {
    var k, v, one := "k", "v", 1;
    StoringChangesData(k, v, 0);
    CountingChangesData(k, 0);
    TimingChangesData(k, v, one, 0);
    match kind
    case SET => db, cmd := Db([], 1, map[]), Command(SET, "", [k, v]);
    case DEL => db, cmd := Db([Entry(k, v)], 1, map[]), Command(DEL, "", [k]);
    case INCR => db, cmd := Db([], 1, map[]), Command(INCR, "", [k]);
    case DECR => db, cmd := Db([], 1, map[]), Command(DECR, "", [k]);
    case EXPIRE => db, cmd := Db([Entry(k, v)], 1, map[]), Command(EXPIRE, "", [k, Decimal(one)]);
    case PERSIST => db, cmd := Db([Entry(k, v)], 1, map[k := 0]), Command(PERSIST, "", [k]);
  }

  lemma OneEntry(k: string, v: string)
    ensures Lookup([Entry(k, v)], k) == Some(v) && Remove([Entry(k, v)], k) == []
    ensures MapOf([Entry(k, v)]) == map[k := v] && Set([], 1, k, v) == [Entry(k, v)]
  {
    assert [Entry(k, v)][1..] == [];
  }

  /** The commands that are logged, propagated and rejected on a replica are exactly those that can change
      data: some use of them does, and no use of any other command does. */
  lemma WriteIffCanChangeData(kind: Kind)
    ensures IsWrite(kind) <==>
              exists db: Db, cmd: Command, now: Expiry.Time :: cmd.kind == kind && ChangesData(db, cmd, now)
  {
    if IsWrite(kind) {
      var db, cmd := WriteCanChangeData(kind);
    } else {
      forall db: Db, cmd: Command, now: Expiry.Time | cmd.kind == kind ensures !ChangesData(db, cmd, now) {
        ReadsChangeNothing(db, cmd, now);
      }
    }
  }

  /** Logged commands never ask for a snapshot or a role change. */
  lemma LoggedHasNoEffect(db: Db, cmd: Command, now: Expiry.Time)
    requires IsWrite(cmd.kind)
    ensures Exec(db, cmd, now).effect == NoEffect
  {
  }

  predicate AgreeOn(a: Contents, b: Contents, k: string) {
    (k in a) == (k in b) && (k in a ==> a[k] == b[k])
  }

  lemma BumpIsLocal(a: Contents, b: Contents, j: string, delta: int, k: string)
    requires AgreeOn(a, b, k)
    ensures AgreeOn(Bump(a, j, delta), Bump(b, j, delta), k)
  {
  }

  /** A command works key by key: contents that agree on `k` agree on `k` afterwards. */
  lemma MapStepIsLocal(a: Contents, b: Contents, cmd: Command, k: string)
    requires AgreeOn(a, b, k)
    ensures AgreeOn(MapStep(a, cmd), MapStep(b, cmd), k)
  {
    match cmd.kind
    case SET =>
    case DEL =>
    case INCR => if |cmd.args| == 1 { BumpIsLocal(a, b, cmd.args[0], 1, k); }
    case DECR => if |cmd.args| == 1 { BumpIsLocal(a, b, cmd.args[0], -1, k); }
    case _ =>
  }

  /** The command leaves the key stored whatever was there: an accepted SET, or a counter command, which
      needs a number but creates an absent key. */
  predicate Creates(cmd: Command, k: string) {
    && cmd.args != [] && cmd.args[0] == k
    && match cmd.kind
       case SET =>
         |cmd.args| == 2 || (|cmd.args| == 4 && EqualsIgnoreCase(cmd.args[2], "EX")
                             && PositiveSeconds(cmd.args[3]).Some?)
       case INCR | DECR => |cmd.args| == 1
       case _ => false
  }

  predicate Drops(cmd: Command, k: string) { cmd.kind == DEL && cmd.args == [k] }

  lemma PresenceStep(m: Contents, cmd: Command, k: string)
    ensures k in MapStep(m, cmd) <==> Creates(cmd, k) || (k in m && !Drops(cmd, k))
  {
    if cmd.kind == DEL && |cmd.args| == 1 { assert cmd.args == [cmd.args[0]]; }
  }

  /** A command that creates a key here creates it, or finds it, in any larger contents. */
  lemma MapStepMonotone(a: Contents, b: Contents, cmd: Command)
    requires a.Keys <= b.Keys
    ensures MapStep(a, cmd).Keys <= MapStep(b, cmd).Keys
  {
  }

  /** The commands applied in order. */
  function ExecuteAll(m: Contents, cmds: seq<Command>): Contents {
    if cmds == [] then m else MapStep(ExecuteAll(m, cmds[..|cmds| - 1]), cmds[|cmds| - 1])
  }

  lemma {:induction false} ExecuteAllIsLocal(a: Contents, b: Contents, cmds: seq<Command>, k: string)
    requires AgreeOn(a, b, k)
    ensures AgreeOn(ExecuteAll(a, cmds), ExecuteAll(b, cmds), k)
  {
    if cmds != [] {
      var n := |cmds| - 1;
      ExecuteAllIsLocal(a, b, cmds[..n], k);
      MapStepIsLocal(ExecuteAll(a, cmds[..n]), ExecuteAll(b, cmds[..n]), cmds[n], k);
    }
  }

  lemma SameByKey(a: Contents, b: Contents)
    requires forall k :: AgreeOn(a, b, k)
    ensures a == b
  {
    forall k | k in a ensures k in b && a[k] == b[k] { assert AgreeOn(a, b, k); }
    forall k | k in b ensures k in a { assert AgreeOn(a, b, k); }
  }

  // ---------------------------------------------------------------- lines

  function LineStep(m: Contents, line: string): Contents {
    match Parse(line)
    case Request(cmd) => MapStep(m, cmd)
    case ProtocolError(_) => m
  }

  /** The lines applied in order. */
  function Fold(m: Contents, lines: seq<Line>): Contents {
    if lines == [] then m else LineStep(Fold(m, lines[..|lines| - 1]), lines[|lines| - 1])
  }

  lemma {:induction false} FoldAppend(m: Contents, a: seq<Line>, b: seq<Line>)
    ensures Fold(m, a + b) == Fold(Fold(m, a), b)
    decreases |b|
  {
    if b == [] {
      assert a + b == a;
    } else {
      var n := |b| - 1;
      FoldAppend(m, a, b[..n]);
      FoldOne(m, a + b[..n], b[n]);
      assert a + b == a + b[..n] + [b[n]];
    }
  }

  lemma FoldOne(m: Contents, a: seq<Line>, l: Line)
    ensures Fold(m, a + [l]) == LineStep(Fold(m, a), l)
  {
    assert (a + [l])[..|a|] == a;
  }

  /** One line of a log, a snapshot or a replication stream, fed to the executor at time `now`. */
  function ReplayLine(db: Db, line: string, now: Expiry.Time): Db {
    if line == "" then db
    else match Parse(line)
      case Request(cmd) => Exec(db, cmd, now).db
      case ProtocolError(_) => db
  }

  /** Replay of lines; the i-th of them is executed at time `clock(i)`. */
  function Replay(db: Db, lines: seq<Line>, clock: nat -> Expiry.Time): Db {
    if lines == [] then db
    else
      var n: nat := |lines| - 1;
      ReplayLine(Replay(db, lines[..n], clock), lines[n], clock(n))
  }

  lemma ReplaySnoc(db: Db, lines: seq<Line>, line: Line, clock: nat -> Expiry.Time)
    ensures Replay(db, lines + [line], clock) == ReplayLine(Replay(db, lines, clock), line, clock(|lines|))
  {
    assert (lines + [line])[..|lines|] == lines;
  }

  lemma ReplayLineFacts(db: Db, line: string, now: Expiry.Time)
    requires Good(db)
    ensures Good(ReplayLine(db, line, now)) && ReplayLine(db, line, now).capacity == db.capacity
    ensures db.capacity == 0 ==>
              MapOf(ReplayLine(db, line, now).entries) == LineStep(MapOf(db.entries), line)
  {
    match Parse(line)
    case ProtocolError(_) =>
    case Request(cmd) =>
      PrintParse(line);
      ExecKeepsGood(db, cmd, now);
      if db.capacity == 0 { ExecIsMapStep(db, cmd, now); }
  }

  /** Replay keeps the data well formed and, on an unbounded store, is `Fold` on the contents. */
  lemma {:induction false} ReplayIsFold(db: Db, lines: seq<Line>, clock: nat -> Expiry.Time)
    requires Good(db)
    ensures Good(Replay(db, lines, clock)) && Replay(db, lines, clock).capacity == db.capacity
    ensures db.capacity == 0 ==>
              MapOf(Replay(db, lines, clock).entries) == Fold(MapOf(db.entries), lines)
  {
    if lines != [] {
      var n := |lines| - 1;
      ReplayIsFold(db, lines[..n], clock);
      ReplayLineFacts(Replay(db, lines[..n], clock), lines[n], clock(n));
    }
  }

  // ---------------------------------------------------------------- shape

  predicate SameShape(a: Db, b: Db) {
    a.entries == b.entries && a.capacity == b.capacity && a.deadlines.Keys == b.deadlines.Keys
  }

  lemma SetShape(a: Db, b: Db, cmd: Command, now: Expiry.Time, later: Expiry.Time)
    requires SameShape(a, b)
    ensures SameShape(ExecSet(a, cmd, now).db, ExecSet(b, cmd, later).db)
  {
  }

  lemma DeadlineShape(a: Db, b: Db, k: string, text: string, now: Expiry.Time, later: Expiry.Time)
    requires SameShape(a, b)
    ensures SameShape(ExecExpire(a, k, text, now).db, ExecExpire(b, k, text, later).db)
    ensures SameShape(ExecPersist(a, k).db, ExecPersist(b, k).db)
    ensures SameShape(ExecDel(a, k).db, ExecDel(b, k).db)
  {
  }

  /** The clock decides when keys expire, not which keys are stored, in what order, or which of them
      have a deadline. */
  lemma ShapeStep(a: Db, b: Db, cmd: Command, now: Expiry.Time, later: Expiry.Time)
    requires SameShape(a, b)
    ensures SameShape(Exec(a, cmd, now).db, Exec(b, cmd, later).db)
  {
    match cmd.kind
    case SET => SetShape(a, b, cmd, now, later);
    case DEL | PERSIST => if |cmd.args| == 1 { DeadlineShape(a, b, cmd.args[0], "", now, later); }
    case EXPIRE => if |cmd.args| == 2 { DeadlineShape(a, b, cmd.args[0], cmd.args[1], now, later); }
    case _ =>
  }
}
