/** One server process with its two files: requests, the filtered log append, snapshots with log
    reset, and crash and restart at any point between commands. The append-only log is on. */
module Durability {
  import opened Text
  import opened Numbers
  import opened Protocol
  import opened Lru
  import opened Executor
  import opened Contents
  import opened Snapshot
  import Expiry

  datatype Role = PRIMARY | REPLICA

  /** `snapshot` is None until the first save; `aof` is the text of the append-only file. */
  datatype Server = Server(db: Db, role: Role, snapshot: Option<string>, aof: string)

  function Fresh(capacity: nat): Server { Server(Empty(capacity), PRIMARY, None, "") }

  /** `PersistenceManager::save`: write the snapshot, then truncate the log. */
  function Save(s: Server): Server { s.(snapshot := Some(Dump(s.db.entries)), aof := "") }

  function RecordWrite(s: Server, line: Line): Server { s.(aof := s.aof + (line + "\n")) }

  function Perform(s: Server, effect: Effect): Server {
    match effect
    case NoEffect => s
    case SaveSnapshot => Save(s)
    case ReplicateFrom(_, _) => s.(role := REPLICA)
    case StopReplicating => s.(role := PRIMARY)
  }

  /** Execute, carry out the effect, and log the line if it was a successful write. */
  function ExecuteAndRecord(s: Server, cmd: Command, line: Line, now: Expiry.Time): Server {
    var out := Exec(s.db, cmd, now);
    var done := Perform(s.(db := out.db), out.effect);
    if IsWrite(cmd.kind) && Succeeded(out.reply) then RecordWrite(done, line) else done
  }

  datatype Handled = Handled(server: Server, reply: Option<string>)

  /** One request line of a client connection. SYNC gets no reply line: the connection turns into a
      replica stream. */
  function HandleClient(s: Server, line: Line, now: Expiry.Time): Handled {
    if line == "" then Handled(s, None)
    else match Parse(line)
      case ProtocolError(message) => Handled(s, Some(Err(message)))
      case Request(cmd) =>
        if cmd.kind == SYNC then Handled(s, None)
        else if IsWrite(cmd.kind) && s.role == REPLICA then Handled(s, Some(ReadOnlyError()))
        else Handled(ExecuteAndRecord(s, cmd, line, now), Some(Exec(s.db, cmd, now).reply))
  }

  lemma RecordedData(s: Server, cmd: Command, line: Line, now: Expiry.Time)
    ensures var out, after := Exec(s.db, cmd, now), ExecuteAndRecord(s, cmd, line, now);
            && after.db == out.db
            && after.role == Perform(s, out.effect).role
  {
  }

  lemma RequestIsExecuted(s: Server, line: Line, now: Expiry.Time)
    requires Parse(line).Request? && Parse(line).cmd.kind != SYNC
    ensures var cmd := Parse(line).cmd;
            HandleClient(s, line, now)
            == if s.role == REPLICA && IsWrite(cmd.kind) then Handled(s, Some(ReadOnlyError()))
               else Handled(ExecuteAndRecord(s, cmd, line, now), Some(Exec(s.db, cmd, now).reply))
  {
    assert Tokenize("") == [];
  }

  /** What a client is answered, for every server and every line that is a request. A replica rejects exactly
      the writes and does nothing else with them; every other request is answered, and an unbounded store
      changed, like a plain map. */
  lemma ClientSeesMap(s: Server, line: Line, now: Expiry.Time)
    requires Parse(line).Request? && Parse(line).cmd.kind != SYNC
    ensures var cmd, handled := Parse(line).cmd, HandleClient(s, line, now);
            if s.role == REPLICA && IsWrite(cmd.kind) then handled == Handled(s, Some(ReadOnlyError()))
            else
              && handled.reply == Some(MapReply(MapOf(s.db.entries), s.db.deadlines, cmd, now))
              && (s.db.capacity == 0 ==> MapOf(handled.server.db.entries) == MapStep(MapOf(s.db.entries), cmd))
  {
    var cmd := Parse(line).cmd;
    RequestIsExecuted(s, line, now);
    RecordedData(s, cmd, line, now);
    ReplyIsMapReply(s.db, cmd, now);
    if s.db.capacity == 0 { ExecIsMapStep(s.db, cmd, now); }
  }

  lemma ReplicaOfEffect(db: Db, cmd: Command, now: Expiry.Time)
    ensures var effect := Exec(db, cmd, now).effect;
            if cmd.kind != REPLICAOF || |cmd.args| != 2 then !effect.ReplicateFrom? && !effect.StopReplicating?
            else if Spells(cmd.args[0], "NO", "no") && Spells(cmd.args[1], "ONE", "one") then effect == StopReplicating
            else if Stoi(cmd.args[1]).Some? then effect == ReplicateFrom(cmd.args[0], Stoi(cmd.args[1]).value)
            else effect == NoEffect
  {
    if cmd.kind == REPLICAOF && |cmd.args| == 2 { ReplicaOfLetters(cmd.args[0], cmd.args[1]); }
  }

  lemma ReplicaOfLetters(host: string, port: string)
    ensures ReplicaOf(host, port).1
            == if Spells(host, "NO", "no") && Spells(port, "ONE", "one") then StopReplicating
               else if Stoi(port).Some? then ReplicateFrom(host, Stoi(port).value)
               else NoEffect
  {
    SpelledIff(host, "NO", "no");
    SpelledIff(port, "ONE", "one");
  }

  /** Which requests change the role: `REPLICAOF NO ONE`, in any letters, makes a primary; any other REPLICAOF
      with a port that is a number makes a replica; nothing else does anything to the role. */
  lemma RoleFollowsReplicaOf(s: Server, line: Line, now: Expiry.Time)
    requires Parse(line).Request? && Parse(line).cmd.kind != SYNC
    ensures var cmd := Parse(line).cmd;
            HandleClient(s, line, now).server.role
            == if cmd.kind != REPLICAOF || |cmd.args| != 2 then s.role
               else if Spells(cmd.args[0], "NO", "no") && Spells(cmd.args[1], "ONE", "one") then PRIMARY
               else if Stoi(cmd.args[1]).Some? then REPLICA
               else s.role
  {
    var cmd := Parse(line).cmd;
    RequestIsExecuted(s, line, now);
    RecordedData(s, cmd, line, now);
    ReplicaOfEffect(s.db, cmd, now);
  }

  /** One line received from this server's own primary. */
  function ApplyFromPrimary(s: Server, line: Line, now: Expiry.Time): Server {
    match Parse(line)
    case ProtocolError(_) => s
    case Request(cmd) => ExecuteAndRecord(s, cmd, line, now)
  }

  /** A line from the primary is applied whatever the role: an unbounded store changes like a plain map. */
  lemma PrimaryLineIsApplied(s: Server, line: Line, now: Expiry.Time)
    requires s.db.capacity == 0
    ensures MapOf(ApplyFromPrimary(s, line, now).db.entries) == LineStep(MapOf(s.db.entries), line)
  {
    if Parse(line).Request? {
      RecordedData(s, Parse(line).cmd, line, now);
      ExecIsMapStep(s.db, Parse(line).cmd, now);
    }
  }

  /** The lines on disk in the order recovery replays them: the snapshot, then the log. */
  function OnDisk(s: Server): seq<Line> {
    (match s.snapshot case None => [] case Some(text) => GetLines(text)) + GetLines(s.aof)
  }

  function Recovered(s: Server, clock: nat -> Expiry.Time): Db {
    Replay(Empty(s.db.capacity), OnDisk(s), clock)
  }

  datatype Event =
    | Client(line: Line, now: Expiry.Time)
    | FromPrimary(line: Line, now: Expiry.Time)
    | TimerSave
    | Restart(clock: nat -> Expiry.Time)

  function Apply(s: Server, ev: Event): Server {
    match ev
    case Client(line, now) => HandleClient(s, line, now).server
    case FromPrimary(line, now) => ApplyFromPrimary(s, line, now)
    case TimerSave => Save(s)
    case Restart(clock) => s.(db := Recovered(s, clock), role := PRIMARY)
  }

  function Run(s: Server, evs: seq<Event>): Server
    decreases |evs|
  {
    if evs == [] then s else Run(Apply(s, evs[0]), evs[1..])
  }

  // ---------------------------------------------------------------- crash recovery

  /** What is on disk always amounts to what is in memory. */
  ghost predicate Inv(s: Server) {
    && Good(s.db) && s.db.capacity == 0
    && Terminated(s.aof)
    && Fold(map[], OnDisk(s)) == MapOf(s.db.entries)
  }

  predicate IsSave(line: Line) {
    Parse(line).Request? && Parse(line).cmd.kind == SAVE && Parse(line).cmd.args == []
  }

  /** The event takes a snapshot. */
  predicate Snapshots(ev: Event) {
    ev.TimerSave? || ((ev.Client? || ev.FromPrimary?) && IsSave(ev.line))
  }

  /** Every snapshot of the run is taken of entries that the parser can read back. */
  ghost predicate SavesFit(s: Server, evs: seq<Event>)
    decreases |evs|
  {
    evs != [] ==> (Snapshots(evs[0]) ==> AllFit(s.db.entries)) && SavesFit(Apply(s, evs[0]), evs[1..])
  }

  lemma SaveKeepsInv(s: Server)
    requires Good(s.db) && s.db.capacity == 0 && AllFit(s.db.entries)
    ensures Inv(Save(s))
  {
    SnapshotIsWhole(s.db.entries);
    assert OnDisk(Save(s)) == GetLines(Dump(s.db.entries));
  }

  lemma RecordKeepsInv(s: Server, cmd: Command, line: Line, db: Db)
    requires Inv(s) && Parse(line) == Request(cmd)
    requires Good(db) && db.capacity == 0 && MapOf(db.entries) == MapStep(MapOf(s.db.entries), cmd)
    ensures Inv(RecordWrite(s.(db := db), line))
  {
    GetLinesAppend(s.aof, line);
    var after := RecordWrite(s.(db := db), line);
    assert OnDisk(after) == OnDisk(s) + [line];
    FoldOne(map[], OnDisk(s), line);
  }

  lemma QuietKeepsInv(s: Server, db: Db, role: Role)
    requires Inv(s) && Good(db) && db.capacity == 0 && MapOf(db.entries) == MapOf(s.db.entries)
    ensures Inv(s.(db := db, role := role))
  {
    assert OnDisk(s.(db := db, role := role)) == OnDisk(s);
  }

  lemma UnloggedKeepsInv(s: Server, cmd: Command, line: Line, now: Expiry.Time)
    requires Inv(s) && WellFormed(cmd) && !Logged(s.db, cmd, now)
    requires Exec(s.db, cmd, now).effect == SaveSnapshot ==> AllFit(s.db.entries)
    ensures Inv(ExecuteAndRecord(s, cmd, line, now))
  {
    var out := Exec(s.db, cmd, now);
    ExecKeepsGood(s.db, cmd, now);
    ExecIsMapStep(s.db, cmd, now);
    UnloggedChangesNothing(s.db, cmd, now);
    var after := ExecuteAndRecord(s, cmd, line, now);
    if out.effect == SaveSnapshot {
      SaveEffect(s.db, cmd, now);
      SaveKeepsInv(s);
    } else {
      QuietKeepsInv(s, out.db, after.role);
    }
  }

  lemma ExecuteKeepsInv(s: Server, cmd: Command, line: Line, now: Expiry.Time)
    requires Inv(s) && Parse(line) == Request(cmd)
    requires IsSave(line) ==> AllFit(s.db.entries)
    ensures Inv(ExecuteAndRecord(s, cmd, line, now))
  {
    PrintParse(line);
    if Logged(s.db, cmd, now) {
      ExecKeepsGood(s.db, cmd, now);
      ExecIsMapStep(s.db, cmd, now);
      LoggedHasNoEffect(s.db, cmd, now);
      RecordKeepsInv(s, cmd, line, Exec(s.db, cmd, now).db);
    } else {
      if Exec(s.db, cmd, now).effect == SaveSnapshot { SaveEffect(s.db, cmd, now); }
      UnloggedKeepsInv(s, cmd, line, now);
    }
  }

  lemma SaveEffect(db: Db, cmd: Command, now: Expiry.Time)
    requires Exec(db, cmd, now).effect == SaveSnapshot
    ensures cmd.kind == SAVE && cmd.args == [] && Exec(db, cmd, now).db == db
  {
  }

  lemma RestartKeepsInv(s: Server, clock: nat -> Expiry.Time)
    requires Inv(s)
    ensures MapOf(Recovered(s, clock).entries) == MapOf(s.db.entries)
    ensures Inv(s.(db := Recovered(s, clock), role := PRIMARY))
  {
    ReplayIsFold(Empty(0), OnDisk(s), clock);
    var after := s.(db := Recovered(s, clock), role := PRIMARY);
    assert OnDisk(after) == OnDisk(s);
  }

  lemma InvStep(s: Server, ev: Event)
    requires Inv(s) && (Snapshots(ev) ==> AllFit(s.db.entries))
    ensures Inv(Apply(s, ev))
  {
    match ev
    case Client(line, now) =>
      if Parse(line).Request? { ExecuteKeepsInv(s, Parse(line).cmd, line, now); }
    case FromPrimary(line, now) =>
      if Parse(line).Request? { ExecuteKeepsInv(s, Parse(line).cmd, line, now); }
    case TimerSave => SaveKeepsInv(s);
    case Restart(clock) => RestartKeepsInv(s, clock);
  }

  lemma {:induction false} InvAlways(s: Server, evs: seq<Event>)
    requires Inv(s) && SavesFit(s, evs)
    ensures Inv(Run(s, evs))
    decreases |evs|
  {
    if evs != [] {
      InvStep(s, evs[0]);
      InvAlways(Apply(s, evs[0]), evs[1..]);
    }
  }

  /** Crash recovery. After any run of requests, replicated lines, snapshots and earlier restarts, a
      restart rebuilds exactly the contents that were live. */
  lemma CrashRecovery(evs: seq<Event>, clock: nat -> Expiry.Time)
    requires SavesFit(Fresh(0), evs)
    ensures var s := Run(Fresh(0), evs);
            MapOf(Recovered(s, clock).entries) == MapOf(s.db.entries)
  {
    assert OnDisk(Fresh(0)) == [];
    InvAlways(Fresh(0), evs);
    RestartKeepsInv(Run(Fresh(0), evs), clock);
  }

  /** The hypothesis is exact: a snapshot loses contents if and only if some entry's line is too
      long, which can be seen before it is taken. */
  lemma SaveIsDurableIffAllFit(s: Server, clock: nat -> Expiry.Time)
    requires Inv(s)
    ensures MapOf(Recovered(Save(s), clock).entries) == MapOf(s.db.entries) <==> AllFit(s.db.entries)
  {
    assert OnDisk(Save(s)) == GetLines(Dump(s.db.entries));
    SnapshotIsFaithfulIffAllFit(s.db.entries, clock);
  }

  // ---------------------------------------------------------------- what is on disk

  /** A line that replay skips, or one of a write, which asks for no snapshot and no change of role. */
  predicate IsData(line: Line) { Parse(line).Request? ==> IsWrite(Parse(line).cmd.kind) }

  ghost predicate DiskInv(s: Server) {
    Good(s.db) && Terminated(s.aof) && forall i :: 0 <= i < |OnDisk(s)| ==> IsData(OnDisk(s)[i])
  }

  lemma SaveKeepsDiskInv(s: Server)
    requires DiskInv(s)
    ensures DiskInv(Save(s))
  {
    DumpReadsBack(s.db.entries);
    assert OnDisk(Save(s)) == DumpLines(s.db.entries);
    forall i | 0 <= i < |s.db.entries| ensures IsData(OnDisk(Save(s))[i]) { ParseSnapshotLine(s.db.entries[i]); }
  }

  lemma RecordKeepsDiskInv(s: Server, line: Line)
    requires DiskInv(s) && IsData(line)
    ensures DiskInv(RecordWrite(s, line))
  {
    GetLinesAppend(s.aof, line);
    assert OnDisk(RecordWrite(s, line)) == OnDisk(s) + [line];
  }

  lemma ExecuteKeepsDiskInv(s: Server, cmd: Command, line: Line, now: Expiry.Time)
    requires DiskInv(s) && Parse(line) == Request(cmd)
    ensures DiskInv(ExecuteAndRecord(s, cmd, line, now))
  {
    PrintParse(line);
    ExecKeepsGood(s.db, cmd, now);
    var out := Exec(s.db, cmd, now);
    var done := s.(db := out.db);
    assert OnDisk(done) == OnDisk(s);
    if out.effect == SaveSnapshot {
      SaveKeepsDiskInv(done);
    } else {
      assert OnDisk(Perform(done, out.effect)) == OnDisk(s);
    }
    if IsWrite(cmd.kind) { RecordKeepsDiskInv(Perform(done, out.effect), line); }
  }

  /** In every run, at any capacity, the files hold data only, so replaying them has no other effect. */
  lemma {:induction false} FilesHoldOnlyData(s: Server, evs: seq<Event>)
    requires DiskInv(s)
    ensures DiskInv(Run(s, evs))
    decreases |evs|
  {
    if evs != [] {
      match evs[0] {
        case TimerSave => SaveKeepsDiskInv(s);
        case Restart(clock) =>
          ReplayIsFold(Empty(s.db.capacity), OnDisk(s), clock);
          assert OnDisk(Apply(s, evs[0])) == OnDisk(s);
        case Client(line, now) =>
          if Parse(line).Request? { ExecuteKeepsDiskInv(s, Parse(line).cmd, line, now); }
        case FromPrimary(line, now) =>
          if Parse(line).Request? { ExecuteKeepsDiskInv(s, Parse(line).cmd, line, now); }
      }
      FilesHoldOnlyData(Apply(s, evs[0]), evs[1..]);
    }
  }

  // ---------------------------------------------------------------- when snapshots fit

  /** Counter keys this short leave room for any 64-bit number after "SET key ". */
  const MAX_COUNTER_KEY: nat := 8167

  predicate ShortCounterKey(cmd: Command) {
    cmd.kind in {INCR, DECR} && |cmd.args| == 1 ==> |cmd.args[0]| <= MAX_COUNTER_KEY
  }

  predicate ShortLine(line: Line) { Parse(line).Request? ==> ShortCounterKey(Parse(line).cmd) }

  predicate ShortLines(lines: seq<Line>) { forall i :: 0 <= i < |lines| ==> ShortLine(lines[i]) }

  predicate ShortEvents(evs: seq<Event>) {
    forall i :: 0 <= i < |evs| ==> (evs[i].Client? || evs[i].FromPrimary? ==> ShortLine(evs[i].line))
  }

  /** A SET request that was accepted leaves an entry whose own snapshot line is accepted. */
  lemma SetLineLeavesRoom(cmd: Command)
    requires cmd.kind == SET && KindOf(cmd.name) == SET && |cmd.args| >= 2 && |Print(cmd)| <= MAX_LINE
    ensures Fits(Entry(cmd.args[0], cmd.args[1]))
  {
    var ts := [cmd.name] + cmd.args;
    assert |cmd.name| == |ToUpper(cmd.name)| == 3;
    assert ts[1..] == cmd.args && ts[1] == cmd.args[0];
    assert |Join(cmd.args)| == |cmd.args[0]| + 1 + |Join(cmd.args[1..])|;
    assert |Join(cmd.args[1..])| >= |cmd.args[1]|;
  }

  lemma SetKeepsFit(es: Entries, capacity: nat, k: string, v: string)
    requires AllFit(es) && Fits(Entry(k, v))
    ensures AllFit(Set(es, capacity, k, v))
  {
    RemoveFacts(es, k);
  }

  lemma TouchKeepsFit(es: Entries, k: string)
    requires AllFit(es)
    ensures AllFit(Touch(es, k)) && AllFit(Remove(es, k))
  {
    RemoveFacts(es, k);
    LookupIndex(es, k);
  }

  lemma AddKeepsFit(db: Db, k: string, delta: int)
    requires AllFit(db.entries) && |k| <= MAX_COUNTER_KEY
    ensures AllFit(ExecAdd(db, k, delta).db.entries)
  {
    IncrementedIsInt64(db.entries, k, delta);
    match Incremented(db.entries, k, delta)
    case None =>
    case Some(n) =>
      DecimalIsShortToken(n);
      SetKeepsFit(db.entries, db.capacity, k, Decimal(n));
  }

  lemma ExecKeepsFit(db: Db, cmd: Command, now: Expiry.Time)
    requires AllFit(db.entries) && WellFormed(cmd) && |Print(cmd)| <= MAX_LINE && ShortCounterKey(cmd)
    ensures AllFit(Exec(db, cmd, now).db.entries)
  {
    if cmd.args != [] {
      var k := cmd.args[0];
      match cmd.kind
      case SET =>
        if |cmd.args| >= 2 {
          SetLineLeavesRoom(cmd);
          SetKeepsFit(db.entries, db.capacity, k, cmd.args[1]);
        }
      case GET | DEL => TouchKeepsFit(db.entries, k);
      case INCR => if |cmd.args| == 1 { AddKeepsFit(db, k, 1); }
      case DECR => if |cmd.args| == 1 { AddKeepsFit(db, k, -1); }
      case _ =>
    }
  }

  lemma {:induction false} ReplayKeepsFit(db: Db, lines: seq<Line>, clock: nat -> Expiry.Time)
    requires AllFit(db.entries) && ShortLines(lines)
    ensures AllFit(Replay(db, lines, clock).entries)
  {
    if lines != [] {
      var n := |lines| - 1;
      ReplayKeepsFit(db, lines[..n], clock);
      if Parse(lines[n]).Request? {
        PrintParse(lines[n]);
        ExecKeepsFit(Replay(db, lines[..n], clock), Parse(lines[n]).cmd, clock(n));
      }
    }
  }

  ghost predicate FitInv(s: Server) {
    AllFit(s.db.entries) && AllStorable(s.db.entries) && Valid(s.db.entries, s.db.capacity)
    && Terminated(s.aof) && ShortLines(OnDisk(s))
  }

  lemma SaveKeepsFitInv(s: Server)
    requires FitInv(s)
    ensures FitInv(Save(s))
  {
    DumpReadsBack(s.db.entries);
    assert OnDisk(Save(s)) == DumpLines(s.db.entries);
    forall i | 0 <= i < |s.db.entries| ensures ShortLine(OnDisk(Save(s))[i]) {
      ParseSnapshotLine(s.db.entries[i]);
    }
  }

  lemma RecordKeepsFitInv(s: Server, line: Line)
    requires FitInv(s) && ShortLine(line)
    ensures FitInv(RecordWrite(s, line))
  {
    GetLinesAppend(s.aof, line);
    assert OnDisk(RecordWrite(s, line)) == OnDisk(s) + [line];
  }

  lemma PerformKeepsFitInv(s: Server, effect: Effect)
    requires FitInv(s)
    ensures FitInv(Perform(s, effect))
  {
    if effect == SaveSnapshot {
      SaveKeepsFitInv(s);
    } else {
      assert OnDisk(Perform(s, effect)) == OnDisk(s);
    }
  }

  lemma ExecuteKeepsFitInv(s: Server, cmd: Command, line: Line, now: Expiry.Time)
    requires FitInv(s) && Parse(line) == Request(cmd) && ShortLine(line)
    ensures FitInv(ExecuteAndRecord(s, cmd, line, now))
  {
    PrintParse(line);
    var out := Exec(s.db, cmd, now);
    ExecKeepsGood(s.db, cmd, now);
    ExecKeepsFit(s.db, cmd, now);
    var done := s.(db := out.db);
    assert OnDisk(done) == OnDisk(s);
    PerformKeepsFitInv(done, out.effect);
    RecordKeepsFitInv(Perform(done, out.effect), line);
  }

  lemma FitStep(s: Server, ev: Event)
    requires FitInv(s) && (ev.Client? || ev.FromPrimary? ==> ShortLine(ev.line))
    ensures FitInv(Apply(s, ev))
  {
    match ev
    case TimerSave => SaveKeepsFitInv(s);
    case Restart(clock) =>
      ReplayKeepsFit(Empty(s.db.capacity), OnDisk(s), clock);
      ReplayIsFold(Empty(s.db.capacity), OnDisk(s), clock);
      assert OnDisk(Apply(s, ev)) == OnDisk(s);
    case _ =>
      if Parse(ev.line).Request? { ExecuteKeepsFitInv(s, Parse(ev.line).cmd, ev.line, ev.now); }
  }

  /** In a run whose INCR and DECR keys are at most 8167 bytes every snapshot fits, so
      `CrashRecovery` holds of it without any other condition. */
  lemma {:induction false} ShortCounterKeysFit(s: Server, evs: seq<Event>)
    requires FitInv(s) && ShortEvents(evs)
    ensures SavesFit(s, evs) && FitInv(Run(s, evs))
    decreases |evs|
  {
    if evs != [] {
      FitStep(s, evs[0]);
      ShortCounterKeysFit(Apply(s, evs[0]), evs[1..]);
    }
  }

  lemma CrashRecoveryOfShortKeys(evs: seq<Event>, clock: nat -> Expiry.Time)
    requires ShortEvents(evs)
    ensures var s := Run(Fresh(0), evs);
            MapOf(Recovered(s, clock).entries) == MapOf(s.db.entries)
  {
    assert OnDisk(Fresh(0)) == [];
    ShortCounterKeysFit(Fresh(0), evs);
    CrashRecovery(evs, clock);
  }

  // ---------------------------------------------------------------- when they do not

  lemma ParseIncr(k: string)
    requires IsToken(k) && |k| <= MAX_LINE - 5
    ensures Parse("INCR " + k) == Request(Command(INCR, "INCR", [k]))
  {
    assert IsToken("INCR") && "INCR" + " " + k == "INCR " + k;
    KeyRequests("INCR", k);
  }

  lemma IncrNewKey(k: string, now: Expiry.Time)
    ensures Exec(Empty(0), Command(INCR, "INCR", [k]), now) == Outcome(Db([Entry(k, "1")], 0, map[]), ":1", NoEffect)
  {
    assert Decimal(1) == "1" && Integer(1) == ":1";
    assert Incremented([], k, 1) == Some(1);
    assert Set([], 0, k, "1") == [Entry(k, "1")];
    assert ExecAdd(Empty(0), k, 1) == Outcome(Db([Entry(k, "1")], 0, map[]), ":1", NoEffect);
  }

  lemma IncrIsRecorded(k: string, line: Line, now: Expiry.Time)
    requires IsToken(k) && |k| <= MAX_LINE - 5 && line == "INCR " + k
    ensures HandleClient(Fresh(0), line, now)
            == Handled(RecordWrite(Fresh(0).(db := Db([Entry(k, "1")], 0, map[])), line), Some(":1"))
  {
    ParseIncr(k);
    IncrNewKey(k, now);
    assert line[0] == 'I';
  }

  lemma RunCons(s: Server, ev: Event, rest: seq<Event>)
    ensures Run(s, [ev] + rest) == Run(Apply(s, ev), rest)
  {
    assert ([ev] + rest)[1..] == rest;
  }

  lemma RunTwo(s: Server, a: Event, b: Event)
    ensures Run(s, [a, b]) == Apply(Apply(s, a), b)
  {
    RunCons(Apply(s, a), b, []);
    RunCons(s, a, [b] + []);
    assert [a, b] == [a] + ([b] + []);
  }

  /** A counter whose key is the longest an INCR line can carry is acknowledged, saved, and gone
      after a restart: its snapshot line is longer than the parser accepts. */
  lemma LongCounterKeyIsLost(k: string, line: Line, now: Expiry.Time, clock: nat -> Expiry.Time)
    requires IsToken(k) && |k| == MAX_LINE - 5 && line == "INCR " + k
    ensures HandleClient(Fresh(0), line, now).reply == Some(":1")
    ensures var s := Run(Fresh(0), [Client(line, now), TimerSave]);
            MapOf(s.db.entries) == map[k := "1"] && MapOf(Recovered(s, clock).entries) == map[]
  {
    IncrIsRecorded(k, line, now);
    RunTwo(Fresh(0), Client(line, now), TimerSave);
    UnfitEntryIsLost(HandleClient(Fresh(0), line, now).server, Entry(k, "1"), clock);
  }

  lemma UnfitEntryIsLost(s: Server, e: Entry, clock: nat -> Expiry.Time)
    requires s.db == Db([e], 0, map[]) && Storable(e) && !Fits(e)
    ensures MapOf(Save(s).db.entries) == map[e.key := e.value]
    ensures MapOf(Recovered(Save(s), clock).entries) == map[]
  {
    var es := [e];
    assert es[1..] == [] && es[..0] == [];
    DumpReadsBack(es);
    assert OnDisk(Save(s)) == DumpLines(es);
    LoadReverses(es, 0, clock);
    assert Kept(es) == [];
  }
}
