/** What a client sees: one reply line per request, in order, on a connection shared with nobody but
    against a database shared with everybody. */
module Connection {
  import opened Text
  import opened Numbers
  import opened Protocol
  import opened Executor
  import opened Contents
  import L = Lru
  import D = Durability
  import Framing
  import Snapshot
  import Expiry

  // ---------------------------------------------------------------- every reachable state is good

  /** Every stored value leaves room for the prefix of its reply. */
  predicate ShortValues(es: L.Entries) { forall i :: 0 <= i < |es| ==> |es[i].value| < MAX_LINE }

  /** What every reachable database satisfies. */
  predicate Sound(db: Db) { Good(db) && ShortValues(db.entries) }

  lemma RemoveKeepsShort(es: L.Entries, k: string)
    requires ShortValues(es)
    ensures ShortValues(L.Remove(es, k))
  {
    L.RemoveFacts(es, k);
  }

  lemma TouchKeepsShort(es: L.Entries, k: string)
    requires ShortValues(es)
    ensures ShortValues(L.Touch(es, k))
  {
    RemoveKeepsShort(es, k);
    L.LookupIndex(es, k);
  }

  lemma SetKeepsShort(es: L.Entries, capacity: nat, k: string, v: string)
    requires ShortValues(es) && |v| < MAX_LINE
    ensures ShortValues(L.Set(es, capacity, k, v))
  {
    RemoveKeepsShort(es, k);
  }

  lemma AddKeepsShort(db: Db, k: string, delta: int)
    requires ShortValues(db.entries)
    ensures ShortValues(ExecAdd(db, k, delta).db.entries)
  {
    IncrementedIsInt64(db.entries, k, delta);
    match L.Incremented(db.entries, k, delta)
    case None =>
    case Some(n) =>
      DecimalIsShortToken(n);
      SetKeepsShort(db.entries, db.capacity, k, Decimal(n));
  }

  lemma ExecKeepsShort(db: Db, cmd: Command, now: Expiry.Time)
    requires ShortValues(db.entries) && WellFormed(cmd) && |Print(cmd)| <= MAX_LINE
    ensures ShortValues(Exec(db, cmd, now).db.entries)
  {
    if cmd.args != [] {
      var k := cmd.args[0];
      match cmd.kind
      case SET =>
        if |cmd.args| >= 2 {
          D.SetLineLeavesRoom(cmd);
          SetKeepsShort(db.entries, db.capacity, k, cmd.args[1]);
        }
      case GET => TouchKeepsShort(db.entries, k);
      case DEL => RemoveKeepsShort(db.entries, k);
      case INCR => if |cmd.args| == 1 { AddKeepsShort(db, k, 1); }
      case DECR => if |cmd.args| == 1 { AddKeepsShort(db, k, -1); }
      case _ =>
    }
  }

  /** One line, wherever it comes from. */
  lemma LineKeepsSound(db: Db, line: Line, now: Expiry.Time)
    requires Sound(db) && Parse(line).Request?
    ensures Sound(Exec(db, Parse(line).cmd, now).db)
    ensures Exec(db, Parse(line).cmd, now).db.capacity == db.capacity
  {
    PrintParse(line);
    ExecKeepsGood(db, Parse(line).cmd, now);
    ExecKeepsShort(db, Parse(line).cmd, now);
  }

  lemma {:induction false} ReplayKeepsSound(db: Db, lines: seq<Line>, clock: nat -> Expiry.Time)
    requires Sound(db)
    ensures Sound(Replay(db, lines, clock))
  {
    if lines != [] {
      var n := |lines| - 1;
      ReplayKeepsSound(db, lines[..n], clock);
      if Parse(lines[n]).Request? { LineKeepsSound(Replay(db, lines[..n], clock), lines[n], clock(n)); }
    }
  }

  lemma StepKeepsSound(s: D.Server, ev: D.Event)
    requires Sound(s.db)
    ensures Sound(D.Apply(s, ev).db)
  {
    match ev
    case TimerSave =>
    case Restart(clock) => ReplayKeepsSound(Snapshot.Empty(s.db.capacity), D.OnDisk(s), clock);
    case _ =>
      if Parse(ev.line).Request? {
        LineKeepsSound(s.db, ev.line, ev.now);
        D.RecordedData(s, Parse(ev.line).cmd, ev.line, ev.now);
      }
  }

  /** Whatever clients send and whenever the server is restarted, at any capacity, the store holds only
      whitespace-free keys and values under distinct keys, within its capacity, and no value is longer
      than a reply can carry. */
  lemma {:induction false} ReachableIsSound(s: D.Server, evs: seq<D.Event>)
    requires Sound(s.db)
    ensures Sound(D.Run(s, evs).db)
    decreases |evs|
  {
    if evs != [] {
      StepKeepsSound(s, evs[0]);
      ReachableIsSound(D.Apply(s, evs[0]), evs[1..]);
    }
  }

  // ---------------------------------------------------------------- every reply is one line

  lemma TokenIsLine(t: string)
    requires IsToken(t)
    ensures NoNewline(t) && t[|t| - 1] != '\r'
  {
  }

  lemma BulkIsReplyLine(v: string)
    requires IsToken(v)
    ensures IsReplyLine(Bulk(v))
  {
    TokenIsLine(v);
    var r := Bulk(v);
    assert forall i :: 1 <= i < |r| ==> r[i] == v[i - 1];
  }

  /** An error message that quotes a token. */
  lemma QuotingIsReplyLine(before: string, name: string)
    requires IsToken(name) && NoNewline(before)
    ensures IsReplyLine(Err(before + name + "'"))
  {
    TokenIsLine(name);
    var m := before + name + "'";
    var r := Err(m);
    forall i | 0 <= i < |m| ensures m[i] != '\n' {
      if i < |before| {
        assert m[i] == before[i];
      } else if i < |before| + |name| {
        assert m[i] == name[i - |before|];
      }
    }
    assert forall i :: 5 <= i < |r| ==> r[i] == m[i - 5];
    assert forall i :: 0 <= i < 5 ==> r[i] == "-ERR "[i];
    assert r[|r| - 1] == '\'';
  }

  lemma PlainErrorIsReplyLine(a: string, b: string)
    requires NoNewline(a) && NoNewline(b) && b != "" && b[|b| - 1] != '\r'
    ensures IsReplyLine(Err(a + b))
  {
    var r := Err(a + b);
    assert r == "-ERR " + a + b;
    forall i | 0 <= i < |r| ensures r[i] != '\n' {
      if 5 <= i < 5 + |a| {
        assert r[i] == a[i - 5];
      } else if i >= 5 + |a| {
        assert r[i] == b[i - 5 - |a|];
      }
    }
    assert r[|r| - 1] == b[|b| - 1];
  }

  lemma MisplacedSyncIsReplyLine()
    ensures IsReplyLine(Err("SYNC is only valid " + "as the first line of a fresh connection"))
  {
    PlainErrorIsReplyLine("SYNC is only valid ", "as the first line of a fresh connection");
  }

  lemma RouterOnlyIsReplyLine(start: string)
    requires NoNewline(start)
    ensures IsReplyLine(Err(start + "against tinykv-router, not tinykv-server"))
  {
    PlainErrorIsReplyLine(start, "against tinykv-router, not tinykv-server");
  }

  lemma ControlReplyIsLine(cmd: Command)
    requires WellFormed(cmd) && !TouchesData(cmd.kind)
    requires ChecksArity(cmd.kind) ==> |cmd.args| == Arity(cmd.kind)
    ensures IsReplyLine(Control(cmd).0)
  {
    match cmd.kind
    case SYNC => MisplacedSyncIsReplyLine();
    case ROUTE => RouterOnlyIsReplyLine("ROUTE is only valid ");
    case NODES => RouterOnlyIsReplyLine("NODES is only valid ");
    case UNKNOWN => QuotingIsReplyLine("unknown command '", cmd.name);
    case REPLICAOF => ReplicaOfReplyIsLine(cmd.args[0], cmd.args[1]);
    case PING =>
    case SAVE =>
  }

  lemma ReplicaOfReplyIsLine(host: string, port: string)
    ensures IsReplyLine(ReplicaOf(host, port).0)
  {
    PlainErrorIsReplyLine("invalid port in ", "'REPLICAOF' command");
    assert "invalid port in " + "'REPLICAOF' command" == "invalid port in 'REPLICAOF' command";
  }

  lemma SetReplyIsLine(db: Db, cmd: Command, now: Expiry.Time)
    requires IsToken(cmd.name)
    ensures IsReplyLine(ExecSet(db, cmd, now).reply)
  {
    QuotingIsReplyLine("wrong number of arguments for '", cmd.name);
    PlainErrorIsReplyLine("invalid expire time ", "in 'SET' command");
    assert "invalid expire time " + "in 'SET' command" == "invalid expire time in 'SET' command";
  }

  lemma NotANumberIsReplyLine()
    ensures IsReplyLine(Err("value is not an integer or out of range"))
  {
    PlainErrorIsReplyLine("value is not an integer ", "or out of range");
    assert "value is not an integer " + "or out of range" == "value is not an integer or out of range";
  }

  lemma GetReplyIsLine(db: Db, k: string)
    requires Good(db)
    ensures IsReplyLine(ExecGet(db, k).reply)
  {
    TouchKeepsGood(db, k);
    if L.Has(db.entries, k) { BulkIsReplyLine(L.Lookup(db.entries, k).value); }
  }

  lemma DataReplyIsLine(db: Db, cmd: Command, now: Expiry.Time)
    requires Good(db) && WellFormed(cmd) && TouchesData(cmd.kind)
    requires cmd.kind != SET ==> |cmd.args| == Arity(cmd.kind)
    ensures IsReplyLine(ExecData(db, cmd, now).reply)
  {
    IntegerIsReplyLine(0);
    IntegerIsReplyLine(1);
    match cmd.kind
    case SET => SetReplyIsLine(db, cmd, now);
    case GET => GetReplyIsLine(db, cmd.args[0]);
    case INCR => AddReplyIsLine(db, cmd.args[0], 1);
    case DECR => AddReplyIsLine(db, cmd.args[0], -1);
    case TTL => TtlReplyIsLine(db, cmd.args[0], now);
    case EXPIRE => NotANumberIsReplyLine();
    case DEL =>
    case PERSIST =>
  }

  lemma AddReplyIsLine(db: Db, k: string, delta: int)
    ensures IsReplyLine(ExecAdd(db, k, delta).reply)
  {
    match L.Incremented(db.entries, k, delta)
    case None => NotANumberIsReplyLine();
    case Some(n) => IntegerIsReplyLine(n);
  }

  lemma TtlReplyIsLine(db: Db, k: string, now: Expiry.Time)
    ensures IsReplyLine(ExecTtl(db, k, now).reply)
  {
    IntegerIsReplyLine(-2);
    IntegerIsReplyLine(-1);
    if k in db.deadlines { IntegerIsReplyLine(Remaining(db.deadlines[k], now)); }
  }

  lemma ExecReplyIsLine(db: Db, cmd: Command, now: Expiry.Time)
    requires Good(db) && WellFormed(cmd)
    ensures IsReplyLine(Exec(db, cmd, now).reply)
  {
    if ChecksArity(cmd.kind) && |cmd.args| != Arity(cmd.kind) {
      QuotingIsReplyLine("wrong number of arguments for '", cmd.name);
    } else if TouchesData(cmd.kind) {
      DataReplyIsLine(db, cmd, now);
    } else {
      ControlReplyIsLine(cmd);
    }
  }

  // ---------------------------------------------------------------- how long a reply is

  /** The longest word that an "unknown command" reply can quote within the reader's limit. */
  const MAX_WORD: nat := 8169

  predicate Quotable(cmd: Command) { cmd.kind == UNKNOWN ==> |cmd.name| <= MAX_WORD }

  lemma KnownNameIsShort(name: string)
    ensures KindOf(name) != UNKNOWN ==> |name| <= 9
  {
    assert |ToUpper(name)| == |name|;
  }

  lemma ArityErrorLength(cmd: Command)
    ensures |ArityError(cmd)| == 37 + |cmd.name|
  {
    var before := "wrong number of arguments for '";
    assert |before| == 31;
  }

  lemma ControlReplyLength(cmd: Command)
    requires !TouchesData(cmd.kind) && (ChecksArity(cmd.kind) ==> |cmd.args| == Arity(cmd.kind))
    ensures if cmd.kind == UNKNOWN then |Control(cmd).0| == 23 + |cmd.name| else |Control(cmd).0| <= 100
  {
  }

  lemma SetReplyLength(db: Db, cmd: Command, now: Expiry.Time)
    requires cmd.kind == SET && KindOf(cmd.name) == SET
    ensures |ExecSet(db, cmd, now).reply| <= 100
  {
    KnownNameIsShort(cmd.name);
    ArityErrorLength(cmd);
  }

  lemma IntegerReplyLength(n: int)
    requires IsInt64(n)
    ensures |Integer(n)| <= 100
  {
    DecimalIsShortToken(n);
  }

  lemma AddReplyLength(db: Db, k: string, delta: int)
    ensures |ExecAdd(db, k, delta).reply| <= 100
  {
    IncrementedIsInt64(db.entries, k, delta);
    match L.Incremented(db.entries, k, delta)
    case None =>
    case Some(n) => IntegerReplyLength(n);
  }

  lemma DataReplyLength(db: Db, cmd: Command, now: Expiry.Time)
    requires Sound(db) && WellFormed(cmd) && TouchesData(cmd.kind)
    requires cmd.kind != SET ==> |cmd.args| == Arity(cmd.kind)
    ensures |ExecData(db, cmd, now).reply| <= MAX_LINE
  {
    IntegerReplyLength(-2);
    IntegerReplyLength(-1);
    IntegerReplyLength(0);
    IntegerReplyLength(1);
    match cmd.kind
    case SET => SetReplyLength(db, cmd, now);
    case GET => L.LookupIndex(db.entries, cmd.args[0]);
    case INCR => AddReplyLength(db, cmd.args[0], 1);
    case DECR => AddReplyLength(db, cmd.args[0], -1);
    case TTL => if cmd.args[0] in db.deadlines { IntegerReplyLength(Remaining(db.deadlines[cmd.args[0]], now)); }
    case _ =>
  }

  /** A reply is short enough for the client's reader unless it quotes an unknown word that is too long,
      and then it is not. */
  lemma ReplyFitsIff(db: Db, cmd: Command, now: Expiry.Time)
    requires Sound(db) && WellFormed(cmd)
    ensures |Exec(db, cmd, now).reply| <= Framing.MAX_BUFFERED <==> Quotable(cmd)
  {
    KnownNameIsShort(cmd.name);
    if ChecksArity(cmd.kind) && |cmd.args| != Arity(cmd.kind) {
      ArityErrorLength(cmd);
    } else if TouchesData(cmd.kind) {
      DataReplyLength(db, cmd, now);
    } else {
      ControlReplyLength(cmd);
    }
  }

  // ---------------------------------------------------------------- the conversation

  /** One line received, at a time when other clients have brought the server to state `server`. */
  datatype Turn = Turn(server: D.Server, line: Line, now: Expiry.Time)

  function Answer(t: Turn): Option<string> { D.HandleClient(t.server, t.line, t.now).reply }

  /** Empty lines are ignored and SYNC hands the connection over; everything else is a request. */
  predicate IsRequest(line: Line) {
    line != "" && !(Parse(line).Request? && Parse(line).cmd.kind == SYNC)
  }

  function Requests(turns: seq<Turn>): seq<Turn> {
    if turns == [] then []
    else
      var rest := Requests(turns[..|turns| - 1]);
      var last := turns[|turns| - 1];
      if IsRequest(last.line) then rest + [last] else rest
  }

  /** The reply lines the connection loop writes, in order. */
  function Replies(turns: seq<Turn>): seq<string> {
    if turns == [] then []
    else
      var rest := Replies(turns[..|turns| - 1]);
      match Answer(turns[|turns| - 1])
      case None => rest
      case Some(reply) => rest + [reply]
  }

  predicate SoundTurns(turns: seq<Turn>) { forall i :: 0 <= i < |turns| ==> Sound(turns[i].server.db) }

  /** The request does not name an unknown command too long to be quoted. */
  predicate QuotableLine(line: Line) { Parse(line).Request? ==> Quotable(Parse(line).cmd) }

  predicate QuotableTurns(turns: seq<Turn>) { forall i :: 0 <= i < |turns| ==> QuotableLine(turns[i].line) }

  lemma ParseErrorIsReplyLine(line: Line)
    requires Parse(line).ProtocolError?
    ensures IsReplyLine(Err(Parse(line).message))
  {
    PlainErrorIsReplyLine("line too long ", "(max 8192 bytes)");
    assert "line too long " + "(max 8192 bytes)" == "line too long (max 8192 bytes)";
    PlainErrorIsReplyLine("empty ", "command");
    assert "empty " + "command" == "empty command";
  }

  lemma ReadOnlyIsReplyLine()
    ensures IsReplyLine(ReadOnlyError())
  {
    var a, b := "-READONLY ", "You can't write against a replica.";
    assert NoNewline(a) && NoNewline(b);
    var r := ReadOnlyError();
    assert forall i :: 0 <= i < |r| ==> r[i] == if i < |a| then a[i] else b[i - |a|];
    assert r[0] == '-' && r[|r| - 1] == '.';
  }

  lemma AnswerFacts(t: Turn)
    requires Sound(t.server.db)
    ensures Answer(t).Some? <==> IsRequest(t.line)
    ensures Answer(t).Some? ==> IsReplyLine(Answer(t).value)
    ensures Answer(t).Some? ==> (|Answer(t).value| <= Framing.MAX_BUFFERED <==> QuotableLine(t.line))
    ensures Answer(t).None? ==> QuotableLine(t.line)
  {
    match Parse(t.line)
    case ProtocolError(_) => ParseErrorIsReplyLine(t.line);
    case Request(cmd) =>
      ReadOnlyIsReplyLine();
      PrintParse(t.line);
      ExecReplyIsLine(t.server.db, cmd, t.now);
      ReplyFitsIff(t.server.db, cmd, t.now);
  }

  lemma {:induction false} RepliesAreLines(turns: seq<Turn>)
    requires SoundTurns(turns)
    ensures forall i :: 0 <= i < |Replies(turns)| ==> IsReplyLine(Replies(turns)[i])
  {
    if turns != [] {
      RepliesAreLines(turns[..|turns| - 1]);
      AnswerFacts(turns[|turns| - 1]);
    }
  }

  /** The n-th reply answers the n-th request, whatever other clients do in between. */
  lemma {:induction false} RepliesMatchRequests(turns: seq<Turn>)
    requires SoundTurns(turns)
    ensures |Replies(turns)| == |Requests(turns)|
    ensures forall i :: 0 <= i < |Replies(turns)| ==> Answer(Requests(turns)[i]) == Some(Replies(turns)[i])
  {
    if turns != [] {
      RepliesMatchRequests(turns[..|turns| - 1]);
      AnswerFacts(turns[|turns| - 1]);
    }
  }

  predicate AllFit(replies: seq<string>) {
    forall i :: 0 <= i < |replies| ==> |replies[i]| <= Framing.MAX_BUFFERED
  }

  lemma AllFitStep(replies: seq<string>, answer: Option<string>, all: seq<string>, quotable: bool)
    requires all == match answer case None => replies case Some(reply) => replies + [reply]
    requires answer.Some? ==> (|answer.value| <= Framing.MAX_BUFFERED <==> quotable)
    requires answer.None? ==> quotable
    ensures AllFit(all) <==> AllFit(replies) && quotable
  {
    if answer.Some? {
      assert all[|replies|] == answer.value && forall i :: 0 <= i < |replies| ==> all[i] == replies[i];
    }
  }

  lemma QuotableStep(init: seq<Turn>, last: Turn)
    ensures QuotableTurns(init + [last]) <==> QuotableTurns(init) && QuotableLine(last.line)
  {
    var all := init + [last];
    assert all[|init|] == last && forall i :: 0 <= i < |init| ==> all[i] == init[i];
  }

  lemma {:induction false} RepliesFitIff(turns: seq<Turn>)
    requires SoundTurns(turns)
    ensures AllFit(Replies(turns)) <==> QuotableTurns(turns)
  {
    if turns != [] {
      var init, last := turns[..|turns| - 1], turns[|turns| - 1];
      RepliesFitIff(init);
      AnswerFacts(last);
      assert turns == init + [last];
      QuotableStep(init, last);
      AllFitStep(Replies(init), Answer(last), Replies(turns), QuotableLine(last.line));
    }
  }

  /** End to end: the server writes one reply line per request, the n-th answering the n-th request, and
      a client that reads line by line gets exactly these lines however the network cuts them, if and
      only if none of its requests is an unknown word of more than 8169 bytes. */
  lemma OneReplyLinePerRequest(turns: seq<Turn>, written: seq<Line>)
    requires SoundTurns(turns) && written == Replies(turns)
    ensures |written| == |Requests(turns)|
    ensures forall i :: 0 <= i < |written| ==>
              IsReplyLine(written[i]) && Answer(Requests(turns)[i]) == Some(written[i])
    ensures (forall chunks | Framing.IsCut(chunks, Unlines(written)) :: Framing.ReadAll("", chunks) == written)
            <==> QuotableTurns(turns)
  {
    RepliesAreLines(turns);
    RepliesMatchRequests(turns);
    RepliesFitIff(turns);
    assert Framing.AllShort(written) <==> AllFit(Replies(turns));
    forall i | 0 <= i < |written| ensures Framing.Strip(written[i]) == written[i] {
      assert IsReplyLine(Replies(turns)[i]);
    }
    Framing.ConnectionDeliversLinesIff(written);
  }

  // ---------------------------------------------------------------- from request text to answer

  lemma StoredIsFound(es: L.Entries, capacity: nat, k: string, v: string)
    ensures L.Lookup(L.Set(es, capacity, k, v), k) == Some(v)
  {
    assert L.Set(es, capacity, k, v)[0] == L.Entry(k, v);
  }

  lemma SetIsHandled(s: D.Server, line: Line, k: string, v: string, now: Expiry.Time)
    requires s.role == D.PRIMARY && Parse(line) == Request(Command(SET, "SET", [k, v]))
    ensures var handled := D.HandleClient(s, line, now);
            && handled.reply == Some(Ok()) && handled.server.role == D.PRIMARY
            && L.Lookup(handled.server.db.entries, k) == Some(v)
  {
    var cmd := Command(SET, "SET", [k, v]);
    D.RequestIsExecuted(s, line, now);
    D.RecordedData(s, cmd, line, now);
    StoredIsFound(s.db.entries, s.db.capacity, k, v);
  }

  lemma GetIsHandled(s: D.Server, line: Line, k: string, now: Expiry.Time)
    requires Parse(line) == Request(Command(GET, "GET", [k]))
    ensures D.HandleClient(s, line, now).reply
            == Some(match L.Lookup(s.db.entries, k) case Some(v) => Bulk(v) case None => Nil())
  {
    D.RequestIsExecuted(s, line, now);
  }

  /** On a primary of any capacity, whatever it holds: `SET k v` is answered with OK, and `GET k` right after it
      with the very value, as a client decodes the replies. */
  lemma ReadYourWrite(s: D.Server, write: Line, read: Line, k: string, v: string, now: Expiry.Time, later: Expiry.Time)
    requires s.role == D.PRIMARY && IsToken(k) && IsToken(v) && |k| + |v| <= MAX_LINE - 5
    requires write == "SET" + " " + k + " " + v && read == "GET" + " " + k
    ensures var first := D.HandleClient(s, write, now);
            var second := D.HandleClient(first.server, read, later);
            && first.reply.Some? && Decode(first.reply.value) == Value("OK")
            && second.reply.Some? && Decode(second.reply.value) == Value(v)
  {
    assert IsToken("SET") && IsToken("GET");
    PairRequests("SET", k, v);
    KeyRequests("GET", k);
    SetIsHandled(s, write, k, v, now);
    GetIsHandled(D.HandleClient(s, write, now).server, read, k, later);
    RepliesDecode(v, 0);
  }

  // ---------------------------------------------------------------- lines over the limit

  /** A segment of 8193 to 12287 bytes is not always the end of the connection. There are ways of cutting the
      stream in which it is read, without a carriage return at its end, and what follows it is still there
      to be read; and there are ways in which the connection is closed. If what is read is over the limit it
      is answered with an error, and that is so unless the segment is of 8193 bytes and ends with a carriage
      return. */
  lemma LongRequestMayBeAnswered(s: D.Server, segment: Line, rest: string, now: Expiry.Time)
    requires Framing.MAX_BUFFERED < |segment| <= Framing.MAX_READ
    ensures var stream, line := segment + "\n" + rest, Framing.Strip(segment);
            && (exists chunks | Framing.IsCut(chunks, stream) ::
                  var r := Framing.ReadLine("", chunks);
                  r.GotLine? && r.line == line && r.buffer + Framing.Concat(r.chunks) == rest)
            && (exists chunks | Framing.IsCut(chunks, stream) :: Framing.ReadLine("", chunks).Closed?)
            && NoNewline(line)
            && (|line| <= MAX_LINE <==> |segment| == MAX_LINE + 1 && segment[MAX_LINE] == '\r')
            && (|line| > MAX_LINE ==>
                  D.HandleClient(s, line, now) == D.Handled(s, Some(Err("line too long (max 8192 bytes)"))))
  {
    var lucky, slow := Framing.LongLineMayBeRead(segment, rest);
  }

  /** The exception: a legal request of exactly 8192 bytes, sent with a carriage return. Whether it is executed
      like any other request or the connection is closed depends on the cut. */
  lemma FullRequestWithCarriageReturn(request: Line, rest: string)
    requires |request| == MAX_LINE
    ensures var stream := request + "\r" + "\n" + rest;
            && (exists chunks | Framing.IsCut(chunks, stream) ::
                  var r := Framing.ReadLine("", chunks);
                  r.GotLine? && r.line == request && r.buffer + Framing.Concat(r.chunks) == rest)
            && (exists chunks | Framing.IsCut(chunks, stream) :: Framing.ReadLine("", chunks).Closed?)
    ensures Parse(request) != ProtocolError("line too long (max 8192 bytes)")
  {
    var segment := request + "\r";
    assert segment[..|request|] == request;
    var lucky, slow := Framing.LongLineMayBeRead(segment, rest);
    assert "empty command" != "line too long (max 8192 bytes)" by {
      assert |"empty command"| == 13 && |"line too long (max 8192 bytes)"| == 30;
    }
  }

  /** An unknown word of 8170 to 8192 bytes is a legal request, but its reply is longer than the client's
      reader accepts: if it arrives byte by byte the client gives up without having read a line. */
  lemma LongWordReplyIsUnread(s: D.Server, word: Line, now: Expiry.Time)
    requires IsToken(word) && KindOf(word) == UNKNOWN && MAX_WORD < |word| <= MAX_LINE
    ensures var reply := Err("unknown command '" + word + "'");
            && D.HandleClient(s, word, now) == D.Handled(s, Some(reply))
            && Framing.ReadAll("", Framing.Bytewise(reply + "\n")) == []
  {
    ParseWord(word);
    var reply := Err("unknown command '" + word + "'");
    QuotingIsReplyLine("unknown command '", word);
    LongLineIsUnread(reply);
  }

  lemma ParseWord(word: Line)
    requires IsToken(word) && |word| <= MAX_LINE
    ensures Parse(word) == Request(Command(KindOf(word), word, []))
  {
    TokenizeToken(word);
    assert [word][1..] == [];
  }

  lemma LongLineIsUnread(line: Line)
    requires |line| > Framing.MAX_BUFFERED
    ensures Framing.ReadAll("", Framing.Bytewise(line + "\n")) == []
  {
    NewlineAtUnique(line + "\n", |line|);
    Framing.LongBytewiseCloses("", line + "\n");
  }
}
