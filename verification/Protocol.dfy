/** The wire protocol: command words, request parsing and reply lines. */
module Protocol {
  import opened Text
  import opened Numbers

  datatype Kind =
    | SET | GET | DEL | PING | INCR | DECR | TTL | EXPIRE | PERSIST
    | SAVE | REPLICAOF | SYNC | ROUTE | NODES | UNKNOWN

  datatype Command = Command(kind: Kind, name: string, args: seq<string>)

  /** Commands that change stored data or its expiry; the ones that are logged and propagated. */
  predicate IsWrite(kind: Kind) {
    kind in {SET, DEL, INCR, DECR, EXPIRE, PERSIST}
  }

  const MAX_LINE: nat := 8192

  function KindOf(name: string): Kind { KindOfUpper(ToUpper(name)) }

  function KindOfUpper(upper: string): Kind {
    if upper == "SET" then SET
    else if upper == "GET" then GET
    else if upper == "DEL" then DEL
    else if upper == "PING" then PING
    else if upper == "INCR" then INCR
    else if upper == "DECR" then DECR
    else if upper == "TTL" then TTL
    else if upper == "EXPIRE" then EXPIRE
    else if upper == "PERSIST" then PERSIST
    else if upper == "SAVE" then SAVE
    else if upper == "REPLICAOF" then REPLICAOF
    else if upper == "SYNC" then SYNC
    else if upper == "ROUTE" then ROUTE
    else if upper == "NODES" then NODES
    else UNKNOWN
  }

  datatype Parsed = Request(cmd: Command) | ProtocolError(message: string)

  function FromTokens(tokens: seq<string>): Command
    requires tokens != []
  {
    Command(KindOf(tokens[0]), tokens[0], tokens[1..])
  }

  function Parse(line: string): Parsed {
    if |line| > MAX_LINE then ProtocolError("line too long (max 8192 bytes)")
    else
      var tokens := Tokenize(line);
      if tokens == [] then ProtocolError("empty command") else Request(FromTokens(tokens))
  }

  /** What a parsed request always satisfies: its words are tokens and its kind follows its name. */
  predicate WellFormed(cmd: Command) {
    IsToken(cmd.name) && AllTokens(cmd.args) && cmd.kind == KindOf(cmd.name)
  }

  function Print(cmd: Command): string { Join([cmd.name] + cmd.args) }

  /** Printing a command and parsing the result gives the command back, exactly when the printed
      line is short enough to be accepted. */
  lemma ParsePrint(cmd: Command)
    requires WellFormed(cmd)
    ensures Parse(Print(cmd)) == Request(cmd) <==> |Print(cmd)| <= MAX_LINE
  {
    TokenizeJoin([cmd.name] + cmd.args);
  }

  /** Every accepted request can be rewritten in printed form without changing it or growing it. */
  lemma PrintParse(line: string)
    requires Parse(line).Request?
    ensures WellFormed(Parse(line).cmd)
    ensures |Print(Parse(line).cmd)| <= |line|
    ensures Parse(Print(Parse(line).cmd)) == Parse(line)
  {
    var tokens := Tokenize(line);
    var cmd := Parse(line).cmd;
    assert [cmd.name] + cmd.args == tokens;
    JoinShortest(line);
    ParsePrint(cmd);
  }

  /** Command words are case-insensitive. */
  lemma KindIgnoresCase(a: string, b: string)
    requires EqualsIgnoreCase(a, b)
    ensures KindOf(a) == KindOf(b)
  {
    IgnoringCase(a, b);
  }

  // ---------------------------------------------------------------- requests by their text

  lemma ShortWords(w: string)
    ensures ToUpper(w) == "SET" <==> Spells(w, "SET", "set")
    ensures ToUpper(w) == "GET" <==> Spells(w, "GET", "get")
    ensures ToUpper(w) == "DEL" <==> Spells(w, "DEL", "del")
    ensures ToUpper(w) == "TTL" <==> Spells(w, "TTL", "ttl")
  {
    SpelledIff(w, "SET", "set");
    SpelledIff(w, "GET", "get");
    SpelledIff(w, "DEL", "del");
    SpelledIff(w, "TTL", "ttl");
  }

  lemma FourLetterWords(w: string)
    ensures ToUpper(w) == "PING" <==> Spells(w, "PING", "ping")
    ensures ToUpper(w) == "INCR" <==> Spells(w, "INCR", "incr")
    ensures ToUpper(w) == "DECR" <==> Spells(w, "DECR", "decr")
    ensures ToUpper(w) == "SAVE" <==> Spells(w, "SAVE", "save")
    ensures ToUpper(w) == "SYNC" <==> Spells(w, "SYNC", "sync")
  {
    SpelledIff(w, "PING", "ping");
    SpelledIff(w, "INCR", "incr");
    SpelledIff(w, "DECR", "decr");
    SpelledIff(w, "SAVE", "save");
    SpelledIff(w, "SYNC", "sync");
  }

  lemma LongWords(w: string)
    ensures ToUpper(w) == "EXPIRE" <==> Spells(w, "EXPIRE", "expire")
    ensures ToUpper(w) == "PERSIST" <==> Spells(w, "PERSIST", "persist")
    ensures ToUpper(w) == "REPLICAOF" <==> Spells(w, "REPLICAOF", "replicaof")
    ensures ToUpper(w) == "ROUTE" <==> Spells(w, "ROUTE", "route")
    ensures ToUpper(w) == "NODES" <==> Spells(w, "NODES", "nodes")
  {
    SpelledIff(w, "EXPIRE", "expire");
    SpelledIff(w, "PERSIST", "persist");
    SpelledIff(w, "REPLICAOF", "replicaof");
    SpelledIff(w, "ROUTE", "route");
    SpelledIff(w, "NODES", "nodes");
  }

  lemma Table(upper: string)
    ensures KindOfUpper(upper) == SET <==> upper == "SET"
    ensures KindOfUpper(upper) == GET <==> upper == "GET"
    ensures KindOfUpper(upper) == DEL <==> upper == "DEL"
    ensures KindOfUpper(upper) == PING <==> upper == "PING"
    ensures KindOfUpper(upper) == INCR <==> upper == "INCR"
    ensures KindOfUpper(upper) == DECR <==> upper == "DECR"
    ensures KindOfUpper(upper) == TTL <==> upper == "TTL"
    ensures KindOfUpper(upper) == EXPIRE <==> upper == "EXPIRE"
    ensures KindOfUpper(upper) == PERSIST <==> upper == "PERSIST"
    ensures KindOfUpper(upper) == SAVE <==> upper == "SAVE"
    ensures KindOfUpper(upper) == REPLICAOF <==> upper == "REPLICAOF"
    ensures KindOfUpper(upper) == SYNC <==> upper == "SYNC"
    ensures KindOfUpper(upper) == ROUTE <==> upper == "ROUTE"
    ensures KindOfUpper(upper) == NODES <==> upper == "NODES"
  {
  }

  /** The command table, on the letters: each word, in any mixture of capital and small letters, names its
      command, and nothing else names a command. */
  lemma KindIffSpelled(w: string)
    ensures KindOf(w) == SET <==> Spells(w, "SET", "set")
    ensures KindOf(w) == GET <==> Spells(w, "GET", "get")
    ensures KindOf(w) == DEL <==> Spells(w, "DEL", "del")
    ensures KindOf(w) == PING <==> Spells(w, "PING", "ping")
    ensures KindOf(w) == INCR <==> Spells(w, "INCR", "incr")
    ensures KindOf(w) == DECR <==> Spells(w, "DECR", "decr")
    ensures KindOf(w) == TTL <==> Spells(w, "TTL", "ttl")
    ensures KindOf(w) == EXPIRE <==> Spells(w, "EXPIRE", "expire")
    ensures KindOf(w) == PERSIST <==> Spells(w, "PERSIST", "persist")
    ensures KindOf(w) == SAVE <==> Spells(w, "SAVE", "save")
    ensures KindOf(w) == REPLICAOF <==> Spells(w, "REPLICAOF", "replicaof")
    ensures KindOf(w) == SYNC <==> Spells(w, "SYNC", "sync")
    ensures KindOf(w) == ROUTE <==> Spells(w, "ROUTE", "route")
    ensures KindOf(w) == NODES <==> Spells(w, "NODES", "nodes")
    ensures KindOf(w) == UNKNOWN <==>
              && !Spells(w, "SET", "set")
              && !Spells(w, "GET", "get")
              && !Spells(w, "DEL", "del")
              && !Spells(w, "PING", "ping")
              && !Spells(w, "INCR", "incr")
              && !Spells(w, "DECR", "decr")
              && !Spells(w, "TTL", "ttl")
              && !Spells(w, "EXPIRE", "expire")
              && !Spells(w, "PERSIST", "persist")
              && !Spells(w, "SAVE", "save")
              && !Spells(w, "REPLICAOF", "replicaof")
              && !Spells(w, "SYNC", "sync")
              && !Spells(w, "ROUTE", "route")
              && !Spells(w, "NODES", "nodes")
  {
    Table(ToUpper(w));
    ShortWords(w);
    FourLetterWords(w);
    LongWords(w);
  }

  lemma ParseTokens(name: string, args: seq<string>, line: string)
    requires IsToken(name) && AllTokens(args) && line == Join([name] + args) && |line| <= MAX_LINE
    ensures Parse(line) == Request(Command(KindOf(name), name, args))
  {
    ParsePrint(Command(KindOf(name), name, args));
  }

  /** A line of one, two or three words is the command that the first word names, with the others. */
  lemma ParseWords(name: string, a: string, b: string)
    requires IsToken(name) && IsToken(a) && IsToken(b)
    ensures |name| <= MAX_LINE ==> Parse(name) == Request(Command(KindOf(name), name, []))
    ensures |name| + 1 + |a| <= MAX_LINE ==> Parse(name + " " + a) == Request(Command(KindOf(name), name, [a]))
    ensures |name| + 2 + |a| + |b| <= MAX_LINE ==>
              Parse(name + " " + a + " " + b) == Request(Command(KindOf(name), name, [a, b]))
  {
    if |name| <= MAX_LINE { ParseTokens(name, [], name); }
    JoinPair(name, a);
    assert [name] + [a] == [name, a];
    if |name| + 1 + |a| <= MAX_LINE { ParseTokens(name, [a], name + " " + a); }
    JoinPair(a, b);
    assert ([name] + [a, b])[1..] == [a, b];
    assert Join([name] + [a, b]) == name + " " + a + " " + b;
    if |name| + 2 + |a| + |b| <= MAX_LINE { ParseTokens(name, [a, b], name + " " + a + " " + b); }
  }

  /** Requests of one key, by their text, in any mixture of capital and small letters. */
  lemma KeyRequests(w: string, k: string)
    requires IsToken(w) && IsToken(k) && |w| + 1 + |k| <= MAX_LINE
    ensures Spells(w, "GET", "get") ==> Parse(w + " " + k) == Request(Command(GET, w, [k]))
    ensures Spells(w, "DEL", "del") ==> Parse(w + " " + k) == Request(Command(DEL, w, [k]))
    ensures Spells(w, "INCR", "incr") ==> Parse(w + " " + k) == Request(Command(INCR, w, [k]))
    ensures Spells(w, "DECR", "decr") ==> Parse(w + " " + k) == Request(Command(DECR, w, [k]))
    ensures Spells(w, "TTL", "ttl") ==> Parse(w + " " + k) == Request(Command(TTL, w, [k]))
    ensures Spells(w, "PERSIST", "persist") ==> Parse(w + " " + k) == Request(Command(PERSIST, w, [k]))
    ensures Spells(w, "ROUTE", "route") ==> Parse(w + " " + k) == Request(Command(ROUTE, w, [k]))
  {
    KindIffSpelled(w);
    ParseWords(w, k, k);
  }

  /** Requests of two words after the command word. */
  lemma PairRequests(w: string, a: string, b: string)
    requires IsToken(w) && IsToken(a) && IsToken(b) && |w| + 2 + |a| + |b| <= MAX_LINE
    ensures Spells(w, "SET", "set") ==> Parse(w + " " + a + " " + b) == Request(Command(SET, w, [a, b]))
    ensures Spells(w, "EXPIRE", "expire") ==> Parse(w + " " + a + " " + b) == Request(Command(EXPIRE, w, [a, b]))
    ensures Spells(w, "REPLICAOF", "replicaof") ==>
              Parse(w + " " + a + " " + b) == Request(Command(REPLICAOF, w, [a, b]))
  {
    KindIffSpelled(w);
    ParseWords(w, a, b);
  }

  /** Requests that are a command word alone. */
  lemma BareRequests(w: string)
    requires IsToken(w) && |w| <= MAX_LINE
    ensures Spells(w, "PING", "ping") ==> Parse(w) == Request(Command(PING, w, []))
    ensures Spells(w, "SAVE", "save") ==> Parse(w) == Request(Command(SAVE, w, []))
    ensures Spells(w, "SYNC", "sync") ==> Parse(w) == Request(Command(SYNC, w, []))
    ensures Spells(w, "NODES", "nodes") ==> Parse(w) == Request(Command(NODES, w, []))
  {
    KindIffSpelled(w);
    ParseWords(w, w, w);
  }

  // ---------------------------------------------------------------- replies

  function Ok(): string { "+OK" }
  function Bulk(value: string): string { "+" + value }
  function Nil(): string { "$-1" }
  function Err(message: string): string { "-ERR " + message }

  /** In two parts, like the long messages of the executor. */
  function ReadOnlyError(): string { "-READONLY " + "You can't write against a replica." }

  function Integer(n: int): string { ":" + Decimal(n) }

  /** What a client makes of a reply line, by its type prefix. */
  datatype Answer = Value(text: string) | Nothing | Number(n: int) | Failure(message: string) | Malformed

  function Decode(reply: string): Answer {
    if reply == "$-1" then Nothing
    else if reply == "" then Malformed
    else if reply[0] == '+' then Value(reply[1..])
    else if reply[0] == '-' then Failure(reply[1..])
    else if reply[0] == ':' && Stoll(reply[1..]).Some? then Number(Stoll(reply[1..]).value)
    else Malformed
  }

  lemma TextDecodes(text: string)
    ensures Decode(Bulk(text)) == Value(text)
    ensures Decode(Err(text)) == Failure("ERR " + text)
  {
    assert Bulk(text)[0] == '+' && Bulk(text)[1..] == text;
    assert Err(text)[0] == '-' && Err(text)[1..] == "ERR " + text;
  }

  lemma NumberDecodes(n: int)
    requires IsInt64(n)
    ensures Decode(Integer(n)) == Number(n)
  {
    StollDecimal(n);
    assert Integer(n)[0] == ':' && Integer(n)[1..] == Decimal(n);
  }

  /** Every kind of reply decodes to what it was made from. */
  lemma RepliesDecode(text: string, n: int)
    requires IsInt64(n)
    ensures Decode(Ok()) == Value("OK") && Decode(Bulk(text)) == Value(text) && Decode(Nil()) == Nothing
    ensures Decode(Integer(n)) == Number(n) && Decode(Err(text)) == Failure("ERR " + text)
  {
    TextDecodes("OK");
    assert Ok() == Bulk("OK");
    TextDecodes(text);
    NumberDecodes(n);
  }

  lemma RejectionDecodes()
    ensures Decode(ReadOnlyError()) == Failure("READONLY " + "You can't write against a replica.")
  {
    assert ReadOnlyError()[1..] == "READONLY " + "You can't write against a replica.";
  }

  predicate Succeeded(reply: string) { reply != "" && reply[0] != '-' }

  /** One line of output with a type prefix, and nothing a reader would strip from its end. */
  predicate IsReplyLine(reply: string) {
    && reply != "" && reply[0] in {'+', '-', ':', '$'}
    && NoNewline(reply)
    && reply[|reply| - 1] != '\r'
  }

  lemma IntegerIsReplyLine(n: int)
    ensures IsReplyLine(Integer(n)) && Succeeded(Integer(n))
  {
    var s := Decimal(n);
    var r := Integer(n);
    assert forall i :: 0 <= i < |s| ==> IsDigit(s[i]) || s[i] == '-';
    assert forall i :: 1 <= i < |r| ==> r[i] == s[i - 1];
  }
}
