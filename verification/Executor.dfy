/** What executing one command does to the database, and the executor object that does it.
    Live requests, log replay, snapshot loading and replica apply all go through this. */
module Executor {
  import opened Text
  import opened Numbers
  import opened Protocol
  import opened Lru
  import Expiry
  import KvStore

  const TICKS_PER_SECOND: int := 1_000_000_000

  /** The stored data: recency list, capacity, and the live deadlines. */
  datatype Db = Db(entries: Entries, capacity: nat, deadlines: map<string, Expiry.Time>)

  /** What the command asks of the rest of the server. */
  datatype Effect = NoEffect | SaveSnapshot | ReplicateFrom(host: string, port: int) | StopReplicating

  datatype Outcome = Outcome(db: Db, reply: string, effect: Effect)

  function ArityError(cmd: Command): string {
    Err("wrong number of arguments for '" + cmd.name + "'")
  }

  function Write(db: Db, k: string, v: string): Db {
    db.(entries := Set(db.entries, db.capacity, k, v))
  }

  function Unschedule(db: Db, k: string): Db { db.(deadlines := db.deadlines - {k}) }

  function Reschedule(db: Db, k: string, when: Expiry.Time): Db { db.(deadlines := db.deadlines[k := when]) }

  /** Instants and durations are 64-bit counts of nanoseconds; like the sum in INCR, one that leaves
      the range wraps around. */
  function Deadline(now: Expiry.Time, seconds: int): (when: Expiry.Time)
    ensures IsInt64(when)
  {
    Wrap64(now + seconds * TICKS_PER_SECOND)
  }

  /** Whole seconds left, rounded down; 0 once the deadline has passed. */
  function Remaining(when: Expiry.Time, now: Expiry.Time): (seconds: int)
    ensures 0 <= seconds && IsInt64(seconds)
  {
    var left := Wrap64(when - now);
    if left <= 0 then 0 else left / TICKS_PER_SECOND
  }

  function ExecSet(db: Db, cmd: Command, now: Expiry.Time): Outcome {
    if |cmd.args| == 2 then
      Outcome(Unschedule(Write(db, cmd.args[0], cmd.args[1]), cmd.args[0]), Ok(), NoEffect)
    else if |cmd.args| == 4 && EqualsIgnoreCase(cmd.args[2], "EX") then
      match PositiveSeconds(cmd.args[3])
      case None => Outcome(db, Err("invalid expire time in 'SET' command"), NoEffect)
      case Some(seconds) =>
        Outcome(Reschedule(Write(db, cmd.args[0], cmd.args[1]), cmd.args[0], Deadline(now, seconds)), Ok(), NoEffect)
    else Outcome(db, ArityError(cmd), NoEffect)
  }

  function ExecGet(db: Db, k: string): Outcome {
    match Lookup(db.entries, k)
    case Some(v) => Outcome(db.(entries := Touch(db.entries, k)), Bulk(v), NoEffect)
    case None => Outcome(db, Nil(), NoEffect)
  }

  function ExecDel(db: Db, k: string): Outcome {
    Outcome(Unschedule(db.(entries := Remove(db.entries, k)), k),
            Integer(if Has(db.entries, k) then 1 else 0), NoEffect)
  }

  function ExecAdd(db: Db, k: string, delta: int): Outcome {
    match Incremented(db.entries, k, delta)
    case None => Outcome(db, Err("value is not an integer or out of range"), NoEffect)
    case Some(n) => Outcome(Write(db, k, Decimal(n)), Integer(n), NoEffect)
  }

  function ExecTtl(db: Db, k: string, now: Expiry.Time): Outcome {
    var code :=
      if !Has(db.entries, k) then -2
      else if k !in db.deadlines then -1
      else Remaining(db.deadlines[k], now);
    Outcome(db, Integer(code), NoEffect)
  }

  function ExecExpire(db: Db, k: string, secondsText: string, now: Expiry.Time): Outcome {
    if !Has(db.entries, k) then Outcome(db, Integer(0), NoEffect)
    else match PositiveSeconds(secondsText)
      case None => Outcome(db, Err("value is not an integer or out of range"), NoEffect)
      case Some(seconds) => Outcome(Reschedule(db, k, Deadline(now, seconds)), Integer(1), NoEffect)
  }

  function ExecPersist(db: Db, k: string): Outcome {
    if !Has(db.entries, k) then Outcome(db, Integer(0), NoEffect)
    else Outcome(Unschedule(db, k), Integer(if k in db.deadlines then 1 else 0), NoEffect)
  }

  function ReplicaOf(host: string, portText: string): (string, Effect) {
    if EqualsIgnoreCase(host, "NO") && EqualsIgnoreCase(portText, "ONE") then (Ok(), StopReplicating)
    else match Stoi(portText)
      case None => (Err("invalid port in 'REPLICAOF' command"), NoEffect)
      case Some(port) => (Ok(), ReplicateFrom(host, port))
  }

  /** Reply and effect of the commands that do not look at the data. The longest messages are written in
      two parts, which `Connection` shows to be free of newlines one at a time. */
  function Control(cmd: Command): (string, Effect)
    requires !TouchesData(cmd.kind)
    requires ChecksArity(cmd.kind) ==> |cmd.args| == Arity(cmd.kind)
  {
    match cmd.kind
    case PING => (Ok(), NoEffect)
    case SAVE => (Ok(), SaveSnapshot)
    case REPLICAOF => ReplicaOf(cmd.args[0], cmd.args[1])
    case SYNC => (Err("SYNC is only valid " + "as the first line of a fresh connection"), NoEffect)
    case ROUTE => (Err("ROUTE is only valid " + "against tinykv-router, not tinykv-server"), NoEffect)
    case NODES => (Err("NODES is only valid " + "against tinykv-router, not tinykv-server"), NoEffect)
    case UNKNOWN => (Err("unknown command '" + cmd.name + "'"), NoEffect)
  }

  predicate TouchesData(kind: Kind) {
    kind in {SET, GET, DEL, INCR, DECR, TTL, EXPIRE, PERSIST}
  }

  /** Number of arguments each command takes; SET checks its own. */
  function Arity(kind: Kind): nat {
    match kind
    case PING | SAVE => 0
    case GET | DEL | INCR | DECR | TTL | PERSIST => 1
    case EXPIRE | REPLICAOF => 2
    case _ => 0
  }

  predicate ChecksArity(kind: Kind) {
    kind in {GET, DEL, PING, INCR, DECR, TTL, EXPIRE, PERSIST, SAVE, REPLICAOF}
  }

  function ExecData(db: Db, cmd: Command, now: Expiry.Time): Outcome
    requires TouchesData(cmd.kind) && (cmd.kind != SET ==> |cmd.args| == Arity(cmd.kind))
  {
    match cmd.kind
    case SET => ExecSet(db, cmd, now)
    case TTL => ExecTtl(db, cmd.args[0], now)
    case EXPIRE => ExecExpire(db, cmd.args[0], cmd.args[1], now)
    case GET | DEL | INCR | DECR | PERSIST => ExecKey(db, cmd.kind, cmd.args[0])
  }

  /** The commands that look at one key and nothing else. */
  function ExecKey(db: Db, kind: Kind, k: string): Outcome
    requires kind in {GET, DEL, INCR, DECR, PERSIST}
  {
    match kind
    case GET => ExecGet(db, k)
    case DEL => ExecDel(db, k)
    case INCR => ExecAdd(db, k, 1)
    case DECR => ExecAdd(db, k, -1)
    case PERSIST => ExecPersist(db, k)
  }

  function Exec(db: Db, cmd: Command, now: Expiry.Time): Outcome {
    if ChecksArity(cmd.kind) && |cmd.args| != Arity(cmd.kind) then Outcome(db, ArityError(cmd), NoEffect)
    else if TouchesData(cmd.kind) then ExecData(db, cmd, now)
    else Outcome(db, Control(cmd).0, Control(cmd).1)
  }

  /** Exactly the commands that are appended to the log and sent to replicas. */
  predicate Logged(db: Db, cmd: Command, now: Expiry.Time) {
    IsWrite(cmd.kind) && Succeeded(Exec(db, cmd, now).reply)
  }

  // ---------------------------------------------------------------- invariants of the data

  predicate Storable(e: Entry) { IsToken(e.key) && IsToken(e.value) }

  predicate AllStorable(es: Entries) { forall i :: 0 <= i < |es| ==> Storable(es[i]) }

  /** What every reachable database satisfies. */
  predicate Good(db: Db) { Valid(db.entries, db.capacity) && AllStorable(db.entries) }

  lemma RemoveKeepsStorable(es: Entries, k: string)
    requires AllStorable(es)
    ensures AllStorable(Remove(es, k))
  {
    RemoveFacts(es, k);
  }

  lemma IncrementedIsInt64(es: Entries, k: string, delta: int)
    ensures Incremented(es, k, delta).Some? ==> IsInt64(Incremented(es, k, delta).value)
  {
  }

  lemma WriteKeepsGood(db: Db, k: string, v: string)
    requires Good(db) && IsToken(k) && IsToken(v)
    ensures Good(Write(db, k, v))
  {
    OperationsKeepValid(db.entries, db.capacity, k, v);
    RemoveKeepsStorable(db.entries, k);
  }

  lemma TouchKeepsGood(db: Db, k: string)
    requires Good(db)
    ensures Good(db.(entries := Touch(db.entries, k)))
    ensures Has(db.entries, k) ==> IsToken(Lookup(db.entries, k).value)
  {
    OperationsKeepValid(db.entries, db.capacity, k, "");
    RemoveKeepsStorable(db.entries, k);
    LookupIndex(db.entries, k);
  }

  /** Whatever is executed, keys and values stay whitespace-free, keys stay distinct and the
      capacity is respected and never changed. */
  lemma ExecKeepsGood(db: Db, cmd: Command, now: Expiry.Time)
    requires Good(db) && WellFormed(cmd)
    ensures Good(Exec(db, cmd, now).db) && Exec(db, cmd, now).db.capacity == db.capacity
  {
    if cmd.args != [] {
      var k := cmd.args[0];
      match cmd.kind
      case SET => if |cmd.args| >= 2 { WriteKeepsGood(db, k, cmd.args[1]); }
      case GET => TouchKeepsGood(db, k);
      case DEL =>
        OperationsKeepValid(db.entries, db.capacity, k, "");
        RemoveKeepsStorable(db.entries, k);
      case INCR => AddKeepsGood(db, k, 1);
      case DECR => AddKeepsGood(db, k, -1);
      case _ =>
    }
  }

  lemma AddKeepsGood(db: Db, k: string, delta: int)
    requires Good(db) && IsToken(k)
    ensures Good(ExecAdd(db, k, delta).db)
  {
    IncrementedIsInt64(db.entries, k, delta);
    match Incremented(db.entries, k, delta)
    case None =>
    case Some(n) =>
      DecimalIsShortToken(n);
      WriteKeepsGood(db, k, Decimal(n));
  }

  // ---------------------------------------------------------------- the executor object

  class CommandExecutor {
    const store: KvStore.KVStore
    const expiry: Expiry.ExpiryManager

    constructor (store: KvStore.KVStore, expiry: Expiry.ExpiryManager)
      ensures this.store == store && this.expiry == expiry
    {
      this.store, this.expiry := store, expiry;
    }

    ghost function Data(): Db
      reads this, store, store.lru, expiry
    {
      Db(store.Entries(), store.capacity, expiry.currentExpiry)
    }

    /** INCR and DECR. */
    method Add(key: string, delta: int) returns (reply: string)
      requires store.Valid()
      modifies store, store.nodes
      ensures store.Valid() && fresh(store.nodes - old(store.nodes))
      ensures Data() == ExecAdd(old(Data()), key, delta).db
      ensures reply == ExecAdd(old(Data()), key, delta).reply
    {
      var updated := store.IncrementBy(key, delta);
      match updated {
        case None => return Err("value is not an integer or out of range");
        case Some(n) => return Integer(n);
      }
    }

    method SetPlain(key: string, value: string)
      requires store.Valid()
      modifies store, store.nodes, expiry
      ensures store.Valid() && fresh(store.nodes - old(store.nodes))
      ensures Data() == Unschedule(Write(old(Data()), key, value), key)
    {
      store.Set(key, value);
      expiry.Cancel(key);
    }

    method SetExpiring(key: string, value: string, when: Expiry.Time)
      requires store.Valid()
      modifies store, store.nodes, expiry
      ensures store.Valid() && fresh(store.nodes - old(store.nodes))
      ensures Data() == Reschedule(Write(old(Data()), key, value), key, when)
    {
      store.Set(key, value);
      expiry.Schedule(key, when);
    }

    method ExecuteSet(cmd: Command, now: Expiry.Time) returns (reply: string)
      requires store.Valid()
      modifies store, store.nodes, expiry
      ensures store.Valid() && fresh(store.nodes - old(store.nodes))
      ensures Data() == ExecSet(old(Data()), cmd, now).db && reply == ExecSet(old(Data()), cmd, now).reply
    {
      if |cmd.args| == 2 {
        SetPlain(cmd.args[0], cmd.args[1]);
        return Ok();
      }
      if |cmd.args| == 4 && EqualsIgnoreCase(cmd.args[2], "EX") {
        var seconds := PositiveSeconds(cmd.args[3]);
        if seconds == None {
          return Err("invalid expire time in 'SET' command");
        }
        SetExpiring(cmd.args[0], cmd.args[1], Deadline(now, seconds.value));
        return Ok();
      }
      return ArityError(cmd);
    }

    method ExecuteGet(key: string) returns (reply: string)
      requires store.Valid()
      modifies store`lru
      ensures store.Valid()
      ensures Data() == ExecGet(old(Data()), key).db && reply == ExecGet(old(Data()), key).reply
    {
      var value := store.Get(key);
      if value == None {
        return Nil();
      }
      return Bulk(value.value);
    }

    method ExecuteDel(key: string) returns (reply: string)
      requires store.Valid()
      modifies store`lru, store`index, expiry
      ensures store.Valid()
      ensures Data() == ExecDel(old(Data()), key).db && reply == ExecDel(old(Data()), key).reply
    {
      var existed := store.Del(key);
      expiry.Cancel(key);
      assert Data().entries == Remove(old(Data()).entries, key);
      assert Data().deadlines == old(Data()).deadlines - {key};
      return Integer(if existed then 1 else 0);
    }

    method ExecuteTtl(key: string, now: Expiry.Time) returns (reply: string)
      requires store.Valid()
      ensures reply == ExecTtl(Data(), key, now).reply
    {
      var found := store.Exists(key);
      if !found {
        return Integer(-2);
      }
      var when := expiry.ExpiryOf(key);
      if when == None {
        return Integer(-1);
      }
      return Integer(Remaining(when.value, now));
    }

    method ExecuteExpire(key: string, secondsText: string, now: Expiry.Time) returns (reply: string)
      requires store.Valid()
      modifies expiry
      ensures Data() == ExecExpire(old(Data()), key, secondsText, now).db
      ensures reply == ExecExpire(old(Data()), key, secondsText, now).reply
    {
      var found := store.Exists(key);
      if !found {
        return Integer(0);
      }
      var seconds := PositiveSeconds(secondsText);
      if seconds == None {
        return Err("value is not an integer or out of range");
      }
      expiry.Schedule(key, Deadline(now, seconds.value));
      return Integer(1);
    }

    method ExecutePersist(key: string) returns (reply: string)
      requires store.Valid()
      modifies expiry
      ensures Data() == ExecPersist(old(Data()), key).db && reply == ExecPersist(old(Data()), key).reply
    {
      var found := store.Exists(key);
      if !found {
        return Integer(0);
      }
      var when := expiry.ExpiryOf(key);
      expiry.Cancel(key);
      return Integer(if when.Some? then 1 else 0);
    }

    /** The commands that look at one key and nothing else. */
    method ExecuteKey(kind: Kind, key: string) returns (reply: string)
      requires store.Valid() && kind in {GET, DEL, INCR, DECR, PERSIST}
      modifies store, store.nodes, expiry
      ensures store.Valid() && fresh(store.nodes - old(store.nodes))
      ensures Outcome(Data(), reply, NoEffect) == ExecKey(old(Data()), kind, key)
    {
      match kind {
        case GET => reply := ExecuteGet(key);
        case DEL => reply := ExecuteDel(key);
        case INCR => reply := Add(key, 1);
        case DECR => reply := Add(key, -1);
        case PERSIST => reply := ExecutePersist(key);
      }
    }

    /** The commands that look at the clock. */
    method ExecuteTimed(cmd: Command, now: Expiry.Time) returns (reply: string)
      requires store.Valid()
      requires cmd.kind in {TTL, EXPIRE} && |cmd.args| == Arity(cmd.kind)
      modifies expiry
      ensures Outcome(Data(), reply, NoEffect) == ExecData(old(Data()), cmd, now)
    {
      if cmd.kind == TTL {
        reply := ExecuteTtl(cmd.args[0], now);
      } else {
        reply := ExecuteExpire(cmd.args[0], cmd.args[1], now);
      }
    }

    method ExecuteData(cmd: Command, now: Expiry.Time) returns (reply: string)
      requires store.Valid()
      requires TouchesData(cmd.kind) && (cmd.kind != SET ==> |cmd.args| == Arity(cmd.kind))
      modifies store, store.nodes, expiry
      ensures store.Valid() && fresh(store.nodes - old(store.nodes))
      ensures Outcome(Data(), reply, NoEffect) == ExecData(old(Data()), cmd, now)
    {
      match cmd.kind {
        case SET => reply := ExecuteSet(cmd, now);
        case TTL | EXPIRE => reply := ExecuteTimed(cmd, now);
        case GET | DEL | INCR | DECR | PERSIST => reply := ExecuteKey(cmd.kind, cmd.args[0]);
      }
    }

    method Execute(cmd: Command, now: Expiry.Time) returns (reply: string, effect: Effect)
      requires store.Valid()
      modifies store, store.nodes, expiry
      ensures store.Valid() && fresh(store.nodes - old(store.nodes))
      ensures Outcome(Data(), reply, effect) == Exec(old(Data()), cmd, now)
    {
      if ChecksArity(cmd.kind) && |cmd.args| != Arity(cmd.kind) {
        return ArityError(cmd), NoEffect;
      }
      if TouchesData(cmd.kind) {
        reply := ExecuteData(cmd, now);
        return reply, NoEffect;
      }
      var answer := Control(cmd);
      return answer.0, answer.1;
    }
  }
}
