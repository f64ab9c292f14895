/** The deadline table next to the store: which keys may have a deadline, and what TTL answers. */
module TtlTable {
  import opened Text
  import opened Protocol
  import opened Lru
  import opened Executor
  import opened Contents
  import opened Numbers
  import Expiry

  /** Every key with a live deadline exists. */
  predicate Consistent(db: Db) { forall k :: k in db.deadlines ==> Has(db.entries, k) }

  /** A deadline firing, with its callback, as one step. */
  function Fire(db: Db, k: string): Db { Unschedule(db.(entries := Remove(db.entries, k)), k) }

  lemma HasAfterSet(es: Entries, capacity: nat, k: string, v: string, j: string)
    requires Valid(es, capacity)
    ensures Has(Set(es, capacity, k, v), k)
    ensures (capacity == 0 || |es| < capacity || Has(es, k)) && j != k ==>
              (Has(Set(es, capacity, k, v), j) <==> Has(es, j))
  {
    LookupRemove(es, k, j);
    OperationsKeepValid(es, capacity, k, v);
    assert ([Entry(k, v)] + es)[1..] == es;
    assert ([Entry(k, v)] + Remove(es, k))[1..] == Remove(es, k);
    var stored := Set(es, capacity, k, v);
    assert stored[0] == Entry(k, v) by { assert stored[..1] == [Entry(k, v)]; }
  }

  /** The command inserts a key that is not there, so that a full store must evict. */
  predicate Inserts(db: Db, cmd: Command) {
    cmd.args != [] && !Has(db.entries, cmd.args[0]) && Creates(cmd, cmd.args[0])
  }

  /** The key an insertion into a full store pushes out still has a deadline. */
  predicate EvictsExpiring(db: Db, cmd: Command) {
    && Inserts(db, cmd) && db.capacity != 0 && |db.entries| == db.capacity
    && db.entries[db.capacity - 1].key in db.deadlines
  }

  lemma WriteConsistency(db: Db, k: string, v: string)
    requires Good(db) && Consistent(db)
    ensures var full := !Has(db.entries, k) && db.capacity != 0 && |db.entries| == db.capacity;
            Consistent(Write(db, k, v)) <==> !(full && db.entries[db.capacity - 1].key in db.deadlines)
  {
    var full := !Has(db.entries, k) && db.capacity != 0 && |db.entries| == db.capacity;
    if full {
      EvictionConsistency(db, k, v);
    } else {
      forall j | j in db.deadlines ensures Has(Write(db, k, v).entries, j) {
        HasAfterSet(db.entries, db.capacity, k, v, j);
      }
    }
  }

  lemma EvictionConsistency(db: Db, k: string, v: string)
    requires Good(db) && Consistent(db) && !Has(db.entries, k) && db.capacity != 0 && |db.entries| == db.capacity
    ensures Consistent(Write(db, k, v)) <==> db.entries[db.capacity - 1].key !in db.deadlines
  {
    OperationsKeepValid(db.entries, db.capacity, k, v);
    var es, kept := db.entries, Write(db, k, v).entries;
    var last := es[|es| - 1].key;
    assert kept == [Entry(k, v)] + es[..|es| - 1];
    LookupIndex(es, k);
    LookupIndex(kept, last);
    if last in db.deadlines {
      assert !Has(kept, last);
    } else {
      forall j | j in db.deadlines ensures Has(kept, j) {
        LookupIndex(es, j);
        LookupIndex(kept, j);
        var i :| 0 <= i < |es| && es[i] == Entry(j, Lookup(es, j).value);
        assert kept[i + 1] == es[i];
      }
    }
  }

  /** A command keeps the table consistent if and only if it does not evict a key with a deadline:
      eviction does not cancel the deadline of the key it drops. */
  lemma CommandKeepsConsistentIff(db: Db, cmd: Command, now: Expiry.Time)
    requires Good(db) && Consistent(db)
    ensures Consistent(Exec(db, cmd, now).db) <==> !EvictsExpiring(db, cmd)
  {
    if cmd.args != [] {
      var k := cmd.args[0];
      match cmd.kind
      case SET => SetConsistency(db, cmd, now);
      case GET => ReorderKeepsConsistent(db, k);
      case DEL => ReorderKeepsConsistent(db, k);
      case INCR => if |cmd.args| == 1 { AddConsistency(db, k, 1); }
      case DECR => if |cmd.args| == 1 { AddConsistency(db, k, -1); }
      case _ =>
    }
  }

  lemma AddConsistency(db: Db, k: string, delta: int)
    requires Good(db) && Consistent(db)
    ensures var full := !Has(db.entries, k) && db.capacity != 0 && |db.entries| == db.capacity;
            Consistent(ExecAdd(db, k, delta).db) <==> !(full && db.entries[db.capacity - 1].key in db.deadlines)
  {
    match Incremented(db.entries, k, delta)
    case None =>
    case Some(n) => WriteConsistency(db, k, Decimal(n));
  }

  lemma SetConsistency(db: Db, cmd: Command, now: Expiry.Time)
    requires Good(db) && Consistent(db) && cmd.kind == SET
    ensures Consistent(ExecSet(db, cmd, now).db) <==> !EvictsExpiring(db, cmd)
  {
    if |cmd.args| >= 2 {
      var k, v := cmd.args[0], cmd.args[1];
      WriteConsistency(db, k, v);
      HasAfterSet(db.entries, db.capacity, k, v, k);
      var written := Write(db, k, v);
      assert forall when :: Consistent(Reschedule(written, k, when)) <==> Consistent(written);
      assert Consistent(Unschedule(written, k)) <==> Consistent(written);
    }
  }

  lemma ReorderKeepsConsistent(db: Db, k: string)
    requires Consistent(db)
    ensures Consistent(db.(entries := Touch(db.entries, k)))
    ensures Consistent(Fire(db, k))
  {
    forall j | j in db.deadlines
      ensures Has(Touch(db.entries, k), j) && (j != k ==> Has(Remove(db.entries, k), j))
    {
      LookupRemove(db.entries, k, j);
      if Has(db.entries, k) {
        var v := Lookup(db.entries, k).value;
        assert ([Entry(k, v)] + Remove(db.entries, k))[1..] == Remove(db.entries, k);
      }
    }
  }

  lemma SetInRoomForOne(k: string, v: string, now: Expiry.Time)
    ensures ExecSet(Db([], 1, map[]), Command(SET, "SET", [k, v, "EX", "1"]), now).db
            == Db([Entry(k, v)], 1, map[k := Deadline(now, 1)])
  {
    assert Decimal(1) == "1";
    PositiveSecondsDecimal(1);
    assert EqualsIgnoreCase("EX", "EX");
    assert Set([], 1, k, v) == [Entry(k, v)];
  }

  /** With room for one: `a` is set with a deadline, then `b` is set and `a` evicted. Its deadline stays. */
  lemma EvictionLeavesDeadline(a: string, v: string, b: string, w: string, now: Expiry.Time)
    requires a != b
    ensures var one := Exec(Db([], 1, map[]), Command(SET, "SET", [a, v, "EX", "1"]), now).db;
            var two := Exec(one, Command(SET, "SET", [b, w]), now).db;
            two.entries == [Entry(b, w)] && a in two.deadlines && !Consistent(two)
  {
    SetInRoomForOne(a, v, now);
    var one := Db([Entry(a, v)], 1, map[a := Deadline(now, 1)]);
    assert one.entries[1..] == [] && Lookup(one.entries, b) == Lookup([], b);
    assert ([Entry(b, w)] + one.entries)[..1] == [Entry(b, w)];
    var two := ExecSet(one, Command(SET, "SET", [b, w]), now).db;
    assert [Entry(b, w)][1..] == [] && Lookup(two.entries, a) == Lookup([], a);
  }

  // ---------------------------------------------------------------- runs of an unbounded store

  datatype Event = Do(cmd: Command, now: Expiry.Time) | Expire(key: string)

  function After(db: Db, evs: seq<Event>): Db
    decreases |evs|
  {
    if evs == [] then db
    else
      After(match evs[0] case Do(cmd, now) => Exec(db, cmd, now).db case Expire(k) => Fire(db, k), evs[1..])
  }

  predicate AllWellFormed(evs: seq<Event>) {
    forall i :: 0 <= i < |evs| ==> (evs[i].Do? ==> WellFormed(evs[i].cmd))
  }

  /** In every run of an unbounded store, at every command boundary, keys with a deadline exist. */
  lemma {:induction false} ConsistentAlways(db: Db, evs: seq<Event>)
    requires Good(db) && db.capacity == 0 && Consistent(db) && AllWellFormed(evs)
    ensures Consistent(After(db, evs)) && Good(After(db, evs))
    decreases |evs|
  {
    if evs != [] {
      match evs[0]
      case Do(cmd, now) =>
        CommandKeepsConsistentIff(db, cmd, now);
        ExecKeepsGood(db, cmd, now);
        ConsistentAlways(Exec(db, cmd, now).db, evs[1..]);
      case Expire(k) =>
        ReorderKeepsConsistent(db, k);
        OperationsKeepValid(db.entries, db.capacity, k, "");
        RemoveKeepsStorable(db.entries, k);
        ConsistentAlways(Fire(db, k), evs[1..]);
    }
  }

  /** TTL's three answers partition the keys of a consistent database: -2 is absent, -1 is stored for
      good, and a number from 0 up is exactly a key with a deadline. */
  lemma TtlPartitionsKeys(db: Db, k: string, now: Expiry.Time)
    requires Consistent(db)
    ensures ExecTtl(db, k, now).reply == Integer(-2) <==> k !in MapOf(db.entries)
    ensures ExecTtl(db, k, now).reply == Integer(-1) <==> k in MapOf(db.entries) && k !in db.deadlines
    ensures (exists n :: n >= 0 && ExecTtl(db, k, now).reply == Integer(n)) <==> k in db.deadlines
  {
    LookupMap(db.entries, k);
    if k in db.deadlines {
      var n := Remaining(db.deadlines[k], now);
      assert n >= 0;
      DifferentSigns(n, -1);
      DifferentSigns(n, -2);
    } else {
      forall n | n >= 0 ensures ExecTtl(db, k, now).reply != Integer(n) {
        DifferentSigns(n, -1);
        DifferentSigns(n, -2);
      }
    }
    assert DecimalNat(1) != DecimalNat(2);
    assert Integer(-1)[2..] == DecimalNat(1) && Integer(-2)[2..] == DecimalNat(2);
  }

  lemma DifferentSigns(n: int, m: int)
    requires m < 0 <= n
    ensures Integer(n) != Integer(m)
  {
    assert Integer(m)[1] == '-';
    assert Integer(n)[1] == Decimal(n)[0];
    assert IsDigit(Decimal(n)[0]);
  }

  /** EXPIRE accepts any number of seconds up to the largest 64-bit integer, but its deadline is the
      promised one if and only if that instant, in nanoseconds, is a 64-bit integer; and TTL reads it
      back if and only if the number of nanoseconds is one. */
  lemma ExpireIsExactIff(db: Db, k: string, text: string, now: Expiry.Time)
    requires Has(db.entries, k) && PositiveSeconds(text).Some? && IsInt64(now)
    ensures var n := PositiveSeconds(text).value;
            var armed := ExecExpire(db, k, text, now).db;
            && (armed.deadlines[k] == now + n * TICKS_PER_SECOND <==> now + n * TICKS_PER_SECOND <= INT64_MAX)
            && (ExecTtl(armed, k, now).reply == Integer(n) <==> n * TICKS_PER_SECOND <= INT64_MAX)
  {
    var n := PositiveSeconds(text).value;
    var ticks := n * TICKS_PER_SECOND;
    WrapOnce(now + ticks, -now);
    var left := Wrap64(ticks);
    assert Remaining(Deadline(now, n), now) == if left <= 0 then 0 else left / TICKS_PER_SECOND;
    if ticks > INT64_MAX {
      assert left < ticks;
      assert Remaining(Deadline(now, n), now) < n;
    }
    IntegerIsInjective(Remaining(Deadline(now, n), now), n);
  }

  lemma IntegerIsInjective(n: int, m: int)
    requires IsInt64(n) && IsInt64(m)
    ensures Integer(n) == Integer(m) <==> n == m
  {
    StollDecimal(n);
    StollDecimal(m);
    assert Integer(n)[1..] == Decimal(n) && Integer(m)[1..] == Decimal(m);
  }

  /** A deadline that fits counts down: TTL answers the given seconds at once, one less for every full
      second after that, and 0 from the last second on; until PERSIST, which makes it -1. */
  lemma ExpireCountsDown(db: Db, k: string, text: string, now: Expiry.Time, elapsed: nat)
    requires Has(db.entries, k) && PositiveSeconds(text).Some? && 0 <= now && IsInt64(now + elapsed)
    requires now + PositiveSeconds(text).value * TICKS_PER_SECOND <= INT64_MAX
    ensures var n := PositiveSeconds(text).value;
            var armed := ExecExpire(db, k, text, now).db;
            var second := TICKS_PER_SECOND;
            && (forall j :: 0 <= j <= n ==> ExecTtl(armed, k, now + j * second).reply == Integer(n - j))
            && (elapsed >= n * second ==> ExecTtl(armed, k, now + elapsed).reply == Integer(0))
            && ExecTtl(ExecPersist(armed, k).db, k, now + elapsed).reply == Integer(-1)
  {
    var n := PositiveSeconds(text).value;
    var armed := ExecExpire(db, k, text, now).db;
    forall j | 0 <= j <= n ensures ExecTtl(armed, k, now + j * TICKS_PER_SECOND).reply == Integer(n - j) {
      WholeSeconds(n, j, now);
    }
  }

  /** At any moment before the deadline TTL answers the whole seconds left, rounded down. */
  lemma TtlRoundsDown(db: Db, k: string, text: string, now: Expiry.Time, elapsed: nat, left: nat)
    requires Has(db.entries, k) && PositiveSeconds(text).Some? && 0 <= now
    requires now + PositiveSeconds(text).value * TICKS_PER_SECOND <= INT64_MAX
    requires var ticks := PositiveSeconds(text).value * TICKS_PER_SECOND - elapsed;
             left * TICKS_PER_SECOND <= ticks < (left + 1) * TICKS_PER_SECOND
    ensures ExecTtl(ExecExpire(db, k, text, now).db, k, now + elapsed).reply == Integer(left)
  {
    PartOfSecond(PositiveSeconds(text).value, elapsed, now, left);
  }

  lemma PartOfSecond(n: int, elapsed: nat, now: Expiry.Time, left: nat)
    requires 0 < n && 0 <= now && now + n * TICKS_PER_SECOND <= INT64_MAX
    requires left * TICKS_PER_SECOND <= n * TICKS_PER_SECOND - elapsed < (left + 1) * TICKS_PER_SECOND
    ensures Remaining(Deadline(now, n), now + elapsed) == left
  {
  }

  lemma WholeSeconds(n: int, j: int, now: Expiry.Time)
    requires 0 <= j <= n && 0 <= now && now + n * TICKS_PER_SECOND <= INT64_MAX
    ensures Remaining(Deadline(now, n), now + j * TICKS_PER_SECOND) == n - j
  {
  }

  lemma LongestDeadline(now: Expiry.Time)
    requires 0 <= now && IsInt64(now)
    ensures Deadline(now, INT64_MAX) == now - TICKS_PER_SECOND
  {
    assert INT64_MAX * TICKS_PER_SECOND == 500_000_000 * 0x1_0000_0000_0000_0000 - TICKS_PER_SECOND;
    WrapPeriod(500_000_000, now - TICKS_PER_SECOND);
  }

  /** EXPIRE with the largest number it accepts, 9223372036854775807, answers that a deadline was set.
      The deadline is one second in the past, so the key is due at once. */
  lemma LongestExpireIsDueAtOnce(db: Db, k: string, seconds: int, now: Expiry.Time)
    requires Has(db.entries, k) && seconds == INT64_MAX && 0 <= now && IsInt64(now)
    ensures var out := ExecExpire(db, k, Decimal(seconds), now);
            && out.reply == Integer(1)
            && out.db.deadlines[k] == now - TICKS_PER_SECOND
            && ExecTtl(out.db, k, now).reply == Integer(0)
  {
    PositiveSecondsDecimal(seconds);
    LongestDeadline(now);
  }
}
