/** The store as a value: a recency list, most recently used entry first, with distinct keys.
    Capacity 0 means unbounded. */
module Lru {
  import opened Text
  import opened Numbers

  datatype Entry = Entry(key: string, value: string)

  type Entries = seq<Entry>

  predicate Distinct(es: Entries) {
    forall i, j :: 0 <= i < j < |es| ==> es[i].key != es[j].key
  }

  function Lookup(es: Entries, k: string): Option<string> {
    if es == [] then None
    else if es[0].key == k then Some(es[0].value)
    else Lookup(es[1..], k)
  }

  predicate Has(es: Entries, k: string) { Lookup(es, k).Some? }

  function Remove(es: Entries, k: string): Entries {
    if es == [] then []
    else if es[0].key == k then Remove(es[1..], k)
    else [es[0]] + Remove(es[1..], k)
  }

  /** Drops entries from the back until the list fits. */
  function Trim(es: Entries, capacity: nat): Entries {
    if capacity == 0 || |es| <= capacity then es else es[..capacity]
  }

  function Set(es: Entries, capacity: nat, k: string, v: string): Entries {
    if Has(es, k) then [Entry(k, v)] + Remove(es, k)
    else Trim([Entry(k, v)] + es, capacity)
  }

  /** A read moves the entry it hits to the front. */
  function Touch(es: Entries, k: string): Entries {
    match Lookup(es, k)
    case None => es
    case Some(v) => [Entry(k, v)] + Remove(es, k)
  }

  /** The number a counter command would store; None when the held text is not a number. */
  function Incremented(es: Entries, k: string, delta: int): Option<int> {
    match Lookup(es, k)
    case None => Some(Wrap64(delta))
    case Some(text) =>
      match Stoll(text)
      case None => None
      case Some(n) => Some(Wrap64(n + delta))
  }

  /** The contents without the order. */
  function MapOf(es: Entries): map<string, string> {
    if es == [] then map[] else MapOf(es[1..])[es[0].key := es[0].value]
  }

  // ---------------------------------------------------------------- basic facts

  lemma {:induction false} LookupIndex(es: Entries, k: string)
    ensures match Lookup(es, k)
            case None => forall i :: 0 <= i < |es| ==> es[i].key != k
            case Some(v) => exists i :: 0 <= i < |es| && es[i] == Entry(k, v)
  {
    if es != [] && es[0].key != k {
      LookupIndex(es[1..], k);
      match Lookup(es, k)
      case None =>
        forall i | 0 <= i < |es| ensures es[i].key != k {
          if i > 0 { assert es[i] == es[1..][i - 1]; }
        }
      case Some(v) =>
        var i :| 0 <= i < |es[1..]| && es[1..][i] == Entry(k, v);
        assert es[i + 1] == Entry(k, v);
    } else if es != [] {
      assert es[0] == Entry(k, es[0].value);
    }
  }

  lemma LookupMap(es: Entries, k: string)
    ensures Has(es, k) <==> k in MapOf(es)
    ensures Has(es, k) ==> MapOf(es)[k] == Lookup(es, k).value
  {
  }

  lemma {:induction false} RemoveMembers(es: Entries, k: string)
    ensures forall i :: 0 <= i < |Remove(es, k)| ==> Remove(es, k)[i] in es && Remove(es, k)[i].key != k
    ensures !Has(es, k) ==> Remove(es, k) == es
  {
    if es != [] {
      RemoveMembers(es[1..], k);
      assert es == [es[0]] + es[1..];
    }
  }

  lemma {:induction false} RemoveDistinct(es: Entries, k: string)
    requires Distinct(es)
    ensures Distinct(Remove(es, k))
    ensures |Remove(es, k)| == if Has(es, k) then |es| - 1 else |es|
  {
    if es != [] {
      var rest := es[1..];
      RemoveDistinct(rest, k);
      RemoveMembers(rest, k);
      if es[0].key == k {
        LookupIndex(rest, k);
      } else {
        forall i | 0 <= i < |Remove(rest, k)| ensures Remove(rest, k)[i].key != es[0].key {
          assert Remove(rest, k)[i] in rest;
        }
        DistinctCons(es[0], Remove(rest, k));
      }
    }
  }

  lemma RemoveFacts(es: Entries, k: string)
    ensures forall i :: 0 <= i < |Remove(es, k)| ==> Remove(es, k)[i] in es && Remove(es, k)[i].key != k
    ensures !Has(es, k) ==> Remove(es, k) == es
    ensures Distinct(es) ==> Distinct(Remove(es, k))
    ensures Distinct(es) ==> |Remove(es, k)| == if Has(es, k) then |es| - 1 else |es|
  {
    RemoveMembers(es, k);
    if Distinct(es) { RemoveDistinct(es, k); }
  }

  lemma {:induction false} LookupRemove(es: Entries, k: string, j: string)
    ensures Lookup(Remove(es, k), j) == if j == k then None else Lookup(es, j)
  {
    if es != [] { LookupRemove(es[1..], k, j); }
  }

  lemma {:induction false} MapRemove(es: Entries, k: string)
    ensures MapOf(Remove(es, k)) == MapOf(es) - {k}
  {
    if es != [] { MapRemove(es[1..], k); }
  }

  /** An unbounded store is a map: SET, GET and DEL are update, identity and removal. */
  lemma UnboundedIsMap(es: Entries, k: string, v: string)
    ensures MapOf(Set(es, 0, k, v)) == MapOf(es)[k := v]
    ensures MapOf(Touch(es, k)) == MapOf(es)
  {
    MapRemove(es, k);
    LookupMap(es, k);
    assert ([Entry(k, v)] + es)[1..] == es;
    assert ([Entry(k, v)] + Remove(es, k))[1..] == Remove(es, k);
    if Has(es, k) {
      var held := Lookup(es, k).value;
      assert ([Entry(k, held)] + Remove(es, k))[1..] == Remove(es, k);
      assert MapOf(Touch(es, k)) == (MapOf(es) - {k})[k := held];
    }
  }

  /** The recency list invariant: distinct keys, and never more entries than the capacity. */
  predicate Valid(es: Entries, capacity: nat) {
    Distinct(es) && (capacity != 0 ==> |es| <= capacity)
  }

  lemma DistinctCons(e: Entry, es: Entries)
    requires Distinct(es) && forall i :: 0 <= i < |es| ==> es[i].key != e.key
    ensures Distinct([e] + es)
  {
  }

  /** Every operation keeps it; a write leaves its key at the front; only one entry, the last,
      can be evicted, and only by the insertion of a new key into a full store. */
  lemma OperationsKeepValid(es: Entries, capacity: nat, k: string, v: string)
    requires Valid(es, capacity)
    ensures Valid(Set(es, capacity, k, v), capacity)
    ensures Set(es, capacity, k, v)[..1] == [Entry(k, v)]
    ensures Valid(Touch(es, k), capacity)
    ensures Valid(Remove(es, k), capacity)
    ensures !Has(es, k) && |es| == capacity != 0 ==>
              Set(es, capacity, k, v) == [Entry(k, v)] + es[..|es| - 1]
    ensures !Has(es, k) && |es| != capacity ==> Set(es, capacity, k, v) == [Entry(k, v)] + es
  {
    RemoveFacts(es, k);
    DistinctCons(Entry(k, v), Remove(es, k));
    if Has(es, k) {
      DistinctCons(Entry(k, Lookup(es, k).value), Remove(es, k));
    }
  }

  /** A hit leaves its entry, unchanged, at the front, and the others behind it in their order; a miss leaves
      everything as it was. */
  lemma TouchMovesToFront(es: Entries, k: string, i: nat)
    requires Distinct(es) && i < |es| && es[i].key == k
    ensures Touch(es, k) == [es[i]] + es[..i] + es[i + 1..]
    decreases |es|
  {
    RemoveAt(es, i);
    LookupIndex(es, k);
  }

  lemma {:induction false} RemoveAt(es: Entries, i: nat)
    requires Distinct(es) && i < |es|
    ensures Remove(es, es[i].key) == es[..i] + es[i + 1..]
  {
    var k, rest := es[i].key, es[1..];
    if i == 0 {
      LookupIndex(rest, k);
      RemoveFacts(rest, k);
    } else {
      RemoveAt(rest, i - 1);
      assert es[0].key != k && rest[i - 1] == es[i];
      assert [es[0]] + rest[..i - 1] == es[..i] && rest[i..] == es[i + 1..];
    }
  }

  // ---------------------------------------------------------------- traces and inclusion

  datatype Op = OpSet(key: string, value: string) | OpGet(key: string) | OpDel(key: string)

  function Apply(es: Entries, capacity: nat, op: Op): Entries {
    match op
    case OpSet(k, v) => Set(es, capacity, k, v)
    case OpGet(k) => Touch(es, k)
    case OpDel(k) => Remove(es, k)
  }

  function Run(capacity: nat, ops: seq<Op>): Entries {
    if ops == [] then [] else Apply(Run(capacity, ops[..|ops| - 1]), capacity, ops[|ops| - 1])
  }

  /** The reference: the same trace on a plain map. */
  function RunMap(ops: seq<Op>): map<string, string> {
    if ops == [] then map[]
    else
      var m := RunMap(ops[..|ops| - 1]);
      match ops[|ops| - 1]
      case OpSet(k, v) => m[k := v]
      case OpGet(_) => m
      case OpDel(k) => m - {k}
  }

  /** `a` is obtained from `b` by deleting entries. */
  predicate Sub(a: Entries, b: Entries) {
    if a == [] then true
    else if b == [] then false
    else (a[0] == b[0] && Sub(a[1..], b[1..])) || Sub(a, b[1..])
  }

  lemma {:induction false} SubMember(a: Entries, b: Entries, e: Entry)
    requires Sub(a, b) && e in a
    ensures e in b && |a| <= |b|
  {
    if a[0] == b[0] && Sub(a[1..], b[1..]) {
      if e != a[0] { SubMember(a[1..], b[1..], e); }
      SubLength(a, b);
    } else {
      SubMember(a, b[1..], e);
    }
  }

  lemma {:induction false} SubLength(a: Entries, b: Entries)
    requires Sub(a, b)
    ensures |a| <= |b|
  {
    if a != [] {
      if a[0] == b[0] && Sub(a[1..], b[1..]) { SubLength(a[1..], b[1..]); } else { SubLength(a, b[1..]); }
    }
  }

  /** Dropping a suffix entry by entry from both sides, or from the left side only. */
  lemma {:induction false} SubDropLast(a: Entries, b: Entries)
    requires Sub(a, b) && a != []
    ensures Sub(a[..|a| - 1], b)
    ensures Sub(a[..|a| - 1], b[..|b| - 1])
  {
    var a', b' := a[..|a| - 1], b[..|b| - 1];
    if a[0] == b[0] && Sub(a[1..], b[1..]) {
      if |a| > 1 {
        SubDropLast(a[1..], b[1..]);
        SubLength(a[1..], b[1..]);
        assert a'[1..] == a[1..][..|a| - 2] && b'[1..] == b[1..][..|b| - 2];
      }
    } else {
      SubDropLast(a, b[1..]);
      SubLength(a, b[1..]);
      assert b'[1..] == b[1..][..|b| - 2];
    }
  }

  lemma {:induction false} SubRemove(a: Entries, b: Entries, k: string)
    requires Sub(a, b)
    ensures Sub(Remove(a, k), Remove(b, k))
  {
    if a != [] {
      var rb := Remove(b[1..], k);
      if a[0] == b[0] && Sub(a[1..], b[1..]) {
        SubRemove(a[1..], b[1..], k);
        SubCons(a[0], Remove(a[1..], k), rb);
      } else {
        SubRemove(a, b[1..], k);
        SubSkip(b[0], Remove(a, k), rb);
      }
    }
  }

  lemma SubCons(e: Entry, a: Entries, b: Entries)
    requires Sub(a, b)
    ensures Sub([e] + a, [e] + b)
  {
    assert ([e] + a)[1..] == a && ([e] + b)[1..] == b;
  }

  lemma SubSkip(e: Entry, a: Entries, b: Entries)
    requires Sub(a, b)
    ensures Sub(a, [e] + b)
  {
    assert ([e] + b)[1..] == b;
  }

  lemma SubLookup(a: Entries, b: Entries, k: string)
    requires Sub(a, b) && Distinct(b) && Has(a, k)
    ensures Lookup(b, k) == Lookup(a, k)
  {
    LookupIndex(a, k);
    var v := Lookup(a, k).value;
    SubMember(a, b, Entry(k, v));
    LookupIndex(b, k);
  }

  /** The inclusion invariant of two stores that see the same trace. The second conjunct says that
      the smaller store has at most as much free room as the larger one. */
  predicate Includes(a: Entries, small: nat, b: Entries, large: nat) {
    && Valid(a, small) && Valid(b, large)
    && Sub(a, b)
    && (large != 0 ==> |b| - |a| <= large - small)
  }

  /** The trimmed insertion of `e` in front of `a`, seen next to any list that includes `a`. */
  lemma SubInsert(e: Entry, a: Entries, small: nat, b: Entries)
    requires Sub(a, b) && 0 < small && |a| <= small
    ensures Sub(Trim([e] + a, small), [e] + b)
    ensures |a| == small ==> Sub(Trim([e] + a, small), ([e] + b)[..|b|])
  {
    SubCons(e, a, b);
    if |a| == small { SubDropLast([e] + a, [e] + b); }
  }

  lemma InclusionSet(a: Entries, small: nat, b: Entries, large: nat, k: string, v: string)
    requires Includes(a, small, b, large)
    requires 0 < small && (large == 0 || small <= large)
    ensures Includes(Set(a, small, k, v), small, Set(b, large, k, v), large)
  {
    var e := Entry(k, v);
    OperationsKeepValid(a, small, k, v);
    OperationsKeepValid(b, large, k, v);
    RemoveFacts(a, k);
    RemoveFacts(b, k);
    SubLength(a, b);
    if Has(a, k) {
      SubLookup(a, b, k);
      SubRemove(a, b, k);
      SubCons(e, Remove(a, k), Remove(b, k));
    } else if Has(b, k) {
      SubRemove(a, b, k);
      SubInsert(e, a, small, Remove(b, k));
    } else {
      SubInsert(e, a, small, b);
    }
  }

  lemma InclusionStep(a: Entries, small: nat, b: Entries, large: nat, op: Op)
    requires Includes(a, small, b, large)
    requires 0 < small && (large == 0 || small <= large)
    ensures Includes(Apply(a, small, op), small, Apply(b, large, op), large)
  {
    match op
    case OpSet(k, v) => InclusionSet(a, small, b, large, k, v);
    case _ =>
      var k := op.key;
      OperationsKeepValid(a, small, k, "");
      OperationsKeepValid(b, large, k, "");
      RemoveFacts(a, k);
      RemoveFacts(b, k);
      SubRemove(a, b, k);
      if Has(a, k) { SubLookup(a, b, k); }
      if Has(b, k) {
        var e := Entry(k, Lookup(b, k).value);
        SubCons(e, Remove(a, k), Remove(b, k));
        SubSkip(e, Remove(a, k), Remove(b, k));
      }
  }

  /** LRU inclusion: on every trace, a bounded store holds a subsequence of what any larger store
      (or the unbounded one, `large == 0`) holds, with the same values in the same order. */
  lemma {:induction false} LruInclusion(small: nat, large: nat, ops: seq<Op>)
    requires 0 < small && (large == 0 || small <= large)
    ensures Includes(Run(small, ops), small, Run(large, ops), large)
  {
    if ops != [] {
      LruInclusion(small, large, ops[..|ops| - 1]);
      InclusionStep(Run(small, ops[..|ops| - 1]), small, Run(large, ops[..|ops| - 1]), large, ops[|ops| - 1]);
    }
  }

  lemma {:induction false} UnboundedRunIsMap(ops: seq<Op>)
    ensures MapOf(Run(0, ops)) == RunMap(ops)
  {
    if ops != [] {
      UnboundedRunIsMap(ops[..|ops| - 1]);
      var es := Run(0, ops[..|ops| - 1]);
      var op := ops[|ops| - 1];
      UnboundedIsMap(es, op.key, if op.OpSet? then op.value else "");
      MapRemove(es, op.key);
    }
  }

  /** A bounded cache never lies: whatever it still holds is what a plain map would return. */
  lemma CacheHitIsMapValue(capacity: nat, ops: seq<Op>, k: string)
    requires Has(Run(capacity, ops), k)
    ensures k in RunMap(ops) && RunMap(ops)[k] == Lookup(Run(capacity, ops), k).value
  {
    UnboundedRunIsMap(ops);
    LookupMap(Run(0, ops), k);
    if capacity != 0 {
      LruInclusion(capacity, 0, ops);
      SubLookup(Run(capacity, ops), Run(0, ops), k);
    }
  }

  /** One GET decides what a full store evicts: with room for two, reading `a` before inserting `c`
      keeps it, and not reading it drops it. A log that leaves GET out cannot tell these apart. */
  lemma GetDecidesEviction(a: Entry, b: Entry, c: Entry)
    requires a.key != b.key && a.key != c.key && b.key != c.key
    ensures Set(Touch([b, a], a.key), 2, c.key, c.value) == [c, a]
    ensures Set([b, a], 2, c.key, c.value) == [c, b]
  {
    assert [b, a][1..] == [a] && [a, b][1..] == [b] && [a][1..] == [] && [b][1..] == [];
    assert Lookup([a], a.key) == Some(a.value) && Remove([a], a.key) == [];
    assert Touch([b, a], a.key) == [a, b];
    LookupIndex([a, b], c.key);
    LookupIndex([b, a], c.key);
    assert [c] + [a, b] == [c, a, b] && [c] + [b, a] == [c, b, a];
  }
}
