/** Snapshots: the data printed as SET lines, most recently used entry first, and loaded back by
    replaying those lines. A line longer than the parser accepts is skipped on load. */
module Snapshot {
  import opened Text
  import opened Protocol
  import opened Lru
  import opened Executor
  import opened Contents
  import Expiry

  function SnapshotLine(e: Entry): string { "SET " + e.key + " " + e.value }

  /** The snapshot file. */
  function Dump(es: Entries): string {
    if es == [] then "" else SnapshotLine(es[0]) + "\n" + Dump(es[1..])
  }

  /** Longest key and value together whose SET line the parser accepts. */
  predicate Fits(e: Entry) { |e.key| + |e.value| <= MAX_LINE - 5 }

  predicate AllFit(es: Entries) { forall i :: 0 <= i < |es| ==> Fits(es[i]) }

  lemma SnapshotLineIsLine(e: Entry)
    requires Storable(e)
    ensures NoNewline(SnapshotLine(e))
  {
    var s := SnapshotLine(e);
    forall i | 0 <= i < |s| ensures s[i] != '\n' {
      if 4 <= i < 4 + |e.key| {
        assert s[i] == e.key[i - 4];
      } else if i >= 5 + |e.key| {
        assert s[i] == e.value[i - 5 - |e.key|];
      }
    }
  }

  function DumpLine(e: Entry): (l: Line)
    requires Storable(e)
  {
    SnapshotLineIsLine(e);
    SnapshotLine(e)
  }

  function DumpLines(es: Entries): seq<Line>
    requires AllStorable(es)
  {
    seq(|es|, i requires 0 <= i < |es| => DumpLine(es[i]))
  }

  /** Reading the file back gives one line per entry, in order. */
  lemma {:induction false} DumpReadsBack(es: Entries)
    requires AllStorable(es)
    ensures GetLines(Dump(es)) == DumpLines(es)
  {
    if es != [] {
      DumpReadsBack(es[1..]);
      GetLinesCons(DumpLine(es[0]), Dump(es[1..]));
      DumpLinesCons(es);
      assert Dump(es) == DumpLine(es[0]) + "\n" + Dump(es[1..]);
    }
  }

  lemma DumpLinesCons(es: Entries)
    requires AllStorable(es) && es != []
    ensures DumpLines(es) == [DumpLine(es[0])] + DumpLines(es[1..])
  {
  }

  lemma ParseSnapshotLine(e: Entry)
    requires Storable(e)
    ensures Fits(e) ==> Parse(SnapshotLine(e)) == Request(Command(SET, "SET", [e.key, e.value]))
    ensures !Fits(e) ==> Parse(SnapshotLine(e)).ProtocolError?
  {
    var cmd := Command(SET, "SET", [e.key, e.value]);
    assert ToUpper("SET") == "SET";
    assert IsToken("SET");
    JoinPair(e.key, e.value);
    assert ([cmd.name] + cmd.args)[1..] == cmd.args;
    assert Print(cmd) == "SET" + " " + (e.key + " " + e.value);
    assert SnapshotLine(e) == "SET" + " " + (e.key + " " + e.value);
    ParsePrint(cmd);
  }

  lemma ReplaySnapshotLine(db: Db, e: Entry, now: Expiry.Time)
    requires Storable(e)
    ensures ReplayLine(db, SnapshotLine(e), now)
            == if Fits(e) then Unschedule(Write(db, e.key, e.value), e.key) else db
  {
    ParseSnapshotLine(e);
  }

  // ---------------------------------------------------------------- the round trip

  function Reverse(es: Entries): Entries {
    if es == [] then [] else [es[|es| - 1]] + Reverse(es[..|es| - 1])
  }

  /** The entries a reload does not skip. */
  function Kept(es: Entries): Entries {
    if es == [] then []
    else
      var last := es[|es| - 1];
      Kept(es[..|es| - 1]) + (if Fits(last) then [last] else [])
  }

  lemma {:induction false} ReverseMembers(es: Entries, e: Entry)
    ensures e in Reverse(es) <==> e in es
    ensures |Reverse(es)| == |es|
  {
    if es != [] {
      ReverseMembers(es[..|es| - 1], e);
      assert es == es[..|es| - 1] + [es[|es| - 1]];
    }
  }

  lemma {:induction false} KeptMembers(es: Entries, e: Entry)
    ensures e in Kept(es) <==> e in es && Fits(e)
  {
    if es != [] {
      KeptMembers(es[..|es| - 1], e);
      assert es == es[..|es| - 1] + [es[|es| - 1]];
    }
  }

  lemma {:induction false} ReverseDistinct(es: Entries)
    requires Distinct(es)
    ensures Distinct(Reverse(es))
  {
    if es != [] {
      var init, last := es[..|es| - 1], es[|es| - 1];
      ReverseDistinct(init);
      forall i | 0 <= i < |Reverse(init)| ensures Reverse(init)[i].key != last.key {
        ReverseMembers(init, Reverse(init)[i]);
      }
      DistinctCons(last, Reverse(init));
    }
  }

  lemma {:induction false} KeptDistinct(es: Entries)
    requires Distinct(es)
    ensures Distinct(Kept(es))
    ensures AllFit(es) ==> Kept(es) == es
  {
    if es != [] {
      var init, last := es[..|es| - 1], es[|es| - 1];
      KeptDistinct(init);
      assert es == init + [last];
      forall i | 0 <= i < |Kept(init)| ensures Kept(init)[i].key != last.key {
        KeptMembers(init, Kept(init)[i]);
      }
    }
  }

  lemma TrimTwice(e: Entry, es: Entries, capacity: nat)
    ensures Trim([e] + Trim(es, capacity), capacity) == Trim([e] + es, capacity)
  {
  }

  lemma TrimLacks(es: Entries, capacity: nat, k: string)
    requires forall i :: 0 <= i < |es| ==> es[i].key != k
    ensures !Has(Trim(es, capacity), k)
  {
    LookupIndex(Trim(es, capacity), k);
  }

  function Empty(capacity: nat): Db { Db([], capacity, map[]) }

  /** Loading a snapshot: the entries come back in reverse recency order, those whose line is too
      long are missing, and a store that is too small keeps the least recently used ones. */
  lemma {:induction false} LoadReverses(es: Entries, capacity: nat, clock: nat -> Expiry.Time)
    requires AllStorable(es) && Distinct(es)
    ensures Replay(Empty(capacity), DumpLines(es), clock)
            == Db(Trim(Reverse(Kept(es)), capacity), capacity, map[])
  {
    if es != [] {
      var init, last := es[..|es| - 1], es[|es| - 1];
      LoadReverses(init, capacity, clock);
      assert DumpLines(es)[..|es| - 1] == DumpLines(init);
      assert es == init + [last];
      LoadLast(init, last, capacity, clock(|es| - 1));
    }
  }

  lemma LoadLast(init: Entries, last: Entry, capacity: nat, now: Expiry.Time)
    requires Storable(last) && Distinct(init + [last])
    ensures ReplayLine(Db(Trim(Reverse(Kept(init)), capacity), capacity, map[]), SnapshotLine(last), now)
            == Db(Trim(Reverse(Kept(init + [last])), capacity), capacity, map[])
  {
    ReplaySnapshotLine(Db(Trim(Reverse(Kept(init)), capacity), capacity, map[]), last, now);
    KeptOneMore(init, last);
    if Fits(last) {
      LoadOne(Reverse(Kept(init)), last, capacity, init);
      assert (Kept(init) + [last])[..|Kept(init)|] == Kept(init);
    }
  }

  lemma LoadOne(loaded: Entries, last: Entry, capacity: nat, init: Entries)
    requires Distinct(init + [last]) && loaded == Reverse(Kept(init))
    ensures Set(Trim(loaded, capacity), capacity, last.key, last.value) == Trim([last] + loaded, capacity)
  {
    forall i | 0 <= i < |loaded| ensures loaded[i].key != last.key {
      ReverseMembers(Kept(init), loaded[i]);
      KeptMembers(init, loaded[i]);
      var j :| 0 <= j < |init| && init[j] == loaded[i];
      assert (init + [last])[j] == init[j] && (init + [last])[|init|] == last;
    }
    TrimLacks(loaded, capacity, last.key);
    TrimTwice(last, loaded, capacity);
    assert Entry(last.key, last.value) == last;
  }

  // ---------------------------------------------------------------- corollaries

  /** With room for everything, a reload gives the same entries in exactly the reverse order. */
  lemma SnapshotRoundTrip(es: Entries, capacity: nat, clock: nat -> Expiry.Time)
    requires AllStorable(es) && Distinct(es) && AllFit(es)
    requires capacity == 0 || |es| <= capacity
    ensures Replay(Empty(capacity), GetLines(Dump(es)), clock).entries == Reverse(es)
  {
    DumpReadsBack(es);
    LoadReverses(es, capacity, clock);
    KeptDistinct(es);
    if es != [] { ReverseMembers(es, es[0]); }
  }

  lemma {:induction false} ReverseAppend(a: Entries, e: Entry)
    ensures Reverse([e] + a) == Reverse(a) + [e]
  {
    if a != [] {
      ReverseAppend(a[..|a| - 1], e);
      assert ([e] + a)[..|a|] == [e] + a[..|a| - 1];
    }
  }

  lemma {:induction false} ReverseReverse(es: Entries)
    ensures Reverse(Reverse(es)) == es
  {
    if es != [] {
      ReverseReverse(es[..|es| - 1]);
      ReverseAppend(Reverse(es[..|es| - 1]), es[|es| - 1]);
    }
  }

  /** Saving and loading twice restores the recency list itself. */
  lemma TwoRoundTripsRestoreOrder(es: Entries, capacity: nat, clock: nat -> Expiry.Time, later: nat -> Expiry.Time)
    requires AllStorable(es) && Distinct(es) && AllFit(es)
    requires capacity == 0 || |es| <= capacity
    ensures var reloaded := Replay(Empty(capacity), GetLines(Dump(es)), clock).entries;
            Replay(Empty(capacity), GetLines(Dump(reloaded)), later).entries == es
  {
    SnapshotRoundTrip(es, capacity, clock);
    var reversed := Reverse(es);
    forall i | 0 <= i < |reversed| ensures Storable(reversed[i]) && Fits(reversed[i]) {
      ReverseMembers(es, reversed[i]);
    }
    if es != [] { ReverseMembers(es, es[0]); }
    ReverseDistinct(es);
    SnapshotRoundTrip(reversed, capacity, later);
    ReverseReverse(es);
  }

  lemma {:induction false} ReverseTake(es: Entries, c: nat)
    requires c <= |es|
    ensures |Reverse(es)| == |es| && Reverse(es)[..c] == Reverse(es[|es| - c..])
  {
    if es != [] {
      var init := es[..|es| - 1];
      if c > 0 {
        ReverseTake(init, c - 1);
        var tail := es[|es| - c..];
        assert tail[|tail| - 1] == es[|es| - 1] && tail[..|tail| - 1] == init[|init| - (c - 1)..];
        assert Reverse(es)[..c] == [es[|es| - 1]] + Reverse(init)[..c - 1];
      } else {
        ReverseMembers(es, es[0]);
      }
    }
  }

  /** A store with too little room keeps exactly the `capacity` least recently used entries. */
  lemma SmallReloadKeepsOldest(es: Entries, capacity: nat, clock: nat -> Expiry.Time)
    requires AllStorable(es) && Distinct(es) && AllFit(es)
    requires 0 < capacity <= |es|
    ensures Replay(Empty(capacity), GetLines(Dump(es)), clock).entries == Reverse(es[|es| - capacity..])
  {
    DumpReadsBack(es);
    LoadReverses(es, capacity, clock);
    KeptDistinct(es);
    ReverseTake(es, capacity);
  }

  lemma SameMembersSameMap(a: Entries, b: Entries)
    requires Distinct(a) && Distinct(b)
    requires forall e :: e in a <==> e in b
    ensures MapOf(a) == MapOf(b)
  {
    forall k ensures Lookup(a, k) == Lookup(b, k) && (k in MapOf(a) <==> Has(a, k)) && (k in MapOf(b) <==> Has(b, k)) {
      LookupIndex(a, k);
      LookupIndex(b, k);
      LookupMap(a, k);
      LookupMap(b, k);
      if Has(a, k) { assert Entry(k, Lookup(a, k).value) in b; }
      if Has(b, k) { assert Entry(k, Lookup(b, k).value) in a; }
    }
    forall k | k in MapOf(a) ensures MapOf(a)[k] == MapOf(b)[k] {
      LookupMap(a, k);
      LookupMap(b, k);
    }
  }

  lemma LoadedMembers(es: Entries, e: Entry)
    ensures e in Reverse(Kept(es)) <==> e in es && Fits(e)
  {
    ReverseMembers(Kept(es), e);
    KeptMembers(es, e);
  }

  lemma LostEntryIsMissing(es: Entries, i: nat)
    requires Distinct(es) && i < |es| && !Fits(es[i])
    ensures es[i].key !in MapOf(Reverse(Kept(es))) && es[i].key in MapOf(es)
  {
    var loaded, k := Reverse(Kept(es)), es[i].key;
    LookupIndex(loaded, k);
    LookupIndex(es, k);
    LookupMap(loaded, k);
    LookupMap(es, k);
    if Has(loaded, k) {
      var e := Entry(k, Lookup(loaded, k).value);
      LoadedMembers(es, e);
    }
  }

  /** A snapshot of an unbounded store restores its contents if and only if every entry's line is
      short enough for the parser. */
  lemma SnapshotIsFaithfulIffAllFit(es: Entries, clock: nat -> Expiry.Time)
    requires AllStorable(es) && Distinct(es)
    ensures MapOf(Replay(Empty(0), GetLines(Dump(es)), clock).entries) == MapOf(es) <==> AllFit(es)
  {
    DumpReadsBack(es);
    LoadReverses(es, 0, clock);
    if AllFit(es) {
      KeptDistinct(es);
      ReverseDistinct(es);
      forall e ensures e in Reverse(es) <==> e in es { ReverseMembers(es, e); }
      SameMembersSameMap(Reverse(es), es);
    } else {
      var i :| 0 <= i < |es| && !Fits(es[i]);
      LostEntryIsMissing(es, i);
    }
  }

  lemma LineStepOfDump(m: Contents, e: Entry)
    requires Storable(e)
    ensures LineStep(m, SnapshotLine(e)) == if Fits(e) then m[e.key := e.value] else m
  {
    ParseSnapshotLine(e);
  }

  lemma SetTwice(k: string, first: string, second: string)
    requires Storable(Entry(k, first)) && Fits(Entry(k, first))
    requires Storable(Entry(k, second)) && Fits(Entry(k, second))
    ensures LineStep(LineStep(map[], DumpLine(Entry(k, first))), DumpLine(Entry(k, second))) == map[k := second]
  {
    LineStepOfDump(map[], Entry(k, first));
    LineStepOfDump(map[k := first], Entry(k, second));
  }

  lemma KeptOneMore(init: Entries, last: Entry)
    requires Distinct(init + [last])
    ensures Kept(init + [last]) == if Fits(last) then Kept(init) + [last] else Kept(init)
    ensures MapOf(Kept(init + [last]))
            == if Fits(last) then MapOf(Kept(init))[last.key := last.value] else MapOf(Kept(init))
  {
    var es := init + [last];
    assert es[..|es| - 1] == init && es[|es| - 1] == last;
    KeptDistinct(es);
    if Fits(last) { MapOfAppend(Kept(init), last); } else { assert Kept(init) + [] == Kept(init); }
  }

  lemma DumpOneMore(m: Contents, init: Entries, last: Entry)
    requires Storable(last) && Distinct(init + [last])
    ensures LineStep(m + MapOf(Kept(init)), SnapshotLine(last)) == m + MapOf(Kept(init + [last]))
  {
    LineStepOfDump(m + MapOf(Kept(init)), last);
    KeptOneMore(init, last);
    UpdateOver(m, MapOf(Kept(init)), last.key, last.value);
  }

  lemma UpdateOver(m: Contents, over: Contents, k: string, v: string)
    ensures (m + over)[k := v] == m + over[k := v]
  {
  }

  lemma FoldDumpStep(m: Contents, init: Entries, last: Entry)
    requires AllStorable(init + [last])
    ensures Storable(last) && AllStorable(init)
    ensures Fold(m, DumpLines(init + [last])) == LineStep(Fold(m, DumpLines(init)), SnapshotLine(last))
  {
    var es := init + [last];
    assert es[|init|] == last && forall i :: 0 <= i < |init| ==> es[i] == init[i];
    assert DumpLines(es) == DumpLines(init) + [DumpLine(last)];
    FoldOne(m, DumpLines(init), DumpLine(last));
  }

  /** A dump played into any contents overwrites the dumped keys whose lines fit and leaves the others. */
  lemma {:induction false} FoldDump(m: Contents, es: Entries)
    requires AllStorable(es) && Distinct(es)
    ensures Fold(m, DumpLines(es)) == m + MapOf(Kept(es))
  {
    if es == [] {
      assert m + map[] == m;
    } else {
      var init, last := es[..|es| - 1], es[|es| - 1];
      assert es == init + [last];
      FoldDump(m, init);
      FoldDumpStep(m, init, last);
      DumpOneMore(m, init, last);
    }
  }

  /** A snapshot whose lines all fit amounts to the contents it was taken of. */
  lemma SnapshotIsWhole(es: Entries)
    requires AllStorable(es) && Distinct(es) && AllFit(es)
    ensures Fold(map[], GetLines(Dump(es))) == MapOf(es)
  {
    DumpReadsBack(es);
    FoldDump(map[], es);
    KeptDistinct(es);
    OverNothing(MapOf(es));
  }

  lemma OverNothing(m: Contents)
    ensures map[] + m == m
  {
  }

  lemma {:induction false} MapOfAppend(es: Entries, e: Entry)
    requires Distinct(es + [e])
    ensures MapOf(es + [e]) == MapOf(es)[e.key := e.value]
  {
    if es != [] {
      var rest := es[1..];
      assert (es + [e])[1..] == rest + [e];
      assert es[0].key != e.key by { assert (es + [e])[0].key != (es + [e])[|es|].key; }
      MapOfAppend(rest, e);
    } else {
      assert ([e])[1..] == [];
    }
  }
}
