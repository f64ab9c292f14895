/** The 64-bit string hash: FNV-1a with a shortened offset basis, then the MurmurHash3 finaliser. */
module Hash {

  const OFFSET_BASIS: bv64 := 1469598103934665603

  /** A small number as a word, bit by bit. */
  function Word(n: nat): bv64 {
    if n == 0 then 0 else Append(Word(n / 2), n % 2 == 1)
  }

  function Append(w: bv64, bit: bool): bv64 { (w << 1) | (if bit then 1 else 0) }

  /** The byte a character stands for. */
  function ByteOf(c: char): bv64 { Word(c as int % 256) }

  // The three odd multipliers and their inverses modulo 2^64.
  function TimesPrime(h: bv64): bv64 { h * 1099511628211 }
  function OverPrime(h: bv64): bv64 { h * 0xce965057aff6957b }
  function TimesFirst(h: bv64): bv64 { h * 0xff51afd7ed558ccd }
  function OverFirst(h: bv64): bv64 { h * 0x4f74430c22a54005 }
  function TimesSecond(h: bv64): bv64 { h * 0xc4ceb9fe1a85ec53 }
  function OverSecond(h: bv64): bv64 { h * 0x9cb4b2f8129337db }

  function Xor(h: bv64, b: bv64): bv64 { h ^ b }

  function Absorb(h: bv64, c: char): bv64 { TimesPrime(Xor(h, ByteOf(c))) }

  function AbsorbAll(h: bv64, s: string): bv64 {
    if s == "" then h else Absorb(AbsorbAll(h, s[..|s| - 1]), s[|s| - 1])
  }

  function Fold33(h: bv64): bv64 { h ^ (h >> 33) }

  function Finalise(h: bv64): bv64 {
    Fold33(TimesSecond(Fold33(TimesFirst(Fold33(h)))))
  }

  function Fnv1a64(s: string): bv64 { Finalise(AbsorbAll(OFFSET_BASIS, s)) }

  const RING_SIZE: int := 0x1_0000_0000_0000_0000

  /** The hash as a position on the ring. */
  function Position(s: string): (p: nat)
    ensures p < RING_SIZE
  {
    Fnv1a64(s) as nat
  }

  /** The accumulator loop of the program. */
  method ComputeFnv1a64(data: string) returns (hash: bv64)
    ensures hash == Fnv1a64(data)
  {
    hash := OFFSET_BASIS;
    for i := 0 to |data|
      invariant hash == AbsorbAll(OFFSET_BASIS, data[..i])
    {
      assert data[..i + 1][..i] == data[..i];
      hash := Xor(hash, ByteOf(data[i]));
      hash := TimesPrime(hash);
    }
    assert data[..|data|] == data;
    hash := Fold33(hash);
    hash := TimesFirst(hash);
    hash := Fold33(hash);
    hash := TimesSecond(hash);
    hash := Fold33(hash);
  }

  // ---------------------------------------------------------------- the finaliser is a bijection

  lemma ShiftTwice(h: bv64)
    ensures (h >> 33) >> 33 == 0
  {
  }

  lemma ShiftXor(h: bv64, g: bv64)
    ensures (h ^ g) >> 33 == (h >> 33) ^ (g >> 33)
  {
  }

  lemma XorXor(h: bv64, g: bv64)
    ensures (h ^ g) ^ g == h
  {
  }

  lemma Fold33Involutive(h: bv64)
    ensures Fold33(Fold33(h)) == h
  {
    ShiftTwice(h);
    ShiftXor(h, h >> 33);
    XorXor(h, h >> 33);
    assert (h >> 33) ^ 0 == h >> 33;
  }

  lemma PrimeRaw(h: bv64)
    ensures OverPrime(h * 1099511628211) == h
    ensures TimesPrime(h * 0xce965057aff6957b) == h
  {
  }

  lemma UndoPrime(h: bv64)
    ensures OverPrime(TimesPrime(h)) == h && TimesPrime(OverPrime(h)) == h
  {
    PrimeRaw(h);
  }

  lemma FirstRaw(h: bv64)
    ensures OverFirst(h * 0xff51afd7ed558ccd) == h
    ensures TimesFirst(h * 0x4f74430c22a54005) == h
  {
  }

  lemma UndoFirst(h: bv64)
    ensures OverFirst(TimesFirst(h)) == h && TimesFirst(OverFirst(h)) == h
  {
    FirstRaw(h);
  }

  lemma SecondRaw(h: bv64)
    ensures OverSecond(h * 0xc4ceb9fe1a85ec53) == h
    ensures TimesSecond(h * 0x9cb4b2f8129337db) == h
  {
  }

  lemma UndoSecond(h: bv64)
    ensures OverSecond(TimesSecond(h)) == h && TimesSecond(OverSecond(h)) == h
  {
    SecondRaw(h);
  }

  /** The finaliser run backwards. */
  function Unfinalise(h: bv64): bv64 {
    Fold33(OverFirst(Fold33(OverSecond(Fold33(h)))))
  }

  /** The finaliser permutes the 64-bit words: it has a left inverse ... */
  lemma UnfinaliseFinalise(h: bv64)
    ensures Unfinalise(Finalise(h)) == h
  {
    var a := Fold33(h);
    var b := Fold33(TimesFirst(a));
    Fold33Involutive(TimesSecond(b));
    UndoSecond(b);
    Fold33Involutive(TimesFirst(a));
    UndoFirst(a);
    Fold33Involutive(h);
  }

  /** ... which is also its right inverse. */
  lemma FinaliseUnfinalise(h: bv64)
    ensures Finalise(Unfinalise(h)) == h
  {
    var a := Fold33(h);
    var b := Fold33(OverSecond(a));
    Fold33Involutive(OverFirst(b));
    UndoFirst(b);
    Fold33Involutive(OverSecond(a));
    UndoSecond(a);
    Fold33Involutive(h);
  }

  // ---------------------------------------------------------------- absorbing bytes

  lemma TimesPrimeInjective(x: bv64, y: bv64)
    requires TimesPrime(x) == TimesPrime(y)
    ensures x == y
  {
    UndoPrime(x);
    UndoPrime(y);
  }

  lemma XorCancels(h: bv64, g: bv64, b: bv64)
    ensures Xor(h, b) == Xor(g, b) ==> h == g
    ensures Xor(b, h) == Xor(b, g) ==> h == g
  {
  }

  /** For a fixed byte the accumulator step loses nothing. */
  lemma AbsorbInjective(h: bv64, g: bv64, c: char)
    requires Absorb(h, c) == Absorb(g, c)
    ensures h == g
  {
    var b := ByteOf(c);
    TimesPrimeInjective(Xor(h, b), Xor(g, b));
    XorCancels(h, g, b);
  }

  lemma AppendFacts(v: bv64, w: bv64, a: bool, b: bool)
    requires v <= 0xff && w <= 0xff
    ensures Append(v, a) == Append(w, b) ==> v == w && a == b
  {
  }

  lemma AppendBound(v: bv64, a: bool)
    ensures v <= 0 ==> Append(v, a) <= 1
    ensures v <= 1 ==> Append(v, a) <= 3
    ensures v <= 3 ==> Append(v, a) <= 7
    ensures v <= 7 ==> Append(v, a) <= 15
    ensures v <= 15 ==> Append(v, a) <= 31
    ensures v <= 31 ==> Append(v, a) <= 63
    ensures v <= 63 ==> Append(v, a) <= 127
    ensures v <= 127 ==> Append(v, a) <= 255
  {
  }

  lemma {:induction false} WordBound(n: nat)
    requires n < 256
    ensures n < 1 ==> Word(n) <= 0
    ensures n < 2 ==> Word(n) <= 1
    ensures n < 4 ==> Word(n) <= 3
    ensures n < 8 ==> Word(n) <= 7
    ensures n < 16 ==> Word(n) <= 15
    ensures n < 32 ==> Word(n) <= 31
    ensures n < 64 ==> Word(n) <= 63
    ensures n < 128 ==> Word(n) <= 127
    ensures Word(n) <= 255
  {
    if n > 0 {
      WordBound(n / 2);
      AppendBound(Word(n / 2), n % 2 == 1);
    }
  }

  lemma {:induction false} WordZero(n: nat)
    requires n < 256 && Word(n) == 0
    ensures n == 0
  {
    if n > 0 {
      WordBound(n / 2);
      assert Append(0, false) == 0;
      AppendFacts(Word(n / 2), 0, n % 2 == 1, false);
      WordZero(n / 2);
    }
  }

  lemma {:induction false} WordInjective(m: nat, n: nat)
    requires m < 256 && n < 256 && Word(m) == Word(n)
    ensures m == n
    decreases m
  {
    if m == 0 {
      WordZero(n);
    } else if n == 0 {
      WordZero(m);
    } else {
      WordBound(m / 2);
      WordBound(n / 2);
      AppendFacts(Word(m / 2), Word(n / 2), m % 2 == 1, n % 2 == 1);
      WordInjective(m / 2, n / 2);
    }
  }

  lemma ByteInjective(c: char, d: char)
    requires c as int < 256 && d as int < 256 && ByteOf(c) == ByteOf(d)
    ensures c == d
  {
    var m, n := c as int, d as int;
    assert Word(m) == Word(n);
    WordInjective(m, n);
  }

  /** From a fixed accumulator, different bytes lead to different accumulators. */
  lemma AbsorbSeparatesBytes(h: bv64, c: char, d: char)
    requires c as int < 256 && d as int < 256 && Absorb(h, c) == Absorb(h, d)
    ensures c == d
  {
    TimesPrimeInjective(Xor(h, ByteOf(c)), Xor(h, ByteOf(d)));
    XorCancels(ByteOf(c), ByteOf(d), h);
    ByteInjective(c, d);
  }

  lemma {:induction false} AbsorbAllAppend(h: bv64, s: string, t: string)
    ensures AbsorbAll(h, s + t) == AbsorbAll(AbsorbAll(h, s), t)
    decreases |t|
  {
    if t == "" {
      assert s + t == s;
    } else {
      AbsorbAllAppend(h, s, t[..|t| - 1]);
      assert (s + t)[..|s + t| - 1] == s + t[..|t| - 1];
    }
  }

  lemma {:induction false} AbsorbAllInjective(h: bv64, g: bv64, t: string)
    requires AbsorbAll(h, t) == AbsorbAll(g, t)
    ensures h == g
    decreases |t|
  {
    if t != "" {
      var init := t[..|t| - 1];
      AbsorbInjective(AbsorbAll(h, init), AbsorbAll(g, init), t[|t| - 1]);
      AbsorbAllInjective(h, g, init);
    }
  }

  lemma WordRoundTrip(a: bv64)
    ensures (a as int) as bv64 == a
  {
  }

  lemma PositionInjective(s: string, t: string)
    requires Position(s) == Position(t)
    ensures AbsorbAll(OFFSET_BASIS, s) == AbsorbAll(OFFSET_BASIS, t)
  {
    WordRoundTrip(Fnv1a64(s));
    WordRoundTrip(Fnv1a64(t));
    UnfinaliseFinalise(AbsorbAll(OFFSET_BASIS, s));
    UnfinaliseFinalise(AbsorbAll(OFFSET_BASIS, t));
  }

  lemma AbsorbAllMiddle(h: bv64, pre: string, c: char, post: string)
    ensures AbsorbAll(h, pre + [c] + post) == AbsorbAll(Absorb(AbsorbAll(h, pre), c), post)
  {
    AbsorbAllAppend(h, pre + [c], post);
    AbsorbAllAppend(h, pre, [c]);
    assert [c][..0] == "";
  }

  /** Two strings, of any length, that differ in exactly one byte never collide. */
  lemma OneByteChangeNeverCollides(pre: string, c: char, d: char, post: string)
    requires c as int < 256 && d as int < 256 && c != d
    ensures Position(pre + [c] + post) != Position(pre + [d] + post)
  {
    if Position(pre + [c] + post) == Position(pre + [d] + post) {
      var h := AbsorbAll(OFFSET_BASIS, pre);
      PositionInjective(pre + [c] + post, pre + [d] + post);
      AbsorbAllMiddle(OFFSET_BASIS, pre, c, post);
      AbsorbAllMiddle(OFFSET_BASIS, pre, d, post);
      AbsorbAllInjective(Absorb(h, c), Absorb(h, d), post);
      AbsorbSeparatesBytes(h, c, d);
      assert false;
    }
  }

  // ---------------------------------------------------------------- known digests

  /** The word of a byte, bit by bit from the low end: the inverse of how it is built. */
  lemma WordHalves(n: nat)
    requires n < 256
    ensures Word(n) >> 1 == Word(n / 2)
    ensures Word(n) & 1 == if n % 2 == 1 then 1 else 0
  {
    WordBound(n / 2);
    if n > 0 { AppendHalves(Word(n / 2), n % 2 == 1); }
  }

  lemma AppendHalves(w: bv64, bit: bool)
    requires w <= 127
    ensures Append(w, bit) >> 1 == w && Append(w, bit) & 1 == if bit then 1 else 0
  {
  }

  /** The bytes of the characters used below. */
  lemma SomeBytes()
    ensures ByteOf('#') == 35
    ensures ByteOf('0') == 48
    ensures ByteOf('a') == 97
    ensures ByteOf('d') == 100
    ensures ByteOf('e') == 101
    ensures ByteOf('h') == 104
    ensures ByteOf('k') == 107
    ensures ByteOf('r') == 114
    ensures ByteOf('s') == 115
    ensures ByteOf('y') == 121
  {
    assert Word(1) == 1;
    assert Word(2) == 2;
    assert Word(4) == 4;
    assert Word(8) == 8;
    assert Word(17) == 17;
    assert Word(35) == 35;
    assert Word(3) == 3;
    assert Word(6) == 6;
    assert Word(12) == 12;
    assert Word(24) == 24;
    assert Word(48) == 48;
    assert Word(97) == 97;
    assert Word(25) == 25;
    assert Word(50) == 50;
    assert Word(100) == 100;
    assert Word(101) == 101;
    assert Word(13) == 13;
    assert Word(26) == 26;
    assert Word(52) == 52;
    assert Word(104) == 104;
    assert Word(53) == 53;
    assert Word(107) == 107;
    assert Word(7) == 7;
    assert Word(14) == 14;
    assert Word(28) == 28;
    assert Word(57) == 57;
    assert Word(114) == 114;
    assert Word(115) == 115;
    assert Word(15) == 15;
    assert Word(30) == 30;
    assert Word(60) == 60;
    assert Word(121) == 121;
  }

  /** One step of the accumulator, spelled out. */
  lemma Step(h: bv64, s: string, c: char, b: bv64, next: bv64)
    requires AbsorbAll(OFFSET_BASIS, s) == h && ByteOf(c) == b && TimesPrime(Xor(h, b)) == next
    ensures AbsorbAll(OFFSET_BASIS, s + [c]) == next
  {
    assert (s + [c])[..|s|] == s;
  }

  lemma DigestOfEmpty()
    ensures Fnv1a64("") == 0xd725c98e9509182e
  {
  }

  /** One byte. */
  lemma DigestOfLetter()
    ensures Fnv1a64("a") == 0x43a941547f0150e5
  {
    SomeBytes();
    Step(0x14650fb0739d0383, "", 'a', 97, 0x44bd8ad473cd9906);
    assert "" + ['a'] == "a";
  }

  /** A key. */
  lemma DigestOfKey()
    ensures Fnv1a64("key0") == 0x66ac71cdc586e1d0
  {
    SomeBytes();
    Step(0x14650fb0739d0383, "", 'k', 107, 0x44bd90d473cda338);
    assert "" + ['k'] == "k";
    Step(0x44bd90d473cda338, "k", 'e', 101, 0x9bc07600c66c9707);
    assert "k" + ['e'] == "ke";
    Step(0x9bc07600c66c9707, "ke", 'y', 121, 0x14a001512a856b1a);
    assert "ke" + ['y'] == "key";
    Step(0x14a001512a856b1a, "key", '0', 48, 0x914d66eb40b5185e);
    assert "key" + ['0'] == "key0";
  }

  /** The first virtual node of the first shard. */
  lemma DigestOfVirtualNode()
    ensures Fnv1a64("shard0#0") == 0x03ecd2fc3f6932c7
  {
    SomeBytes();
    Step(0x14650fb0739d0383, "", 's', 115, 0x44bd98d473cdb0d0);
    assert "" + ['s'] == "s";
    Step(0x44bd98d473cdb0d0, "s", 'h', 104, 0x9bdb6900c68348a8);
    assert "s" + ['h'] == "sh";
    Step(0x9bdb6900c68348a8, "sh", 'a', 97, 0x591c35515114ad8b);
    assert "sh" + ['a'] == "sha";
    Step(0x591c35515114ad8b, "sha", 'r', 114, 0x7f9c922cc6239e1b);
    assert "sha" + ['r'] == "shar";
    Step(0x7f9c922cc6239e1b, "shar", 'd', 100, 0xfaaae114ae8651cd);
    assert "shar" + ['d'] == "shard";
    Step(0xfaaae114ae8651cd, "shard", '0', 48, 0x76ae73248e3d50e7);
    assert "shard" + ['0'] == "shard0";
    Step(0x76ae73248e3d50e7, "shard0", '#', 35, 0xe7be6b1db2303d0c);
    assert "shard0" + ['#'] == "shard0#";
    Step(0xe7be6b1db2303d0c, "shard0#", '0', 48, 0xf8cd3f75c7f80cf4);
    assert "shard0#" + ['0'] == "shard0#0";
  }

  /** The hash of known strings: these fix the offset basis, the prime, the bytes and the finishing steps. */
  lemma KnownDigests()
    ensures Fnv1a64("") == 0xd725c98e9509182e && Fnv1a64("a") == 0x43a941547f0150e5
    ensures Fnv1a64("key0") == 0x66ac71cdc586e1d0 && Fnv1a64("shard0#0") == 0x03ecd2fc3f6932c7
  {
    DigestOfEmpty();
    DigestOfLetter();
    DigestOfKey();
    DigestOfVirtualNode();
  }
}
