/** Lines over a byte stream that the network may cut anywhere: the buffered line reader and the
    retrying writer. */
module Framing {
  import opened Text

  const MAX_BUFFERED: nat := 8192
  const CHUNK_SIZE: nat := 4096

  /** One `recv` delivers between 1 and 4096 bytes; after the last chunk the peer has closed. */
  predicate ValidChunks(chunks: seq<string>) {
    forall i :: 0 <= i < |chunks| ==> 1 <= |chunks[i]| <= CHUNK_SIZE
  }

  function Concat(chunks: seq<string>): string {
    if chunks == [] then "" else chunks[0] + Concat(chunks[1..])
  }

  /** The ways the network may cut a stream. */
  predicate IsCut(chunks: seq<string>, stream: string) { ValidChunks(chunks) && Concat(chunks) == stream }

  /** One trailing carriage return is dropped. */
  function Strip(s: string): string {
    if s != "" && s[|s| - 1] == '\r' then s[..|s| - 1] else s
  }

  // ---------------------------------------------------------------- the reader

  /** A line, or the connection given up; either way what is left in the buffer and on the wire. */
  datatype ReadResult =
    | GotLine(line: string, buffer: string, chunks: seq<string>)
    | Closed(buffer: string, chunks: seq<string>)

  function ReadLine(buffer: string, chunks: seq<string>): ReadResult
    decreases |chunks|
  {
    var n := NewlineAt(buffer);
    if n < |buffer| then GotLine(Strip(buffer[..n]), buffer[n + 1..], chunks)
    else if |buffer| > MAX_BUFFERED then Closed(buffer, chunks)
    else if chunks == [] then Closed(buffer, chunks)
    else ReadLine(buffer + chunks[0], chunks[1..])
  }

  /** Reading never invents or drops bytes, and a line costs at least its newline. */
  lemma {:induction false} ReadLineShrinks(buffer: string, chunks: seq<string>)
    ensures var r := ReadLine(buffer, chunks);
            r.GotLine? ==> |r.buffer| + |Concat(r.chunks)| < |buffer| + |Concat(chunks)|
    decreases |chunks|
  {
    var n := NewlineAt(buffer);
    if n == |buffer| && |buffer| <= MAX_BUFFERED && chunks != [] {
      ReadLineShrinks(buffer + chunks[0], chunks[1..]);
    }
  }

  /** All lines successive calls return until one of them fails. */
  function ReadAll(buffer: string, chunks: seq<string>): seq<string>
    decreases |buffer| + |Concat(chunks)|
  {
    ReadLineShrinks(buffer, chunks);
    match ReadLine(buffer, chunks)
    case GotLine(line, b, c) => [line] + ReadAll(b, c)
    case Closed(_, _) => []
  }

  /** The buffer never grows past one full line and one chunk, on any input. */
  lemma {:induction false} BufferIsBounded(buffer: string, chunks: seq<string>)
    requires ValidChunks(chunks) && |buffer| <= MAX_BUFFERED + CHUNK_SIZE
    ensures |ReadLine(buffer, chunks).buffer| <= MAX_BUFFERED + CHUNK_SIZE
    decreases |chunks|
  {
    if NewlineAt(buffer) == |buffer| && |buffer| <= MAX_BUFFERED && chunks != [] {
      assert 1 <= |chunks[0]| <= CHUNK_SIZE;
      assert ValidChunks(chunks[1..]);
      BufferIsBounded(buffer + chunks[0], chunks[1..]);
    }
  }

  // ---------------------------------------------------------------- the specification

  /** The newline-terminated segments of a byte stream, stripped; an unterminated tail is no line. */
  function Lines(stream: string): seq<string>
    decreases |stream|
  {
    var n := NewlineAt(stream);
    if n == |stream| then [] else [Strip(stream[..n])] + Lines(stream[n + 1..])
  }

  predicate SegmentsFit(stream: string)
    decreases |stream|
  {
    var n := NewlineAt(stream);
    n == |stream| || (n <= MAX_BUFFERED && SegmentsFit(stream[n + 1..]))
  }

  lemma NewlineAtPrefix(a: string, b: string)
    ensures NewlineAt(a) < |a| ==> NewlineAt(a + b) == NewlineAt(a)
    ensures NewlineAt(a) == |a| ==> NewlineAt(a + b) == |a| + NewlineAt(b)
  {
    var n := if NewlineAt(a) < |a| then NewlineAt(a) else |a| + NewlineAt(b);
    assert forall i :: 0 <= i < n ==> (a + b)[i] == if i < |a| then a[i] else b[i - |a|];
    NewlineAtUnique(a + b, n);
  }

  /** One call returns the first segment of the remaining stream, or fails; it cannot fail if that
      segment is short enough, however the stream is cut, and must fail if there is none. */
  lemma {:induction false} ReadLineIsFirstSegment(buffer: string, chunks: seq<string>)
    ensures var s := buffer + Concat(chunks);
            var n := NewlineAt(s);
            var r := ReadLine(buffer, chunks);
            && (r.GotLine? ==> n < |s| && r.line == Strip(s[..n]) && r.buffer + Concat(r.chunks) == s[n + 1..])
            && (n < |s| && n <= MAX_BUFFERED ==> r.GotLine?)
    decreases |chunks|
  {
    NewlineAtPrefix(buffer, Concat(chunks));
    var n := NewlineAt(buffer);
    if n < |buffer| {
      var s := buffer + Concat(chunks);
      assert s[..n] == buffer[..n] && s[n + 1..] == buffer[n + 1..] + Concat(chunks);
    } else if chunks == [] {
      assert buffer + "" == buffer;
    } else if |buffer| <= MAX_BUFFERED {
      assert buffer + Concat(chunks) == buffer + chunks[0] + Concat(chunks[1..]);
      ReadLineIsFirstSegment(buffer + chunks[0], chunks[1..]);
    }
  }

  lemma FreshReadIsFirstSegment(chunks: seq<string>, s: string)
    requires Concat(chunks) == s && ReadLine("", chunks).GotLine?
    ensures var n, r := NewlineAt(s), ReadLine("", chunks);
            n < |s| && r.line == Strip(s[..n]) && r.buffer + Concat(r.chunks) == s[n + 1..]
  {
    ReadLineIsFirstSegment("", chunks);
    assert "" + s == s;
  }

  lemma ReadAllStep(buffer: string, chunks: seq<string>, s: string) returns (b: string, c: seq<string>)
    requires s == buffer + Concat(chunks) && NewlineAt(s) < |s| && NewlineAt(s) <= MAX_BUFFERED
    ensures b + Concat(c) == s[NewlineAt(s) + 1..]
    ensures ReadAll(buffer, chunks) == [Strip(s[..NewlineAt(s)])] + ReadAll(b, c)
  {
    ReadLineIsFirstSegment(buffer, chunks);
    var r := ReadLine(buffer, chunks);
    b, c := r.buffer, r.chunks;
  }

  lemma ReadAllEnds(buffer: string, chunks: seq<string>, s: string)
    requires s == buffer + Concat(chunks) && NewlineAt(s) == |s|
    ensures ReadAll(buffer, chunks) == []
  {
    ReadLineIsFirstSegment(buffer, chunks);
  }

  /** Framing is independent of chunking: if the segments are short enough, the lines read are
      exactly the segments, for every cut of the stream. The tail may be as long as it likes. */
  lemma {:induction false} ChunkingDoesNotMatter(buffer: string, chunks: seq<string>)
    requires SegmentsFit(buffer + Concat(chunks))
    ensures ReadAll(buffer, chunks) == Lines(buffer + Concat(chunks))
    decreases |buffer| + |Concat(chunks)|
  {
    var s := buffer + Concat(chunks);
    if NewlineAt(s) < |s| {
      var b, c := ReadAllStep(buffer, chunks, s);
      assert |b| + |Concat(c)| == |b + Concat(c)| < |s|;
      ChunkingDoesNotMatter(b, c);
    } else {
      ReadAllEnds(buffer, chunks, s);
    }
  }

  // ---------------------------------------------------------------- the condition is exact

  /** The slowest network: one byte at a time. */
  function Bytewise(s: string): (chunks: seq<string>)
    ensures ValidChunks(chunks) && |chunks| == |s|
  {
    seq(|s|, i requires 0 <= i < |s| => [s[i]])
  }

  lemma BytewiseStep(s: string)
    requires s != ""
    ensures Bytewise(s)[0] == s[..1] && Bytewise(s)[1..] == Bytewise(s[1..])
  {
  }

  lemma {:induction false} ConcatBytewise(s: string)
    ensures Concat(Bytewise(s)) == s
  {
    if s != "" {
      BytewiseStep(s);
      ConcatBytewise(s[1..]);
    }
  }

  lemma ConcatCons(chunk: string, more: seq<string>)
    ensures Concat([chunk] + more) == chunk + Concat(more)
  {
    assert ([chunk] + more)[1..] == more;
  }

  lemma {:induction false} ConcatAppend(a: seq<string>, b: seq<string>)
    ensures Concat(a + b) == Concat(a) + Concat(b)
  {
    if a == [] {
      assert a + b == b;
    } else {
      var head, tail := a[0], a[1..];
      calc {
        Concat(a + b);
        { assert a + b == [head] + (tail + b); }
        Concat([head] + (tail + b));
        { ConcatCons(head, tail + b); }
        head + Concat(tail + b);
        { ConcatAppend(tail, b); }
        head + (Concat(tail) + Concat(b));
        (head + Concat(tail)) + Concat(b);
      }
    }
  }

  /** Byte by byte, a segment that is short enough is read with nothing left over. */
  lemma {:induction false} ReadBytewise(buffer: Line, segment: Line, more: seq<string>)
    requires |buffer| + |segment| <= MAX_BUFFERED
    ensures ReadLine(buffer, Bytewise(segment + "\n") + more) == GotLine(Strip(buffer + segment), "", more)
    decreases |segment|
  {
    var bytes := segment + "\n";
    var chunks := Bytewise(bytes) + more;
    BytewiseStep(bytes);
    assert chunks[1..] == Bytewise(bytes[1..]) + more;
    NewlineAtUnique(buffer, |buffer|);
    var grown := buffer + bytes[..1];
    if segment == "" {
      NewlineAtUnique(grown, |buffer|);
      assert grown[..|buffer|] == buffer + segment && grown[|buffer| + 1..] == "";
      assert chunks[1..] == more;
    } else {
      assert bytes[1..] == segment[1..] + "\n" && grown + segment[1..] == buffer + segment;
      ReadBytewise(grown, segment[1..], more);
    }
  }

  /** Byte by byte, a segment that is too long closes the connection. */
  lemma {:induction false} LongBytewiseCloses(buffer: Line, rest: string)
    requires |buffer| <= MAX_BUFFERED + 1 && |buffer| + NewlineAt(rest) > MAX_BUFFERED
    ensures ReadLine(buffer, Bytewise(rest)).Closed?
    decreases |rest|
  {
    NewlineAtUnique(buffer, |buffer|);
    if |buffer| <= MAX_BUFFERED {
      BytewiseStep(rest);
      LongBytewiseCloses(buffer + rest[..1], rest[1..]);
    }
  }

  /** The longest segment, without its newline, that can be read at all: the reader must be willing to
      receive once more, and the newline must be in what it then gets. */
  const MAX_READ: nat := 12287

  /** A segment longer than that is not read however the stream is cut. */
  lemma {:induction false} TooLongIsNeverRead(buffer: string, chunks: seq<string>)
    requires ValidChunks(chunks) && |buffer| <= MAX_BUFFERED + CHUNK_SIZE
    requires NewlineAt(buffer + Concat(chunks)) > MAX_READ
    ensures ReadLine(buffer, chunks).Closed?
    decreases |chunks|
  {
    NewlineAtPrefix(buffer, Concat(chunks));
    if |buffer| <= MAX_BUFFERED && chunks != [] {
      assert 1 <= |chunks[0]| <= CHUNK_SIZE && ValidChunks(chunks[1..]);
      assert buffer + Concat(chunks) == buffer + chunks[0] + Concat(chunks[1..]);
      TooLongIsNeverRead(buffer + chunks[0], chunks[1..]);
    }
  }

  lemma ReadMore(buffer: Line, chunk: string, more: seq<string>)
    requires |buffer| <= MAX_BUFFERED
    ensures ReadLine(buffer, [chunk] + more) == ReadLine(buffer + chunk, more)
  {
    NewlineAtUnique(buffer, |buffer|);
    assert ([chunk] + more)[1..] == more;
  }

  /** Length of the first three chunks of a stream when all of them are as full as they can be. */
  function ThreeChunks(s: string): nat {
    if |s| <= MAX_BUFFERED + CHUNK_SIZE then |s| else MAX_BUFFERED + CHUNK_SIZE
  }

  /** The luckiest cut for a segment over the limit: two full chunks, which the reader still accepts as
      the beginning of a line, then a third one that brings the newline. */
  function LuckyCut(s: string): seq<string>
    requires |s| > MAX_BUFFERED
  {
    var n := ThreeChunks(s);
    [s[..CHUNK_SIZE]] + ([s[CHUNK_SIZE..MAX_BUFFERED]] + ([s[MAX_BUFFERED..n]] + Bytewise(s[n..])))
  }

  lemma LuckyCutIsCut(s: string)
    requires |s| > MAX_BUFFERED
    ensures IsCut(LuckyCut(s), s)
  {
    var n := ThreeChunks(s);
    var a, b, c, d := s[..CHUNK_SIZE], s[CHUNK_SIZE..MAX_BUFFERED], s[MAX_BUFFERED..n], s[n..];
    ConcatBytewise(d);
    ConcatCons(c, Bytewise(d));
    ConcatCons(b, [c] + Bytewise(d));
    ConcatCons(a, [b] + ([c] + Bytewise(d)));
    assert a + (b + (c + d)) == s;
  }

  lemma ReadInThree(a: string, b: string, c: string, more: seq<string>)
    requires NoNewline(a + b) && |a + b| <= MAX_BUFFERED && NewlineAt(a + b + c) < |a + b + c|
    ensures ReadLine("", [a] + ([b] + ([c] + more))).GotLine?
  {
    forall i | 0 <= i < |a| ensures a[i] != '\n' { assert a[i] == (a + b)[i]; }
    ReadMore("", a, [b] + ([c] + more));
    assert "" + a == a;
    ReadMore(a, b, [c] + more);
    ReadMore(a + b, c, more);
  }

  /** The newline of a stream is in every prefix that is long enough, and in no shorter one. */
  lemma NewlineInPrefix(s: string, n: nat)
    requires n <= |s|
    ensures n <= NewlineAt(s) ==> NoNewline(s[..n])
    ensures n > NewlineAt(s) ==> NewlineAt(s[..n]) == NewlineAt(s)
  {
    if n > NewlineAt(s) { NewlineAtUnique(s[..n], NewlineAt(s)); }
  }

  lemma SplitInThree(s: string, i: nat, j: nat, n: nat)
    requires i <= j <= n <= |s|
    ensures s[..i] + s[i..j] == s[..j] && s[..i] + s[i..j] + s[j..n] == s[..n]
  {
  }

  lemma LuckyCutIsRead(s: string)
    requires MAX_BUFFERED < NewlineAt(s) <= MAX_READ && NewlineAt(s) < |s|
    ensures ReadLine("", LuckyCut(s)).GotLine?
  {
    var n := ThreeChunks(s);
    SplitInThree(s, CHUNK_SIZE, MAX_BUFFERED, n);
    NewlineInPrefix(s, MAX_BUFFERED);
    NewlineInPrefix(s, n);
    ReadInThree(s[..CHUNK_SIZE], s[CHUNK_SIZE..MAX_BUFFERED], s[MAX_BUFFERED..n], Bytewise(s[n..]));
  }

  /** What happens to the first segment of a stream, by its length `n`. It is read under every cut if and
      only if n is at most 8192, and under some cut if and only if n is at most 12287. So "over 8192
      bytes the connection is closed" is true under every cut exactly from 12288 bytes on. */
  lemma FirstSegmentIsReadIff(s: string)
    requires NewlineAt(s) < |s|
    ensures (forall chunks | IsCut(chunks, s) :: ReadLine("", chunks).GotLine?) <==> NewlineAt(s) <= MAX_BUFFERED
    ensures (exists chunks | IsCut(chunks, s) :: ReadLine("", chunks).GotLine?) <==> NewlineAt(s) <= MAX_READ
    ensures (forall chunks | IsCut(chunks, s) :: ReadLine("", chunks).Closed?) <==> NewlineAt(s) > MAX_READ
    ensures forall chunks | IsCut(chunks, s) && ReadLine("", chunks).GotLine? ::
              ReadLine("", chunks).line == Strip(s[..NewlineAt(s)])
  {
    SlowCutOfLongSegment(s);
    if MAX_BUFFERED < NewlineAt(s) <= MAX_READ { LuckyCutIsCut(s); LuckyCutIsRead(s); }
    forall chunks | IsCut(chunks, s)
      ensures NewlineAt(s) <= MAX_BUFFERED ==> ReadLine("", chunks).GotLine?
      ensures NewlineAt(s) > MAX_READ ==> ReadLine("", chunks).Closed?
      ensures ReadLine("", chunks).GotLine? ==> ReadLine("", chunks).line == Strip(s[..NewlineAt(s)])
    {
      AnyCutOfSegment(chunks, s);
    }
  }

  lemma SlowCutOfLongSegment(s: string)
    ensures IsCut(Bytewise(s), s)
    ensures NewlineAt(s) > MAX_BUFFERED ==> ReadLine("", Bytewise(s)).Closed?
  {
    ConcatBytewise(s);
    if NewlineAt(s) > MAX_BUFFERED { LongBytewiseCloses("", s); }
  }

  lemma AnyCutOfSegment(chunks: seq<string>, s: string)
    requires IsCut(chunks, s) && NewlineAt(s) < |s|
    ensures NewlineAt(s) <= MAX_BUFFERED ==> ReadLine("", chunks).GotLine?
    ensures NewlineAt(s) > MAX_READ ==> ReadLine("", chunks).Closed?
    ensures ReadLine("", chunks).GotLine? ==> ReadLine("", chunks).line == Strip(s[..NewlineAt(s)])
  {
    assert "" + Concat(chunks) == s;
    ReadLineIsFirstSegment("", chunks);
    if NewlineAt(s) > MAX_READ { TooLongIsNeverRead("", chunks); }
  }

  lemma LongSegmentMayBeRead(s: string) returns (lucky: seq<string>, slow: seq<string>)
    requires MAX_BUFFERED < NewlineAt(s) <= MAX_READ && NewlineAt(s) < |s|
    ensures IsCut(lucky, s) && IsCut(slow, s)
    ensures var r := ReadLine("", lucky);
            r.GotLine? && r.line == Strip(s[..NewlineAt(s)]) && r.buffer + Concat(r.chunks) == s[NewlineAt(s) + 1..]
    ensures ReadLine("", slow).Closed?
  {
    FirstSegmentIsReadIff(s);
    lucky :| IsCut(lucky, s) && ReadLine("", lucky).GotLine?;
    slow :| IsCut(slow, s) && !ReadLine("", slow).GotLine?;
    FreshReadIsFirstSegment(lucky, s);
  }

  lemma FirstSegmentOf(line: Line, rest: string)
    ensures var s := line + "\n" + rest;
            NewlineAt(s) == |line| < |s| && s[..|line|] == line && s[|line| + 1..] == rest
  {
    NewlineAtUnique(line + "\n" + rest, |line|);
  }

  /** A line of 8193 to 12287 bytes can be cut so that it is read and what follows it is still there, and so
      that it closes the connection. */
  lemma LongLineMayBeRead(line: Line, rest: string) returns (lucky: seq<string>, slow: seq<string>)
    requires MAX_BUFFERED < |line| <= MAX_READ
    ensures IsCut(lucky, line + "\n" + rest) && IsCut(slow, line + "\n" + rest)
    ensures var r := ReadLine("", lucky);
            r.GotLine? && r.line == Strip(line) && r.buffer + Concat(r.chunks) == rest
    ensures ReadLine("", slow).Closed?
  {
    FirstSegmentOf(line, rest);
    lucky, slow := LongSegmentMayBeRead(line + "\n" + rest);
  }

  lemma BytewiseThen(a: string, more: seq<string>, b: string)
    requires IsCut(more, b)
    ensures IsCut(Bytewise(a) + more, a + b)
  {
    ConcatBytewise(a);
    ConcatAppend(Bytewise(a), more);
  }

  /** A stream whose first segment is short, cut byte by byte up to its end and then as given. */
  lemma FirstSegmentBytewise(stream: string, more: seq<string>)
    requires NewlineAt(stream) < |stream| && NewlineAt(stream) <= MAX_BUFFERED
    requires IsCut(more, stream[NewlineAt(stream) + 1..])
    ensures var chunks := Bytewise(stream[..NewlineAt(stream) + 1]) + more;
            IsCut(chunks, stream) && ReadAll("", chunks) == [Strip(stream[..NewlineAt(stream)])] + ReadAll("", more)
  {
    var n := NewlineAt(stream);
    var segment: Line := stream[..n];
    BytewiseThen(stream[..n + 1], more, stream[n + 1..]);
    assert stream[..n + 1] + stream[n + 1..] == stream;
    assert stream[..n + 1] == segment + "\n";
    ReadBytewise("", segment, more);
    assert "" + segment == segment;
  }

  /** The slowest network reads exactly the segments before the first one that is too long. */
  function ShortPrefix(stream: string): seq<string>
    decreases |stream|
  {
    var n := NewlineAt(stream);
    if n == |stream| || n > MAX_BUFFERED then [] else [Strip(stream[..n])] + ShortPrefix(stream[n + 1..])
  }

  lemma {:induction false} SlowCut(stream: string) returns (chunks: seq<string>)
    ensures IsCut(chunks, stream) && ReadAll("", chunks) == ShortPrefix(stream)
    decreases |stream|
  {
    var n := NewlineAt(stream);
    if n < |stream| && n <= MAX_BUFFERED {
      var more := SlowCut(stream[n + 1..]);
      FirstSegmentBytewise(stream, more);
      chunks := Bytewise(stream[..n + 1]) + more;
    } else {
      chunks := Bytewise(stream);
      ConcatBytewise(stream);
      assert "" + Concat(chunks) == stream;
      if n > MAX_BUFFERED { LongBytewiseCloses("", stream); } else { ReadLineIsFirstSegment("", chunks); }
    }
  }

  /** No segment of between 8193 and 12287 bytes comes first among those over the limit. */
  predicate Decided(stream: string)
    decreases |stream|
  {
    var n := NewlineAt(stream);
    n == |stream| || n > MAX_READ || (n <= MAX_BUFFERED && Decided(stream[n + 1..]))
  }

  lemma {:induction false} DecidedReadsShortPrefix(buffer: string, chunks: seq<string>)
    requires ValidChunks(chunks) && |buffer| <= MAX_BUFFERED + CHUNK_SIZE && Decided(buffer + Concat(chunks))
    ensures ReadAll(buffer, chunks) == ShortPrefix(buffer + Concat(chunks))
    decreases |buffer| + |Concat(chunks)|
  {
    var s := buffer + Concat(chunks);
    var n := NewlineAt(s);
    ReadLineIsFirstSegment(buffer, chunks);
    if n > MAX_READ {
      TooLongIsNeverRead(buffer, chunks);
    } else if n < |s| {
      var r := ReadLine(buffer, chunks);
      BufferIsBounded(buffer, chunks);
      ChunksStayValid(buffer, chunks);
      DecidedReadsShortPrefix(r.buffer, r.chunks);
    }
  }

  lemma {:induction false} ChunksStayValid(buffer: string, chunks: seq<string>)
    requires ValidChunks(chunks)
    ensures ValidChunks(ReadLine(buffer, chunks).chunks)
    decreases |chunks|
  {
    if NewlineAt(buffer) == |buffer| && |buffer| <= MAX_BUFFERED && chunks != [] {
      ChunksStayValid(buffer + chunks[0], chunks[1..]);
    }
  }

  lemma {:induction false} UndecidedCanReadMore(stream: string) returns (chunks: seq<string>)
    requires !Decided(stream)
    ensures IsCut(chunks, stream) && |ReadAll("", chunks)| > |ShortPrefix(stream)|
    decreases |stream|
  {
    var n := NewlineAt(stream);
    if n <= MAX_BUFFERED {
      var more := UndecidedCanReadMore(stream[n + 1..]);
      FirstSegmentBytewise(stream, more);
      chunks := Bytewise(stream[..n + 1]) + more;
    } else {
      chunks := LuckyCut(stream);
      LuckyCutIsCut(stream);
      LuckyCutIsRead(stream);
    }
  }

  /** What is read does not depend on the cut, if and only if the stream is decided; it is then the
      segments before the first one over the limit. */
  lemma CutDoesNotMatterIff(stream: string)
    ensures (forall a, b | IsCut(a, stream) && IsCut(b, stream) :: ReadAll("", a) == ReadAll("", b))
            <==> Decided(stream)
    ensures Decided(stream) ==> forall a | IsCut(a, stream) :: ReadAll("", a) == ShortPrefix(stream)
  {
    if Decided(stream) {
      forall a | IsCut(a, stream) ensures ReadAll("", a) == ShortPrefix(stream) {
        assert "" + Concat(a) == stream;
        DecidedReadsShortPrefix("", a);
      }
    } else {
      var a := SlowCut(stream);
      var b := UndecidedCanReadMore(stream);
      assert IsCut(a, stream) && IsCut(b, stream) && ReadAll("", a) != ReadAll("", b);
    }
  }

  lemma {:induction false} ShortPrefixIsAllIff(stream: string)
    ensures ShortPrefix(stream) == Lines(stream) <==> SegmentsFit(stream)
    decreases |stream|
  {
    var n := NewlineAt(stream);
    if n < |stream| && n <= MAX_BUFFERED {
      ShortPrefixIsAllIff(stream[n + 1..]);
      assert ShortPrefix(stream)[1..] == ShortPrefix(stream[n + 1..]);
      assert Lines(stream)[1..] == Lines(stream[n + 1..]);
    }
  }

  /** A stream is read as its lines whatever way it is cut, if and only if every segment fits. */
  lemma ReadIsReliableIffSegmentsFit(stream: string)
    ensures (forall chunks | IsCut(chunks, stream) :: ReadAll("", chunks) == Lines(stream)) <==> SegmentsFit(stream)
  {
    if SegmentsFit(stream) {
      forall chunks | IsCut(chunks, stream) ensures ReadAll("", chunks) == Lines(stream) {
        assert "" + Concat(chunks) == stream;
        ChunkingDoesNotMatter("", chunks);
      }
    } else {
      var slow := SlowCut(stream);
      ShortPrefixIsAllIff(stream);
      assert IsCut(slow, stream) && ReadAll("", slow) != Lines(stream);
    }
  }

  // ---------------------------------------------------------------- written lines are read back

  lemma LinesCons(l: Line, rest: string)
    ensures Lines(l + "\n" + rest) == [Strip(l)] + Lines(rest)
    ensures SegmentsFit(l + "\n" + rest) <==> |l| <= MAX_BUFFERED && SegmentsFit(rest)
  {
    var s := l + "\n" + rest;
    NewlineAtUnique(s, |l|);
    assert s[..|l|] == l && s[|l| + 1..] == rest;
  }

  predicate AllShort(ls: seq<Line>) { forall i :: 0 <= i < |ls| ==> |ls[i]| <= MAX_BUFFERED }

  lemma AllShortStep(ls: seq<Line>)
    requires ls != []
    ensures AllShort(ls) <==> |ls[0]| <= MAX_BUFFERED && AllShort(ls[1..])
  {
    assert forall i :: 0 < i < |ls| ==> ls[i] == ls[1..][i - 1];
  }

  /** What the writer sends, line by line, is what the reader is meant to get. */
  lemma {:induction false} LinesOfWritten(ls: seq<Line>)
    requires forall i :: 0 <= i < |ls| ==> Strip(ls[i]) == ls[i]
    ensures Lines(Unlines(ls)) == ls
    ensures SegmentsFit(Unlines(ls)) <==> AllShort(ls)
  {
    if ls != [] {
      LinesOfWritten(ls[1..]);
      LinesCons(ls[0], Unlines(ls[1..]));
      assert Unlines(ls) == ls[0] + "\n" + Unlines(ls[1..]);
      assert [Strip(ls[0])] + ls[1..] == ls;
      AllShortStep(ls);
    }
  }

  /** Lines written by one side are the lines read by the other, however they are cut, if and only if
      none of them is over the reader's limit. */
  lemma ConnectionDeliversLinesIff(ls: seq<Line>)
    requires forall i :: 0 <= i < |ls| ==> Strip(ls[i]) == ls[i]
    ensures (forall chunks | IsCut(chunks, Unlines(ls)) :: ReadAll("", chunks) == ls)
            <==> AllShort(ls)
  {
    LinesOfWritten(ls);
    ReadIsReliableIffSegmentsFit(Unlines(ls));
  }

  // ---------------------------------------------------------------- partial sends

  /** The bytes that successive `send` calls would take before the first one that fails. */
  function Taken(outcomes: seq<int>): nat {
    if outcomes == [] || outcomes[0] <= 0 then 0 else outcomes[0] + Taken(outcomes[1..])
  }

  /** What reaches the wire of `data`. */
  function Written(data: string, outcomes: seq<int>): string {
    if Taken(outcomes) >= |data| then data else data[..Taken(outcomes)]
  }

  /** As many calls as there are bytes are enough if each takes at least one. */
  lemma {:induction false} PositiveSendsSuffice(outcomes: seq<int>)
    requires forall i :: 0 <= i < |outcomes| ==> outcomes[i] > 0
    ensures Taken(outcomes) >= |outcomes|
  {
    if outcomes != [] { PositiveSendsSuffice(outcomes[1..]); }
  }

  /** What is on the wire when lines are written one after another until a write fails; `sends[i]` are the
      results of the `send` calls for the i-th line. */
  function Wire(ls: seq<Line>, sends: seq<seq<int>>): string
    requires |ls| == |sends|
  {
    if ls == [] then ""
    else if Taken(sends[0]) > |ls[0]| then ls[0] + "\n" + Wire(ls[1..], sends[1..])
    else Written(ls[0] + "\n", sends[0])
  }

  /** The number of lines that were written in full before the first failure. */
  function FullyWritten(ls: seq<Line>, sends: seq<seq<int>>): (n: nat)
    requires |ls| == |sends|
    ensures n <= |ls|
  {
    if ls == [] || Taken(sends[0]) <= |ls[0]| then 0 else 1 + FullyWritten(ls[1..], sends[1..])
  }

  lemma TailIsNoLine(line: Line, n: nat)
    requires n <= |line|
    ensures Lines((line + "\n")[..n]) == [] && SegmentsFit((line + "\n")[..n])
  {
    var tail := (line + "\n")[..n];
    assert tail == line[..n];
    NewlineAtUnique(tail, n);
  }

  lemma {:induction false} WireLines(ls: seq<Line>, sends: seq<seq<int>>)
    requires |ls| == |sends| && AllShort(ls) && forall i :: 0 <= i < |ls| ==> Strip(ls[i]) == ls[i]
    ensures Lines(Wire(ls, sends)) == ls[..FullyWritten(ls, sends)] && SegmentsFit(Wire(ls, sends))
  {
    if ls != [] {
      if Taken(sends[0]) > |ls[0]| {
        AllShortStep(ls);
        WireLines(ls[1..], sends[1..]);
        LinesCons(ls[0], Wire(ls[1..], sends[1..]));
        assert ls[..FullyWritten(ls, sends)] == [ls[0]] + ls[1..][..FullyWritten(ls[1..], sends[1..])];
      } else {
        TailIsNoLine(ls[0], Taken(sends[0]));
      }
    }
  }

  /** Whatever parts the sends take and wherever they fail, and however the network cuts what was sent, the
      reader gets exactly the lines that were written in full: never a part of one. */
  lemma WrittenLinesAreRead(ls: seq<Line>, sends: seq<seq<int>>, chunks: seq<string>)
    requires |ls| == |sends| && AllShort(ls) && forall i :: 0 <= i < |ls| ==> Strip(ls[i]) == ls[i]
    requires IsCut(chunks, Wire(ls, sends))
    ensures ReadAll("", chunks) == ls[..FullyWritten(ls, sends)]
  {
    WireLines(ls, sends);
    assert "" + Concat(chunks) == Wire(ls, sends);
    ChunkingDoesNotMatter("", chunks);
  }

  /** So under partial sends that never fail, all lines are read. */
  lemma {:induction false} PositiveSendsWriteAll(ls: seq<Line>, sends: seq<seq<int>>)
    requires |ls| == |sends|
    requires forall i :: 0 <= i < |ls| ==> |sends[i]| > |ls[i]| && forall j :: 0 <= j < |sends[i]| ==> sends[i][j] > 0
    ensures FullyWritten(ls, sends) == |ls| && Wire(ls, sends) == Unlines(ls)
  {
    if ls != [] {
      PositiveSendsSuffice(sends[0]);
      PositiveSendsWriteAll(ls[1..], sends[1..]);
    }
  }

  // ---------------------------------------------------------------- the objects

  /** A socket: chunks still to arrive, and the bytes sent so far. */
  class Socket {
    var incoming: seq<string>
    var sent: string

    constructor (incoming: seq<string>)
      ensures this.incoming == incoming && sent == ""
    {
      this.incoming, sent := incoming, "";
    }
  }

  class LineReader {
    var buffer: string

    constructor ()
      ensures buffer == ""
    {
      buffer := "";
    }

    /** The receive loop. None is the `false` return. */
    method ReadNext(socket: Socket) returns (line: Option<string>)
      modifies this, socket`incoming
      ensures var r := ReadLine(old(buffer), old(socket.incoming));
              && buffer == r.buffer && socket.incoming == r.chunks
              && line == if r.GotLine? then Some(r.line) else None
    {
      ghost var result := ReadLine(buffer, socket.incoming);
      while true
        invariant ReadLine(buffer, socket.incoming) == result
        decreases |socket.incoming|
      {
        var n := NewlineAt(buffer);
        if n < |buffer| {
          var text := buffer[..n];
          if text != "" && text[|text| - 1] == '\r' {
            text := text[..|text| - 1];
          }
          buffer := buffer[n + 1..];
          return Some(text);
        }
        if |buffer| > MAX_BUFFERED {
          return None;
        }
        if socket.incoming == [] {
          return None;
        }
        buffer := buffer + socket.incoming[0];
        socket.incoming := socket.incoming[1..];
      }
    }
  }

  /** The send loop: `outcomes` are the results of successive `send` calls. A call may take any positive part
      of what is left; a result that is not positive is an error, and so is running out of outcomes. The
      loop goes on until everything is sent or a call fails, and what is on the wire then is as much as the
      calls before the first failure took. */
  method WriteRaw(socket: Socket, data: string, outcomes: seq<int>) returns (ok: bool)
    modifies socket`sent
    ensures ok <==> Taken(outcomes) >= |data|
    ensures socket.sent == old(socket.sent) + Written(data, outcomes)
  {
    var total, i := 0, 0;
    assert data[..0] == "" && outcomes[0..] == outcomes;
    while total < |data|
      invariant 0 <= total <= |data| && 0 <= i <= |outcomes|
      invariant socket.sent == old(socket.sent) + data[..total]
      invariant if total < |data| then total + Taken(outcomes[i..]) == Taken(outcomes) else Taken(outcomes) >= |data|
      decreases |outcomes| - i
    {
      if i == |outcomes| || outcomes[i] <= 0 {
        assert Taken(outcomes[i..]) == 0;
        return false;
      }
      var count := if outcomes[i] < |data| - total then outcomes[i] else |data| - total;
      assert data[..total] + data[total..total + count] == data[..total + count];
      assert outcomes[i..][1..] == outcomes[i + 1..];
      socket.sent := socket.sent + data[total..total + count];
      total, i := total + count, i + 1;
    }
    assert data[..total] == data;
    return true;
  }

  method WriteLine(socket: Socket, line: Line, outcomes: seq<int>) returns (ok: bool)
    modifies socket`sent
    ensures ok <==> Taken(outcomes) > |line|
    ensures socket.sent == old(socket.sent) + Written(line + "\n", outcomes)
  {
    ok := WriteRaw(socket, line + "\n", outcomes);
  }
}
