/** Text as the server sees it: a string is a sequence of bytes, one `char` per byte.
    Tokens, the token printer, numbers as decimal text, and files as '\n'-separated lines. */
module Text {

  datatype Option<+T> = None | Some(value: T)

  // ---------------------------------------------------------------- tokens

  /** `isspace` in the "C" locale, the separator set of `istream >> string`. */
  predicate IsSpace(c: char) {
    c == ' ' || c == '\t' || c == '\n' || c == '\r' || c == '\U{0B}' || c == '\U{0C}'
  }

  /** What a stream extraction can produce: non-empty and free of whitespace. */
  predicate IsToken(s: string) {
    s != "" && forall i :: 0 <= i < |s| ==> !IsSpace(s[i])
  }

  predicate AllTokens(ts: seq<string>) {
    forall i :: 0 <= i < |ts| ==> IsToken(ts[i])
  }

  /** Length of the longest whitespace-free prefix. */
  function TokenEnd(s: string): (n: nat)
    ensures n <= |s|
    ensures forall i :: 0 <= i < n ==> !IsSpace(s[i])
    ensures n < |s| ==> IsSpace(s[n])
  {
    if s == "" || IsSpace(s[0]) then 0 else 1 + TokenEnd(s[1..])
  }

  function Tokenize(line: string): (ts: seq<string>)
    ensures AllTokens(ts)
    decreases |line|
  {
    if line == "" then []
    else if IsSpace(line[0]) then Tokenize(line[1..])
    else
      var n := TokenEnd(line);
      [line[..n]] + Tokenize(line[n..])
  }

  /** Tokens printed with single spaces between them. */
  function Join(ts: seq<string>): string {
    if ts == [] then ""
    else if |ts| == 1 then ts[0]
    else ts[0] + " " + Join(ts[1..])
  }

  lemma JoinPair(a: string, b: string)
    ensures Join([a, b]) == a + " " + b
  {
    assert [a, b][1..] == [b];
  }

  /** The separators by their codes: horizontal tab to carriage return, and the blank. */
  lemma SpaceCodes(c: char)
    ensures IsSpace(c) <==> 9 <= c as int <= 13 || c as int == 32
  {
  }

  lemma TokenEndUnique(s: string, n: nat)
    requires n <= |s|
    requires forall i :: 0 <= i < n ==> !IsSpace(s[i])
    requires n < |s| ==> IsSpace(s[n])
    ensures TokenEnd(s) == n
  {
  }

  lemma TokenizeToken(t: string)
    requires IsToken(t)
    ensures Tokenize(t) == [t]
  {
    TokenizeHead(t, "");
    assert t + "" == t;
  }

  /** A token that is followed by whitespace or by the end of the line is split off whole. */
  lemma TokenizeHead(t: string, rest: string)
    requires IsToken(t)
    requires rest != "" ==> IsSpace(rest[0])
    ensures Tokenize(t + rest) == [t] + Tokenize(rest)
  {
    var s := t + rest;
    assert !IsSpace(s[0]);
    TokenEndUnique(s, |t|);
    assert s[..|t|] == t && s[|t|..] == rest;
  }

  /** Any whitespace byte is a full separator: tokenising distributes over it. Together with
      `TokenizeToken` and the empty line this determines `Tokenize` on every line. */
  lemma {:induction false} TokenizeSeparated(a: string, c: char, b: string)
    requires IsSpace(c)
    ensures Tokenize(a + [c] + b) == Tokenize(a) + Tokenize(b)
    decreases |a|
  {
    if a == "" {
      assert (a + [c] + b)[1..] == b;
    } else if IsSpace(a[0]) {
      TokenizeSeparated(a[1..], c, b);
      assert (a + [c] + b)[1..] == a[1..] + [c] + b;
    } else {
      var n := TokenEnd(a);
      var t, rest := a[..n], a[n..] + [c] + b;
      TokenizeSeparated(a[n..], c, b);
      TokenizeHead(t, rest);
      assert a + [c] + b == t + rest;
      assert Tokenize(a) == [t] + Tokenize(a[n..]);
    }
  }

  /** Printing tokens and reading them back is the identity. */
  lemma {:induction false} TokenizeJoin(ts: seq<string>)
    requires AllTokens(ts)
    ensures Tokenize(Join(ts)) == ts
    decreases |ts|
  {
    if |ts| == 1 {
      TokenizeToken(ts[0]);
    } else if |ts| > 1 {
      TokenizeToken(ts[0]);
      TokenizeJoin(ts[1..]);
      assert Join(ts) == ts[0] + [' '] + Join(ts[1..]);
      TokenizeSeparated(ts[0], ' ', Join(ts[1..]));
    }
  }

  /** The printed form is the shortest one: no line with these tokens is shorter. */
  lemma {:induction false} JoinShortest(line: string)
    ensures |Join(Tokenize(line))| <= |line|
    decreases |line|
  {
    if line == "" {
    } else if IsSpace(line[0]) {
      JoinShortest(line[1..]);
    } else {
      var n := TokenEnd(line);
      var rest := line[n..];
      JoinShortest(rest);
      var ts := Tokenize(line);
      assert ts[0] == line[..n] && ts[1..] == Tokenize(rest);
      if ts[1..] != [] {
        JoinShortest(rest[1..]);
      }
    }
  }

  // ---------------------------------------------------------------- letter case

  function Upper(c: char): char {
    if 'a' <= c <= 'z' then (c as int - 32) as char else c
  }

  function Lower(c: char): char {
    if 'A' <= c <= 'Z' then (c as int + 32) as char else c
  }

  function ToUpper(s: string): (r: string)
    ensures |r| == |s|
  {
    seq(|s|, i requires 0 <= i < |s| => Upper(s[i]))
  }

  predicate EqualsIgnoreCase(a: string, b: string) {
    |a| == |b| && forall i :: 0 <= i < |a| ==> Lower(a[i]) == Lower(b[i])
  }

  /** Both ways of ignoring case agree: lowering both sides and raising both sides. */
  lemma IgnoringCase(a: string, b: string)
    ensures EqualsIgnoreCase(a, b) <==> ToUpper(a) == ToUpper(b)
  {
    if |a| == |b| {
      forall i | 0 <= i < |a| ensures Lower(a[i]) == Lower(b[i]) <==> ToUpper(a)[i] == ToUpper(b)[i] {
        CaseOf(a[i], b[i]);
      }
      if EqualsIgnoreCase(a, b) { assert ToUpper(a) == ToUpper(b); }
    }
  }

  lemma CaseOf(c: char, d: char)
    ensures Lower(c) == Lower(d) <==> Upper(c) == Upper(d)
  {
  }

  /** The word is this one with each letter in either case. */
  predicate Spells(word: string, upper: string, lower: string)
    requires |upper| == |lower|
  {
    |word| == |upper| && forall i :: 0 <= i < |word| ==> word[i] == upper[i] || word[i] == lower[i]
  }

  /** The two strings are the same letters, capital and small. */
  predicate Cases(upper: string, lower: string) {
    |upper| == |lower| && forall i :: 0 <= i < |upper| ==>
      'A' <= upper[i] <= 'Z' && lower[i] as int == upper[i] as int + 32
  }

  lemma CaseOfLetter(c: char, upper: char, lower: char)
    requires 'A' <= upper <= 'Z' && lower as int == upper as int + 32
    ensures Upper(c) == upper <==> c == upper || c == lower
    ensures Lower(c) == Lower(upper) <==> c == upper || c == lower
  {
  }

  /** Both ways of ignoring case, on the letters. */
  lemma SpelledIff(word: string, upper: string, lower: string)
    requires Cases(upper, lower)
    ensures ToUpper(word) == upper <==> Spells(word, upper, lower)
    ensures EqualsIgnoreCase(word, upper) <==> Spells(word, upper, lower)
  {
    if |word| == |upper| {
      forall i | 0 <= i < |word|
        ensures ToUpper(word)[i] == upper[i] <==> word[i] == upper[i] || word[i] == lower[i]
        ensures Lower(word[i]) == Lower(upper[i]) <==> word[i] == upper[i] || word[i] == lower[i]
      {
        CaseOfLetter(word[i], upper[i], lower[i]);
      }
      if Spells(word, upper, lower) { assert ToUpper(word) == upper; }
    }
  }

  // ---------------------------------------------------------------- lines

  /** A line holds no newline; this is what the line reader hands out. */
  predicate NoNewline(s: string) { forall i :: 0 <= i < |s| ==> s[i] != '\n' }

  type Line = s: string | NoNewline(s) witness ""

  /** Index of the first newline, or |s|. */
  function NewlineAt(s: string): (n: nat)
    ensures n <= |s|
    ensures forall i :: 0 <= i < n ==> s[i] != '\n'
    ensures n < |s| ==> s[n] == '\n'
  {
    if s == "" || s[0] == '\n' then 0 else 1 + NewlineAt(s[1..])
  }

  lemma NewlineAtUnique(s: string, n: nat)
    requires n <= |s|
    requires forall i :: 0 <= i < n ==> s[i] != '\n'
    requires n < |s| ==> s[n] == '\n'
    ensures NewlineAt(s) == n
  {
  }

  /** The lines `std::getline` yields: the terminated ones and a non-empty unterminated tail. */
  function GetLines(text: string): (ls: seq<Line>)
    decreases |text|
  {
    if text == "" then []
    else
      var n := NewlineAt(text);
      if n == |text| then [text] else [text[..n]] + GetLines(text[n + 1..])
  }

  /** Lines written one after another, each followed by '\n'. */
  function Unlines(ls: seq<Line>): string {
    if ls == [] then "" else ls[0] + "\n" + Unlines(ls[1..])
  }

  /** Every line in the text is terminated. */
  predicate Terminated(text: string) { text == "" || text[|text| - 1] == '\n' }

  lemma GetLinesCons(l: Line, rest: string)
    ensures GetLines(l + "\n" + rest) == [l] + GetLines(rest)
  {
    var s := l + "\n" + rest;
    NewlineAtUnique(s, |l|);
    assert s[..|l|] == l && s[|l| + 1..] == rest;
  }

  lemma {:induction false} GetLinesUnlines(ls: seq<Line>)
    ensures GetLines(Unlines(ls)) == ls && Terminated(Unlines(ls))
    decreases |ls|
  {
    if ls != [] {
      GetLinesUnlines(ls[1..]);
      GetLinesCons(ls[0], Unlines(ls[1..]));
      assert ls == [ls[0]] + ls[1..];
      assert Terminated(ls[0] + "\n" + Unlines(ls[1..]));
    }
  }

  /** A non-empty file of whole lines is its first line and a file of whole lines. */
  lemma SplitFirstLine(text: string) returns (head: Line, rest: string)
    requires text != "" && Terminated(text)
    ensures text == head + "\n" + rest && Terminated(rest)
  {
    var n := NewlineAt(text);
    assert text[|text| - 1] == '\n';
    head, rest := text[..n], text[n + 1..];
  }

  /** Appending one record to a file of whole lines adds exactly one line. */
  lemma {:induction false} GetLinesAppend(text: string, l: Line)
    requires Terminated(text)
    ensures GetLines(text + (l + "\n")) == GetLines(text) + [l]
    decreases |text|
  {
    var record := l + "\n";
    if text == "" {
      assert text + record == l + "\n" + "";
      GetLinesCons(l, "");
    } else {
      var head, rest := SplitFirstLine(text);
      calc {
        GetLines(text + record);
        { assert text + record == head + "\n" + (rest + record); }
        GetLines(head + "\n" + (rest + record));
        { GetLinesCons(head, rest + record); }
        [head] + GetLines(rest + record);
        { GetLinesAppend(rest, l); }
        [head] + (GetLines(rest) + [l]);
        ([head] + GetLines(rest)) + [l];
        { GetLinesCons(head, rest); }
        GetLines(text) + [l];
      }
    }
  }
}
