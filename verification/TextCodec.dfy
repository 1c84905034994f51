/**
  The text primitives on both sides of the posture file: Python's str and join, and the C library's
  atoi, strtoul, strtok_r and fgets, on strings without the terminating NUL.
 */
module TextCodec {

  // ----- numbers

  function Digit(d: nat): char
    requires d < 10
  {
    '0' + (d as char)
  }

  predicate IsDigit(c: char) {
    '0' <= c <= '9'
  }

  function DigitValue(c: char): nat
    requires IsDigit(c)
  {
    (c - '0') as nat
  }

  function NatStr(n: nat): (s: string)
    ensures |s| >= 1 && forall i :: 0 <= i < |s| ==> IsDigit(s[i])
  {
    if n < 10 then [Digit(n)] else NatStr(n / 10) + [Digit(n % 10)]
  }

  /** str(n) */
  function IntStr(n: int): string {
    if n < 0 then "-" + NatStr(-n) else NatStr(n)
  }

  /** Number of leading digits. */
  function DigitsLen(s: string): (k: nat)
    ensures k <= |s|
    ensures forall i :: 0 <= i < k ==> IsDigit(s[i])
    ensures k < |s| ==> !IsDigit(s[k])
  {
    if s == [] || !IsDigit(s[0]) then 0 else 1 + DigitsLen(s[1..])
  }

  function DigitsValue(s: string): nat
    requires forall i :: 0 <= i < |s| ==> IsDigit(s[i])
  {
    if s == [] then 0 else DigitsValue(s[..|s| - 1]) * 10 + DigitValue(s[|s| - 1])
  }

  predicate IsSpace(c: char) {
    c in {' ', '\t', '\n', '\r', '\U{0B}', '\U{0C}'}
  }

  /** White space, an optional sign, digits: what strtol and strtoul read. */
  function ReadInt(s: string): int {
    if s != [] && IsSpace(s[0]) then ReadInt(s[1..])
    else if s != [] && s[0] == '-' then 0 - DigitsValue(s[1..][..DigitsLen(s[1..])])
    else if s != [] && s[0] == '+' then DigitsValue(s[1..][..DigitsLen(s[1..])])
    else DigitsValue(s[..DigitsLen(s)])
  }

  const LONG_MAX := 0x7FFF_FFFF_FFFF_FFFF
  const ULONG_MAX := 0xFFFF_FFFF_FFFF_FFFF

  function Clamp(x: int, lo: int, hi: int): int {
    if x < lo then lo else if x > hi then hi else x
  }

  /** Conversion to a 32-bit int. */
  function ToInt32(x: int): (r: int)
    ensures -0x8000_0000 <= r <= 0x7FFF_FFFF && (x - r) % 0x1_0000_0000 == 0
    ensures -0x8000_0000 <= x <= 0x7FFF_FFFF ==> r == x
  {
    (x + 0x8000_0000) % 0x1_0000_0000 - 0x8000_0000
  }

  /** strtol saturates; the result is converted to int. */
  function LongToInt(x: int): (r: int)
    ensures -0x8000_0000 <= r <= 0x7FFF_FFFF
    ensures r == x <==> -0x8000_0000 <= x <= 0x7FFF_FFFF
  {
    ToInt32(Clamp(x, -LONG_MAX - 1, LONG_MAX))
  }

  function Atoi(s: string): (r: int)
    ensures -0x8000_0000 <= r <= 0x7FFF_FFFF
  {
    LongToInt(ReadInt(s))
  }

  /** strtoul, which saturates and negates modulo 2^64, converted to uint16_t. */
  function StrtoulToU16(s: string): (r: nat)
    ensures r <= 0xFFFF
  {
    var x := ReadInt(s);
    (if x > ULONG_MAX || x < -ULONG_MAX then ULONG_MAX else x) % 0x1_0000
  }

  lemma {:induction false} DigitsLenAll(s: string)
    requires forall i :: 0 <= i < |s| ==> IsDigit(s[i])
    ensures DigitsLen(s) == |s|
  {
    if s != [] {
      DigitsLenAll(s[1..]);
    }
  }

  lemma {:induction false} DigitsValueOfStr(n: nat)
    ensures DigitsValue(NatStr(n)) == n
  {
    if n >= 10 {
      DigitsValueOfStr(n / 10);
      assert (NatStr(n / 10) + [Digit(n % 10)])[..|NatStr(n / 10)|] == NatStr(n / 10);
      assert DigitValue(Digit(n % 10)) == n % 10;
    } else {
      assert [Digit(n)][..0] == [];
    }
  }

  /** Reading a printed number gives it back, of any size. */
  lemma ReadIntOfStr(n: int)
    ensures ReadInt(IntStr(n)) == n
  {
    var m := if n < 0 then -n else n;
    DigitsValueOfStr(m);
    DigitsLenAll(NatStr(m));
    assert NatStr(m)[..|NatStr(m)|] == NatStr(m);
    assert IsDigit(NatStr(m)[0]);
    if n < 0 {
      assert IntStr(n)[1..] == NatStr(m);
    }
  }

  /** atoi gives a printed number back exactly if it is a 32-bit int. */
  lemma AtoiOfStr(n: int)
    ensures Atoi(IntStr(n)) == LongToInt(n)
    ensures Atoi(IntStr(n)) == n <==> -0x8000_0000 <= n <= 0x7FFF_FFFF
  {
    ReadIntOfStr(n);
  }

  /** As an RNTI, a printed number below 2^64 comes back modulo 2^16. */
  lemma StrtoulOfStr(n: nat)
    requires n <= ULONG_MAX
    ensures StrtoulToU16(IntStr(n)) == n % 0x1_0000
  {
    ReadIntOfStr(n);
  }

  /** What is read of a number in other forms: leading white space and a sign are passed over, and reading stops
      at what is no digit. */
  lemma ReadIntForms(n: nat, space: char, rest: string)
    requires space == ' ' || space == '\t' || space == '\n' || space == '\r'
    requires rest == "" || !IsDigit(rest[0])
    ensures var t := NatStr(n) + rest;
            ReadInt(t) == ReadInt([space] + t) == ReadInt(['+'] + t) == n && ReadInt(['-'] + t) == 0 - n
  {
    var t := NatStr(n) + rest;
    DigitsRead(n, rest);
    ReadDigits(t);
    ReadPrefixed('+', t);
    ReadPrefixed('-', t);
    ReadPrefixed(space, t);
    assert IsSpace(space);
    hide *;
  }

  lemma ReadDigits(t: string)
    requires t != "" && IsDigit(t[0])
    ensures ReadInt(t) == DigitsValue(t[..DigitsLen(t)])
  {
  }

  lemma ReadPrefixed(c: char, t: string)
    ensures IsSpace(c) ==> ReadInt([c] + t) == ReadInt(t)
    ensures c == '+' ==> ReadInt([c] + t) == DigitsValue(t[..DigitsLen(t)])
    ensures c == '-' ==> ReadInt([c] + t) == 0 - DigitsValue(t[..DigitsLen(t)])
  {
    assert ([c] + t)[1..] == t;
    hide DigitsLen, DigitsValue;
  }

  lemma DigitsRead(n: nat, rest: string)
    requires rest == "" || !IsDigit(rest[0])
    ensures var t := NatStr(n) + rest; t != "" && IsDigit(t[0]) && DigitsValue(t[..DigitsLen(t)]) == n
  {
    DigitsValueOfStr(n);
    DigitsLenUpTo(NatStr(n), rest);
    assert (NatStr(n) + rest)[..|NatStr(n)|] == NatStr(n);
  }

  lemma {:induction false} DigitsLenUpTo(d: string, rest: string)
    requires (forall i :: 0 <= i < |d| ==> IsDigit(d[i])) && (rest == "" || !IsDigit(rest[0]))
    ensures DigitsLen(d + rest) == |d|
  {
    if d == [] {
      assert d + rest == rest;
    } else {
      assert (d + rest)[1..] == d[1..] + rest;
      DigitsLenUpTo(d[1..], rest);
    }
  }

  /** Beyond 64 bits strtol and strtoul answer their largest value; what is left of that is -1 as an int and
      65535 as an RNTI. */
  lemma Saturated(n: nat)
    ensures n >= LONG_MAX ==> LongToInt(n) == -1 && LongToInt(0 - n - 1) == 0
    ensures n > ULONG_MAX ==> StrtoulToU16(IntStr(n)) == 65535
  {
    ReadIntOfStr(n);
    hide IntStr, ReadInt;
  }

  function Pow10(k: nat): nat {
    if k == 0 then 1 else 10 * Pow10(k - 1)
  }

  lemma {:induction false} NatStrLength(n: nat, k: nat)
    requires k >= 1 && n < Pow10(k)
    ensures |NatStr(n)| <= k
  {
    if n >= 10 {
      NatStrLength(n / 10, k - 1);
    }
  }

  // ----- tokens

  predicate IsDelim(c: char) {
    c == ' ' || c == '\t' || c == '\r' || c == '\n'
  }

  /** Text without separators. */
  predicate Plain(s: string) {
    forall i :: 0 <= i < |s| ==> !IsDelim(s[i])
  }

  function TokenLen(s: string): (k: nat)
    ensures k <= |s| && Plain(s[..k])
    ensures k < |s| ==> IsDelim(s[k])
  {
    if s == [] || IsDelim(s[0]) then 0
    else
      assert s[..1 + TokenLen(s[1..])] == [s[0]] + s[1..][..TokenLen(s[1..])];
      1 + TokenLen(s[1..])
  }

  /** The tokens that repeated calls of strtok_r find. */
  function Tokens(s: string): seq<string> {
    if s == [] then []
    else if IsDelim(s[0]) then Tokens(s[1..])
    else [s[..TokenLen(s)]] + Tokens(s[TokenLen(s)..])
  }

  /** sep.join(parts) */
  function Join(sep: string, parts: seq<string>): string {
    if parts == [] then "" else if |parts| == 1 then parts[0] else parts[0] + sep + Join(sep, parts[1..])
  }

  ghost predicate AllTokens(parts: seq<string>) {
    forall i :: 0 <= i < |parts| ==> parts[i] != "" && Plain(parts[i])
  }

  lemma {:induction false} TokenLenOf(a: string, rest: string)
    requires Plain(a) && (rest != [] ==> IsDelim(rest[0]))
    ensures TokenLen(a + rest) == |a|
  {
    if a == [] {
      assert a + rest == rest;
    } else {
      assert (a + rest)[1..] == a[1..] + rest;
      TokenLenOf(a[1..], rest);
    }
  }

  lemma TokensFirst(a: string, rest: string)
    requires a != "" && Plain(a) && rest != [] && IsDelim(rest[0])
    ensures Tokens(a + rest) == [a] + Tokens(rest[1..])
  {
    TokenLenOf(a, rest);
    assert (a + rest)[..|a|] == a && (a + rest)[|a|..] == rest;
    assert !IsDelim(a[0]);
  }

  /** Any of the four delimiters ends a token, and those before one are passed over. */
  lemma TokensAt(a: string, d: char, rest: string)
    requires d == ' ' || d == '\t' || d == '\r' || d == '\n'
    requires a != "" && forall i :: 0 <= i < |a| ==> a[i] != ' ' && a[i] != '\t' && a[i] != '\r' && a[i] != '\n'
    ensures Tokens(a + ([d] + rest)) == [a] + Tokens(rest)
    ensures Tokens([d] + rest) == Tokens(rest)
  {
    TokensFirst(a, [d] + rest);
    assert ([d] + rest)[1..] == rest;
    hide TokenLen;
  }

  lemma TokensLast(a: string)
    requires a != "" && Plain(a)
    ensures Tokens(a + "\n") == [a]
  {
    TokensFirst(a, "\n");
    hide TokenLen;
    assert Tokens("\n"[1..]) == [];
  }

  /** Splitting a printed line gives its parts back. */
  lemma {:induction false} TokensOfLine(parts: seq<string>)
    requires AllTokens(parts)
    ensures Tokens(Join(" ", parts) + "\n") == parts
  {
    hide Tokens, Join, Plain, TokenLen;
    if |parts| <= 1 {
      TokensOfShortLine(parts);
    } else {
      JoinLine(parts);
      var tail := Join(" ", parts[1..]) + "\n";
      TokensFirst(parts[0], " " + tail);
      assert (" " + tail)[1..] == tail;
      TokensOfLine(parts[1..]);
      assert parts == [parts[0]] + parts[1..];
    }
  }

  lemma TokensOfShortLine(parts: seq<string>)
    requires AllTokens(parts) && |parts| <= 1
    ensures Tokens(Join(" ", parts) + "\n") == parts
  {
    if parts == [] {
      assert ("" + "\n")[1..] == "";
    } else {
      TokensLast(parts[0]);
    }
  }

  lemma JoinLine(parts: seq<string>)
    requires |parts| > 1
    ensures Join(" ", parts) + "\n" == parts[0] + (" " + (Join(" ", parts[1..]) + "\n"))
  {
  }

  // ----- lines

  /** The buffers of both readers hold 512 characters, so fgets reads 511 at most. */
  const LINE_MAX := 511

  function ChunkLen(s: string, max: nat): (k: nat)
    ensures k <= |s| && k <= max && (s != [] && max > 0 ==> k > 0)
  {
    if s == [] || max == 0 then 0 else if s[0] == '\n' then 1 else 1 + ChunkLen(s[1..], max - 1)
  }

  /** The pieces that repeated calls of fgets read. */
  function Chunks(s: string): seq<string> {
    if s == [] then [] else [s[..ChunkLen(s, LINE_MAX)]] + Chunks(s[ChunkLen(s, LINE_MAX)..])
  }

  lemma {:induction false} ChunkLenOf(line: string, rest: string, max: nat)
    requires '\n' !in line && |line| < max
    ensures ChunkLen(line + "\n" + rest, max) == |line| + 1
  {
    if line != [] {
      assert (line + "\n" + rest)[1..] == line[1..] + "\n" + rest;
      ChunkLenOf(line[1..], rest, max - 1);
    }
  }

  /** A text of the given lines, each ended by a newline. */
  function Lines(lines: seq<string>): string {
    if lines == [] then "" else lines[0] + "\n" + Lines(lines[1..])
  }

  /** No chunk is longer than 511 characters; one ends after a newline or at that length. */
  lemma ChunkMeans(s: string)
    requires s != ""
    ensures var k := ChunkLen(s, 511);
            && Chunks(s) == [s[..k]] + Chunks(s[k..]) && 0 < k <= |s| && k <= 511
            && '\n' !in s[..k - 1] && (k == |s| || k == 511 || s[k - 1] == '\n')
  {
    ChunkLenMeans(s, 511);
  }

  lemma {:induction false} ChunkLenMeans(s: string, max: nat)
    requires s != "" && max > 0
    ensures var k := ChunkLen(s, max);
            && 0 < k <= |s| && k <= max && '\n' !in s[..k - 1] && (k == |s| || k == max || s[k - 1] == '\n')
  {
    if s[0] != '\n' && |s| > 1 && max > 1 {
      ChunkLenMeans(s[1..], max - 1);
    }
  }

  lemma {:induction false} JoinIsLines(lines: seq<string>)
    requires lines != []
    ensures Join("\n", lines) + "\n" == Lines(lines)
  {
    if |lines| == 1 {
      assert lines[1..] == [];
    } else {
      JoinIsLines(lines[1..]);
    }
  }

  ghost predicate FitLines(lines: seq<string>) {
    forall i :: 0 <= i < |lines| ==> '\n' !in lines[i] && |lines[i]| < LINE_MAX
  }

  ghost function Ended(lines: seq<string>): seq<string> {
    seq(|lines|, i requires 0 <= i < |lines| => lines[i] + "\n")
  }

  /** fgets reads back exactly the lines written, if they fit its buffer. */
  lemma {:induction false} ChunksOfLines(lines: seq<string>)
    requires FitLines(lines)
    ensures Chunks(Lines(lines)) == Ended(lines)
  {
    if lines != [] {
      var text, rest := Lines(lines), Lines(lines[1..]);
      ChunkLenOf(lines[0], rest, LINE_MAX);
      assert text[..|lines[0]| + 1] == lines[0] + "\n" && text[|lines[0]| + 1..] == rest;
      ChunksOfLines(lines[1..]);
      assert Ended(lines) == [lines[0] + "\n"] + Ended(lines[1..]);
    }
  }
}
