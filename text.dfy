/**
 * The parts of Python's `str` behaviour that the backend relies on: whitespace,
 * `strip`, `join`, `lower`, character classes, `endswith` and the decimal
 * rendering of integers in f-strings.
 */
module Text {

  /** Python's `str.isspace`, which is also what `strip()` and the regex `\s` treat as whitespace. */
  predicate IsSpace(c: char) {
    var n := c as int;
    (9 <= n <= 13) || (28 <= n <= 32) || n == 0x85 || n == 0xA0 || n == 0x1680 ||
    (0x2000 <= n <= 0x200A) || n == 0x2028 || n == 0x2029 || n == 0x202F || n == 0x205F || n == 0x3000
  }

  predicate IsAsciiUpper(c: char) { 'A' <= c <= 'Z' }

  predicate IsAsciiLower(c: char) { 'a' <= c <= 'z' }

  predicate IsDigit(c: char) { '0' <= c <= '9' }

  predicate IsAscii(c: char) { c as int < 128 }

  /**
   * `str.isalnum` for one character: exact on ASCII; any other character counts
   * as alphanumeric unless it is whitespace (so Arabic letters are kept).
   */
  predicate IsAlnum(c: char) {
    IsAsciiUpper(c) || IsAsciiLower(c) || IsDigit(c) || (!IsAscii(c) && !IsSpace(c))
  }

  /** The regex class `\w`: alphanumerics and the underscore. */
  predicate IsWordChar(c: char) { IsAlnum(c) || c == '_' }

  /** `str.lower` for one character (ASCII case mapping; other characters are unchanged). */
  function LowerChar(c: char): (d: char)
    ensures IsAsciiUpper(c) ==> IsAsciiLower(d) && d as int == c as int + 32
    ensures !IsAsciiUpper(c) ==> d == c
  {
    if IsAsciiUpper(c) then (c as int + 32) as char else c
  }

  /** `str.lower`, character by character. */
  function Lower(s: string): (r: string)
    ensures |r| == |s|
    ensures forall i :: 0 <= i < |s| ==> r[i] == LowerChar(s[i])
    decreases |s|
  {
    if s == [] then [] else [LowerChar(s[0])] + Lower(s[1..])
  }

  /** `str.endswith`. */
  predicate EndsWith(s: string, suffix: string) {
    |suffix| <= |s| && s[|s| - |suffix|..] == suffix
  }

  /** Drops the leading characters that satisfy `drop`. */
  function TrimStart(s: string, drop: char -> bool): (r: string)
    ensures |r| <= |s| && r == s[|s| - |r|..]
    ensures r != [] ==> !drop(r[0])
    ensures forall i :: 0 <= i < |s| - |r| ==> drop(s[i])
    decreases |s|
  {
    if s != [] && drop(s[0]) then TrimStart(s[1..], drop) else s
  }

  /** Drops the trailing characters that satisfy `drop`. */
  function TrimEnd(s: string, drop: char -> bool): (r: string)
    ensures |r| <= |s| && r == s[..|r|]
    ensures r != [] ==> !drop(r[|r| - 1])
    ensures forall i :: |r| <= i < |s| ==> drop(s[i])
    decreases |s|
  {
    if s != [] && drop(s[|s| - 1]) then TrimEnd(s[..|s| - 1], drop) else s
  }

  /** `str.strip(chars)`: both ends, with `drop` deciding which characters go. */
  function StripWith(s: string, drop: char -> bool): string {
    TrimEnd(TrimStart(s, drop), drop)
  }

  /** `str.strip()` with no argument. */
  function Strip(s: string): string {
    StripWith(s, IsSpace)
  }

  /** True when the string holds nothing but whitespace (Python: `not s.strip()`). */
  predicate IsBlank(s: string) {
    forall i :: 0 <= i < |s| ==> IsSpace(s[i])
  }

  /** What `strip` returns neither starts nor ends with a droppable character. */
  lemma StripWithEnds(s: string, drop: char -> bool)
    ensures var r := StripWith(s, drop);
      r != [] ==> !drop(r[0]) && !drop(r[|r| - 1])
  {
    var t := TrimStart(s, drop);
    var r := TrimEnd(t, drop);
    if r != [] {
      assert r[0] == t[0];
    }
  }

  /** A string whose ends cannot be dropped is left unchanged by `strip`. */
  lemma StripWithNoOp(s: string, drop: char -> bool)
    requires s != [] ==> !drop(s[0]) && !drop(s[|s| - 1])
    ensures StripWith(s, drop) == s
  {
  }

  /** Stripping twice is stripping once. */
  lemma {:induction false} StripIdempotent(s: string)
    ensures Strip(Strip(s)) == Strip(s)
  {
    var r := Strip(s);
    StripWithEnds(s, IsSpace);
    StripWithNoOp(r, IsSpace);
  }

  /** The stripped string is empty exactly when the input is blank. */
  lemma StripEmptyIffBlank(s: string)
    ensures Strip(s) == [] <==> IsBlank(s)
  {
    var t := TrimStart(s, IsSpace);
    if IsBlank(s) {
      assert t == [];
    }
  }

  /** Appending whitespace does not change what `strip` returns. */
  lemma {:induction false} StripAppendBlank(s: string, w: string)
    requires IsBlank(w)
    ensures Strip(s + w) == Strip(s)
  {
    var t := TrimStart(s + w, IsSpace);
    var u := TrimStart(s, IsSpace);
    if IsBlank(s) {
      StripEmptyIffBlank(s);
      StripEmptyIffBlank(s + w);
    } else {
      // Some character of s is not whitespace, so trimming the start stops inside s.
      var k :| 0 <= k < |s| && !IsSpace(s[k]);
      TrimStartAppend(s, w, IsSpace, k);
      assert t == u + w;
      TrimEndAppend(u, w, IsSpace);
    }
  }

  /** When `s[k]` is kept, trimming the start of `s + w` stops inside `s`. */
  lemma {:induction false} TrimStartAppend(s: string, w: string, drop: char -> bool, k: nat)
    requires k < |s| && !drop(s[k])
    ensures TrimStart(s + w, drop) == TrimStart(s, drop) + w
    decreases k
  {
    var sw := s + w;
    assert sw[0] == s[0];
    if drop(s[0]) {
      assert sw[1..] == s[1..] + w;
      assert s[1..][k - 1] == s[k];
      TrimStartAppend(s[1..], w, drop, k - 1);
    }
  }

  lemma {:induction false} TrimEndAppend(u: string, w: string, drop: char -> bool)
    requires forall i :: 0 <= i < |w| ==> drop(w[i])
    ensures TrimEnd(u + w, drop) == TrimEnd(u, drop)
    decreases |w|
  {
    if w != [] {
      assert (u + w)[..|u + w| - 1] == u + w[..|w| - 1];
      TrimEndAppend(u, w[..|w| - 1], drop);
    } else {
      assert u + w == u;
    }
  }

  /** Python's `sep.join(parts)`. */
  function Join(sep: string, parts: seq<string>): string
    decreases |parts|
  {
    if |parts| == 0 then ""
    else if |parts| == 1 then parts[0]
    else parts[0] + sep + Join(sep, parts[1..])
  }

  /** Two parts are joined with one separator between them. */
  lemma JoinPair(sep: string, a: string, b: string)
    ensures Join(sep, [a, b]) == a + sep + b
  {
    assert [a, b][1..] == [b];
  }

  /** Joining one more part adds the separator and that part at the end. */
  lemma {:induction false} JoinSnoc(sep: string, parts: seq<string>, p: string)
    requires parts != []
    ensures Join(sep, parts + [p]) == Join(sep, parts) + sep + p
    decreases |parts|
  {
    if |parts| == 1 {
      assert parts + [p] == [parts[0], p];
    } else {
      assert (parts + [p])[1..] == parts[1..] + [p];
      JoinSnoc(sep, parts[1..], p);
    }
  }

  /** The concatenation of all parts, as repeated `text += part` builds it. */
  function Concat(parts: seq<string>): string
    decreases |parts|
  {
    if parts == [] then "" else Concat(parts[..|parts| - 1]) + parts[|parts| - 1]
  }

  /** The characters of `s` that satisfy `keep`, in order. */
  function Filter(s: string, keep: char -> bool): (r: string)
    ensures |r| <= |s|
    ensures forall i :: 0 <= i < |r| ==> keep(r[i])
    decreases |s|
  {
    if s == [] then [] else (if keep(s[0]) then [s[0]] else []) + Filter(s[1..], keep)
  }

  /** How many characters of `s` satisfy `p`. */
  function Count(s: string, p: char -> bool): (n: nat)
    ensures n <= |s|
    decreases |s|
  {
    if s == [] then 0 else (if p(s[0]) then 1 else 0) + Count(s[1..], p)
  }

  /** Filtering keeps exactly as many characters as satisfy the filter. */
  lemma {:induction false} FilterLength(s: string, keep: char -> bool)
    ensures |Filter(s, keep)| == Count(s, keep)
    decreases |s|
  {
    if s != [] {
      FilterLength(s[1..], keep);
    }
  }

  /** Filtering a string all of whose characters pass leaves it unchanged. */
  lemma {:induction false} FilterAllKept(s: string, keep: char -> bool)
    requires forall i :: 0 <= i < |s| ==> keep(s[i])
    ensures Filter(s, keep) == s
    decreases |s|
  {
    if s != [] {
      FilterAllKept(s[1..], keep);
    }
  }

  /** Filtering distributes over concatenation. */
  lemma {:induction false} FilterConcat(a: string, b: string, keep: char -> bool)
    ensures Filter(a + b, keep) == Filter(a, keep) + Filter(b, keep)
    decreases |a|
  {
    if a != [] {
      assert (a + b)[1..] == a[1..] + b;
      FilterConcat(a[1..], b, keep);
    } else {
      assert a + b == b;
    }
  }

  function DigitChar(d: nat): (c: char)
    requires d < 10
    ensures IsDigit(c)
  {
    ('0' as int + d) as char
  }

  /** The decimal rendering of a natural number, as `str(n)` gives it. */
  function NatToString(n: nat): (r: string)
    ensures r != []
    ensures forall i :: 0 <= i < |r| ==> IsDigit(r[i])
    decreases n
  {
    if n < 10 then [DigitChar(n)] else NatToString(n / 10) + [DigitChar(n % 10)]
  }

  /** The decimal rendering of an integer, with a leading `-` when negative. */
  function IntToString(n: int): (r: string)
    ensures r != []
    ensures (r[0] == '-') <==> n < 0
  {
    if n < 0 then "-" + NatToString(-n) else NatToString(n)
  }
}
