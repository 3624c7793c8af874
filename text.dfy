/** The string operations the components call: `String.prototype.trim`,
    `toLowerCase`, `includes`, `split("T")[0]`, `replace('-', ' ')`, and the
    decimal rendering of a number inside a template literal. */
module Text {
  import opened Seqs

  /** The characters `trim` strips: ECMAScript WhiteSpace and LineTerminator. */
  predicate IsWhitespace(c: char) {
    || c == '\t' || c == '\n' || c == '\U{000B}' || c == '\U{000C}' || c == '\r'
    || c == ' ' || c == '\U{00A0}' || c == '\U{1680}'
    || ('\U{2000}' <= c <= '\U{200A}')
    || c == '\U{2028}' || c == '\U{2029}' || c == '\U{202F}' || c == '\U{205F}'
    || c == '\U{3000}' || c == '\U{FEFF}'
  }

  function TrimStart(s: string): (r: string)
    decreases |s|
  {
    if s != [] && IsWhitespace(s[0]) then TrimStart(s[1..]) else s
  }

  function TrimEnd(s: string): (r: string)
    decreases |s|
  {
    if s != [] && IsWhitespace(s[|s| - 1]) then TrimEnd(s[..|s| - 1]) else s
  }

  /** `s.trim()` */
  function Trim(s: string): string {
    TrimEnd(TrimStart(s))
  }

  predicate IsBlank(s: string) {
    forall i :: 0 <= i < |s| ==> IsWhitespace(s[i])
  }

  lemma {:induction false} TrimStartEmpty(s: string)
    ensures TrimStart(s) == [] <==> IsBlank(s)
    ensures TrimStart(s) != [] ==> !IsWhitespace(TrimStart(s)[0])
    decreases |s|
  {
    if s != [] && IsWhitespace(s[0]) {
      TrimStartEmpty(s[1..]);
      assert IsBlank(s) <==> IsBlank(s[1..]) by {
        if IsBlank(s[1..]) {
          forall i | 0 <= i < |s| ensures IsWhitespace(s[i]) {
            if i > 0 { assert s[i] == s[1..][i - 1]; }
          }
        }
      }
    }
  }

  lemma {:induction false} TrimEndKeepsHead(s: string)
    requires s != [] && !IsWhitespace(s[0])
    ensures TrimEnd(s) != [] && TrimEnd(s)[0] == s[0]
    decreases |s|
  {
    if IsWhitespace(s[|s| - 1]) {
      assert |s| > 1;
      TrimEndKeepsHead(s[..|s| - 1]);
    }
  }

  /** `!s.trim()` holds, that is the trimmed title is the empty string, exactly
      when every character of `s` is whitespace. */
  lemma TrimEmptyIffBlank(s: string)
    ensures Trim(s) == [] <==> IsBlank(s)
  {
    TrimStartEmpty(s);
    if TrimStart(s) != [] {
      TrimEndKeepsHead(TrimStart(s));
    }
  }

  /** Lower-casing of one character, for the Basic Latin letters. */
  function LowerChar(c: char): char {
    if 'A' <= c <= 'Z' then (c as int + 32) as char else c
  }

  /** `s.toLowerCase()` restricted to the Basic Latin letters. */
  function ToLower(s: string): (r: string) {
    Map(s, LowerChar)
  }

  lemma {:induction false} ToLowerIdempotent(s: string)
    ensures ToLower(ToLower(s)) == ToLower(s)
  {
    assert forall i :: 0 <= i < |s| ==> LowerChar(LowerChar(s[i])) == LowerChar(s[i]);
  }

  /** `s.includes(t)`: `t` occurs in `s` as a contiguous block. */
  predicate Includes(s: string, t: string)
    decreases |s|
  {
    |t| <= |s| && (s[..|t|] == t || Includes(s[1..], t))
  }

  /** `t` occurs in `s` starting at index `i`. */
  predicate OccursAt(s: string, t: string, i: int) {
    0 <= i <= |s| - |t| && s[i..i + |t|] == t
  }

  /** `includes` finds `t` exactly when some window of `s` equals `t`. */
  lemma {:induction false} IncludesIffWindow(s: string, t: string)
    ensures Includes(s, t) <==> exists i :: OccursAt(s, t, i)
    decreases |s|
  {
    if |t| <= |s| && s[..|t|] != t {
      IncludesIffWindow(s[1..], t);
      if exists i :: OccursAt(s, t, i) {
        var i :| OccursAt(s, t, i);
        assert i != 0;
        assert s[1..][i - 1..i - 1 + |t|] == t;
        assert OccursAt(s[1..], t, i - 1);
      }
      if Includes(s[1..], t) {
        var i :| OccursAt(s[1..], t, i);
        assert s[i + 1..i + 1 + |t|] == t;
        assert OccursAt(s, t, i + 1);
      }
    } else if |t| <= |s| {
      assert OccursAt(s, t, 0);
    }
  }

  /** Every string includes the empty string, so an empty search keeps everything. */
  lemma IncludesEmpty(s: string)
    ensures Includes(s, "")
  {
    assert s[..0] == "";
  }

  /** The decimal digit character for `d`. */
  function Digit(d: nat): char
    requires d < 10
  {
    ('0' as int + d) as char
  }

  /** `${n}` for a non-negative integer: its decimal digits, most significant first. */
  function Decimal(n: nat): (r: string)
    decreases n
  {
    if n < 10 then [Digit(n)] else Decimal(n / 10) + [Digit(n % 10)]
  }

  predicate IsDigits(s: string) {
    forall i :: 0 <= i < |s| ==> '0' <= s[i] <= '9'
  }

  /** The number a string of decimal digits denotes. */
  function DecimalValue(s: string): nat
    requires IsDigits(s)
    decreases |s|
  {
    if s == [] then 0 else DecimalValue(s[..|s| - 1]) * 10 + (s[|s| - 1] as int - '0' as int)
  }

  /** Reading back the digits of `n` gives `n`: the rendered count is the count. */
  lemma {:induction false} DecimalRoundTrip(n: nat)
    ensures IsDigits(Decimal(n)) && Decimal(n) != []
    ensures DecimalValue(Decimal(n)) == n
    decreases n
  {
    if n >= 10 {
      DecimalRoundTrip(n / 10);
      var r := Decimal(n);
      assert r[..|r| - 1] == Decimal(n / 10);
    }
  }

  /** `s.split("T")[0]`: the prefix of `s` up to its first 'T', all of `s`
      when it has none. */
  function BeforeT(s: string): (r: string)
    ensures 'T' !in r && r <= s
    ensures 'T' !in s ==> r == s
    ensures |r| < |s| ==> s[|r|] == 'T'
    decreases |s|
  {
    if s == [] || s[0] == 'T' then [] else [s[0]] + BeforeT(s[1..])
  }

  /** `s.replace(from, to)` with a one-character search string: only the
      first occurrence is replaced. */
  function ReplaceFirst(s: string, from: char, to: char): (r: string)
    decreases |s|
  {
    if s == [] then []
    else if s[0] == from then [to] + s[1..]
    else [s[0]] + ReplaceFirst(s[1..], from, to)
  }

  /** Replacing the first occurrence at index `i` changes that character only. */
  lemma {:induction false} ReplaceFirstAt(s: string, from: char, to: char, i: nat)
    requires i < |s| && s[i] == from && from !in s[..i]
    ensures ReplaceFirst(s, from, to) == s[..i] + [to] + s[i + 1..]
    decreases i
  {
    if i > 0 {
      assert s[0] == s[..i][0];
      assert s[1..][..i - 1] == s[..i][1..];
      ReplaceFirstAt(s[1..], from, to, i - 1);
      assert s[..i] == [s[0]] + s[1..][..i - 1];
    }
  }

  /** Without an occurrence nothing is replaced. */
  lemma {:induction false} ReplaceFirstAbsent(s: string, from: char, to: char)
    requires from !in s
    ensures ReplaceFirst(s, from, to) == s
    decreases |s|
  {
    if s != [] {
      ReplaceFirstAbsent(s[1..], from, to);
    }
  }
}
