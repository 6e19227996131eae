/**
 * String operations shared by the UI layer (JavaScript semantics) and the
 * host process manager (Rust semantics): prefix tests, the two languages'
 * `trim`, separator joins, decimal printing and `replace`.
 */
module Text {

  predicate StartsWith(s: string, prefix: string) {
    |prefix| <= |s| && s[..|prefix|] == prefix
  }

  // ---------------------------------------------------------------- whitespace

  /** Characters that both JavaScript and Rust treat as white space. */
  predicate IsCommonSpace(c: char) {
    c == ' ' || c == '\t' || c == '\n' || c == '\r' || c == '\U{000B}' || c == '\U{000C}'
    || c == '\U{00A0}' || c == '\U{1680}' || ('\U{2000}' <= c <= '\U{200A}')
    || c == '\U{2028}' || c == '\U{2029}' || c == '\U{202F}' || c == '\U{205F}' || c == '\U{3000}'
  }

  /** What `String.prototype.trim` strips: WhiteSpace and LineTerminator of ECMAScript, including U+FEFF. */
  predicate IsJsSpace(c: char) {
    IsCommonSpace(c) || c == '\U{FEFF}'
  }

  /** What Rust's `str::trim` strips: the Unicode White_Space property, which includes U+0085 but not U+FEFF. */
  predicate IsRustSpace(c: char) {
    IsCommonSpace(c) || c == '\U{0085}'
  }

  function TrimStart(s: string, isSpace: char -> bool): (r: string)
    ensures |r| <= |s| && r == s[|s| - |r|..]
    ensures forall i :: 0 <= i < |s| - |r| ==> isSpace(s[i])
    ensures r != [] ==> !isSpace(r[0])
  {
    if s != [] && isSpace(s[0]) then TrimStart(s[1..], isSpace) else s
  }

  function TrimEnd(s: string, isSpace: char -> bool): (r: string)
    ensures |r| <= |s| && r == s[..|r|]
    ensures forall i :: |r| <= i < |s| ==> isSpace(s[i])
    ensures r != [] ==> !isSpace(r[|r| - 1])
  {
    if s != [] && isSpace(s[|s| - 1]) then TrimEnd(s[..|s| - 1], isSpace) else s
  }

  /** Strips leading and trailing white space, as `trim` does in both languages. */
  function Trim(s: string, isSpace: char -> bool): (r: string)
    ensures r != [] ==> !isSpace(r[0]) && !isSpace(r[|r| - 1])
  {
    TrimEnd(TrimStart(s, isSpace), isSpace)
  }

  function TrimJs(s: string): string { Trim(s, IsJsSpace) }

  function TrimRust(s: string): string { Trim(s, IsRustSpace) }

  /** A string with no white space at either end is its own trim. */
  lemma {:induction false} TrimOfTrimmed(s: string, isSpace: char -> bool)
    requires s != [] ==> !isSpace(s[0]) && !isSpace(s[|s| - 1])
    ensures Trim(s, isSpace) == s
  {
    if s != [] {
      assert TrimStart(s, isSpace) == s;
      assert TrimEnd(s, isSpace) == s;
    }
  }

  /** Trimming a word followed by one space gives the word. */
  lemma TrimOneTrailingSpace(core: string, isSpace: char -> bool)
    requires core != [] && !isSpace(core[0]) && !isSpace(core[|core| - 1]) && isSpace(' ')
    ensures Trim(core + " ", isSpace) == core
  {
    var full := core + " ";
    assert full[0] == core[0];
    assert TrimStart(full, isSpace) == full;
    assert full[..|full| - 1] == core;
    assert TrimEnd(full, isSpace) == TrimEnd(core, isSpace);
    TrimOfTrimmed(core, isSpace);
  }

  /** Trimming keeps exactly the characters between the first and the last non-space one. */
  lemma {:induction false} TrimIsInfix(s: string, isSpace: char -> bool)
    ensures exists i, j :: 0 <= i <= j <= |s| && Trim(s, isSpace) == s[i..j]
  {
    var t := TrimStart(s, isSpace);
    var r := TrimEnd(t, isSpace);
    var i := |s| - |t|;
    assert r == s[i..i + |r|];
  }

  // ---------------------------------------------------------------- UTF-16 length

  /** JavaScript's `length`: UTF-16 code units, two for a character outside the Basic Multilingual Plane. */
  function Utf16Length(s: string): (n: nat)
    ensures |s| <= n <= 2 * |s|
  {
    if s == [] then 0 else (if s[0] as int >= 0x1_0000 then 2 else 1) + Utf16Length(s[1..])
  }

  /** Within the Basic Multilingual Plane a character is one code unit. */
  lemma {:induction false} Utf16LengthBmp(s: string)
    requires forall k :: 0 <= k < |s| ==> s[k] as int < 0x1_0000
    ensures Utf16Length(s) == |s|
  {
    if s != [] {
      Utf16LengthBmp(s[1..]);
    }
  }

  /** Outside it every character is a surrogate pair. */
  lemma {:induction false} Utf16LengthAstral(s: string)
    requires forall k :: 0 <= k < |s| ==> s[k] as int >= 0x1_0000
    ensures Utf16Length(s) == 2 * |s|
  {
    if s != [] {
      Utf16LengthAstral(s[1..]);
    }
  }

  // ---------------------------------------------------------------- joining

  /** `parts.join(sep)`. */
  function Join(parts: seq<string>, sep: string): string {
    if |parts| == 0 then ""
    else if |parts| == 1 then parts[0]
    else parts[0] + sep + Join(parts[1..], sep)
  }

  /** `parts.filter(Boolean)`: drops the empty strings, keeps the order. */
  function NonEmpty(parts: seq<string>): (r: seq<string>)
    ensures forall k :: 0 <= k < |r| ==> r[k] != ""
  {
    if |parts| == 0 then []
    else if parts[0] == "" then NonEmpty(parts[1..])
    else [parts[0]] + NonEmpty(parts[1..])
  }

  // ---------------------------------------------------------------- decimals

  predicate IsDigit(c: char) { '0' <= c <= '9' }

  function DigitChar(d: nat): (c: char)
    requires d < 10
    ensures IsDigit(c)
  {
    ['0', '1', '2', '3', '4', '5', '6', '7', '8', '9'][d]
  }

  function DigitValue(c: char): nat
    requires IsDigit(c)
  {
    (c as int) - ('0' as int)
  }

  /** The decimal representation without leading zeros, as `to_string` and `String(n)` print a non-negative integer. */
  function NatToString(n: nat): (r: string)
    ensures |r| > 0
    ensures forall k :: 0 <= k < |r| ==> IsDigit(r[k])
  {
    if n < 10 then [DigitChar(n)] else NatToString(n / 10) + [DigitChar(n % 10)]
  }

  /** Reads a digit string back as a number; the reference inverse of NatToString. */
  function ParseDecimal(s: string): nat
    requires forall k :: 0 <= k < |s| ==> IsDigit(s[k])
  {
    if s == [] then 0 else ParseDecimal(s[..|s| - 1]) * 10 + DigitValue(s[|s| - 1])
  }

  lemma {:induction false} DecimalRoundTrip(n: nat)
    ensures ParseDecimal(NatToString(n)) == n
  {
    var r := NatToString(n);
    if n < 10 {
      assert r[..|r| - 1] == [];
    } else {
      var front := NatToString(n / 10);
      assert r[..|r| - 1] == front;
      DecimalRoundTrip(n / 10);
    }
  }

  lemma NatToStringInjective(m: nat, n: nat)
    requires NatToString(m) == NatToString(n)
    ensures m == n
  {
    DecimalRoundTrip(m);
    DecimalRoundTrip(n);
  }

  /** `String(i)` for an integer. */
  function IntToString(i: int): string {
    if i < 0 then "-" + NatToString(-i) else NatToString(i)
  }

  // ---------------------------------------------------------------- replacing

  predicate OccursAt(s: string, pat: string, i: int) {
    0 <= i && i + |pat| <= |s| && s[i..i + |pat|] == pat
  }

  predicate Contains(s: string, pat: string) {
    exists i :: 0 <= i <= |s| && OccursAt(s, pat, i)
  }

  /** Rust's `str::replace`: every non-overlapping occurrence of `pat`, scanning left to right, becomes `rep`. */
  function ReplaceAll(s: string, pat: string, rep: string): string
    requires |pat| > 0
    decreases |s|
  {
    if |s| < |pat| then s
    else if s[..|pat|] == pat then rep + ReplaceAll(s[|pat|..], pat, rep)
    else [s[0]] + ReplaceAll(s[1..], pat, rep)
  }

  /** No character of `rep` appears in `pat`. */
  predicate Disjoint(pat: string, rep: string) {
    forall i, j :: 0 <= i < |pat| && 0 <= j < |rep| ==> pat[i] != rep[j]
  }

  /** A string without the pattern is left as it is. */
  lemma {:induction false} ReplaceAbsent(s: string, pat: string, rep: string)
    requires |pat| > 0 && !Contains(s, pat)
    ensures ReplaceAll(s, pat, rep) == s
  {
    if |s| >= |pat| {
      assert !OccursAt(s, pat, 0);
      assert s[..|pat|] != pat;
      forall i | OccursAt(s[1..], pat, i) ensures false {
        assert s[1..][i..i + |pat|] == s[i + 1..i + 1 + |pat|];
        assert OccursAt(s, pat, i + 1);
      }
      ReplaceAbsent(s[1..], pat, rep);
    }
  }

  /** Where the input begins with the pattern, the output begins with the replacement. */
  lemma ReplaceHead(t: string, pat: string, rep: string)
    requires |pat| > 0
    ensures |t| >= |pat| && t[..|pat|] == pat ==> StartsWith(ReplaceAll(t, pat, rep), rep)
    ensures |t| >= |pat| && t[..|pat|] == pat && |rep| > 0 ==> ReplaceAll(t, pat, rep)[0] == rep[0]
  {
  }

  /** If the output begins with a text that shares no character with `rep`, that text was copied from the input. */
  lemma {:induction false} CopiedPrefix(t: string, pat: string, rep: string, q: string)
    requires |pat| > 0 && |rep| > 0
    requires forall i, j :: 0 <= i < |q| && 0 <= j < |rep| ==> q[i] != rep[j]
    ensures StartsWith(ReplaceAll(t, pat, rep), q) ==> StartsWith(t, q)
    decreases |t|
  {
    var r := ReplaceAll(t, pat, rep);
    ReplaceHead(t, pat, rep);
    if |q| > 0 && |t| >= |pat| && t[..|pat|] != pat && StartsWith(r, q) {
      var rest := ReplaceAll(t[1..], pat, rep);
      assert r == [t[0]] + rest;
      assert r[1..|q|] == rest[..|q| - 1];
      CopiedPrefix(t[1..], pat, rep, q[1..]);
      assert t[..|q|] == [t[0]] + t[1..][..|q| - 1];
    }
  }

  /** After replacing with a text that shares no character with the pattern, no occurrence is left. */
  lemma {:induction false} ReplaceLeavesNone(s: string, pat: string, rep: string)
    requires |pat| > 0 && |rep| > 0 && Disjoint(pat, rep)
    ensures !Contains(ReplaceAll(s, pat, rep), pat)
    decreases |s|
  {
    var r := ReplaceAll(s, pat, rep);
    if |s| >= |pat| && s[..|pat|] == pat {
      var rest := ReplaceAll(s[|pat|..], pat, rep);
      ReplaceLeavesNone(s[|pat|..], pat, rep);
      assert r == rep + rest;
      NoneAfterReplacement(rep, rest, pat);
    } else if |s| >= |pat| {
      var rest := ReplaceAll(s[1..], pat, rep);
      ReplaceLeavesNone(s[1..], pat, rep);
      assert r == [s[0]] + rest;
      NoneAfterCopied(s[0], rest, pat);
      CopiedHead(s, pat, rep);
    }
  }

  /** Where the input does not begin with the pattern, neither does the output. */
  lemma CopiedHead(s: string, pat: string, rep: string)
    requires |pat| > 0 && |rep| > 0 && Disjoint(pat, rep)
    requires |s| >= |pat| && s[..|pat|] != pat
    ensures !OccursAt(ReplaceAll(s, pat, rep), pat, 0)
  {
    var rest := ReplaceAll(s[1..], pat, rep);
    assert ReplaceAll(s, pat, rep) == [s[0]] + rest;
    CopiedPrefix(s[1..], pat, rep, pat[1..]);
    StartsWithCons(s[0], rest, pat);
    assert s == [s[0]] + s[1..];
    StartsWithCons(s[0], s[1..], pat);
  }

  /** A nonempty prefix of `[c] + t` is `c` followed by a prefix of `t`. */
  lemma StartsWithCons(c: char, t: string, p: string)
    requires |p| > 0
    ensures StartsWith([c] + t, p) <==> c == p[0] && StartsWith(t, p[1..])
  {
    var u := [c] + t;
    if |p| <= |u| {
      assert u[..|p|] == [c] + t[..|p| - 1];
      assert p == [p[0]] + p[1..];
    }
  }

  /** A replacement that shares no character with the pattern, followed by a text without it, has no occurrence. */
  lemma NoneAfterReplacement(rep: string, rest: string, pat: string)
    requires |pat| > 0 && Disjoint(pat, rep) && !Contains(rest, pat)
    ensures !Contains(rep + rest, pat)
  {
    var r := rep + rest;
    forall i | 0 <= i <= |r| ensures !OccursAt(r, pat, i) {
      if i < |rep| {
        if i + |pat| <= |r| {
          assert r[i..i + |pat|][0] == rep[i];
          assert pat[0] != rep[i];
        }
      } else if i + |pat| <= |r| {
        assert r[i..i + |pat|] == rest[i - |rep|..i - |rep| + |pat|];
        assert !OccursAt(rest, pat, i - |rep|);
      }
    }
  }

  /** One copied character before a text without the pattern leaves an occurrence possible only at the start. */
  lemma NoneAfterCopied(c: char, rest: string, pat: string)
    requires |pat| > 0 && !Contains(rest, pat)
    ensures forall i :: 1 <= i <= |rest| + 1 ==> !OccursAt([c] + rest, pat, i)
  {
    var r := [c] + rest;
    forall i | 1 <= i <= |r| ensures !OccursAt(r, pat, i) {
      if i + |pat| <= |r| {
        assert r[i..i + |pat|] == rest[i - 1..i - 1 + |pat|];
        assert !OccursAt(rest, pat, i - 1);
      }
    }
  }
}
