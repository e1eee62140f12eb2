/**
 * The JavaScript string operations the gallery relies on, over `string = seq<char>`:
 * `trim`, `toLowerCase` (ASCII letters only), `includes`, `endsWith`, and the
 * decimal rendering of an integer (`n + ' B'`, `${n} days ago`).
 */
module Text {

  /** The characters `String.prototype.trim` strips: WhiteSpace and LineTerminator of ECMA-262. */
  predicate IsJsWhitespace(c: char) {
    || c == ' ' || c == '\t' || c == '\n' || c == '\r' || c == '\U{000B}' || c == '\U{000C}'
    || c == '\U{00A0}' || c == '\U{1680}' || ('\U{2000}' <= c <= '\U{200A}')
    || c == '\U{2028}' || c == '\U{2029}' || c == '\U{202F}' || c == '\U{205F}'
    || c == '\U{3000}' || c == '\U{FEFF}'
  }

  predicate AllWhitespace(s: string) {
    forall i :: 0 <= i < |s| ==> IsJsWhitespace(s[i])
  }

  /** Drops the leading whitespace: the result is a suffix of `s` and everything before it is whitespace. */
  function TrimStart(s: string): (r: string)
    ensures |r| <= |s| && r == s[|s| - |r|..]
    ensures r == [] || !IsJsWhitespace(r[0])
    ensures AllWhitespace(s[..|s| - |r|])
  {
    if s != [] && IsJsWhitespace(s[0]) then
      var t := TrimStart(s[1..]);
      var cut := s[..|s| - |t|];
      forall i | 0 <= i < |cut| ensures IsJsWhitespace(cut[i]) {
        if i > 0 {
          assert cut[i] == s[1..][..|s| - 1 - |t|][i - 1];
        }
      }
      assert s[|s| - |t|..] == s[1..][|s| - 1 - |t|..];
      t
    else s
  }

  /** Drops the trailing whitespace: the result is a prefix of `s` and everything after it is whitespace. */
  function TrimEnd(s: string): (r: string)
    ensures |r| <= |s| && r == s[..|r|]
    ensures r == [] || !IsJsWhitespace(r[|r| - 1])
    ensures AllWhitespace(s[|r|..])
  {
    if s != [] && IsJsWhitespace(s[|s| - 1]) then
      var t := TrimEnd(s[..|s| - 1]);
      var cut := s[|t|..];
      forall i | 0 <= i < |cut| ensures IsJsWhitespace(cut[i]) {
        if i < |cut| - 1 {
          assert cut[i] == s[..|s| - 1][|t|..][i];
        }
      }
      assert s[..|t|] == s[..|s| - 1][..|t|];
      t
    else s
  }

  /** `s.trim()`. */
  function Trim(s: string): string {
    TrimEnd(TrimStart(s))
  }

  /**
   * What `trim` promises: the result is a contiguous slice of the input that neither starts
   * nor ends with whitespace, and what it cut away on both sides is whitespace.
   */
  lemma TrimSlice(s: string) returns (k: nat)
    ensures k + |Trim(s)| <= |s| && Trim(s) == s[k..k + |Trim(s)|]
    ensures Trim(s) == [] || (!IsJsWhitespace(Trim(s)[0]) && !IsJsWhitespace(Trim(s)[|Trim(s)| - 1]))
    ensures AllWhitespace(s[..k]) && AllWhitespace(s[k + |Trim(s)|..])
  {
    var a := TrimStart(s);
    var b := TrimEnd(a);
    k := |s| - |a|;
    TrimmedEnds(s, a, b);
  }

  /** Cutting a prefix of whitespace and then a suffix of whitespace leaves a slice of `s`. */
  lemma TrimmedEnds(s: string, a: string, b: string)
    requires |a| <= |s| && a == s[|s| - |a|..] && AllWhitespace(s[..|s| - |a|])
    requires a == [] || !IsJsWhitespace(a[0])
    requires |b| <= |a| && b == a[..|b|] && AllWhitespace(a[|b|..])
    requires b == [] || !IsJsWhitespace(b[|b| - 1])
    ensures var k := |s| - |a|;
      && b == s[k..k + |b|] && AllWhitespace(s[k + |b|..])
      && (b == [] || !IsJsWhitespace(b[0]))
  {
    var k := |s| - |a|;
    assert s[k..][..|b|] == s[k..k + |b|];
    assert s[k..][|b|..] == s[k + |b|..];
    if b != [] {
      assert b[0] == a[0];
    }
  }

  /** A string trims to nothing exactly when it is all whitespace (so `!s.trim()` means "blank"). */
  lemma {:induction false} TrimEmptyIff(s: string)
    ensures Trim(s) == [] <==> AllWhitespace(s)
  {
    var k := TrimSlice(s);
    if Trim(s) == [] {
      assert s == s[..k] + s[k..];
    } else {
      var c := Trim(s)[0];
      assert c == s[k];
    }
  }

  /** Trimming twice is trimming once. */
  lemma {:induction false} TrimIdempotent(s: string)
    ensures Trim(Trim(s)) == Trim(s)
  {
    var t := Trim(s);
    var _ := TrimSlice(s);
    if t != [] {
      assert TrimStart(t) == t;
      assert TrimEnd(t) == t;
    }
  }

  /** The ASCII part of `toLowerCase`. */
  function LowerChar(c: char): char {
    if 'A' <= c <= 'Z' then (c as int + 32) as char else c
  }

  function ToLower(s: string): (r: string)
    ensures |r| == |s|
    ensures forall i :: 0 <= i < |s| ==> r[i] == LowerChar(s[i])
  {
    seq(|s|, i requires 0 <= i < |s| => LowerChar(s[i]))
  }

  /** `endsWith(suffix)`. */
  predicate EndsWith(s: string, suffix: string) {
    |suffix| <= |s| && s[|s| - |suffix|..] == suffix
  }

  /** `p` occurs in `s` starting at index `i`. */
  predicate OccursAt(s: string, p: string, i: int) {
    0 <= i && i + |p| <= |s| && s[i..i + |p|] == p
  }

  /** `s.includes(p)`, computed by trying each start position in turn. */
  predicate Contains(s: string, p: string) {
    (|p| <= |s| && s[..|p|] == p) || (s != [] && Contains(s[1..], p))
  }

  /** `Contains` holds exactly when `p` occurs at some index of `s`. */
  lemma {:induction false} ContainsIff(s: string, p: string)
    ensures Contains(s, p) <==> exists i :: OccursAt(s, p, i)
  {
    if |p| <= |s| && s[..|p|] == p {
      assert OccursAt(s, p, 0);
    } else if s == [] {
    } else {
      ContainsIff(s[1..], p);
      if exists i :: OccursAt(s[1..], p, i) {
        var i :| OccursAt(s[1..], p, i);
        assert s[1..][i..i + |p|] == s[i + 1..i + 1 + |p|];
        assert OccursAt(s, p, i + 1);
      }
      if exists i :: OccursAt(s, p, i) {
        var i :| OccursAt(s, p, i);
        assert i != 0;
        assert s[1..][i - 1..i - 1 + |p|] == s[i..i + |p|];
        assert OccursAt(s[1..], p, i - 1);
      }
    }
  }

  /** Every string contains the empty string (so an empty search pattern matches every record). */
  lemma ContainsEmpty(s: string)
    ensures Contains(s, "")
  {
  }

  /** Case-insensitive containment, the meaning given here to `new RegExp(q, 'i').test(s)`. */
  predicate ContainsIgnoringCase(s: string, p: string) {
    Contains(ToLower(s), ToLower(p))
  }

  function DigitChar(d: nat): (c: char)
    requires d < 10
    ensures '0' <= c <= '9' && c as int == '0' as int + d
  {
    ('0' as int + d) as char
  }

  function DigitValue(c: char): nat
    requires '0' <= c <= '9'
  {
    c as int - '0' as int
  }

  predicate IsDecimal(s: string) {
    forall i :: 0 <= i < |s| ==> '0' <= s[i] <= '9'
  }

  /** The decimal digits of `n`, as `String(n)` writes a non-negative integer. */
  function NatToString(n: nat): (r: string)
    ensures |r| >= 1 && IsDecimal(r)
    ensures r[0] == '0' ==> n == 0
  {
    if n < 10 then [DigitChar(n)] else NatToString(n / 10) + [DigitChar(n % 10)]
  }

  /** `String(n)` for an integer `n`. */
  function IntToString(n: int): string {
    if n < 0 then "-" + NatToString(-n) else NatToString(n)
  }

  /** Reads a string of decimal digits back, most significant digit first. */
  function ParseDecimal(s: string): nat
    requires IsDecimal(s)
  {
    if s == [] then 0 else 10 * ParseDecimal(s[..|s| - 1]) + DigitValue(s[|s| - 1])
  }

  /** The decimal rendering loses nothing: reading it back gives the number. */
  lemma {:induction false} ParseNatToString(n: nat)
    ensures ParseDecimal(NatToString(n)) == n
  {
    if n >= 10 {
      var s := NatToString(n);
      assert s == NatToString(n / 10) + [DigitChar(n % 10)];
      assert s[..|s| - 1] == NatToString(n / 10);
      assert DigitValue(s[|s| - 1]) == n % 10;
      ParseNatToString(n / 10);
    }
  }

  /** Distinct non-negative numbers render as distinct digit strings. */
  lemma NatToStringInjective(m: nat, n: nat)
    requires NatToString(m) == NatToString(n)
    ensures m == n
  {
    ParseNatToString(m);
    ParseNatToString(n);
  }

  /** Distinct numbers render as distinct strings. */
  lemma IntToStringInjective(m: int, n: int)
    requires IntToString(m) == IntToString(n)
    ensures m == n
  {
    SignShows(m);
    SignShows(n);
    if m < 0 {
      assert n < 0;
      assert NatToString(-m) == IntToString(m)[1..] == NatToString(-n);
      NatToStringInjective(-m, -n);
    } else {
      assert n >= 0;
      NatToStringInjective(m, n);
    }
  }

  /** `String(n)` begins with a minus sign exactly for negative `n`, followed by the digits of `|n|`. */
  lemma SignShows(n: int)
    ensures IntToString(n)[0] == '-' <==> n < 0
    ensures n < 0 ==> IntToString(n)[1..] == NatToString(-n)
    ensures n >= 0 ==> IntToString(n) == NatToString(n)
  {
    var d := NatToString(if n < 0 then -n else n);
    assert '0' <= d[0] <= '9';
  }
}
