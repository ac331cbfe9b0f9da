/**
 * The JavaScript string operations the server and client rely on:
 * `String.prototype.trim`, `String(n)` for a non-negative integer and the
 * relational operator `<` on strings. A string is a sequence of characters;
 * lengths and comparisons are per character.
 */
module JsString {

  /** The characters `trim` removes: WhiteSpace and LineTerminator of ECMAScript. */
  predicate IsWhiteSpace(c: char) {
    || c == '\t' || c == '\n' || c == '\U{000B}' || c == '\U{000C}' || c == '\r'
    || c == ' ' || c == '\U{00A0}' || c == '\U{1680}'
    || ('\U{2000}' <= c <= '\U{200A}')
    || c == '\U{2028}' || c == '\U{2029}' || c == '\U{202F}' || c == '\U{205F}'
    || c == '\U{3000}' || c == '\U{FEFF}'
  }

  /** Number of white-space characters of `s` from index `i` on, up to the first other one. */
  function SpaceFrom(s: string, i: nat): (k: nat)
    requires i <= |s|
    ensures i + k <= |s|
    ensures forall j :: i <= j < i + k ==> IsWhiteSpace(s[j])
    ensures i + k < |s| ==> !IsWhiteSpace(s[i + k])
    decreases |s| - i
  {
    if i < |s| && IsWhiteSpace(s[i]) then 1 + SpaceFrom(s, i + 1) else 0
  }

  /** Number of white-space characters at the end of `s[lo..hi]`. */
  function SpaceBefore(s: string, lo: nat, hi: nat): (k: nat)
    requires lo <= hi <= |s|
    ensures k <= hi - lo
    ensures forall j :: hi - k <= j < hi ==> IsWhiteSpace(s[j])
    ensures lo < hi - k ==> !IsWhiteSpace(s[hi - k - 1])
    decreases hi - lo
  {
    if lo < hi && IsWhiteSpace(s[hi - 1]) then 1 + SpaceBefore(s, lo, hi - 1) else 0
  }

  /** `s.trim()`. */
  function Trim(s: string): (r: string)
    ensures |r| <= |s|
    ensures r != [] ==> !IsWhiteSpace(r[0]) && !IsWhiteSpace(r[|r| - 1])
  {
    var i := SpaceFrom(s, 0);
    s[i..|s| - SpaceBefore(s, i, |s|)]
  }

  /** The characters `Trim` removed are white space, and what is left is a contiguous run of `s`. */
  lemma TrimIsInfix(s: string)
    ensures exists i, j ::
              && 0 <= i <= j <= |s| && Trim(s) == s[i..j]
              && (forall k :: 0 <= k < i ==> IsWhiteSpace(s[k]))
              && (forall k :: j <= k < |s| ==> IsWhiteSpace(s[k]))
  {
    var i := SpaceFrom(s, 0);
    var j := |s| - SpaceBefore(s, i, |s|);
    assert Trim(s) == s[i..j];
  }

  /** A string without white space at either end is its own trim. */
  lemma TrimOfTrimmed(s: string)
    requires s != [] ==> !IsWhiteSpace(s[0]) && !IsWhiteSpace(s[|s| - 1])
    ensures Trim(s) == s
  {
    assert SpaceFrom(s, 0) == 0;
    assert SpaceBefore(s, 0, |s|) == 0;
    assert s[0..|s|] == s;
  }

  /** `trim` is idempotent. */
  lemma TrimIdempotent(s: string)
    ensures Trim(Trim(s)) == Trim(s)
  {
    TrimOfTrimmed(Trim(s));
  }

  function DigitChar(d: nat): (c: char)
    requires d < 10
    ensures '0' <= c <= '9'
  {
    "0123456789"[d]
  }

  function DigitValue(c: char): nat {
    if '0' <= c <= '9' then (c as int - '0' as int) as nat else 0
  }

  /** `String(n)`: the decimal digits of `n`, with no leading zero. */
  function NatToString(n: nat): (r: string)
    ensures |r| >= 1
    ensures n >= 10 ==> |r| >= 2
    ensures forall i :: 0 <= i < |r| ==> '0' <= r[i] <= '9'
    ensures n > 0 ==> r[0] != '0'
  {
    if n < 10 then [DigitChar(n)] else NatToString(n / 10) + [DigitChar(n % 10)]
  }

  /** Reads a string of decimal digits back as a number (the inverse of `NatToString`). */
  function ParseDecimal(s: string): nat {
    if |s| == 0 then 0 else 10 * ParseDecimal(s[..|s| - 1]) + DigitValue(s[|s| - 1])
  }

  lemma {:induction false} ParseNatToString(n: nat)
    ensures ParseDecimal(NatToString(n)) == n
  {
    var r := NatToString(n);
    if n < 10 {
      assert r[..0] == [];
    } else {
      assert r[..|r| - 1] == NatToString(n / 10);
      ParseNatToString(n / 10);
    }
  }

  /** Distinct numbers have distinct decimal strings. */
  lemma NatToStringInjective(a: nat, b: nat)
    ensures NatToString(a) == NatToString(b) ==> a == b
  {
    if NatToString(a) == NatToString(b) {
      ParseNatToString(a);
      ParseNatToString(b);
    }
  }

  /** The relational operator `<` on strings: lexicographic order of the characters. */
  predicate StringLess(a: string, b: string) {
    if |a| == 0 then |b| > 0
    else if |b| == 0 then false
    else if a[0] != b[0] then a[0] < b[0]
    else StringLess(a[1..], b[1..])
  }

  /** Of two different strings, exactly one is less than the other; no string is less than itself. */
  lemma {:induction false} StringLessTrichotomy(a: string, b: string)
    ensures !StringLess(a, a)
    ensures a != b ==> (StringLess(a, b) <==> !StringLess(b, a))
  {
    if |a| > 0 {
      StringLessTrichotomy(a[1..], a[1..]);
    }
    if |a| > 0 && |b| > 0 && a[0] == b[0] {
      StringLessTrichotomy(a[1..], b[1..]);
      if a != b {
        assert a == [a[0]] + a[1..] && b == [b[0]] + b[1..];
      }
    }
  }

  /** `<` is transitive. */
  lemma {:induction false} StringLessTransitive(a: string, b: string, c: string)
    requires StringLess(a, b) && StringLess(b, c)
    ensures StringLess(a, c)
  {
    if |a| > 0 && |b| > 0 && |c| > 0 && a[0] == b[0] && b[0] == c[0] {
      StringLessTransitive(a[1..], b[1..], c[1..]);
    }
  }

  /** Comparison is by characters, not by numeric value: "10" < "9". */
  lemma TenBeforeNine()
    ensures StringLess(NatToString(10), NatToString(9))
  {
    assert NatToString(10) == "10";
  }
}
