/** The two pieces of JavaScript string semantics the router depends on:
    `String.prototype.trim` (used by the comment handler) and the canonical
    decimal strings that name array elements (used when `parentIndex`
    arrives as a string). Characters are Unicode scalar values. */
module JsText {

  import opened Outcomes

  /** The LineTerminator production of ECMA-262 (2023 edition), section 12.3. */
  predicate IsLineTerminator(c: char) {
    c == '\n' || c == '\r' || c == '\U{2028}' || c == '\U{2029}'
  }

  /** The WhiteSpace production of ECMA-262 (2023 edition), section 12.2:
      TAB, VT, FF, ZWNBSP and every space separator (category Zs). */
  predicate IsWhiteSpace(c: char) {
    || c == '\t' || c == '\U{000B}' || c == '\U{000C}' || c == '\U{FEFF}'
    || c == ' ' || c == '\U{00A0}' || c == '\U{1680}'
    || ('\U{2000}' <= c <= '\U{200A}')
    || c == '\U{202F}' || c == '\U{205F}' || c == '\U{3000}'
  }

  /** What `trim` strips from either end of a string. */
  predicate Strippable(c: char) {
    IsWhiteSpace(c) || IsLineTerminator(c)
  }

  /** Every character of `s` at an index in `[lo, hi)` is strippable. */
  predicate StrippableBetween(s: string, lo: int, hi: int)
    requires 0 <= lo && hi <= |s|
  {
    forall k :: lo <= k < hi ==> Strippable(s[k])
  }

  /** `s` is blank: nothing but whitespace and line terminators. */
  predicate AllStrippable(s: string) {
    StrippableBetween(s, 0, |s|)
  }

  /** Drops the leading strippable characters. */
  function TrimStart(s: string): (r: string)
    ensures |r| <= |s| && r == s[|s| - |r|..]
    ensures StrippableBetween(s, 0, |s| - |r|)
    ensures r == [] || !Strippable(r[0])
  {
    if |s| > 0 && Strippable(s[0]) then
      var r := TrimStart(s[1..]);
      forall k | 1 <= k < |s| - |r|
        ensures Strippable(s[k])
      {
        assert s[k] == s[1..][k - 1];
      }
      r
    else
      s
  }

  /** Drops the trailing strippable characters. */
  function TrimEnd(s: string): (r: string)
    ensures |r| <= |s| && r == s[..|r|]
    ensures StrippableBetween(s, |r|, |s|)
    ensures r == [] || !Strippable(r[|r| - 1])
  {
    if |s| > 0 && Strippable(s[|s| - 1]) then
      var r := TrimEnd(s[..|s| - 1]);
      forall k | |r| <= k < |s| - 1
        ensures Strippable(s[k])
      {
        assert s[k] == s[..|s| - 1][k];
      }
      r
    else
      s
  }

  /** Neither end of `t` is strippable: what `trim` leaves behind. */
  predicate IsTrimmed(t: string) {
    t == [] || (!Strippable(t[0]) && !Strippable(t[|t| - 1]))
  }

  /** `String.prototype.trim`: strips the strippable characters from both
      ends, leaving a string that starts and ends with neither. */
  function Trim(s: string): (r: string)
    ensures |r| <= |s|
    ensures IsTrimmed(r)
  {
    var t := TrimStart(s);
    var r := TrimEnd(t);
    assert r != [] ==> r[0] == t[0];
    r
  }

  lemma StrippableShift(s: string, lo: nat, a: nat, b: nat)
    requires lo <= |s| && b <= |s| - lo
    requires StrippableBetween(s[lo..], a, b)
    ensures StrippableBetween(s, lo + a, lo + b)
  {
    forall k | lo + a <= k < lo + b
      ensures Strippable(s[k])
    {
      assert s[k] == s[lo..][k - lo];
    }
  }

  /** `r` is `s` with strippable characters cut from its two ends: an infix
      of `s` whose surroundings on both sides are strippable. */
  predicate StrippedFrom(r: string, s: string) {
    exists lo :: 0 <= lo <= |s| - |r| && r == s[lo..lo + |r|]
                 && StrippableBetween(s, 0, lo) && StrippableBetween(s, lo + |r|, |s|)
  }

  /** Cutting a blank prefix and then a blank suffix leaves an infix with
      blank surroundings. */
  lemma CutBothEnds(s: string, t: string, r: string)
    requires |t| <= |s| && t == s[|s| - |t|..] && StrippableBetween(s, 0, |s| - |t|)
    requires |r| <= |t| && r == t[..|r|] && StrippableBetween(t, |r|, |t|)
    ensures StrippedFrom(r, s)
  {
    var lo := |s| - |t|;
    assert r == s[lo..lo + |r|] by {
      assert s[lo..lo + |r|] == s[lo..][..|r|];
    }
    StrippableShift(s, lo, |r|, |t|);
  }

  /** What trim returns is an infix of its input, and everything it cut
      away on either side is strippable. */
  lemma TrimIsInfix(s: string)
    ensures StrippedFrom(Trim(s), s)
  {
    CutBothEnds(s, TrimStart(s), TrimEnd(TrimStart(s)));
  }

  /** A trimmed string is empty exactly when the input was blank. */
  lemma TrimEmptyIffBlank(s: string)
    ensures Trim(s) == [] <==> AllStrippable(s)
  {
    var t := TrimStart(s);
    if AllStrippable(s) {
      assert t == [];
    }
    if Trim(s) == [] {
      assert TrimEnd(t) == [];
      assert t == [];
    }
  }

  lemma {:induction false} TrimStartOfPadded(w: string, t: string)
    requires AllStrippable(w)
    requires t == [] || !Strippable(t[0])
    ensures TrimStart(w + t) == t
    decreases |w|
  {
    if w == [] {
      assert w + t == t;
    } else {
      assert (w + t)[1..] == w[1..] + t;
      TrimStartOfPadded(w[1..], t);
    }
  }

  lemma {:induction false} TrimEndOfPadded(t: string, w: string)
    requires AllStrippable(w)
    requires t == [] || !Strippable(t[|t| - 1])
    ensures TrimEnd(t + w) == t
    decreases |w|
  {
    if w == [] {
      assert t + w == t;
    } else {
      assert (t + w)[..|t + w| - 1] == t + w[..|w| - 1];
      TrimEndOfPadded(t, w[..|w| - 1]);
    }
  }

  /** Trim is characterised independently of how it scans: padding a string
      with strippable characters on both sides and trimming gives the string
      back, provided it does not itself start or end with one. */
  lemma TrimOfPadded(front: string, t: string, back: string)
    requires AllStrippable(front) && AllStrippable(back)
    requires IsTrimmed(t)
    ensures Trim(front + t + back) == t
  {
    if t == [] {
      assert front + t + back == front + back;
      assert AllStrippable(front + back) by {
        forall k | 0 <= k < |front + back|
          ensures Strippable((front + back)[k])
        {
          if k >= |front| {
            assert (front + back)[k] == back[k - |front|];
          }
        }
      }
      TrimEmptyIffBlank(front + back);
    } else {
      assert front + t + back == front + (t + back);
      TrimStartOfPadded(front, t + back);
      TrimEndOfPadded(t, back);
    }
  }

  /** Trim leaves exactly the trimmed strings unchanged. */
  lemma TrimFixesTrimmed(t: string)
    ensures Trim(t) == t <==> IsTrimmed(t)
  {
    if IsTrimmed(t) {
      assert [] + t + [] == t;
      TrimOfPadded([], t, []);
    }
  }

  /** Trimming twice is trimming once. */
  lemma TrimIdempotent(s: string)
    ensures Trim(Trim(s)) == Trim(s)
  {
    TrimFixesTrimmed(Trim(s));
  }

  // ---------------------------------------------------------------------
  // Canonical decimal strings (the property keys that name array elements)

  predicate IsDigit(c: char) {
    '0' <= c <= '9'
  }

  function DigitValue(c: char): nat
    requires IsDigit(c)
  {
    (c as int - '0' as int) as nat
  }

  function DigitChar(d: nat): char
    requires d < 10
  {
    (d + '0' as int) as char
  }

  /** Non-empty, only digits, and no leading zero except for "0" itself:
      the strings `ToString` produces for non-negative integers. */
  predicate Canonical(s: string) {
    && |s| > 0
    && (forall k :: 0 <= k < |s| ==> IsDigit(s[k]))
    && (s[0] == '0' ==> |s| == 1)
  }

  /** The decimal value of a string of digits. */
  function DigitsValue(s: string): nat
    requires forall k :: 0 <= k < |s| ==> IsDigit(s[k])
  {
    if s == [] then 0 else DigitsValue(s[..|s| - 1]) * 10 + DigitValue(s[|s| - 1])
  }

  /** `ToString` of a non-negative integer. */
  function Decimal(n: nat): (s: string)
    ensures Canonical(s)
  {
    if n < 10 then [DigitChar(n)]
    else
      var s := Decimal(n / 10) + [DigitChar(n % 10)];
      assert s[0] == Decimal(n / 10)[0];
      s
  }

  /** The index a string names, if it is the canonical form of one. */
  function ParseIndex(s: string): (r: Option<nat>)
    ensures r.Some? <==> Canonical(s)
  {
    if Canonical(s) then Some(DigitsValue(s)) else None
  }

  lemma {:induction false} DigitsValueOfDecimal(n: nat)
    ensures DigitsValue(Decimal(n)) == n
  {
    if n >= 10 {
      var s := Decimal(n);
      assert s[..|s| - 1] == Decimal(n / 10);
      DigitsValueOfDecimal(n / 10);
    }
  }

  lemma {:induction false} LeadingNonZeroPositive(s: string)
    requires |s| > 0 && (forall k :: 0 <= k < |s| ==> IsDigit(s[k])) && s[0] != '0'
    ensures DigitsValue(s) >= 1
    decreases |s|
  {
    if |s| > 1 {
      LeadingNonZeroPositive(s[..|s| - 1]);
    }
  }

  lemma {:induction false} DecimalOfDigitsValue(s: string)
    requires Canonical(s)
    ensures Decimal(DigitsValue(s)) == s
    decreases |s|
  {
    if |s| > 1 {
      var p := s[..|s| - 1];
      LeadingNonZeroPositive(p);
      DecimalOfDigitsValue(p);
      assert s == p + [s[|s| - 1]];
    }
  }

  /** Parsing and printing indices are inverse: a canonical string parses
      to `n` exactly when it is the decimal form of `n`. */
  lemma ParseIndexRoundTrip(s: string, n: nat)
    ensures ParseIndex(s) == Some(n) <==> s == Decimal(n)
  {
    if ParseIndex(s) == Some(n) {
      DecimalOfDigitsValue(s);
    }
    if s == Decimal(n) {
      DigitsValueOfDecimal(n);
    }
  }
}
