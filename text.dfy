/** Optional values, for lookups and parsers that can fail. */
module Wrappers {
  datatype Option<T> = None | Some(value: T)
}

/**
 * Character and string helpers shared by the search filter, the timestamp
 * formats and the session-state keys: ASCII case folding, literal substring
 * search, and fixed-width and plain decimal rendering of naturals.
 */
module Text {

  // ---------------------------------------------------------------------------
  // Case folding

  predicate IsUpper(ch: char) { 'A' <= ch <= 'Z' }

  /** ASCII lower-casing of one character; every other character is kept. */
  function Lower(ch: char): (r: char)
    ensures !IsUpper(r)
    ensures IsUpper(ch) <==> r != ch
  {
    if IsUpper(ch) then (ch as int + 32) as char else ch
  }

  /** Lower-casing a whole string, character by character. */
  function LowerStr(s: string): (r: string)
    ensures |r| == |s|
    ensures forall i :: 0 <= i < |s| ==> r[i] == Lower(s[i])
  {
    if s == [] then [] else [Lower(s[0])] + LowerStr(s[1..])
  }

  lemma {:induction false} LowerStrIdempotent(s: string)
    ensures LowerStr(LowerStr(s)) == LowerStr(s)
  {
    var l := LowerStr(s);
    var ll := LowerStr(l);
    forall i | 0 <= i < |s| ensures ll[i] == l[i] {
      assert !IsUpper(l[i]);
    }
  }

  // ---------------------------------------------------------------------------
  // Literal substring search

  /** `t` appears in `s` starting at offset `i`. */
  predicate OccursAt(t: string, s: string, i: int) {
    0 <= i <= |s| - |t| && s[i..i + |t|] == t
  }

  /** `t` appears as a contiguous block of `s` at some offset. */
  ghost predicate OccursIn(t: string, s: string) {
    exists i :: OccursAt(t, s, i)
  }

  /** Literal substring test, scanning the offsets of `s` from the left. */
  function Contains(s: string, t: string): (r: bool)
    ensures r <==> OccursIn(t, s)
    decreases |s|
  {
    if |t| <= |s| && s[..|t|] == t then
      assert OccursAt(t, s, 0);
      true
    else if |s| <= |t| then
      false
    else
      var r := Contains(s[1..], t);
      assert OccursIn(t, s) ==> OccursIn(t, s[1..]) by {
        if OccursIn(t, s) {
          var i :| OccursAt(t, s, i);
          assert i != 0;
          assert s[1..][i - 1..i - 1 + |t|] == t;
          assert OccursAt(t, s[1..], i - 1);
        }
      }
      assert OccursIn(t, s[1..]) ==> OccursIn(t, s) by {
        if OccursIn(t, s[1..]) {
          var i :| OccursAt(t, s[1..], i);
          assert s[i + 1..i + 1 + |t|] == t;
          assert OccursAt(t, s, i + 1);
        }
      }
      r
  }

  /** Substring test after folding both sides to lower case. */
  function ContainsIgnoreCase(s: string, t: string): (r: bool)
    ensures r <==> OccursIn(LowerStr(t), LowerStr(s))
  {
    Contains(LowerStr(s), LowerStr(t))
  }

  /** Folding the term first changes nothing: only its lower-case form matters. */
  lemma FoldedTermSame(s: string, t: string)
    ensures ContainsIgnoreCase(s, LowerStr(t)) == ContainsIgnoreCase(s, t)
  {
    LowerStrIdempotent(t);
  }

  /** Folding commutes with taking a slice. */
  lemma {:induction false} LowerStrSlice(s: string, i: nat, j: nat)
    requires i <= j <= |s|
    ensures LowerStr(s)[i..j] == LowerStr(s[i..j])
  {
    var l := LowerStr(s);
    var sl := s[i..j];
    var b := LowerStr(sl);
    var a := l[i..j];
    forall k | 0 <= k < j - i ensures a[k] == b[k] {
      assert a[k] == l[i + k] == Lower(s[i + k]);
      assert b[k] == Lower(sl[k]);
    }
  }

  /** A literal occurrence is also an occurrence when case is ignored. */
  lemma {:induction false} LiteralMatchFolds(s: string, t: string)
    requires Contains(s, t)
    ensures ContainsIgnoreCase(s, t)
  {
    var i :| OccursAt(t, s, i);
    LowerStrSlice(s, i, i + |t|);
    assert OccursAt(LowerStr(t), LowerStr(s), i);
  }

  lemma EmptyOccursEverywhere(s: string)
    ensures ContainsIgnoreCase(s, "")
  {
    assert OccursAt(LowerStr(""), LowerStr(s), 0);
  }

  // ---------------------------------------------------------------------------
  // Decimal digits

  predicate IsDigit(ch: char) { '0' <= ch <= '9' }

  predicate AllDigits(s: string) {
    forall i :: 0 <= i < |s| ==> IsDigit(s[i])
  }

  function DigitValue(ch: char): (d: nat)
    requires IsDigit(ch)
    ensures d < 10
  {
    ch as int - '0' as int
  }

  function DigitChar(d: nat): (ch: char)
    requires d < 10
    ensures IsDigit(ch) && DigitValue(ch) == d
  {
    ('0' as int + d) as char
  }

  function Pow10(w: nat): (p: nat)
    ensures p >= 1
  {
    if w == 0 then 1 else 10 * Pow10(w - 1)
  }

  /** The natural number a string of decimal digits denotes. */
  function ValueOf(s: string): nat
    requires AllDigits(s)
  {
    if s == [] then 0 else 10 * ValueOf(s[..|s| - 1]) + DigitValue(s[|s| - 1])
  }

  lemma {:induction false} ValueOfBound(s: string)
    requires AllDigits(s)
    ensures ValueOf(s) < Pow10(|s|)
  {
    if s != [] {
      ValueOfBound(s[..|s| - 1]);
    }
  }

  /**
   * `n` written with exactly `width` digits, zero-padded on the left, as
   * strftime prints the fields of a date.
   */
  function PadDigits(n: nat, width: nat): (s: string)
    requires n < Pow10(width)
    ensures |s| == width && AllDigits(s) && ValueOf(s) == n
    decreases width
  {
    if width == 0 then
      []
    else
      var s := PadDigits(n / 10, width - 1) + [DigitChar(n % 10)];
      assert s[..|s| - 1] == PadDigits(n / 10, width - 1);
      s
  }

  /** Every digit string is the padded rendering of the value it denotes. */
  lemma {:induction false} PadDigitsOfValue(s: string)
    requires AllDigits(s)
    ensures ValueOf(s) < Pow10(|s|) && PadDigits(ValueOf(s), |s|) == s
  {
    ValueOfBound(s);
    if s != [] {
      var init := s[..|s| - 1];
      PadDigitsOfValue(init);
      var v := ValueOf(s);
      assert v / 10 == ValueOf(init) && v % 10 == DigitValue(s[|s| - 1]);
      assert s == init + [s[|s| - 1]];
    }
  }

  /** `n` in decimal without leading zeros, as Python's f-string shows an int. */
  function Decimal(n: nat): (s: string)
    ensures |s| >= 1 && AllDigits(s) && ValueOf(s) == n
    ensures |s| > 1 ==> s[0] != '0'
  {
    if n < 10 then
      [DigitChar(n)]
    else
      var s := Decimal(n / 10) + [DigitChar(n % 10)];
      assert s[..|s| - 1] == Decimal(n / 10);
      s
  }
}
