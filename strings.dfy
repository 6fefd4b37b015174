/**
 * The parts of JavaScript's string semantics the modelled code relies on: `indexOf` and
 * `replace` with a string pattern, ASCII case mapping, `split` on one character, and
 * numerals in a radix between 2 and 36 (`Number.prototype.toString(radix)`, `parseInt`).
 */
module Strings {
  import opened Wrappers
  import Seqs

  // ---------------------------------------------------------------------------
  // Searching and replacing
  // ---------------------------------------------------------------------------

  /** True iff `pat` occurs in `s` starting at position `i`. */
  predicate OccursAt(s: string, pat: string, i: nat) {
    i + |pat| <= |s| && s[i..i + |pat|] == pat
  }

  /** The first position at or after `from` where `pat` occurs in `s`, if any. */
  function IndexOfFrom(s: string, pat: string, from: nat): (r: Option<nat>)
    decreases |s| - from
    ensures r.Some? ==> from <= r.value && OccursAt(s, pat, r.value)
    ensures r.Some? ==> forall j :: from <= j < r.value ==> !OccursAt(s, pat, j)
    ensures r.None? ==> forall j :: from <= j ==> !OccursAt(s, pat, j)
  {
    if from + |pat| > |s| then None
    else if |pat| == 0 || s[from..from + |pat|] == pat then Some(from)
    else IndexOfFrom(s, pat, from + 1)
  }

  /** `s.indexOf(pat)`, with `None` standing for -1. */
  function IndexOf(s: string, pat: string): Option<nat> {
    IndexOfFrom(s, pat, 0)
  }

  /** `s.replace(pat, rep)` for a string pattern: only the first occurrence is replaced, literally. */
  function ReplaceFirst(s: string, pat: string, rep: string): (r: string)
    ensures (forall j :: !OccursAt(s, pat, j)) ==> r == s
    ensures (exists j :: OccursAt(s, pat, j)) ==> |r| == |s| - |pat| + |rep|
  {
    match IndexOf(s, pat)
    case None => s
    case Some(i) => s[..i] + rep + s[i + |pat|..]
  }

  /** A pattern that does not occur leaves the string as it was. */
  lemma ReplaceFirstAbsent(s: string, pat: string, rep: string)
    requires forall j :: !OccursAt(s, pat, j)
    ensures ReplaceFirst(s, pat, rep) == s
  {
  }

  /**
   * When `pat` occurs first at `i`, the text before `i` is kept, `rep` takes the place of that
   * one occurrence, and everything after it, later occurrences included, is kept unchanged.
   */
  lemma ReplaceFirstAt(s: string, pat: string, rep: string, i: nat)
    requires OccursAt(s, pat, i)
    requires forall j: nat :: j < i ==> !OccursAt(s, pat, j)
    ensures var r := ReplaceFirst(s, pat, rep);
      && |r| == |s| - |pat| + |rep|
      && r[..i] == s[..i]
      && r[i..i + |rep|] == rep
      && r[i + |rep|..] == s[i + |pat|..]
  {
    assert IndexOf(s, pat) == Some(i);
    var r := ReplaceFirst(s, pat, rep);
    assert r == s[..i] + rep + s[i + |pat|..];
    assert r[..i] == s[..i];
    assert r[i..i + |rep|] == rep;
    assert r[i + |rep|..] == s[i + |pat|..];
  }

  // ---------------------------------------------------------------------------
  // Case mapping (ASCII letters only)
  // ---------------------------------------------------------------------------

  function LowerChar(c: char): char {
    if 'A' <= c <= 'Z' then (c as int - 'A' as int + 'a' as int) as char else c
  }

  function UpperChar(c: char): char {
    if 'a' <= c <= 'z' then (c as int - 'a' as int + 'A' as int) as char else c
  }

  /** `s.toLowerCase()` restricted to ASCII letters: every character is mapped on its own. */
  function ToLower(s: string): (r: string)
    ensures |r| == |s|
    ensures forall i :: 0 <= i < |s| ==> r[i] == LowerChar(s[i])
  {
    seq(|s|, i requires 0 <= i < |s| => LowerChar(s[i]))
  }

  /** `s.toUpperCase()` restricted to ASCII letters. */
  function ToUpper(s: string): (r: string)
    ensures |r| == |s|
    ensures forall i :: 0 <= i < |s| ==> r[i] == UpperChar(s[i])
  {
    seq(|s|, i requires 0 <= i < |s| => UpperChar(s[i]))
  }

  // ---------------------------------------------------------------------------
  // Splitting on one character
  // ---------------------------------------------------------------------------

  /** `s.split(sep)`: the pieces between separators; the empty string gives one empty piece. */
  function Split(s: string, sep: char): (parts: seq<string>)
    decreases |s|
    ensures |parts| > 0
    ensures forall k :: 0 <= k < |parts| ==> sep !in parts[k]
  {
    if sep !in s then [s]
    else
      var i := Seqs.FirstIndex(s, sep);
      [s[..i]] + Split(s[i + 1..], sep)
  }

  /** `parts.join(sep)`. */
  function Join(parts: seq<string>, sep: char): string
    requires |parts| > 0
  {
    if |parts| == 1 then parts[0] else parts[0] + [sep] + Join(parts[1..], sep)
  }

  /** Splitting loses nothing: joining the pieces with the separator gives the string back. */
  lemma {:induction false} JoinSplit(s: string, sep: char)
    decreases |s|
    ensures Join(Split(s, sep), sep) == s
  {
    if sep in s {
      var i := Seqs.FirstIndex(s, sep);
      JoinSplit(s[i + 1..], sep);
      var tail := Split(s[i + 1..], sep);
      assert Split(s, sep) == [s[..i]] + tail;
      assert ([s[..i]] + tail)[1..] == tail;
      assert s == s[..i] + [sep] + s[i + 1..];
    }
  }

  /** The first separator found by `split` is the one with no separator before it. */
  lemma SplitAtFirst(s: string, sep: char, i: nat)
    requires i < |s| && s[i] == sep && sep !in s[..i]
    ensures Split(s, sep) == [s[..i]] + Split(s[i + 1..], sep)
  {
    var k := Seqs.FirstIndex(s, sep);
    assert forall m :: 0 <= m < i ==> s[..i][m] == s[m];
    assert forall m :: 0 <= m < k ==> s[..k][m] == s[m];
  }

  /** A separator between two strings splits them apart: the pieces of each, in order. */
  lemma {:induction false} SplitConcat(a: string, b: string, sep: char)
    decreases |a|
    ensures Split(a + [sep] + b, sep) == Split(a, sep) + Split(b, sep)
  {
    if sep !in a {
      SplitConcatFirst(a, b, sep);
    } else {
      var j := Seqs.FirstIndex(a, sep);
      var rest := a[j + 1..];
      SplitAtFirst(a, sep, j);
      SplitConcat(rest, b, sep);
      SplitConcatLater(a, b, sep, j);
      Seqs.ConcatAssoc([a[..j]], Split(rest, sep), Split(b, sep));
    }
  }

  /** With no separator in `a`, the first piece is `a` itself. */
  lemma SplitConcatFirst(a: string, b: string, sep: char)
    requires sep !in a
    ensures Split(a + [sep] + b, sep) == [a] + Split(b, sep)
  {
    var s := a + [sep] + b;
    assert s[..|a|] == a;
    SplitAtFirst(s, sep, |a|);
    assert s[|a| + 1..] == b;
  }

  /** With the first separator of `a` at `j`, the first piece is the part of `a` before it. */
  lemma SplitConcatLater(a: string, b: string, sep: char, j: nat)
    requires j < |a| && a[j] == sep && sep !in a[..j]
    ensures Split(a + [sep] + b, sep) == [a[..j]] + Split(a[j + 1..] + [sep] + b, sep)
  {
    var s := a + [sep] + b;
    assert s[..j] == a[..j];
    SplitAtFirst(s, sep, j);
    assert s[j + 1..] == a[j + 1..] + [sep] + b;
  }

  // ---------------------------------------------------------------------------
  // Numerals in a radix between 2 and 36
  // ---------------------------------------------------------------------------

  predicate ValidRadix(radix: nat) {
    2 <= radix <= 36
  }

  /** The digit character for `d`, lower-case letters from 10 on, as `toString(radix)` writes it. */
  function DigitChar(d: nat): char
    requires d < 36
  {
    if d < 10 then ('0' as int + d) as char else ('a' as int + d - 10) as char
  }

  /** The value `parseInt` gives a digit character (either case); 36 for a character that is no digit. */
  function DigitValue(c: char): nat {
    if '0' <= c <= '9' then c as int - '0' as int
    else if 'a' <= c <= 'z' then c as int - 'a' as int + 10
    else if 'A' <= c <= 'Z' then c as int - 'A' as int + 10
    else 36
  }

  lemma DigitValueOfChar(d: nat)
    requires d < 36
    ensures DigitValue(DigitChar(d)) == d
  {
  }

  predicate IsNumeral(s: string, radix: nat) {
    forall i :: 0 <= i < |s| ==> DigitValue(s[i]) < radix
  }

  /** Euclidean division by a radix, spelled out for the solver. */
  lemma DivideByRadix(n: nat, radix: nat)
    requires ValidRadix(radix)
    ensures n == (n / radix) * radix + n % radix
    ensures 0 <= n % radix < radix
    ensures n >= radix ==> 1 <= n / radix < n
  {
    if n >= radix {
      assert n / radix < n by {
        assert (n / radix) * radix >= (n / radix) * 2;
      }
    }
  }

  /** `n.toString(radix)` for a non-negative integer: no leading zero, "0" for zero. */
  function NatToString(n: nat, radix: nat): (r: string)
    requires ValidRadix(radix)
    decreases n
    ensures |r| > 0 && IsNumeral(r, radix)
    ensures r[0] == '0' ==> n == 0
  {
    if n < radix then [DigitChar(n)]
    else
      DivideByRadix(n, radix);
      NatToString(n / radix, radix) + [DigitChar(n % radix)]
  }

  /** The value of a numeral read most-significant digit first, as `parseInt(s, radix)` reads it. */
  function ParseNat(s: string, radix: nat): nat
    requires IsNumeral(s, radix)
    decreases |s|
  {
    if s == [] then 0
    else ParseNat(s[..|s| - 1], radix) * radix + DigitValue(s[|s| - 1])
  }

  /** One digit reads as its value; a numeral whose leading digit is not zero is positive. */
  lemma {:induction false} ParseNatLeadingDigit(s: string, radix: nat)
    requires IsNumeral(s, radix)
    decreases |s|
    ensures |s| == 1 ==> ParseNat(s, radix) == DigitValue(s[0])
    ensures |s| > 0 && DigitValue(s[0]) > 0 ==> ParseNat(s, radix) > 0
  {
    if |s| == 1 {
      assert s[..0] == [];
    } else if |s| > 1 {
      var init := s[..|s| - 1];
      assert init[0] == s[0];
      ParseNatLeadingDigit(init, radix);
      var high := ParseNat(init, radix);
      assert ParseNat(s, radix) == high * radix + DigitValue(s[|s| - 1]);
      if DigitValue(s[0]) > 0 {
        PositiveProduct(high, radix);
      }
    }
  }

  lemma PositiveProduct(x: nat, y: nat)
    requires x > 0 && y > 0
    ensures x * y > 0
  {
  }

  /** Reading back what `NatToString` wrote gives the number again. */
  lemma {:induction false} ParseNatToString(n: nat, radix: nat)
    requires ValidRadix(radix)
    decreases n
    ensures ParseNat(NatToString(n, radix), radix) == n
  {
    if n < radix {
      DigitValueOfChar(n);
      assert [DigitChar(n)][..0] == [];
    } else {
      DivideByRadix(n, radix);
      var hi := NatToString(n / radix, radix);
      var s := hi + [DigitChar(n % radix)];
      ParseNatToString(n / radix, radix);
      DigitValueOfChar(n % radix);
      assert s[..|s| - 1] == hi;
    }
  }

  /** A run of one repeated character. */
  function Repeat(c: char, k: nat): (r: string)
    ensures |r| == k
    ensures forall i :: 0 <= i < k ==> r[i] == c
  {
    seq(k, _ => c)
  }

  /** Leading zeros do not change the value of a numeral. */
  lemma {:induction false} ParseNatLeadingZeros(k: nat, s: string, radix: nat)
    requires ValidRadix(radix) && IsNumeral(s, radix)
    decreases |s|
    ensures IsNumeral(Repeat('0', k) + s, radix)
    ensures ParseNat(Repeat('0', k) + s, radix) == ParseNat(s, radix)
  {
    var z := Repeat('0', k);
    assert IsNumeral(z + s, radix) by {
      forall i | 0 <= i < |z + s| ensures DigitValue((z + s)[i]) < radix {
        if i >= k { assert (z + s)[i] == s[i - k]; }
      }
    }
    if s == [] {
      assert z + s == z;
      ParseNatZeros(k, radix);
    } else {
      var init := s[..|s| - 1];
      ParseNatLeadingZeros(k, init, radix);
      assert (z + s)[..|z + s| - 1] == z + init;
    }
  }

  lemma {:induction false} ParseNatZeros(k: nat, radix: nat)
    requires ValidRadix(radix)
    ensures IsNumeral(Repeat('0', k), radix)
    ensures ParseNat(Repeat('0', k), radix) == 0
  {
    if k > 0 {
      ParseNatZeros(k - 1, radix);
      assert Repeat('0', k)[..k - 1] == Repeat('0', k - 1);
    }
  }
}
