/**
 * convertParameterValueToIAQI: the remap of a classified reading from its threshold's native
 * range [x, y] into the canonical index range [a, b] of the bucket with the same name.
 */
module ParameterStandardConstants {
  import opened Wrappers
  import Strings
  import ThingService

  /** One entry of the canonical threshold table. */
  datatype CanonicalRange = CanonicalRange(min: real, max: real)

  /** The canonical table, keyed by the bucket's constant name. */
  type CanonicalTable = map<string, CanonicalRange>

  /** The table key of a threshold name: upper-cased, with its first '-' replaced by '_'. */
  function CanonicalKey(thresholdName: string): (key: string)
    ensures |key| == |thresholdName|
  {
    Strings.ReplaceFirst(Strings.ToUpper(thresholdName), "-", "_")
  }

  /**
   * The arithmetic the code performs: the fraction of the way through [x, y], multiplied and
   * divided by 100 (which cancel), then divided by 100 once more before scaling to [a, b].
   */
  function Remap(v: real, x: real, y: real, a: real, b: real): (r: real)
    requires y != x
    ensures r == a + (v - x) * (b - a) / (100.0 * (y - x))
  {
    var percentageOfRange2 := (((v - x) / (y - x)) * 100.0) / 100.0;
    var valueInRange1 := (percentageOfRange2 / 100.0) * (b - a);
    a + valueInRange1
  }

  /** The low end of the native range maps to the low end of the canonical range. */
  lemma RemapAtMin(x: real, y: real, a: real, b: real)
    requires y != x
    ensures Remap(x, x, y, a, b) == a
  {
  }

  /** A quotient of a non-negative number by a larger one lies in [0, 1]. */
  lemma FractionInUnit(p: real, q: real)
    requires 0.0 <= p <= q && 0.0 < q
    ensures 0.0 <= p / q <= 1.0
  {
    assert (p / q) * q == p;
  }

  lemma DivideBySelf(d: real)
    requires d != 0.0
    ensures d / d == 1.0
  {
  }

  /** Scaling a non-negative length by a fraction in [0, 1] stays within that length. */
  lemma ScaleByFraction(f: real, c: real)
    requires 0.0 <= f <= 1.0 && 0.0 <= c
    ensures 0.0 <= f * c <= c
  {
    assert (1.0 - f) * c >= 0.0;
  }

  /** On [x, y] the result covers only the first hundredth of [a, b]. */
  lemma RemapBounds(v: real, x: real, y: real, a: real, b: real)
    requires x < y && a <= b && x <= v <= y
    ensures a <= Remap(v, x, y, a, b) <= a + (b - a) / 100.0
  {
    var f := (v - x) / (y - x);
    FractionInUnit(v - x, y - x);
    ScaleByFraction(f, b - a);
    assert (v - x) * (b - a) / (100.0 * (y - x)) == f * (b - a) / 100.0;
  }

  /** The remap is affine in the reading: result differences scale by (b - a) / (100 (y - x)). */
  lemma RemapDifference(v1: real, v2: real, x: real, y: real, a: real, b: real)
    requires y != x
    ensures Remap(v1, x, y, a, b) - Remap(v2, x, y, a, b) == (v1 - v2) * (b - a) / (100.0 * (y - x))
  {
    var d := 100.0 * (y - x);
    assert (v1 - x) * (b - a) / d - (v2 - x) * (b - a) / d == ((v1 - x) * (b - a) - (v2 - x) * (b - a)) / d;
    assert (v1 - x) * (b - a) - (v2 - x) * (b - a) == (v1 - v2) * (b - a);
  }

  /** A larger reading never gives a smaller index when both ranges ascend. */
  lemma RemapMonotone(v1: real, v2: real, x: real, y: real, a: real, b: real)
    requires x < y && a <= b && v1 <= v2
    ensures Remap(v1, x, y, a, b) <= Remap(v2, x, y, a, b)
  {
    RemapDifference(v2, v1, x, y, a, b);
    assert (v2 - v1) * (b - a) >= 0.0;
  }

  /**
   * convertParameterValueToIAQI. The canonical range is the table entry of the matched threshold's
   * name; a name the table lacks makes the property access throw, modelled as `None`.
   */
  function ConvertParameterValueToIAQI(parameter: ThingService.EvaluatedParameter, table: CanonicalTable): (r: Option<real>)
    requires parameter.threshold.max != parameter.threshold.min
    ensures r.None? <==> CanonicalKey(parameter.threshold.name) !in table
    ensures r.Some? ==>
      var range := table[CanonicalKey(parameter.threshold.name)];
      r.value == Remap(parameter.value, parameter.threshold.min, parameter.threshold.max, range.min, range.max)
  {
    var key := CanonicalKey(parameter.threshold.name);
    if key !in table then None
    else Some(Remap(parameter.value, parameter.threshold.min, parameter.threshold.max, table[key].min, table[key].max))
  }

  /**
   * The key of a name whose first '-' is at `i`: the name upper-cased, with an '_' in place of
   * that one '-'; any later '-' is kept.
   */
  lemma CanonicalKeyAt(name: string, i: nat)
    requires i < |name| && name[i] == '-' && '-' !in name[..i]
    ensures var key := CanonicalKey(name);
      && |key| == |name|
      && key[i] == '_'
      && forall j :: 0 <= j < |name| && j != i ==> key[j] == Strings.UpperChar(name[j])
  {
    var up := Strings.ToUpper(name);
    assert up[i..i + 1] == "-";
    forall j: nat | j < i ensures !Strings.OccursAt(up, "-", j) {
      assert name[..i][j] == name[j];
      assert up[j..j + 1] == [up[j]];
    }
    Strings.ReplaceFirstAt(up, "-", "_", i);
    var key := CanonicalKey(name);
    forall j | 0 <= j < |name| && j != i ensures key[j] == Strings.UpperChar(name[j]) {
      if j < i {
        assert key[j] == key[..i][j];
      } else {
        assert key[j] == key[i + 1..][j - i - 1];
      }
    }
    assert key[i] == key[i..i + 1][0];
  }

  /** A name without '-' is only upper-cased. */
  lemma CanonicalKeyWithoutHyphen(name: string)
    requires '-' !in name
    ensures CanonicalKey(name) == Strings.ToUpper(name)
  {
    var up := Strings.ToUpper(name);
    forall j: nat ensures !Strings.OccursAt(up, "-", j) {
      if j + 1 <= |up| {
        assert up[j..j + 1] == [up[j]];
      }
    }
    Strings.ReplaceFirstAbsent(up, "-", "_");
  }

  // ---------------------------------------------------------------------------
  // The range-to-range mapping the comments describe
  // ---------------------------------------------------------------------------

  /** The linear map that sends [x, y] onto [a, b]. */
  function RemapIntended(v: real, x: real, y: real, a: real, b: real): (r: real)
    requires y != x
    ensures r == a + (v - x) * (b - a) / (y - x)
  {
    a + ((v - x) / (y - x)) * (b - a)
  }

  /** The intended map fits range 1 onto range 2: both ends go to both ends, and it stays inside. */
  lemma RemapIntendedFitsRange(v: real, x: real, y: real, a: real, b: real)
    requires x < y && a <= b && x <= v <= y
    ensures RemapIntended(x, x, y, a, b) == a && RemapIntended(y, x, y, a, b) == b
    ensures a <= RemapIntended(v, x, y, a, b) <= b
  {
    var f := (v - x) / (y - x);
    FractionInUnit(v - x, y - x);
    ScaleByFraction(f, b - a);
    var g := f * (b - a);
    assert 0.0 <= g <= b - a;
    assert RemapIntended(v, x, y, a, b) == a + g;
    DivideBySelf(y - x);
    assert RemapIntended(y, x, y, a, b) == b;
  }

  /** A reading of 120 in [100, 500] fitted into [150, 200]: the code yields 150.025, not 152.5. */
  lemma RemapFallsShortOfRange()
    ensures Remap(120.0, 100.0, 500.0, 150.0, 200.0) == 150.025
    ensures RemapIntended(120.0, 100.0, 500.0, 150.0, 200.0) == 152.5
    ensures Remap(500.0, 100.0, 500.0, 150.0, 200.0) == 150.5 != 200.0
  {
  }
}
