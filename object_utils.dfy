/**
 * The object helpers: deleting own properties in place (deleteProps) and flattening a nested
 * array completely while keeping only the first occurrence of each value (removeDuplicateInArray).
 */
module ObjectUtils {
  import Seqs

  // ---------------------------------------------------------------------------
  // deleteProps
  // ---------------------------------------------------------------------------

  /** The own properties of `m` without those named in `props`. */
  function WithoutKeys<V>(m: map<string, V>, props: seq<string>): (r: map<string, V>)
    ensures forall p :: p in props ==> p !in r
    ensures forall k :: k in m && k !in props ==> k in r && r[k] == m[k]
    ensures forall k :: k in r ==> k in m
  {
    map k | k in m && k !in props :: m[k]
  }

  /** Deleting the same names a second time changes nothing. */
  lemma WithoutKeysIdempotent<V>(m: map<string, V>, props: seq<string>)
    ensures WithoutKeys(WithoutKeys(m, props), props) == WithoutKeys(m, props)
  {
  }

  /** Deleting names in two batches is deleting them all at once. */
  lemma WithoutKeysCompose<V>(m: map<string, V>, p: seq<string>, q: seq<string>)
    ensures WithoutKeys(WithoutKeys(m, p), q) == WithoutKeys(m, p + q)
  {
  }

  /** A JavaScript object, seen through its own properties. */
  class JsObject<V> {
    var own: map<string, V>

    constructor (own: map<string, V>)
      ensures this.own == own
    {
      this.own := own;
    }

    /**
     * deleteProps: deletes, one name at a time, each listed name that is an own property,
     * and returns the same object.
     */
    method DeleteProps(props: seq<string>) returns (r: JsObject<V>)
      modifies this
      ensures r == this
      ensures own == WithoutKeys(old(own), props)
    {
      var i := 0;
      while i < |props|
        invariant 0 <= i <= |props|
        invariant own == WithoutKeys(old(own), props[..i])
      {
        assert props[..i + 1] == props[..i] + [props[i]];
        if props[i] in own {
          own := own - {props[i]};
        }
        i := i + 1;
      }
      assert props[..|props|] == props;
      r := this;
    }
  }

  // ---------------------------------------------------------------------------
  // removeDuplicateInArray
  // ---------------------------------------------------------------------------

  /** An array element: a value, or an array nested to any depth. */
  datatype Nested<T> = Leaf(value: T) | Array(items: seq<Nested<T>>)

  /** `items.flat(Infinity)`: every value, in left-to-right order, at whatever depth. */
  function Flat<T>(items: seq<Nested<T>>): (r: seq<T>)
    decreases items
    ensures forall k :: 0 <= k < |items| && items[k].Leaf? ==> items[k].value in r
  {
    if items == [] then []
    else
      var head := match items[0] case Leaf(v) => [v] case Array(xs) => Flat(xs);
      assert forall k :: 1 <= k < |items| ==> items[1..][k - 1] == items[k];
      head + Flat(items[1..])
  }

  /** An array of plain values flattens to those values. */
  lemma {:induction false} FlatLeaves<T>(xs: seq<T>)
    decreases |xs|
    ensures Flat(seq(|xs|, k requires 0 <= k < |xs| => Leaf(xs[k]))) == xs
  {
    if xs != [] {
      var leaves := seq(|xs|, k requires 0 <= k < |xs| => Leaf(xs[k]));
      FlatLeaves(xs[1..]);
      assert leaves[1..] == seq(|xs[1..]|, k requires 0 <= k < |xs[1..]| => Leaf(xs[1..][k]));
    }
  }

  /**
   * The filter `array.indexOf(value) === index` over the first `n` elements of `s`: the elements
   * whose first occurrence is where they stand. The result lists every value of the prefix
   * exactly once, ordered by first occurrence.
   */
  function KeepFirsts<T(==)>(s: seq<T>, n: nat): (r: seq<T>)
    requires n <= |s|
    decreases n
    ensures forall k :: 0 <= k < |r| ==> r[k] in s && Seqs.FirstIndex(s, r[k]) < n
    ensures forall i, j :: 0 <= i < j < |r| ==> Seqs.FirstIndex(s, r[i]) < Seqs.FirstIndex(s, r[j])
    ensures forall i :: 0 <= i < n ==> s[i] in r
  {
    if n == 0 then []
    else
      var x := s[n - 1];
      var r := KeepFirsts(s, n - 1) + (if Seqs.FirstIndex(s, x) == n - 1 then [x] else []);
      assert Seqs.FirstIndex(s, x) < n - 1 ==> s[Seqs.FirstIndex(s, x)] == x;
      r
  }

  /** removeDuplicateInArray. */
  function RemoveDuplicateInArray<T(==,!new)>(input: seq<Nested<T>>): (r: seq<T>)
    ensures Seqs.Distinct(r)
    ensures forall x :: x in r <==> x in Flat(input)
    ensures forall i, j :: 0 <= i < j < |r| ==>
      Seqs.FirstIndex(Flat(input), r[i]) < Seqs.FirstIndex(Flat(input), r[j])
  {
    var flat := Flat(input);
    KeepFirsts(flat, |flat|)
  }

  /** Keeping first occurrences of a sequence without repeats keeps all of it. */
  lemma {:induction false} KeepFirstsOfDistinct<T>(s: seq<T>, n: nat)
    requires Seqs.Distinct(s) && n <= |s|
    decreases n
    ensures KeepFirsts(s, n) == s[..n]
  {
    if n > 0 {
      KeepFirstsOfDistinct(s, n - 1);
      var i := Seqs.FirstIndex(s, s[n - 1]);
      assert s[i] == s[n - 1];
      assert s[..n] == s[..n - 1] + [s[n - 1]];
    }
  }

  /** Removing duplicates from an already deduplicated array gives it back. */
  lemma RemoveDuplicateInArrayIdempotent<T(!new)>(input: seq<Nested<T>>)
    ensures var r := RemoveDuplicateInArray(input);
      RemoveDuplicateInArray(seq(|r|, k requires 0 <= k < |r| => Leaf(r[k]))) == r
  {
    var r := RemoveDuplicateInArray(input);
    FlatLeaves(r);
    KeepFirstsOfDistinct(r, |r|);
    assert r[..|r|] == r;
  }
}
