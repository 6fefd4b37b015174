/** Failure-compatible result types shared by every module of the model. */
module Wrappers {

  /** A value that may be absent (JavaScript's `undefined` for a missing key or an empty lookup). */
  datatype Option<+T> = None | Some(value: T) {
    function GetOr(default: T): T {
      match this
      case Some(v) => v
      case None => default
    }
  }

  /** The outcome of an operation that either yields a value or throws an exception with a message. */
  datatype Result<+R, +E> = Success(value: R) | Failure(error: E)
}

/** JavaScript value shapes that the modelled code distinguishes. */
module Js {

  /**
   * A field of a request object that may be left out (`undefined`), be set to `null`, or hold a value.
   * Loose equality `x == undefined` holds exactly for the first two.
   */
  datatype Nullable<+T> = Undefined | Null | Defined(value: T) {
    predicate IsNullish() {
      Undefined? || Null?
    }
  }

  /** The values a validator can meet; only `typeof value === 'number'` matters to the modelled code. */
  datatype Value =
    | Number(n: real)
    | Text(s: string)
    | Boolean(b: bool)
    | NullValue
    | UndefinedValue
    | Object

  predicate IsNumber(v: Value) {
    v.Number?
  }
}

/** Generic facts about sequences used by several modules. */
module Seqs {

  /** `s.indexOf(x)` for an element that occurs: the position of its first occurrence. */
  function FirstIndex<T(==)>(s: seq<T>, x: T): (i: nat)
    requires x in s
    ensures i < |s| && s[i] == x && x !in s[..i]
  {
    if s[0] == x then 0
    else
      var j := FirstIndex(s[1..], x);
      assert s[..j + 1] == [s[0]] + s[1..][..j];
      j + 1
  }

  /** Concatenation is associative. */
  lemma ConcatAssoc<T>(x: seq<T>, y: seq<T>, z: seq<T>)
    ensures x + (y + z) == (x + y) + z
  {
  }

  /** No element occurs twice. */
  predicate Distinct<T(==)>(s: seq<T>) {
    forall i, j :: 0 <= i < j < |s| ==> s[i] != s[j]
  }

  /** The set of the elements of `s`, as `new Set(s)` holds them. */
  function Elements<T(==,!new)>(s: seq<T>): (r: set<T>)
    ensures forall x :: x in r <==> x in s
  {
    set x | x in s
  }

  /** The set of the elements is as large as the sequence exactly when no element repeats. */
  lemma {:induction false} ElementsCardinality<T(!new)>(s: seq<T>)
    decreases |s|
    ensures |Elements(s)| <= |s|
    ensures |Elements(s)| == |s| <==> Distinct(s)
  {
    if s != [] {
      var init := s[..|s| - 1];
      var x := s[|s| - 1];
      ElementsCardinality(init);
      assert s == init + [x];
      assert Elements(s) == Elements(init) + {x};
      if x in init {
        assert Elements(s) == Elements(init);
        var k := FirstIndex(init, x);
        assert s[k] == s[|s| - 1];
      } else {
        assert |Elements(s)| == |Elements(init)| + 1;
        if Distinct(init) {
          forall i, j | 0 <= i < j < |s| ensures s[i] != s[j] {
            if j < |s| - 1 {
              assert s[i] == init[i] && s[j] == init[j];
            } else {
              assert s[i] in init;
            }
          }
        } else {
          var i, j :| 0 <= i < j < |init| && init[i] == init[j];
          assert s[i] == s[j];
        }
      }
    }
  }
}
