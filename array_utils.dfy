/**
 * The array helpers: whether two items share a property value (checkDuplicateInArray) and
 * whether some item's property, stringified, equals a given value stringified
 * (checkValueExistInObjectArray). An item is a plain object: its properties by name.
 */
module ArrayUtils {
  import opened Wrappers
  import Seqs

  /** `item[property]`: the value, or `undefined` (`None`) when the item lacks the property. */
  function Property<V>(item: map<string, V>, property: string): Option<V> {
    if property in item then Some(item[property]) else None
  }

  /** `items.map(item => item[property])`. */
  function PropertyArray<V>(items: seq<map<string, V>>, property: string): (r: seq<Option<V>>)
    ensures |r| == |items|
    ensures forall k :: 0 <= k < |items| ==> r[k] == Property(items[k], property)
  {
    seq(|items|, k requires 0 <= k < |items| => Property(items[k], property))
  }

  /** checkDuplicateInArray: the set of property values is smaller than the array. */
  function CheckDuplicateInArray<V(==,!new)>(items: seq<map<string, V>>, property: string): (r: bool)
    ensures r ==> |items| >= 2
  {
    var propertyArray := PropertyArray(items, property);
    Seqs.ElementsCardinality(propertyArray);
    |Seqs.Elements(propertyArray)| < |propertyArray|
  }

  /**
   * There is a duplicate exactly when two distinct positions hold equal property values;
   * items that all lack the property count as equal (`undefined` twice).
   */
  lemma CheckDuplicateInArrayIff<V(!new)>(items: seq<map<string, V>>, property: string)
    ensures CheckDuplicateInArray(items, property) <==>
      exists i, j :: 0 <= i < j < |items| && Property(items[i], property) == Property(items[j], property)
  {
    var values := PropertyArray(items, property);
    Seqs.ElementsCardinality(values);
    if !Seqs.Distinct(values) {
      var i, j :| 0 <= i < j < |values| && values[i] == values[j];
      assert Property(items[i], property) == Property(items[j], property);
    }
  }

  /** An empty or one-item array has no duplicate. */
  lemma CheckDuplicateInArraySmall<V(!new)>(items: seq<map<string, V>>, property: string)
    requires |items| <= 1
    ensures !CheckDuplicateInArray(items, property)
  {
    CheckDuplicateInArrayIff(items, property);
  }

  /** Every property value of `a` is a property value of `b` when `b` holds the items of `a`. */
  lemma PropertyValuesIncluded<V(!new)>(a: seq<map<string, V>>, b: seq<map<string, V>>, property: string)
    requires multiset(a) <= multiset(b)
    ensures Seqs.Elements(PropertyArray(a, property)) <= Seqs.Elements(PropertyArray(b, property))
  {
    forall x | x in Seqs.Elements(PropertyArray(a, property))
      ensures x in Seqs.Elements(PropertyArray(b, property))
    {
      var k :| 0 <= k < |a| && PropertyArray(a, property)[k] == x;
      assert a[k] in multiset(a);
      assert a[k] in multiset(b);
      var m :| 0 <= m < |b| && b[m] == a[k];
      assert PropertyArray(b, property)[m] == x;
    }
  }

  /** Reordering the array does not change the answer. */
  lemma CheckDuplicateInArrayPermutation<V(!new)>(a: seq<map<string, V>>, b: seq<map<string, V>>, property: string)
    requires multiset(a) == multiset(b)
    ensures CheckDuplicateInArray(a, property) == CheckDuplicateInArray(b, property)
  {
    assert |a| == |multiset(a)| == |multiset(b)| == |b|;
    PropertyValuesIncluded(a, b, property);
    PropertyValuesIncluded(b, a, property);
    var ea := Seqs.Elements(PropertyArray(a, property));
    var eb := Seqs.Elements(PropertyArray(b, property));
    assert ea == eb;
    assert |PropertyArray(a, property)| == |PropertyArray(b, property)|;
  }

  /**
   * checkValueExistInObjectArray. `toText` is `toString()` on a property value; an item that
   * lacks the property makes `undefined.toString()` throw, whichever item it is.
   */
  function CheckValueExistInObjectArray<V>(items: seq<map<string, V>>, property: string, value: V,
                                           toText: V -> string): (r: Result<bool, string>)
    ensures r.Failure? <==> exists k :: 0 <= k < |items| && property !in items[k]
    ensures r.Success? ==>
      (r.value <==> exists k :: 0 <= k < |items| && toText(items[k][property]) == toText(value))
  {
    if exists k :: 0 <= k < |items| && property !in items[k] then Failure("TypeError")
    else
      var propertyArray := seq(|items|, k requires 0 <= k < |items| => toText(items[k][property]));
      assert forall k :: 0 <= k < |items| ==> propertyArray[k] == toText(items[k][property]);
      Success(toText(value) in propertyArray)
  }

  /** Nothing is found in an empty array. */
  lemma CheckValueExistEmpty<V>(property: string, value: V, toText: V -> string)
    ensures CheckValueExistInObjectArray([], property, value, toText) == Success(false)
  {
  }

  /** Appending items never turns a found value into a missing one, nor hides a throw. */
  lemma CheckValueExistMonotone<V>(a: seq<map<string, V>>, b: seq<map<string, V>>, property: string,
                                   value: V, toText: V -> string)
    ensures CheckValueExistInObjectArray(a, property, value, toText).Failure?
      ==> CheckValueExistInObjectArray(a + b, property, value, toText).Failure?
    ensures CheckValueExistInObjectArray(a, property, value, toText) == Success(true)
      && CheckValueExistInObjectArray(a + b, property, value, toText).Success?
      ==> CheckValueExistInObjectArray(a + b, property, value, toText) == Success(true)
  {
    var r := CheckValueExistInObjectArray(a, property, value, toText);
    if r.Failure? {
      var k :| 0 <= k < |a| && property !in a[k];
      assert (a + b)[k] == a[k];
    }
    if r == Success(true) {
      var k :| 0 <= k < |a| && toText(a[k][property]) == toText(value);
      assert (a + b)[k] == a[k];
    }
  }
}
