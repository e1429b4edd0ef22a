/**
 * The array container's pass over its items (`array::u_nullifyObjects`).
 *
 * What `item::u_nullifyObject` does to one item is defined outside this model;
 * it is taken as a parameter `nullify`.
 */
module Arrays {
  import opened Items

  /** The items after `nullify` has been applied to each of them, first to last. */
  function NullifyAll(s: seq<Item>, nullify: Item -> Item): (r: seq<Item>)
    ensures |r| == |s|
  {
    if s == [] then [] else [nullify(s[0])] + NullifyAll(s[1..], nullify)
  }

  /** The pass keeps the length and replaces each item by `nullify` of the item at the same index. */
  lemma {:induction false} NullifyAllAt(s: seq<Item>, nullify: Item -> Item)
    ensures |NullifyAll(s, nullify)| == |s|
    ensures forall i :: 0 <= i < |s| ==> NullifyAll(s, nullify)[i] == nullify(s[i])
  {
    if s != [] {
      NullifyAllAt(s[1..], nullify);
      forall i | 0 <= i < |s|
        ensures NullifyAll(s, nullify)[i] == nullify(s[i])
      {
        if i > 0 {
          assert NullifyAll(s, nullify)[i] == NullifyAll(s[1..], nullify)[i - 1];
        }
      }
    }
  }

  /** An array container: its items in order. */
  class JArray {
    var items: seq<Item>

    constructor (elements: seq<Item>)
      ensures items == elements
    {
      items := elements;
    }

    /** `u_nullifyObjects`: apply `nullify` to every item in place, first to last. */
    method NullifyObjects(nullify: Item -> Item)
      modifies this
      ensures items == NullifyAll(old(items), nullify)
      ensures |items| == |old(items)|
      ensures forall i :: 0 <= i < |items| ==> items[i] == nullify(old(items)[i])
    {
      ghost var start := items;
      var i := 0;
      while i < |items|
        invariant 0 <= i <= |items| == |start|
        invariant forall j :: 0 <= j < i ==> items[j] == nullify(start[j])
        invariant forall j :: i <= j < |items| ==> items[j] == start[j]
      {
        items := items[i := nullify(items[i])];
        i := i + 1;
      }
      NullifyAllAt(start, nullify);
    }
  }
}
