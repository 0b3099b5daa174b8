/**
 * The e-commerce cart seed: a cart kept in a raw array that starts with ten
 * slots and doubles when full, an accessor that hands out the array itself,
 * and a total of ten per item. A Java `null` slot is `None`; the items are
 * arbitrary objects of type `T`.
 */
module ShoppingCartSeed {

  import opened Wrappers

  const InitialCapacity: nat := 10
  const PricePerItem: int := 10

  /**
   * The slots after `add`: when every slot is taken the array is replaced by
   * one twice as long holding the same first `size` slots and nulls after
   * them; then the item goes into slot `size`.
   */
  function Added<T>(slots: seq<Option<T>>, size: nat, item: Option<T>): (r: seq<Option<T>>)
    requires 0 < |slots| && size <= |slots|
    ensures |r| == (if size == |slots| then 2 * |slots| else |slots|)
    ensures size < |r|
    ensures r[..size] == slots[..size]
    ensures r[size] == item
    ensures forall k :: size < k < |r| ==> r[k] == (if size == |slots| then None else slots[k])
  {
    var grown := if size >= |slots| then slots[..size] + seq(|slots| * 2 - size, _ => None) else slots;
    grown[size := item]
  }

  /** The slots after adding every item of `xs` in turn. */
  function AddAll<T>(slots: seq<Option<T>>, size: nat, xs: seq<Option<T>>): (r: seq<Option<T>>)
    requires 0 < |slots| && size <= |slots|
    ensures size + |xs| <= |r|
    decreases |xs|
  {
    if |xs| == 0 then slots
    else AddAll(Added(slots, size, xs[0]), size + 1, xs[1..])
  }

  /** Items added one after another sit in the array in the order they came, after the old ones. */
  lemma {:induction false} AddAllStores<T>(slots: seq<Option<T>>, size: nat, xs: seq<Option<T>>)
    requires 0 < |slots| && size <= |slots|
    ensures AddAll(slots, size, xs)[..size] == slots[..size]
    ensures AddAll(slots, size, xs)[size..size + |xs|] == xs
    decreases |xs|
  {
    if |xs| > 0 {
      var next := Added(slots, size, xs[0]);
      AddAllStores(next, size + 1, xs[1..]);
      var r := AddAll(next, size + 1, xs[1..]);
      assert r[..size + 1] == next[..size + 1];
      assert next[..size + 1] == slots[..size] + [xs[0]];
      assert r[..size] == r[..size + 1][..size];
      assert r[size..size + |xs|] == [r[size]] + r[size + 1..size + 1 + |xs[1..]|];
      assert xs == [xs[0]] + xs[1..];
    }
  }

  /** A new cart filled with `xs` holds exactly `xs` in its first slots. */
  lemma FilledCartHoldsItems<T>(xs: seq<Option<T>>)
    ensures AddAll(seq(InitialCapacity, _ => None), 0, xs)[..|xs|] == xs
  {
    AddAllStores(seq(InitialCapacity, _ => None), 0, xs);
  }

  class ShoppingCart<T> {
    var items: array<Option<T>>
    var size: int

    /** The class invariant: the array never shrinks below ten slots and holds the used prefix. */
    ghost predicate Valid()
      reads this
    {
      InitialCapacity <= items.Length && 0 <= size <= items.Length
    }

    constructor ()
      ensures Valid() && size == 0 && fresh(items)
      ensures items[..] == seq(InitialCapacity, _ => None)
    {
      items := new Option<T>[InitialCapacity](_ => None);
      size := 0;
    }

    method Add(item: Option<T>)
      requires Valid()
      modifies this, items
      ensures Valid()
      ensures size == old(size) + 1
      ensures items[..] == Added(old(items[..]), old(size), item)
    {
      if size >= items.Length {
        var newItems := new Option<T>[items.Length * 2](_ => None);
        var k := 0;
        while k < size
          modifies newItems
          invariant 0 <= k <= size
          invariant newItems[..k] == items[..k]
          invariant forall j :: k <= j < newItems.Length ==> newItems[j] == None
        {
          newItems[k] := items[k];
          k := k + 1;
        }
        assert newItems[..] == items[..size] + seq(items.Length * 2 - size, _ => None);
        items := newItems;
      }
      items[size] := item;
      size := size + 1;
    }

    /** Returns the internal array itself, not a copy. */
    method GetItems() returns (r: array<Option<T>>)
      ensures r == items
    {
      r := items;
    }

    function GetSize(): int
      reads this
    {
      size
    }
  }

  /** `calculateTotal`: ten for every item in the cart. */
  method CalculateTotal<T>(cart: ShoppingCart<T>) returns (total: int)
    requires cart.Valid()
    ensures total == PricePerItem * cart.GetSize()
  {
    total := 0;
    var i := 0;
    while i < cart.GetSize()
      invariant 0 <= i <= cart.GetSize()
      invariant total == PricePerItem * i
    {
      var price := 10;
      total := total + price;
      i := i + 1;
    }
  }
}
