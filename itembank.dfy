// The item bank (src/liboscats/itembank.c): an append-only list of items.
// The first item fixes the bank's test dimension and attribute count; later
// items must agree with them.

module ItemBank {
  import opened Optional
  import Item
  import DiscrModel

  /** What `max_response` reads from one item: the continuous model's
      `get_max` for a continuous bank, the discrete one otherwise; a missing
      model answers 0 (the getter's NULL guard). */
  function ItemMax(item: Item.Item, irt: bool): (m: nat)
    ensures var model := if irt then Item.ContMax(item.cont) else Item.DiscrMax(item.discr);
      m == if model.Some? then model.value else 0
  {
    if irt then (if item.cont != null then item.cont.max else 0)
    else (if item.discr != null then DiscrModel.KindMax(item.discr.kind) else 0)
  }

  /** The largest `ItemMax` among `items`, 0 for none. */
  function MaxOf(items: seq<Item.Item>, irt: bool): (m: nat)
    ensures forall i :: 0 <= i < |items| ==> ItemMax(items[i], irt) <= m
  {
    if items == [] then 0
    else
      var rest := MaxOf(items[..|items| - 1], irt);
      var last := ItemMax(items[|items| - 1], irt);
      if last > rest then last else rest
  }

  /** The bound is attained: the maximum is 0 or some item's value. */
  lemma {:induction false} MaxOfAttained(items: seq<Item.Item>, irt: bool)
    ensures MaxOf(items, irt) == 0 || exists i :: 0 <= i < |items| && ItemMax(items[i], irt) == MaxOf(items, irt)
  {
    if items != [] {
      var p := items[..|items| - 1];
      MaxOfAttained(p, irt);
      if MaxOf(items, irt) != ItemMax(items[|items| - 1], irt) && MaxOf(items, irt) != 0 {
        var i :| 0 <= i < |p| && ItemMax(p[i], irt) == MaxOf(p, irt);
        assert items[i] == p[i];
      }
    }
  }

  class ItemBank {
    var items: seq<Item.Item>
    /** `Ndims` and `Nattrs`: fixed by the first item added. */
    var ndims: nat
    var nattrs: nat

    /** Every item's models agree with the bank's dimension and attribute count. */
    ghost predicate Valid()
      reads this
    {
      forall i :: 0 <= i < |items| ==>
        (items[i].cont != null ==> items[i].cont.testDim == ndims) &&
        (items[i].discr != null ==> items[i].discr.testDim == nattrs)
    }

    constructor ()
      ensures Valid() && items == [] && ndims == 0 && nattrs == 0
    {
      items := [];
      ndims := 0;
      nattrs := 0;
    }

    /** `add_item`: into an empty bank the item's dimensions are recorded
        first; an item whose models disagree with the recorded ones is
        refused and nothing changes; otherwise it is appended. */
    method AddItem(item: Item.Item)
      requires Valid()
      modifies this
      ensures Valid()
      ensures old(items) == [] ==> items == [item]
      ensures old(items) == [] ==>
        ndims == (if item.cont != null then item.cont.testDim else old(ndims)) &&
        nattrs == (if item.discr != null then item.discr.testDim else old(nattrs))
      ensures old(items) != [] ==> ndims == old(ndims) && nattrs == old(nattrs)
      ensures old(items) != [] ==>
        var fits := (item.cont != null ==> item.cont.testDim == ndims) && (item.discr != null ==> item.discr.testDim == nattrs);
        items == if fits then old(items) + [item] else old(items)
    {
      if items == [] {
        if item.cont != null {
          ndims := item.cont.testDim;
        }
        if item.discr != null {
          nattrs := item.discr.testDim;
        }
      }
      if item.cont != null && ndims != item.cont.testDim {
        return;
      }
      if item.discr != null && nattrs != item.discr.testDim {
        return;
      }
      items := items + [item];
    }

    /** `get_item`: NULL beyond the last item. */
    function GetItem(i: nat): (r: Option<Item.Item>)
      reads this
      ensures r.Some? <==> i < |items|
      ensures r.Some? ==> r.value == items[i]
    {
      if i < |items| then Some(items[i]) else None
    }

    /** `is_irt` (`is_cont`): the first item has a continuous model; false when empty. */
    function IsIrt(): (r: bool)
      reads this
      ensures r <==> |items| > 0 && items[0].cont != null
    {
      |items| > 0 && items[0].cont != null
    }

    /** `is_class` (`is_discr`): the first item has a discrete model; false when empty. */
    function IsClass(): (r: bool)
      reads this
      ensures r <==> |items| > 0 && items[0].discr != null
    {
      |items| > 0 && items[0].discr != null
    }

    /** `max_response`: the largest response any item allows, asking each
        item's continuous or discrete model as the first item decides. */
    method MaxResponse() returns (max: nat)
      ensures max == MaxOf(items, IsIrt())
    {
      var irt := IsIrt();
      max := 0;
      var i := 0;
      while i < |items|
        invariant 0 <= i <= |items|
        invariant max == MaxOf(items[..i], irt)
      {
        assert items[..i + 1][..i] == items[..i];
        var k := ItemMax(items[i], irt);
        if k > max {
          max := k;
        }
        i := i + 1;
      }
      assert items[..i] == items;
    }
  }
}
