// The characteristics registry shared by all administrands
// (src/liboscats/administrand.c:35-61, 98-111, 162-323) and, with the same
// code kept per class, by all items (src/liboscats/item.c:59-63, 108-114,
// 209-378). A characteristic is a GQuark (a nonzero integer naming a
// string). The registry maps each registered quark to a bit index, keeps
// the reverse array, and reserves index 0 with quark 0 as the "unknown"
// sentinel. Every live administrand owns a bit array with one bit per
// registered index, resized in lockstep with the table.

module Characteristics {

  /** `quark_to_char` (a hash table) and `char_to_quark` (an array). */
  datatype Table = Table(index: map<nat, nat>, quarks: seq<nat>)

  /** The table right after `initialize_static`: only the sentinel 0 -> 0. */
  function Initial(): (t: Table)
    ensures Coherent(t)
    ensures Size(t) == 1 && t.quarks == [0]
  {
    Table(map[0 := 0], [0])
  }

  /** `g_hash_table_size(quark_to_char)`. */
  function Size(t: Table): nat
  {
    |t.index|
  }

  /** `g_hash_table_lookup(quark_to_char, q)`: 0 for a quark not in the table. */
  function Lookup(t: Table, q: nat): nat
  {
    if q in t.index then t.index[q] else 0
  }

  /** The two halves of the table agree: the sentinel sits at index 0 and the
      array lists every registered quark at its own index. */
  ghost predicate Coherent(t: Table)
  {
    && 0 in t.index && t.index[0] == 0
    && |t.quarks| == Size(t)
    && (forall q :: q in t.index ==> t.index[q] < |t.quarks| && t.quarks[t.index[q]] == q)
    && (forall i :: 0 <= i < |t.quarks| ==> t.quarks[i] in t.index && t.index[t.quarks[i]] == i)
  }

  /** `register_characteristic` as written: the quark is (re)inserted with the
      current hash size as its index and appended to the array, whether or not
      it was already registered. The array always grows by one, but the hash
      grows only for a new quark, so a known quark leaves them out of step. */
  function RegisteredAsWritten(t: Table, q: nat): (r: Table)
    ensures |r.quarks| == |t.quarks| + 1 && r.quarks[|t.quarks|] == q
    ensures q in r.index && r.index[q] == Size(t)
    ensures Size(r) == if q in t.index then Size(t) else Size(t) + 1
  {
    Table(t.index[q := Size(t)], t.quarks + [q])
  }

  /** Registration as the documentation describes it: adding a quark that is
      already in the table leaves the table alone. */
  function Registered(t: Table, q: nat): (r: Table)
    ensures q in t.index ==> r == t
  {
    if q in t.index then t else RegisteredAsWritten(t, q)
  }

  /** Registering a new quark gives it index = old registry size, keeps every
      other quark's index and keeps the table coherent. */
  lemma RegisterNew(t: Table, q: nat)
    requires Coherent(t) && q !in t.index
    ensures Coherent(Registered(t, q))
    ensures Lookup(Registered(t, q), q) == Size(t) == |t.quarks|
    ensures Size(Registered(t, q)) == Size(t) + 1
    ensures forall p :: p != q ==> Lookup(Registered(t, q), p) == Lookup(t, p)
  {
    var r := Registered(t, q);
    assert r.index.Keys == t.index.Keys + {q};
    assert |r.index| == |t.index| + 1;
    forall i | 0 <= i < |r.quarks|
      ensures r.quarks[i] in r.index && r.index[r.quarks[i]] == i
    {
      if i < |t.quarks| {
        assert r.quarks[i] == t.quarks[i];
      }
    }
  }

  /** Registering a quark twice, as written, gives the next new quark the same
      index as the re-registered one, so the two share one bit. */
  lemma ReRegistrationCollides()
    ensures var t := RegisteredAsWritten(RegisteredAsWritten(RegisteredAsWritten(Initial(), 1), 1), 2);
            Lookup(t, 1) == Lookup(t, 2) && !Coherent(t)
  {
    var t1 := RegisteredAsWritten(Initial(), 1);
    assert t1.index.Keys == {0, 1};
    var t2 := RegisteredAsWritten(t1, 1);
    assert t2.index.Keys == {0, 1};
    var t3 := RegisteredAsWritten(t2, 2);
    assert t3.index[1] == 2 && t3.index[2] == 2;
  }

  /** The bit array (`GBitArray`) of one administrand, with its iterator position. */
  class Flags {
    var bits: seq<bool>
    var iter: nat

    constructor (n: nat)
      ensures bits == seq(n, _ => false) && iter == 0
    {
      bits := seq(n, _ => false);
      iter := 0;
    }
  }

  class Registry {
    var table: Table
    /** The `administrands` tree: every live owner of a flag array. */
    var members: set<Flags>

    ghost predicate Valid()
      reads this, members
    {
      && Coherent(table)
      && forall f :: f in members ==> |f.bits| == |table.quarks| && !f.bits[0]
    }

    /** The registry after `initialize_static`; nobody is registered yet. */
    constructor ()
      ensures Valid()
      ensures table == Initial() && members == {}
    {
      table := Initial();
      members := {};
    }

    /** `oscats_administrand_init`: a new owner gets one clear bit per
        registered index and joins the tree. */
    method NewMember() returns (f: Flags)
      requires Valid()
      modifies this
      ensures Valid()
      ensures fresh(f) && f.bits == seq(Size(old(table)), _ => false)
      ensures table == old(table) && members == old(members) + {f}
    {
      f := new Flags(Size(table));
      members := members + {f};
    }

    /** `dispose`: the owner leaves the tree and is no longer resized. */
    method Dispose(f: Flags)
      requires Valid()
      modifies this
      ensures Valid()
      ensures table == old(table) && members == old(members) - {f}
    {
      members := members - {f};
    }

    /** `register_characteristic`: a new quark takes index = registry size, is
        appended to the array, and every live owner grows by one clear bit. */
    method Register(q: nat)
      requires Valid()
      modifies this, members
      ensures Valid()
      ensures members == old(members)
      ensures table == Registered(old(table), q)
      ensures q in old(table.index) ==> forall f :: f in members ==> f.bits == old(f.bits)
      ensures q !in old(table.index) ==> forall f :: f in members ==> f.bits == old(f.bits) + [false]
      ensures forall f :: f in members ==> f.iter == old(f.iter)
    {
      if q in table.index {
        return;
      }
      RegisterNew(table, q);
      table := Registered(table, q);
      var todo := members;
      while todo != {}
        invariant todo <= members
        invariant table == Registered(old(table), q) && members == old(members)
        invariant forall f :: f in members && f !in todo ==> f.bits == old(f.bits) + [false]
        invariant forall f :: f in todo ==> f.bits == old(f.bits)
        invariant forall f :: f in members ==> f.iter == old(f.iter)
        decreases |todo|
      {
        var f :| f in todo;
        f.bits := f.bits + [false];
        todo := todo - {f};
      }
    }

    /** `reset_characteristics`: back to the sentinel alone; every owner is cut
        down to its single (clear) bit 0. */
    method Reset()
      requires Valid()
      modifies this, members
      ensures Valid()
      ensures table == Initial() && members == old(members)
      ensures forall f :: f in members ==> f.bits == [false] && f.iter == old(f.iter)
    {
      table := Initial();
      var todo := members;
      while todo != {}
        invariant todo <= members
        invariant table == Initial() && members == old(members)
        invariant forall f :: f in members && f !in todo ==> f.bits == [false]
        invariant forall f :: f in todo ==> f.bits == old(f.bits)
        invariant forall f :: f in members ==> f.iter == old(f.iter)
        decreases |todo|
      {
        var f :| f in todo;
        f.bits := f.bits[..1];
        todo := todo - {f};
      }
    }

    /** `has_characteristic`: the bit at the quark's index, so an unknown
        quark (index 0) is never present. */
    function Has(f: Flags, q: nat): (r: bool)
      requires Valid() && f in members
      reads this, members
      ensures r ==> q != 0 && q in table.index
      ensures r <==> f.bits[Lookup(table, q)]
    {
      f.bits[Lookup(table, q)]
    }

    /** `set_characteristic`: an unknown quark is registered first; then its
        bit is set. Only that bit changes. */
    method Set(f: Flags, q: nat)
      requires Valid() && f in members && q != 0
      modifies this, members
      ensures Valid()
      ensures table == Registered(old(table), q) && members == old(members)
      ensures Lookup(table, q) >= 1
      ensures Has(f, q)
      ensures forall p :: p != q ==> Has(f, p) == old(Has(f, p))
      ensures q in old(table.index) ==> forall g :: g in members && g != f ==> g.bits == old(g.bits)
      ensures q !in old(table.index) ==> forall g :: g in members && g != f ==> g.bits == old(g.bits) + [false]
      ensures forall g :: g in members ==> g.iter == old(g.iter)
    {
      var c := Lookup(table, q);
      if c == 0 {
        assert q !in table.index;
        c := Size(table);
        RegisterNew(table, q);
        Register(q);
      }
      f.bits := f.bits[c := true];
    }

    /** `clear_characteristic`: unknown quarks are ignored; a known one loses
        only its own bit. */
    method Clear(f: Flags, q: nat)
      requires Valid() && f in members
      modifies f
      ensures Valid()
      ensures !Has(f, q)
      ensures Lookup(table, q) == 0 ==> f.bits == old(f.bits)
      ensures Lookup(table, q) != 0 ==> f.bits == old(f.bits)[Lookup(table, q) := false]
      ensures forall p :: Lookup(table, p) != Lookup(table, q) ==> Has(f, p) == old(Has(f, p))
    {
      var c := Lookup(table, q);
      if c != 0 {
        f.bits := f.bits[c := false];
      }
    }

    /** `clear_characteristics`: every bit cleared, the length kept. */
    method ClearAll(f: Flags)
      requires Valid() && f in members
      modifies f
      ensures Valid()
      ensures f.bits == seq(|old(f.bits)|, _ => false)
      ensures forall p :: !Has(f, p)
    {
      f.bits := seq(|f.bits|, _ => false);
    }

    /** `characteristics_iter_reset`. */
    method IterReset(f: Flags)
      modifies f
      ensures f.bits == old(f.bits) && f.iter == 0
    {
      f.iter := 0;
    }

    /** `characteristics_iter_next`: the quark at the next set bit at or after
        the iterator, or 0 when no set bit is left. */
    method IterNext(f: Flags) returns (q: nat)
      requires Valid() && f in members
      modifies f
      ensures Valid()
      ensures f.bits == old(f.bits)
      ensures q == 0 <==> forall i :: old(f.iter) <= i < |f.bits| ==> !f.bits[i]
      ensures q != 0 ==> Has(f, q)
      ensures q != 0 ==> old(f.iter) <= Lookup(table, q) < f.iter
      ensures q != 0 ==> forall i :: old(f.iter) <= i < Lookup(table, q) ==> !f.bits[i]
    {
      var i := f.iter;
      while i < |f.bits| && !f.bits[i]
        invariant f.iter <= i
        invariant forall k :: f.iter <= k < i && k < |f.bits| ==> !f.bits[k]
        decreases |f.bits| - i
      {
        i := i + 1;
      }
      if i < |f.bits| {
        q := table.quarks[i];
        assert Lookup(table, q) == i;
        f.iter := i + 1;
      } else {
        q := 0;
        f.iter := i;
      }
    }
  }
}
