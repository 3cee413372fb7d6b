// GLib's quark table: every interned string gets a nonzero integer, its
// GQuark; 0 names no string. Quark q >= 1 names `strings[q - 1]`.

module Quarks {
  import opened Optional
  import opened Search

  /** The quark of `s` in a table listing the interned strings in order. */
  function QuarkOf(strings: seq<string>, s: string): (q: nat)
    ensures q == 0 <==> s !in strings
    ensures q != 0 ==> q <= |strings| && strings[q - 1] == s
  {
    match First(strings, s)
    case None => 0
    case Some(i) => i + 1
  }

  /** Interning more strings keeps the quark of every string already there. */
  lemma QuarkOfExtended(strings: seq<string>, more: seq<string>, s: string)
    requires s in strings
    ensures QuarkOf(strings + more, s) == QuarkOf(strings, s)
  {
    var i := First(strings, s).value;
    assert (strings + more)[i] == s;
    FirstUnique(strings + more, s, i);
  }

  class QuarkTable {
    var strings: seq<string>

    /** No string is interned twice. */
    ghost predicate Valid()
      reads this
    {
      forall i, j :: 0 <= i < j < |strings| ==> strings[i] != strings[j]
    }

    constructor ()
      ensures Valid() && strings == []
    {
      strings := [];
    }

    /** `g_quark_try_string`: the quark of an interned string, 0 otherwise. */
    function TryString(s: string): (q: nat)
      reads this
      ensures q == 0 <==> s !in strings
      ensures q != 0 ==> q <= |strings| && strings[q - 1] == s
    {
      QuarkOf(strings, s)
    }

    /** `g_quark_to_string`: NULL for 0 and for a quark never handed out;
        the string it names maps back to the same quark. */
    function ToString(q: nat): (r: Option<string>)
      reads this
      requires Valid()
      ensures r.Some? <==> 1 <= q <= |strings|
      ensures r.Some? ==> TryString(r.value) == q
    {
      if 1 <= q <= |strings| then
        FirstUnique(strings, strings[q - 1], q - 1);
        Some(strings[q - 1])
      else None
    }

    /** `g_quark_from_string`: the existing quark of `s`, or a new one. */
    method FromString(s: string) returns (q: nat)
      requires Valid()
      modifies this
      ensures Valid()
      ensures q >= 1 && q == TryString(s)
      ensures s in old(strings) ==> strings == old(strings)
      ensures s !in old(strings) ==> strings == old(strings) + [s]
    {
      var i := 0;
      while i < |strings|
        invariant 0 <= i <= |strings|
        invariant forall k :: 0 <= k < i ==> strings[k] != s
      {
        if strings[i] == s {
          return i + 1;
        }
        i := i + 1;
      }
      strings := strings + [s];
      q := |strings|;
      FirstUnique(strings, s, q - 1);
    }
  }
}
