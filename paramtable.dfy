// The named-parameter table every model keeps: `names[i]` is the quark of
// the name of `params[i]`. Lookup and update by name act on the first index
// holding the name (irtmodel.c:470-546, discrmodel.c:326-409).

module ParamTable {
  import opened Optional
  import opened Search

  /** `get_param`: the value at the first index named `q`, 0 for an unknown name. */
  function Get(names: seq<nat>, params: seq<real>, q: nat): (v: real)
    requires |names| == |params|
    ensures q !in names ==> v == 0.0
    ensures q in names ==> exists i :: 0 <= i < |names| && names[i] == q && v == params[i]
  {
    match First(names, q)
    case None => 0.0
    case Some(i) => params[i]
  }

  /** `set_param`: the table with the first index named `q` set to `v`;
      unchanged for an unknown name. */
  function Put(names: seq<nat>, params: seq<real>, q: nat, v: real): (r: seq<real>)
    requires |names| == |params|
    ensures |r| == |params|
    ensures q !in names ==> r == params
    ensures forall i :: 0 <= i < |r| && names[i] != q ==> r[i] == params[i]
  {
    match First(names, q)
    case None => params
    case Some(i) => params[i := v]
  }

  /** Setting a known name and reading it back gives the value set; reading
      any other name gives what it gave before. */
  lemma GetPut(names: seq<nat>, params: seq<real>, q: nat, v: real, p: nat)
    requires |names| == |params|
    ensures q in names ==> Get(names, Put(names, params, q, v), q) == v
    ensures p != q ==> Get(names, Put(names, params, q, v), p) == Get(names, params, p)
  {
  }
}
