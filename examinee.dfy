// An examinee (src/liboscats/examinee.c): true and estimated abilities,
// true and estimated attribute patterns, and the history of administered
// items with the responses given, kept in two arrays that grow together.

module Examinee {
  import opened Optional
  import opened Attributes
  import Item

  /** A response as the `guint8` history array stores it. */
  type Byte = x: nat | x < 256

  class Examinee {
    const id: Option<string>
    var trueTheta: Option<seq<real>>
    var thetaHat: Option<seq<real>>
    /** The size of the square covariance matrix of `thetaHat`, once made. */
    var thetaErr: Option<nat>
    var trueAlpha: Attributes?
    var alphaHat: Attributes?
    /** Whether `prep` has allocated the history arrays. */
    var prepared: bool
    var items: seq<Item.Item>
    var resp: seq<Byte>

    /** The history arrays grow together and exist only after `prep`; the
        two patterns are distinct objects. */
    ghost predicate Valid()
      reads this
    {
      && |items| == |resp|
      && (!prepared ==> items == [])
      && (trueAlpha != null && alphaHat != null ==> trueAlpha != alphaHat)
    }

    constructor (id: Option<string>)
      ensures Valid() && this.id == id
      ensures trueTheta.None? && thetaHat.None? && thetaErr.None?
      ensures trueAlpha == null && alphaHat == null
      ensures !prepared && items == [] && resp == []
    {
      this.id := id;
      trueTheta, thetaHat, thetaErr := None, None, None;
      trueAlpha, alphaHat := null, null;
      prepared := false;
      items, resp := [], [];
    }

    /** `prep`: both history arrays exist and are empty. */
    method Prep()
      requires Valid()
      modifies this
      ensures Valid() && prepared && items == [] && resp == []
      ensures trueTheta == old(trueTheta) && thetaHat == old(thetaHat) && thetaErr == old(thetaErr)
      ensures trueAlpha == old(trueAlpha) && alphaHat == old(alphaHat)
    {
      prepared := true;
      items := [];
      resp := [];
    }

    /** `add_item`: the pair is appended to both arrays; before `prep` the
        arrays do not exist and glib's NULL guards make it a no-op. */
    method AddItem(item: Item.Item, r: Byte)
      requires Valid()
      modifies this
      ensures Valid() && prepared == old(prepared)
      ensures prepared ==> items == old(items) + [item] && resp == old(resp) + [r]
      ensures !prepared ==> items == old(items) && resp == old(resp)
      ensures trueTheta == old(trueTheta) && thetaHat == old(thetaHat) && thetaErr == old(thetaErr)
      ensures trueAlpha == old(trueAlpha) && alphaHat == old(alphaHat)
    {
      if prepared {
        items := items + [item];
        resp := resp + [r];
      }
    }

    /** `num_items`: 0 before `prep`, then the length of the history. */
    function NumItems(): (n: nat)
      reads this
      requires Valid()
      ensures !prepared ==> n == 0
      ensures n == |items| == |resp|
    {
      |items|
    }

    /** `set_true_theta`: the stored vector, created or resized as needed,
        equals `t`. */
    method SetTrueTheta(t: seq<real>)
      requires Valid()
      modifies this
      ensures Valid() && trueTheta == Some(t)
      ensures thetaHat == old(thetaHat) && thetaErr == old(thetaErr) && items == old(items) && resp == old(resp)
      ensures prepared == old(prepared) && trueAlpha == old(trueAlpha) && alphaHat == old(alphaHat)
    {
      trueTheta := Some(t);
    }

    /** `set_theta_hat`: the stored vector, created or resized as needed,
        equals `t`. */
    method SetThetaHat(t: seq<real>)
      requires Valid()
      modifies this
      ensures Valid() && thetaHat == Some(t)
      ensures trueTheta == old(trueTheta) && thetaErr == old(thetaErr) && items == old(items) && resp == old(resp)
      ensures prepared == old(prepared) && trueAlpha == old(trueAlpha) && alphaHat == old(alphaHat)
    {
      thetaHat := Some(t);
    }

    /** `init_theta_err`: a new dim × dim matrix; a zero dimension is refused. */
    method InitThetaErr(dim: nat)
      requires Valid()
      modifies this
      ensures Valid()
      ensures dim > 0 ==> thetaErr == Some(dim)
      ensures dim == 0 ==> thetaErr == old(thetaErr)
      ensures trueTheta == old(trueTheta) && thetaHat == old(thetaHat) && items == old(items) && resp == old(resp)
      ensures prepared == old(prepared) && trueAlpha == old(trueAlpha) && alphaHat == old(alphaHat)
    {
      if dim > 0 {
        thetaErr := Some(dim);
      }
    }

    /** `set_true_alpha`: the pattern, created on first use, takes `attr`'s
        width and bits; the estimate is untouched. */
    method SetTrueAlpha(attr: Attributes)
      requires Valid()
      modifies this, trueAlpha
      ensures Valid() && trueAlpha != null
      ensures old(trueAlpha) != null ==> trueAlpha == old(trueAlpha)
      ensures old(trueAlpha) == null ==> fresh(trueAlpha)
      ensures trueAlpha.num == old(attr.num) && trueAlpha.data == old(attr.data)
      ensures alphaHat == old(alphaHat) && (alphaHat != null ==> alphaHat.num == old(alphaHat.num) && alphaHat.data == old(alphaHat.data))
      ensures prepared == old(prepared) && items == old(items) && resp == old(resp)
      ensures trueTheta == old(trueTheta) && thetaHat == old(thetaHat) && thetaErr == old(thetaErr)
    {
      if trueAlpha == null {
        trueAlpha := new Attributes(0);
      }
      trueAlpha.Copy(attr);
    }

    /** `set_alpha_hat`: the estimate, created on first use, takes `attr`'s
        width and bits; the true pattern is untouched. */
    method SetAlphaHat(attr: Attributes)
      requires Valid()
      modifies this, alphaHat
      ensures Valid() && alphaHat != null
      ensures old(alphaHat) != null ==> alphaHat == old(alphaHat)
      ensures old(alphaHat) == null ==> fresh(alphaHat)
      ensures alphaHat.num == old(attr.num) && alphaHat.data == old(attr.data)
      ensures trueAlpha == old(trueAlpha) && (trueAlpha != null ==> trueAlpha.num == old(trueAlpha.num) && trueAlpha.data == old(trueAlpha.data))
      ensures prepared == old(prepared) && items == old(items) && resp == old(resp)
      ensures trueTheta == old(trueTheta) && thetaHat == old(thetaHat) && thetaErr == old(thetaErr)
    {
      if alphaHat == null {
        alphaHat := new Attributes(0);
      }
      alphaHat.Copy(attr);
    }
  }
}
