// A test item (src/liboscats/item.c): an optional continuous model, an
// optional discrete model and the item's characteristic flags. The class
// keeps its own characteristics registry with the same code as the
// administrand one (item.c:59-63, 108-114, 209-378), modelled by
// `Characteristics.Registry`.

module Item {
  import opened Optional
  import opened Characteristics
  import IrtModel
  import DiscrModel

  /** What `constructed` reports with g_critical. */
  datatype Problem = NoModel | IncompatibleMax

  /** The checks of `constructed`, on the largest response of each model present. */
  function Diagnose(contMax: Option<nat>, discrMax: Option<nat>): (r: Option<Problem>)
    ensures r == Some(NoModel) <==> contMax.None? && discrMax.None?
    ensures r == Some(IncompatibleMax) <==> contMax.Some? && discrMax.Some? && contMax.value != discrMax.value
  {
    if contMax.None? && discrMax.None? then Some(NoModel)
    else if contMax.Some? && discrMax.Some? && contMax.value != discrMax.value then Some(IncompatibleMax)
    else None
  }

  /** The continuous model's `get_max`, or None when there is none. */
  function ContMax(cont: IrtModel.Model?): (r: Option<nat>)
    ensures r.None? <==> cont == null
    ensures r.Some? ==> r.value == cont.max
  {
    if cont == null then None else Some(cont.max)
  }

  /** The discrete model's `get_max`, or None when there is none: both
      discrete models score 0/1. */
  function DiscrMax(discr: DiscrModel.Model?): (r: Option<nat>)
    ensures r.None? <==> discr == null
    ensures r.Some? ==> r.value == 1
  {
    if discr == null then None else Some(DiscrModel.KindMax(discr.kind))
  }

  class Item {
    const id: Option<string>
    const cont: IrtModel.Model?
    const discr: DiscrModel.Model?
    /** The item's characteristic bits. */
    const chars: Flags
    /** The complaint `constructed` logged, if any; the item is made regardless. */
    const problem: Option<Problem>

    /** `oscats_item_init` then `constructed`: the item joins the registry
        with one clear bit per registered characteristic, then the model
        checks run. */
    constructor (reg: Registry, id: Option<string>, cont: IrtModel.Model?, discr: DiscrModel.Model?)
      requires reg.Valid()
      modifies reg
      ensures reg.Valid()
      ensures fresh(chars) && chars.bits == seq(Size(old(reg.table)), _ => false)
      ensures reg.table == old(reg.table) && reg.members == old(reg.members) + {chars}
      ensures this.id == id && this.cont == cont && this.discr == discr
      ensures problem == Diagnose(ContMax(cont), DiscrMax(discr))
    {
      var f := reg.NewMember();
      this.id := id;
      this.cont := cont;
      this.discr := discr;
      chars := f;
      problem := Diagnose(ContMax(cont), DiscrMax(discr));
    }
  }
}
