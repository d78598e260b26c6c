/**
 * The code resolver: what a scanned code opens. A record in the selected
 * warehouse opens the check-in/out dialog; otherwise the item form opens,
 * prefilled from the first other warehouse (in directory order) holding the
 * code, or blank.
 */
module Resolver {
  import opened Wrappers
  import opened Registry

  /** What the scan leads to; each case carries the new current item. */
  datatype Resolution =
    | CheckInOut(current: Item)
    | Prefill(template: Item)
    | Blank(template: Item)
  {
    /** The current item the scan installs. */
    function Shown(): Item {
      match this
      case CheckInOut(it) => it
      case Prefill(t) => t
      case Blank(t) => t
    }
  }

  /** The template for a code no warehouse holds; absent stamps are modelled as "". */
  function BlankTemplate(code: string): Item {
    Item("", "", 0, "", "", "", Some(code))
  }

  /** Warehouse `name` is not the selected one and holds a record under `code`. */
  predicate HoldsElsewhere(shelves: map<string, Shelf>, selected: string, code: string, name: string) {
    name != selected && name in shelves && code in shelves[name].items
  }

  /**
   * The loop over the warehouses with early return: the record of the first
   * warehouse in `names`, other than the selected one, that holds `code`.
   */
  function FindItemInOtherWarehouses(names: seq<string>, shelves: map<string, Shelf>, selected: string, code: string)
    : (r: Option<Item>)
    ensures r.None? <==> forall i :: 0 <= i < |names| ==> !HoldsElsewhere(shelves, selected, code, names[i])
    ensures r.Some? ==>
              exists i :: 0 <= i < |names| && HoldsElsewhere(shelves, selected, code, names[i])
                          && r.value == shelves[names[i]].items[code]
                          && forall j :: 0 <= j < i ==> !HoldsElsewhere(shelves, selected, code, names[j])
  {
    if names == [] then None
    else if HoldsElsewhere(shelves, selected, code, names[0]) then Some(shelves[names[0]].items[code])
    else
      var r := FindItemInOtherWarehouses(names[1..], shelves, selected, code);
      assert forall i :: 1 <= i < |names| ==> names[i] == names[1..][i - 1];
      r
  }

  /**
   * `handleQRScan`: a local record wins whatever other warehouses hold; else
   * the first other warehouse's record, with the scanned code and quantity 0;
   * else a blank template.
   */
  function Resolve(w: Warehouses, selected: string, code: string): (r: Resolution)
    ensures Lookup(w, selected, code).Some? ==>
              r == CheckInOut(w.shelves[selected].items[code].(qrCode := Some(code)))
    ensures r.Prefill? <==>
              Lookup(w, selected, code).None? &&
              exists i :: 0 <= i < |w.names| && HoldsElsewhere(w.shelves, selected, code, w.names[i])
    ensures r.Prefill? ==>
              exists i :: 0 <= i < |w.names| && HoldsElsewhere(w.shelves, selected, code, w.names[i])
                          && r.template == w.shelves[w.names[i]].items[code].(qrCode := Some(code), quantity := 0)
                          && forall j :: 0 <= j < i ==> !HoldsElsewhere(w.shelves, selected, code, w.names[j])
    ensures r.Blank? <==>
              Lookup(w, selected, code).None? &&
              forall i :: 0 <= i < |w.names| ==> !HoldsElsewhere(w.shelves, selected, code, w.names[i])
    ensures r.Blank? ==> r.template == BlankTemplate(code)
    ensures r.Shown().qrCode == Some(code)
  {
    match Lookup(w, selected, code)
    case Some(item) => CheckInOut(item.(qrCode := Some(code)))
    case None =>
      match FindItemInOtherWarehouses(w.names, w.shelves, selected, code)
      case Some(other) => Prefill(other.(qrCode := Some(code), quantity := 0))
      case None => Blank(BlankTemplate(code))
  }

  /**
   * The item form opened by a prefill shows the other warehouse's item
   * number, description and color with quantity 0; a blank form cannot be
   * submitted as it stands.
   */
  lemma PrefillForm(w: Warehouses, selected: string, code: string)
    requires Resolve(w, selected, code).Prefill?
    ensures exists n :: n in w.shelves && n != selected && code in w.shelves[n].items &&
              var other := w.shelves[n].items[code];
              InitialForm(Resolve(w, selected, code).template) == ItemForm(other.itemNumber, other.description, 0, other.color)
  {
    var i :| 0 <= i < |w.names| && HoldsElsewhere(w.shelves, selected, code, w.names[i])
             && Resolve(w, selected, code).template == w.shelves[w.names[i]].items[code].(qrCode := Some(code), quantity := 0);
    var n := w.names[i];
  }

  lemma BlankFormIncomplete(w: Warehouses, selected: string, code: string)
    requires Resolve(w, selected, code).Blank?
    ensures InitialForm(Resolve(w, selected, code).template) == ItemForm("", "", 0, "")
    ensures !FormComplete(InitialForm(Resolve(w, selected, code).template))
  {
  }
}
