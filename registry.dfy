/**
 * The item registry: every warehouse's map from scan code to item record, kept
 * together with the insertion order of warehouse names and of codes, because
 * JavaScript object iteration order drives both the resolver and the report.
 */
module Registry {
  import opened Wrappers

  /**
   * A stored item record. `qrCode` is present only on records written by the
   * check-in/out path, which spreads the current item (that carries the scanned
   * code) into the store; records written by the item form have none.
   */
  datatype Item = Item(
    itemNumber: string,
    description: string,
    quantity: int,
    color: string,
    lastUpdated: string,
    lastUpdatedBy: string,
    qrCode: Option<string>)

  /** One warehouse: its codes in insertion order and the records they key. */
  datatype Shelf = Shelf(codes: seq<string>, items: map<string, Item>)

  /** All warehouses: names in insertion order and each one's shelf. */
  datatype Warehouses = Warehouses(names: seq<string>, shelves: map<string, Shelf>)

  const EmptyShelf := Shelf([], map[])

  predicate Distinct(s: seq<string>) {
    forall i, j :: 0 <= i < j < |s| ==> s[i] != s[j]
  }

  /** The codes list is exactly the key set of the records, without repeats. */
  ghost predicate ValidShelf(s: Shelf) {
    Distinct(s.codes) && forall c :: c in s.codes <==> c in s.items
  }

  /** The names list is exactly the key set of the shelves, without repeats. */
  ghost predicate Valid(w: Warehouses) {
    && Distinct(w.names)
    && (forall n :: n in w.names <==> n in w.shelves)
    && (forall n :: n in w.shelves ==> ValidShelf(w.shelves[n]))
  }

  /** The record under `code` in warehouse `name`, if both exist. */
  function Lookup(w: Warehouses, name: string, code: string): Option<Item> {
    if name in w.shelves && code in w.shelves[name].items then Some(w.shelves[name].items[code]) else None
  }

  /** The four fields the item form edits and hands to the registry. */
  datatype ItemForm = ItemForm(itemNumber: string, description: string, quantity: int, color: string)

  /**
   * The form's initial state from the current item: each field or its
   * default ('' for text, 0 for the quantity); `x || d` yields `d` exactly
   * when `x` is already '' or 0, so the copy is exact.
   */
  function InitialForm(t: Item): ItemForm {
    ItemForm(t.itemNumber, t.description, t.quantity, t.color)
  }

  /** The submit guard of the item form: item number, description and color are non-empty. */
  predicate FormComplete(f: ItemForm) {
    f.itemNumber != "" && f.description != "" && f.color != ""
  }

  /** The record the registry stores for a submitted form: the four fields plus the stamps. */
  function Stamp(f: ItemForm, now: string, user: string): Item {
    Item(f.itemNumber, f.description, f.quantity, f.color, now, user, None)
  }

  /** The codes of a warehouse, or none when it does not exist yet. */
  function CodesOf(w: Warehouses, name: string): seq<string> {
    if name in w.shelves then w.shelves[name].codes else []
  }

  /**
   * The store with `item` written under `code` in warehouse `name`, creating
   * the warehouse when it is missing.
   * Only that one entry changes; a new warehouse name and a new code are
   * appended, an existing code keeps its place.
   */
  function Put(w: Warehouses, name: string, code: string, item: Item): (r: Warehouses)
    requires Valid(w)
    ensures Valid(r)
    ensures Lookup(r, name, code) == Some(item)
    ensures forall n, c :: n != name || c != code ==> Lookup(r, n, c) == Lookup(w, n, c)
    ensures r.names == if name in w.names then w.names else w.names + [name]
  {
    var shelf := if name in w.shelves then w.shelves[name] else EmptyShelf;
    var codes := if code in shelf.items then shelf.codes else shelf.codes + [code];
    var names := if name in w.shelves then w.names else w.names + [name];
    var r := Warehouses(names, w.shelves[name := Shelf(codes, shelf.items[code := item])]);
    PutKeepsValid(w, name, code, item, r);
    PutFrame(w, name, code, item, r);
    r
  }

  /**
   * The layout after a write: one more warehouse at most, the other
   * warehouses untouched, and a new code appended after the existing ones.
   */
  lemma PutShape(w: Warehouses, name: string, code: string, item: Item)
    requires Valid(w)
    ensures var r := Put(w, name, code, item);
            && r.shelves.Keys == w.shelves.Keys + {name}
            && (forall n :: n in w.shelves && n != name ==> r.shelves[n] == w.shelves[n])
            && r.shelves[name].codes ==
                 if code in CodesOf(w, name) then CodesOf(w, name) else CodesOf(w, name) + [code]
  {
  }

  /** Writing one entry leaves every other (warehouse, code) lookup as it was. */
  lemma PutFrame(w: Warehouses, name: string, code: string, item: Item, r: Warehouses)
    requires r.shelves.Keys == w.shelves.Keys + {name}
    requires forall n :: n in w.shelves && n != name ==> r.shelves[n] == w.shelves[n]
    requires r.shelves[name].items == (if name in w.shelves then w.shelves[name].items else map[])[code := item]
    ensures forall n, c :: n != name || c != code ==> Lookup(r, n, c) == Lookup(w, n, c)
  {
  }

  lemma DistinctAppend(s: seq<string>, x: string)
    requires Distinct(s) && x !in s
    ensures Distinct(s + [x])
  {
  }

  lemma PutShelfValid(w: Warehouses, name: string, code: string, s: Shelf)
    requires Valid(w)
    requires s.items.Keys == (if name in w.shelves then w.shelves[name].items.Keys else {}) + {code}
    requires s.codes == if code in CodesOf(w, name) then CodesOf(w, name) else CodesOf(w, name) + [code]
    ensures ValidShelf(s)
  {
    if code !in CodesOf(w, name) {
      DistinctAppend(CodesOf(w, name), code);
    }
  }

  lemma PutNamesValid(w: Warehouses, name: string, r: Warehouses)
    requires Valid(w)
    requires r.names == if name in w.shelves then w.names else w.names + [name]
    requires r.shelves.Keys == w.shelves.Keys + {name}
    ensures Distinct(r.names)
    ensures forall n :: n in r.names <==> n in r.shelves
  {
    if name !in w.shelves {
      DistinctAppend(w.names, name);
    }
    forall n
      ensures n in r.names <==> n in r.shelves
    {
      assert n in w.names <==> n in w.shelves;
    }
  }

  lemma PutKeepsValid(w: Warehouses, name: string, code: string, item: Item, r: Warehouses)
    requires Valid(w)
    requires r.names == if name in w.shelves then w.names else w.names + [name]
    requires r.shelves.Keys == w.shelves.Keys + {name}
    requires forall n :: n in w.shelves && n != name ==> r.shelves[n] == w.shelves[n]
    requires r.shelves[name].items.Keys == (if name in w.shelves then w.shelves[name].items.Keys else {}) + {code}
    requires r.shelves[name].codes ==
               if code in CodesOf(w, name) then CodesOf(w, name) else CodesOf(w, name) + [code]
    ensures Valid(r)
  {
    PutNamesValid(w, name, r);
    forall n | n in r.shelves
      ensures ValidShelf(r.shelves[n])
    {
      if n == name {
        PutShelfValid(w, name, code, r.shelves[name]);
      } else {
        assert r.shelves[n] == w.shelves[n];
      }
    }
  }
}
