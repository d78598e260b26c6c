/** The warehouse directory: warehouses are added by name and never removed. */
module Directory {
  import opened Registry
  import opened Resolver
  import opened Aggregator

  /** The add guard: a non-empty name that is not already a warehouse. */
  predicate CanAdd(w: Warehouses, name: string) {
    name != "" && name !in w.shelves
  }

  /** The directory with a new, empty warehouse appended; existing ones untouched. */
  function WithWarehouse(w: Warehouses, name: string): (r: Warehouses)
    requires Valid(w) && name !in w.shelves
    ensures Valid(r)
    ensures r.names == w.names + [name]
    ensures r.shelves[name] == EmptyShelf
    ensures forall n :: n in w.shelves ==> n in r.shelves && r.shelves[n] == w.shelves[n]
    ensures forall n, c :: Lookup(r, n, c) == Lookup(w, n, c)
  {
    DistinctAppend(w.names, name);
    Warehouses(w.names + [name], w.shelves[name := EmptyShelf])
  }

  lemma {:induction false} NewWarehouseNotFound(names: seq<string>, shelves: map<string, Shelf>, name: string, selected: string, code: string)
    requires name !in names
    ensures FindItemInOtherWarehouses(names + [name], shelves[name := EmptyShelf], selected, code)
            == FindItemInOtherWarehouses(names, shelves, selected, code)
  {
    var s := shelves[name := EmptyShelf];
    if names == [] {
      assert !HoldsElsewhere(s, selected, code, name);
      assert [name][1..] == [];
    } else {
      assert (names + [name])[1..] == names[1..] + [name];
      NewWarehouseNotFound(names[1..], shelves, name, selected, code);
    }
  }

  /** A new warehouse is empty, so no scan resolves differently after it is added. */
  lemma NewWarehouseKeepsResolution(w: Warehouses, name: string, selected: string, code: string)
    requires Valid(w) && CanAdd(w, name)
    ensures Resolve(WithWarehouse(w, name), selected, code) == Resolve(w, selected, code)
  {
    NewWarehouseNotFound(w.names, w.shelves, name, selected, code);
  }

  /** A new warehouse adds no record, so the report rows stay the same; only a column is added. */
  lemma NewWarehouseKeepsReport(w: Warehouses, name: string)
    requires Valid(w) && CanAdd(w, name)
    ensures Report(WithWarehouse(w, name)) == Report(w)
  {
    EmptyWarehouseAddsNoEntries(w.names, w.shelves, name);
  }
}
