/**
 * The inventory screen's state: the warehouse store and the session values
 * the handlers read (acting user, selected warehouse, last scanned code and
 * the item the open dialog works on). Each handler is a method over it.
 */
module Inventory {
  import opened Wrappers
  import opened Registry
  import opened Resolver
  import opened Ledger
  import opened Directory

  class InventoryApp {
    var warehouses: Warehouses
    var currentUser: string
    var selectedWarehouse: string
    var scannedCode: string
    var currentItem: Option<Item>

    /** The store is well formed and never without a warehouse. */
    ghost predicate Valid()
      reads this`warehouses
    {
      Registry.Valid(warehouses) && |warehouses.names| > 0
    }

    /** The initial state: one empty "Main Warehouse", no user, nothing selected or scanned. */
    constructor ()
      ensures Valid()
      ensures warehouses == Warehouses(["Main Warehouse"], map["Main Warehouse" := EmptyShelf])
      ensures currentUser == "" && selectedWarehouse == "" && scannedCode == "" && currentItem == None
    {
      warehouses := Warehouses(["Main Warehouse"], map["Main Warehouse" := EmptyShelf]);
      currentUser := "";
      selectedWarehouse := "";
      scannedCode := "";
      currentItem := None;
    }

    /** The role chosen on the login screen. */
    method SelectUser(role: string)
      modifies this`currentUser
      ensures currentUser == role
    {
      currentUser := role;
    }

    /** The warehouse chosen on the selection screen. */
    method SelectWarehouse(name: string)
      modifies this`selectedWarehouse
      ensures selectedWarehouse == name
    {
      selectedWarehouse := name;
    }

    /**
     * `handleQRScan`: remember the code and install the current item the
     * resolver chooses; the result says which dialog opens.
     */
    method ScanCode(code: string) returns (r: Resolution)
      modifies this`scannedCode, this`currentItem
      ensures r == Resolve(warehouses, selectedWarehouse, code)
      ensures scannedCode == code && currentItem == Some(r.Shown())
    {
      scannedCode := code;
      r := Resolve(warehouses, selectedWarehouse, code);
      currentItem := Some(r.Shown());
    }

    /**
     * The item form's Save: refused unless item number, description and color
     * are filled in; otherwise the four fields, stamped with the time and the
     * user, are stored under the selected warehouse and the scanned code.
     */
    method SubmitItem(form: ItemForm, now: string) returns (accepted: bool)
      requires Valid()
      modifies this`warehouses, this`currentItem
      ensures Valid()
      ensures accepted == FormComplete(form)
      ensures accepted ==>
                warehouses == Put(old(warehouses), selectedWarehouse, scannedCode, Stamp(form, now, currentUser))
                && currentItem == None
      ensures !accepted ==> warehouses == old(warehouses) && currentItem == old(currentItem)
    {
      accepted := FormComplete(form);
      if accepted {
        var next := Put(warehouses, selectedWarehouse, scannedCode, Stamp(form, now, currentUser));
        assert |next.names| >= |warehouses.names|;
        warehouses := next;
        currentItem := None;
      }
    }

    /**
     * The check-in/out dialog's Confirm: enabled only for a positive amount;
     * writes the current item back with the clamped quantity and new stamps.
     * The dialog is only open on an item found in the selected warehouse.
     */
    method ConfirmTransaction(dir: Direction, amount: int, now: string) returns (accepted: bool)
      requires Valid()
      requires currentItem.Some? && selectedWarehouse in warehouses.shelves
      modifies this`warehouses, this`currentItem
      ensures Valid()
      ensures accepted == CanConfirm(amount)
      ensures accepted ==>
                warehouses == Put(old(warehouses), selectedWarehouse, scannedCode,
                                  Apply(old(currentItem).value, dir, amount, now, currentUser))
                && currentItem == None
      ensures !accepted ==> warehouses == old(warehouses) && currentItem == old(currentItem)
    {
      accepted := CanConfirm(amount);
      if accepted {
        warehouses := Put(warehouses, selectedWarehouse, scannedCode, Apply(currentItem.value, dir, amount, now, currentUser));
        currentItem := None;
      }
    }

    /** `addWarehouse`: a non-empty new name gets an empty warehouse at the end; anything else changes nothing. */
    method AddWarehouse(name: string) returns (added: bool)
      requires Valid()
      modifies this`warehouses
      ensures Valid()
      ensures added == CanAdd(old(warehouses), name)
      ensures added ==> warehouses == WithWarehouse(old(warehouses), name)
      ensures !added ==> warehouses == old(warehouses)
    {
      added := name != "" && name !in warehouses.shelves;
      if added {
        warehouses := WithWarehouse(warehouses, name);
      }
    }
  }

  // A session, step by step: stock an item, over-draw it, open a second
  // warehouse, scan the same code there, then stock a new code.

  method StockNewItem() returns (app: InventoryApp)
    ensures fresh(app) && app.Valid() && app.warehouses.names == ["Main Warehouse"]
    ensures app.currentUser == "PM" && app.selectedWarehouse == "Main Warehouse" && app.scannedCode == "QR001"
    ensures Lookup(app.warehouses, "Main Warehouse", "QR001")
            == Some(Item("SKU-001", "Red Vinyl Siding", 50, "Red", "t0", "PM", None))
  {
    app := new InventoryApp();
    app.SelectUser("PM");
    app.SelectWarehouse("Main Warehouse");
    assert Lookup(app.warehouses, "Main Warehouse", "QR001") == None;
    assert FindItemInOtherWarehouses(app.warehouses.names, app.warehouses.shelves, "Main Warehouse", "QR001") == None;
    var r := app.ScanCode("QR001");
    assert r.Blank?;
    var form := ItemForm("SKU-001", "Red Vinyl Siding", 50, "Red");
    assert FormComplete(form);
    var ok := app.SubmitItem(form, "t0");
  }

  method Overdraw(app: InventoryApp)
    requires app.Valid() && app.warehouses.names == ["Main Warehouse"]
    requires app.currentUser == "PM" && app.selectedWarehouse == "Main Warehouse"
    requires Lookup(app.warehouses, "Main Warehouse", "QR001")
             == Some(Item("SKU-001", "Red Vinyl Siding", 50, "Red", "t0", "PM", None))
    modifies app
    ensures app.Valid() && app.warehouses.names == ["Main Warehouse"] && app.currentUser == "PM"
    ensures Lookup(app.warehouses, "Main Warehouse", "QR001")
            == Some(Item("SKU-001", "Red Vinyl Siding", 0, "Red", "t1", "PM", Some("QR001")))
  {
    var r := app.ScanCode("QR001");
    assert r.CheckInOut? && r.current.quantity == 50;
    var ok := app.ConfirmTransaction(Out, 60, "t1");
    assert ok;
  }

  method OpenSecondWarehouse(app: InventoryApp)
    requires app.Valid() && app.warehouses.names == ["Main Warehouse"]
    modifies app
    ensures app.Valid() && app.selectedWarehouse == "Yard" && app.currentUser == old(app.currentUser)
    ensures app.warehouses.names == ["Main Warehouse", "Yard"] && app.warehouses.shelves["Yard"] == EmptyShelf
    ensures forall c :: Lookup(app.warehouses, "Main Warehouse", c) == Lookup(old(app.warehouses), "Main Warehouse", c)
  {
    assert "Yard" !in app.warehouses.shelves;
    var added := app.AddWarehouse("Yard");
    app.SelectWarehouse("Yard");
  }

  method ScanElsewhere(app: InventoryApp)
    requires app.Valid() && app.selectedWarehouse == "Yard"
    requires app.warehouses.names == ["Main Warehouse", "Yard"] && app.warehouses.shelves["Yard"] == EmptyShelf
    requires Lookup(app.warehouses, "Main Warehouse", "QR001")
             == Some(Item("SKU-001", "Red Vinyl Siding", 0, "Red", "t1", "PM", Some("QR001")))
    modifies app
    ensures app.Valid() && app.selectedWarehouse == "Yard" && app.currentUser == old(app.currentUser)
  {
    ghost var w := app.warehouses;
    assert Lookup(w, "Yard", "QR001") == None;
    assert HoldsElsewhere(w.shelves, "Yard", "QR001", "Main Warehouse");
    assert FindItemInOtherWarehouses(w.names, w.shelves, "Yard", "QR001")
           == Some(Item("SKU-001", "Red Vinyl Siding", 0, "Red", "t1", "PM", Some("QR001")));
    var r := app.ScanCode("QR001");
    assert r.Prefill? && r.template.itemNumber == "SKU-001" && r.template.color == "Red" && r.template.quantity == 0;
  }

  method ScanNewCode(app: InventoryApp)
    requires app.Valid()
    modifies app
    ensures app.Valid() && app.scannedCode == "QR050"
    ensures app.selectedWarehouse == old(app.selectedWarehouse) && app.currentUser == old(app.currentUser)
  {
    var r := app.ScanCode("QR050");
  }

  method StockSecondCode(app: InventoryApp)
    requires app.Valid() && app.selectedWarehouse == "Yard" && app.currentUser == "PM" && app.scannedCode == "QR050"
    modifies app
  {
    var form := ItemForm("SKU-099", "Widget", 10, "Tan");
    assert FormComplete(form);
    var ok := app.SubmitItem(form, "t2");
    assert Lookup(app.warehouses, "Yard", "QR050") == Some(Item("SKU-099", "Widget", 10, "Tan", "t2", "PM", None));
  }

  method Session()
  {
    var app := StockNewItem();
    Overdraw(app);
    OpenSecondWarehouse(app);
    ScanElsewhere(app);
    ScanNewCode(app);
    StockSecondCode(app);
  }
}
