/**
 * The report aggregator: every record of every warehouse, visited in
 * warehouse order and then code order, is grouped under the key
 * item number, a '-' and color; each group sums the quantities, keeps the first
 * record's item number, description and color, and remembers per warehouse
 * the quantity of the last record it saw there.
 */
module Aggregator {
  import opened Wrappers
  import opened Registry

  /** The grouping key: the item number, a '-', then the color. */
  function KeyOf(itemNumber: string, color: string): string {
    itemNumber + "-" + color
  }

  /** The key a record is grouped under. */
  function Key(it: Item): string {
    KeyOf(it.itemNumber, it.color)
  }

  /** The colors the item form offers. */
  const Palette: seq<string> := [
    "White", "Brown", "Coal Gray", "Musket Brown", "Eggshell", "Wicker",
    "Cream", "Clay", "Tan", "Terratone", "Ivory", "Light Gray", "Red", "Green"
  ]

  /** One record as the nested iteration meets it. */
  datatype Entry = Entry(warehouse: string, code: string, item: Item)

  /** The records of one warehouse in code order, each paired with the warehouse name. */
  function ShelfEntries(name: string, codes: seq<string>, items: map<string, Item>): seq<Entry> {
    if codes == [] then []
    else
      var c := codes[|codes| - 1];
      ShelfEntries(name, codes[..|codes| - 1], items) + (if c in items then [Entry(name, c, items[c])] else [])
  }

  /** Every record of every warehouse, warehouses in directory order. */
  function Entries(names: seq<string>, shelves: map<string, Shelf>): seq<Entry> {
    if names == [] then []
    else
      var n := names[|names| - 1];
      Entries(names[..|names| - 1], shelves)
      + (if n in shelves then ShelfEntries(n, shelves[n].codes, shelves[n].items) else [])
  }

  /** One entry of `allItems`. */
  datatype Row = Row(
    itemNumber: string,
    description: string,
    color: string,
    totalQuantity: int,
    quantities: map<string, int>)

  /** `allItems`: its keys in insertion order and the row under each key. */
  datatype Groups = Groups(order: seq<string>, rows: map<string, Row>)

  /** One step of the inner `forEach`. */
  function AddEntry(g: Groups, e: Entry): Groups {
    var k := Key(e.item);
    var isNew := k !in g.rows;
    var row := if isNew then Row(e.item.itemNumber, e.item.description, e.item.color, 0, map[]) else g.rows[k];
    Groups(
      if isNew then g.order + [k] else g.order,
      g.rows[k := row.(totalQuantity := row.totalQuantity + e.item.quantity,
                       quantities := row.quantities[e.warehouse := e.item.quantity])])
  }

  /** `allItems` after visiting `es` in order. */
  function Group(es: seq<Entry>): Groups {
    if es == [] then Groups([], map[]) else AddEntry(Group(es[..|es| - 1]), es[|es| - 1])
  }

  // ---------------------------------------------------------------------------
  // Reference definitions, stated over the visited records from the front.

  predicate Occurs(es: seq<Entry>, k: string) {
    exists i :: 0 <= i < |es| && Key(es[i].item) == k
  }

  /** The position of the first record with key `k`. */
  function FirstIndex(es: seq<Entry>, k: string): (i: nat)
    requires Occurs(es, k)
    ensures i < |es| && Key(es[i].item) == k
    ensures forall j :: 0 <= j < i ==> Key(es[j].item) != k
  {
    if Key(es[0].item) == k then 0
    else
      assert Occurs(es[1..], k) by {
        var i :| 0 <= i < |es| && Key(es[i].item) == k;
        assert es[1..][i - 1] == es[i];
      }
      1 + FirstIndex(es[1..], k)
  }

  /** The sum of the quantities of all records with key `k`. */
  function SumFor(es: seq<Entry>, k: string): int {
    if es == [] then 0
    else (if Key(es[0].item) == k then es[0].item.quantity else 0) + SumFor(es[1..], k)
  }

  /** Record `e` is one of key `k` held in warehouse `w`. */
  predicate InCell(e: Entry, k: string, w: string) {
    e.warehouse == w && Key(e.item) == k
  }

  /** The quantity the report shows for warehouse `w`: 0 when the row has none. */
  function QuantityIn(row: Row, w: string): int {
    if w in row.quantities then row.quantities[w] else 0
  }

  // ---------------------------------------------------------------------------
  // The grouping against the reference definitions.

  lemma GroupSnoc(es: seq<Entry>, e: Entry)
    ensures Group(es + [e]) == AddEntry(Group(es), e)
  {
    assert (es + [e])[..|es|] == es;
  }

  /** The keys of `allItems` are those of the records, each once. */
  lemma {:induction false} GroupShape(es: seq<Entry>)
    ensures Distinct(Group(es).order)
    ensures forall k :: k in Group(es).order <==> k in Group(es).rows
    ensures forall k :: k in Group(es).rows <==> Occurs(es, k)
  {
    if es != [] {
      var p, e := es[..|es| - 1], es[|es| - 1];
      GroupShape(p);
      OccursSnoc(p, e);
      assert es == p + [e];
      if Key(e.item) !in Group(p).rows {
        DistinctAppend(Group(p).order, Key(e.item));
      }
    }
  }

  lemma OccursSnoc(p: seq<Entry>, e: Entry)
    ensures forall k :: Occurs(p + [e], k) <==> Occurs(p, k) || Key(e.item) == k
  {
    var es := p + [e];
    forall k ensures Occurs(es, k) <==> Occurs(p, k) || Key(e.item) == k {
      if Occurs(p, k) {
        var i :| 0 <= i < |p| && Key(p[i].item) == k;
        assert es[i] == p[i];
      }
      if Occurs(es, k) {
        var i :| 0 <= i < |es| && Key(es[i].item) == k;
        if i < |p| { assert p[i] == es[i]; }
      }
    }
    assert es[|p|] == e;
  }

  lemma {:induction false} SumForSnoc(es: seq<Entry>, e: Entry, k: string)
    ensures SumFor(es + [e], k) == SumFor(es, k) + (if Key(e.item) == k then e.item.quantity else 0)
  {
    if es != [] {
      assert (es + [e])[1..] == es[1..] + [e];
      SumForSnoc(es[1..], e, k);
    }
  }

  /** Each total is the sum of the quantities of all records with its key. */
  lemma {:induction false} GroupTotals(es: seq<Entry>)
    ensures forall k :: k in Group(es).rows ==> Group(es).rows[k].totalQuantity == SumFor(es, k)
  {
    if es != [] {
      var p, e := es[..|es| - 1], es[|es| - 1];
      assert es == p + [e];
      GroupTotals(p);
      GroupShape(p);
      forall k | k in Group(es).rows
        ensures Group(es).rows[k].totalQuantity == SumFor(es, k)
      {
        SumForSnoc(p, e, k);
        if k !in Group(p).rows && Key(e.item) != k {
          assert false;
        }
        if k !in Group(p).rows {
          assert !Occurs(p, k);
          assert SumFor(p, k) == 0 by { SumForAbsent(p, k); }
        }
      }
    }
  }

  lemma {:induction false} SumForAbsent(es: seq<Entry>, k: string)
    requires !Occurs(es, k)
    ensures SumFor(es, k) == 0
  {
    if es != [] {
      forall i | 0 <= i < |es[1..]| ensures Key(es[1..][i].item) != k {
        assert es[1..][i] == es[i + 1];
      }
      SumForAbsent(es[1..], k);
    }
  }

  lemma FirstIndexSnoc(es: seq<Entry>, e: Entry, k: string)
    requires Occurs(es, k) || Key(e.item) == k
    ensures Occurs(es + [e], k)
    ensures Occurs(es, k) ==> FirstIndex(es + [e], k) == FirstIndex(es, k)
    ensures !Occurs(es, k) ==> FirstIndex(es + [e], k) == |es|
  {
    var s := es + [e];
    assert forall m :: 0 <= m < |es| ==> s[m] == es[m];
    assert s[|es|] == e;
    if Occurs(es, k) {
      var j := FirstIndex(es, k);
      assert Key(s[j].item) == k;
    } else {
      assert Key(s[|es|].item) == k;
    }
  }

  /** Each row's item number, description and color are those of the first record with its key. */
  lemma {:induction false} GroupFirstFields(es: seq<Entry>)
    ensures forall k :: k in Group(es).rows ==>
              Occurs(es, k) &&
              var first := es[FirstIndex(es, k)].item;
              var row := Group(es).rows[k];
              row.itemNumber == first.itemNumber && row.description == first.description && row.color == first.color
  {
    GroupShape(es);
    if es != [] {
      var p, e := es[..|es| - 1], es[|es| - 1];
      assert es == p + [e];
      GroupFirstFields(p);
      GroupShape(p);
      forall k | k in Group(es).rows
        ensures var first := es[FirstIndex(es, k)].item;
                var row := Group(es).rows[k];
                row.itemNumber == first.itemNumber && row.description == first.description && row.color == first.color
      {
        FirstIndexSnoc(p, e, k);
        if Occurs(p, k) {
          assert es[FirstIndex(p, k)] == p[FirstIndex(p, k)];
        }
      }
    }
  }

  /** Every key of `o` occurs in `es`, and the keys of `o` are in order of first occurrence. */
  ghost predicate OrderedByFirst(es: seq<Entry>, o: seq<string>) {
    && (forall k :: k in o ==> Occurs(es, k))
    && (forall i, j :: 0 <= i < j < |o| ==> FirstIndex(es, o[i]) < FirstIndex(es, o[j]))
  }

  lemma GroupOrderStep(p: seq<Entry>, e: Entry)
    requires OrderedByFirst(p, Group(p).order)
    ensures OrderedByFirst(p + [e], Group(p + [e]).order)
  {
    var s := p + [e];
    GroupSnoc(p, e);
    GroupShape(p);
    var op := Group(p).order;
    KeptKeysKeepFirst(p, e, op);
    if Key(e.item) !in Group(p).rows {
      FirstIndexSnoc(p, e, Key(e.item));
      AppendLatestKey(s, op, Key(e.item));
    }
  }

  /** Keys already seen keep their first position when a record is appended. */
  lemma KeptKeysKeepFirst(p: seq<Entry>, e: Entry, o: seq<string>)
    requires OrderedByFirst(p, o)
    ensures OrderedByFirst(p + [e], o)
    ensures forall k :: k in o ==> FirstIndex(p + [e], k) < |p|
  {
    forall k | k in o ensures Occurs(p + [e], k) && FirstIndex(p + [e], k) == FirstIndex(p, k) {
      FirstIndexSnoc(p, e, k);
    }
  }

  /** A key first seen after all keys of `o` may be appended to `o`. */
  lemma AppendLatestKey(s: seq<Entry>, o: seq<string>, k: string)
    requires OrderedByFirst(s, o) && Occurs(s, k)
    requires forall k' :: k' in o ==> FirstIndex(s, k') < FirstIndex(s, k)
    ensures OrderedByFirst(s, o + [k])
  {
    AppendedKeysOccur(s, o, k);
    AppendedKeysOrdered(s, o, k);
  }

  lemma AppendedKeysOccur(s: seq<Entry>, o: seq<string>, k: string)
    requires forall k' :: k' in o ==> Occurs(s, k')
    requires Occurs(s, k)
    ensures forall k' :: k' in o + [k] ==> Occurs(s, k')
  {
    forall k' | k' in o + [k]
      ensures Occurs(s, k')
    {
      if k' != k {
        assert k' in o;
      }
    }
  }

  lemma AppendedKeysOrdered(s: seq<Entry>, o: seq<string>, k: string)
    requires forall k' :: k' in o ==> Occurs(s, k')
    requires Occurs(s, k)
    requires forall i, j :: 0 <= i < j < |o| ==> FirstIndex(s, o[i]) < FirstIndex(s, o[j])
    requires forall k' :: k' in o ==> FirstIndex(s, k') < FirstIndex(s, k)
    ensures forall i, j :: 0 <= i < j < |o + [k]| ==> FirstIndex(s, (o + [k])[i]) < FirstIndex(s, (o + [k])[j])
  {
    var o' := o + [k];
    forall i, j | 0 <= i < j < |o'|
      ensures FirstIndex(s, o'[i]) < FirstIndex(s, o'[j])
    {
      assert o'[i] == o[i];
      if j < |o| {
        assert o'[j] == o[j];
      } else {
        assert o[i] in o;
      }
    }
  }

  /** Rows come in the order in which their keys first occur. */
  lemma {:induction false} GroupOrder(es: seq<Entry>)
    ensures OrderedByFirst(es, Group(es).order)
  {
    if es != [] {
      var p, e := es[..|es| - 1], es[|es| - 1];
      assert es == p + [e];
      GroupOrder(p);
      GroupOrderStep(p, e);
    }
  }

  /**
   * The position of the last record of key `k` in warehouse `w`, or -1 when
   * there is none.
   */
  function LastIndexIn(es: seq<Entry>, k: string, w: string): (r: int)
    ensures -1 <= r < |es|
    ensures r == -1 <==> forall i :: 0 <= i < |es| ==> !InCell(es[i], k, w)
    ensures r >= 0 ==> InCell(es[r], k, w) && forall j :: r < j < |es| ==> !InCell(es[j], k, w)
  {
    if es == [] then -1
    else if InCell(es[|es| - 1], k, w) then |es| - 1
    else
      var r := LastIndexIn(es[..|es| - 1], k, w);
      assert forall i :: 0 <= i < |es| - 1 ==> es[..|es| - 1][i] == es[i];
      r
  }

  /**
   * A row holds a quantity for warehouse `w` exactly when some record with
   * its key lies in `w`, and that quantity is the last such record's: later
   * records overwrite it rather than add to it.
   */
  lemma {:induction false} GroupCells(es: seq<Entry>, k: string, w: string)
    requires k in Group(es).rows
    ensures w in Group(es).rows[k].quantities <==> LastIndexIn(es, k, w) >= 0
    ensures w in Group(es).rows[k].quantities ==>
              Group(es).rows[k].quantities[w] == es[LastIndexIn(es, k, w)].item.quantity
  {
    var p, e := es[..|es| - 1], es[|es| - 1];
    assert es == p + [e];
    if !InCell(e, k, w) {
      if k in Group(p).rows {
        GroupCells(p, k, w);
      } else {
        assert Group(es).rows[k].quantities.Keys <= {e.warehouse};
        GroupShape(p);
        assert !Occurs(p, k);
        assert forall i :: 0 <= i < |p| ==> !InCell(p[i], k, w);
      }
    }
  }

  // ---------------------------------------------------------------------------
  // The records of a store.

  lemma {:induction false} ShelfEntriesMembers(name: string, codes: seq<string>, items: map<string, Item>)
    ensures forall e :: e in ShelfEntries(name, codes, items) <==>
              e.warehouse == name && e.code in codes && e.code in items && e.item == items[e.code]
  {
    if codes != [] {
      var q := codes[..|codes| - 1];
      ShelfEntriesMembers(name, q, items);
      assert codes == q + [codes[|codes| - 1]];
    }
  }

  lemma {:induction false} EntriesMembers(names: seq<string>, shelves: map<string, Shelf>)
    ensures forall e :: e in Entries(names, shelves) <==>
              e.warehouse in names && e.warehouse in shelves && e.code in shelves[e.warehouse].codes
              && e.code in shelves[e.warehouse].items && e.item == shelves[e.warehouse].items[e.code]
  {
    if names != [] {
      var q, n := names[..|names| - 1], names[|names| - 1];
      EntriesMembers(q, shelves);
      assert names == q + [n];
      if n in shelves {
        ShelfEntriesMembers(n, shelves[n].codes, shelves[n].items);
      }
    }
  }

  /** No two positions of `es` hold the same (warehouse, code) pair. */
  predicate VisitedOnce(es: seq<Entry>) {
    forall i, j :: 0 <= i < j < |es| ==> es[i].warehouse != es[j].warehouse || es[i].code != es[j].code
  }

  /** A warehouse whose codes do not repeat yields each code's record once. */
  lemma {:induction false} ShelfEntriesOnce(name: string, codes: seq<string>, items: map<string, Item>)
    requires Distinct(codes)
    ensures VisitedOnce(ShelfEntries(name, codes, items))
  {
    if codes != [] {
      var q, c := codes[..|codes| - 1], codes[|codes| - 1];
      assert Distinct(q);
      ShelfEntriesOnce(name, q, items);
      ShelfEntriesMembers(name, q, items);
      assert c !in q by {
        assert forall i :: 0 <= i < |q| ==> q[i] == codes[i];
      }
    }
  }

  /** Joining two visits that share no (warehouse, code) pair keeps each pair once. */
  lemma VisitedOnceAppend(a: seq<Entry>, b: seq<Entry>)
    requires VisitedOnce(a) && VisitedOnce(b)
    requires forall x, y :: x in a && y in b ==> x.warehouse != y.warehouse || x.code != y.code
    ensures VisitedOnce(a + b)
  {
    var s := a + b;
    forall i, j | 0 <= i < j < |s|
      ensures s[i].warehouse != s[j].warehouse || s[i].code != s[j].code
    {
      if j < |a| {
        assert s[i] == a[i] && s[j] == a[j];
      } else if i >= |a| {
        assert s[i] == b[i - |a|] && s[j] == b[j - |a|];
      } else {
        assert s[i] == a[i] && s[j] == b[j - |a|];
      }
    }
  }

  /** Warehouses whose names and codes do not repeat yield each (warehouse, code) pair once. */
  lemma {:induction false} EntriesOnce(names: seq<string>, shelves: map<string, Shelf>)
    requires Distinct(names)
    requires forall n :: n in names && n in shelves ==> Distinct(shelves[n].codes)
    ensures VisitedOnce(Entries(names, shelves))
  {
    if names != [] {
      var q, n := names[..|names| - 1], names[|names| - 1];
      assert forall i :: 0 <= i < |q| ==> q[i] == names[i];
      assert n !in q;
      EntriesOnce(q, shelves);
      EntriesMembers(q, shelves);
      if n in shelves {
        ShelfEntriesOnce(n, shelves[n].codes, shelves[n].items);
        ShelfEntriesMembers(n, shelves[n].codes, shelves[n].items);
        VisitedOnceAppend(Entries(q, shelves), ShelfEntries(n, shelves[n].codes, shelves[n].items));
      }
    }
  }

  /**
   * The records of a store are exactly its (warehouse, code, record) triples,
   * and each (warehouse, code) pair is visited once.
   */
  lemma EntriesAreRecords(w: Warehouses)
    requires Valid(w)
    ensures forall e :: e in Entries(w.names, w.shelves) <==> Lookup(w, e.warehouse, e.code) == Some(e.item)
    ensures VisitedOnce(Entries(w.names, w.shelves))
  {
    EntriesMembers(w.names, w.shelves);
    EntriesOnce(w.names, w.shelves);
  }

  /** A warehouse with no codes contributes no records. */
  lemma {:induction false} EmptyWarehouseAddsNoEntries(names: seq<string>, shelves: map<string, Shelf>, name: string)
    requires name !in names
    ensures Entries(names + [name], shelves[name := EmptyShelf]) == Entries(names, shelves)
  {
    var s := shelves[name := EmptyShelf];
    assert (names + [name])[..|names|] == names;
    EntriesOtherShelves(names, shelves, s);
  }

  lemma {:induction false} EntriesOtherShelves(names: seq<string>, a: map<string, Shelf>, b: map<string, Shelf>)
    requires forall n :: n in names ==> (n in a <==> n in b) && (n in a ==> a[n] == b[n])
    ensures Entries(names, a) == Entries(names, b)
  {
    if names != [] {
      EntriesOtherShelves(names[..|names| - 1], a, b);
    }
  }

  // ---------------------------------------------------------------------------
  // The report.

  /** The grouped rows, in the order of their keys. */
  function RowsOf(g: Groups): (rows: seq<Row>)
    requires forall k :: k in g.order ==> k in g.rows
    ensures |rows| == |g.order|
  {
    seq(|g.order|, i requires 0 <= i < |g.order| => g.rows[g.order[i]])
  }

  /** The report rows: the grouped rows, in the order their keys were first filed. */
  function Report(w: Warehouses): (rows: seq<Row>)
    ensures |rows| == |Group(Entries(w.names, w.shelves)).order|
  {
    var es := Entries(w.names, w.shelves);
    GroupShape(es);
    RowsOf(Group(es))
  }

  /** The report lists the rows of `allItems` in the order of its keys. */
  lemma ReportOrderIsGroupOrder(w: Warehouses)
    ensures var g := Group(Entries(w.names, w.shelves));
            && |Report(w)| == |g.order|
            && (forall k :: k in g.order ==> k in g.rows)
            && forall i :: 0 <= i < |g.order| ==> Report(w)[i] == g.rows[g.order[i]]
  {
    GroupShape(Entries(w.names, w.shelves));
  }

  /** The key under which a row was filed. */
  function RowKey(r: Row): string {
    KeyOf(r.itemNumber, r.color)
  }

  /** Row `i` of the report is the row filed under the `i`-th key, and that key is its own. */
  lemma ReportRowAt(w: Warehouses, i: int)
    requires 0 <= i < |Report(w)|
    ensures var es := Entries(w.names, w.shelves);
            var g := Group(es);
            i < |g.order| && g.order[i] in g.rows && Report(w)[i] == g.rows[g.order[i]] &&
            RowKey(Report(w)[i]) == g.order[i]
  {
    var es := Entries(w.names, w.shelves);
    var g := Group(es);
    GroupShape(es);
    GroupFirstFields(es);
    var k := g.order[i];
    var first := es[FirstIndex(es, k)].item;
    assert Key(first) == k;
  }

  /** There is one row per key occurring in the store, and rows come in order of first occurrence. */
  lemma ReportKeys(w: Warehouses)
    ensures var es := Entries(w.names, w.shelves);
            var rows := Report(w);
            && (forall k :: Occurs(es, k) <==> exists i :: 0 <= i < |rows| && RowKey(rows[i]) == k)
            && (forall i, j :: 0 <= i < j < |rows| ==> RowKey(rows[i]) != RowKey(rows[j]))
            && OrderedByFirst(es, seq(|rows|, i requires 0 <= i < |rows| => RowKey(rows[i])))
  {
    var es := Entries(w.names, w.shelves);
    var g := Group(es);
    var rows := Report(w);
    GroupShape(es);
    GroupOrder(es);
    forall i | 0 <= i < |rows| ensures RowKey(rows[i]) == g.order[i] {
      ReportRowAt(w, i);
    }
    assert seq(|rows|, i requires 0 <= i < |rows| => RowKey(rows[i])) == g.order;
    forall k | Occurs(es, k) ensures exists i :: 0 <= i < |rows| && RowKey(rows[i]) == k {
      var i :| 0 <= i < |g.order| && g.order[i] == k;
      assert RowKey(rows[i]) == k;
    }
  }

  /**
   * Each row carries the first record's item number, description and color,
   * and the total of the quantities of every record with its key.
   */
  lemma ReportTotals(w: Warehouses, i: int)
    requires 0 <= i < |Report(w)|
    ensures var es := Entries(w.names, w.shelves);
            var row := Report(w)[i];
            Occurs(es, RowKey(row)) &&
            var first := es[FirstIndex(es, RowKey(row))].item;
            && row.itemNumber == first.itemNumber
            && row.description == first.description
            && row.color == first.color
            && row.totalQuantity == SumFor(es, RowKey(row))
  {
    var es := Entries(w.names, w.shelves);
    ReportRowAt(w, i);
    GroupShape(es);
    GroupTotals(es);
    GroupFirstFields(es);
  }

  /**
   * Each row's column for warehouse `wh` is the quantity of the last record
   * with its key in `wh`, or 0 when `wh` holds none.
   */
  lemma ReportCells(w: Warehouses, i: int, wh: string)
    requires 0 <= i < |Report(w)|
    ensures var es := Entries(w.names, w.shelves);
            var row := Report(w)[i];
            var last := LastIndexIn(es, RowKey(row), wh);
            QuantityIn(row, wh) == if last < 0 then 0 else es[last].item.quantity
  {
    var es := Entries(w.names, w.shelves);
    ReportRowAt(w, i);
    var g := Group(es);
    GroupCells(es, g.order[i], wh);
  }

  /** Two items share a key exactly when they share item number and color, for colors without '-'. */
  lemma KeySeparatesPairs(a: Item, b: Item)
    requires '-' !in a.color && '-' !in b.color
    ensures Key(a) == Key(b) <==> a.itemNumber == b.itemNumber && a.color == b.color
  {
    if Key(a) == Key(b) {
      if |a.color| < |b.color| {
        DashInLongerColor(a, b);
      } else if |b.color| < |a.color| {
        DashInLongerColor(b, a);
      } else {
        var s := Key(a);
        assert a.color == s[|s| - |a.color|..] == b.color;
        assert a.itemNumber == s[..|a.itemNumber|] == b.itemNumber;
      }
    }
  }

  lemma DashInLongerColor(a: Item, b: Item)
    requires Key(a) == Key(b) && |a.color| < |b.color|
    ensures '-' in b.color
  {
    var s := Key(a);
    var m := |s| - |a.color| - 1;
    assert s[m] == '-';
    var d := |b.color| - |a.color| - 1;
    assert s[m] == b.color[d];
  }

  lemma PaletteHasNoDash(c: string)
    requires c in Palette
    ensures '-' !in c
  {
    var i :| 0 <= i < |Palette| && Palette[i] == c;
    if i == 0 { assert c == "White"; }
    else if i == 1 { assert c == "Brown"; }
    else if i == 2 { assert c == "Coal Gray"; }
    else if i == 3 { assert c == "Musket Brown"; }
    else if i == 4 { assert c == "Eggshell"; }
    else if i == 5 { assert c == "Wicker"; }
    else if i == 6 { assert c == "Cream"; }
    else if i == 7 { assert c == "Clay"; }
    else if i == 8 { assert c == "Tan"; }
    else if i == 9 { assert c == "Terratone"; }
    else if i == 10 { assert c == "Ivory"; }
    else if i == 11 { assert c == "Light Gray"; }
    else if i == 12 { assert c == "Red"; }
    else { assert c == "Green"; }
  }

  /** No palette color contains '-', so for palette colors the grouping is by (item number, color). */
  lemma PaletteKeysSeparatePairs(a: Item, b: Item)
    requires a.color in Palette && b.color in Palette
    ensures Key(a) == Key(b) <==> a.itemNumber == b.itemNumber && a.color == b.color
  {
    PaletteHasNoDash(a.color);
    PaletteHasNoDash(b.color);
    KeySeparatesPairs(a, b);
  }

  /** Outside the palette, two different pairs can fall into one row. */
  lemma KeysCollideOffPalette(a: Item, b: Item)
    requires a.itemNumber == "A" && a.color == "B-C" && b.itemNumber == "A-B" && b.color == "C"
    ensures Key(a) == Key(b)
  {
  }

  // ---------------------------------------------------------------------------
  // The loops of the export.

  lemma EntriesStep(names: seq<string>, shelves: map<string, Shelf>, i: int)
    requires 0 <= i < |names|
    ensures Entries(names[..i + 1], shelves) == Entries(names[..i], shelves) +
              (if names[i] in shelves then ShelfEntries(names[i], shelves[names[i]].codes, shelves[names[i]].items) else [])
  {
    assert names[..i + 1][..i] == names[..i];
  }

  lemma ShelfEntriesStep(name: string, codes: seq<string>, items: map<string, Item>, j: int)
    requires 0 <= j < |codes|
    ensures ShelfEntries(name, codes[..j + 1], items) == ShelfEntries(name, codes[..j], items) +
              (if codes[j] in items then [Entry(name, codes[j], items[codes[j]])] else [])
  {
    assert codes[..j + 1][..j] == codes[..j];
  }

  /** Visiting the shelf's next code extends the visited records by its record, if it has one. */
  lemma VisitCode(visited: seq<Entry>, name: string, codes: seq<string>, items: map<string, Item>, j: int)
    requires 0 <= j < |codes|
    ensures codes[j] in items ==>
              var done := visited + ShelfEntries(name, codes[..j], items);
              var e := Entry(name, codes[j], items[codes[j]]);
              visited + ShelfEntries(name, codes[..j + 1], items) == done + [e]
              && Group(done + [e]) == AddEntry(Group(done), e)
    ensures codes[j] !in items ==>
              visited + ShelfEntries(name, codes[..j + 1], items) == visited + ShelfEntries(name, codes[..j], items)
  {
    ShelfEntriesStep(name, codes, items, j);
    if codes[j] in items {
      var done := visited + ShelfEntries(name, codes[..j], items);
      var e := Entry(name, codes[j], items[codes[j]]);
      GroupSnoc(done, e);
    } else {
      assert ShelfEntries(name, codes[..j], items) + [] == ShelfEntries(name, codes[..j], items);
    }
  }

  /** The outer `forEach` over the warehouses that fills `allItems`. */
  method Aggregate(w: Warehouses) returns (g: Groups)
    ensures g == Group(Entries(w.names, w.shelves))
  {
    g := Groups([], map[]);
    for i := 0 to |w.names|
      invariant g == Group(Entries(w.names[..i], w.shelves))
    {
      var name := w.names[i];
      EntriesStep(w.names, w.shelves, i);
      if name in w.shelves {
        g := AggregateWarehouse(g, name, w.shelves[name], Entries(w.names[..i], w.shelves));
      } else {
        assert Entries(w.names[..i], w.shelves) + [] == Entries(w.names[..i], w.shelves);
      }
    }
    assert w.names[..|w.names|] == w.names;
  }

  /**
   * One record into `allItems`: open its row under its key if the key is new,
   * then add its quantity to the total and set its warehouse's cell.
   */
  method AddRecord(order: seq<string>, rows: map<string, Row>, e: Entry)
    returns (order': seq<string>, rows': map<string, Row>)
    ensures Groups(order', rows') == AddEntry(Groups(order, rows), e)
  {
    var item, name := e.item, e.warehouse;
    var key := Key(item);
    var row := if key in rows then rows[key] else Row(item.itemNumber, item.description, item.color, 0, map[]);
    order' := order;
    if key !in rows {
      order' := order + [key];
    }
    rows' := rows[key := row.(totalQuantity := row.totalQuantity + item.quantity,
                              quantities := row.quantities[name := item.quantity])];
  }

  /**
   * The inner `forEach` over one warehouse's records: create the row on the
   * first sight of a key, add the quantity to its total, overwrite the
   * warehouse's column.
   */
  method AggregateWarehouse(g0: Groups, name: string, shelf: Shelf, ghost visited: seq<Entry>) returns (g: Groups)
    requires g0 == Group(visited)
    ensures g == Group(visited + ShelfEntries(name, shelf.codes, shelf.items))
  {
    var order, rows := g0.order, g0.rows;
    ghost var done := visited;
    assert ShelfEntries(name, shelf.codes[..0], shelf.items) == [];
    for j := 0 to |shelf.codes|
      invariant done == visited + ShelfEntries(name, shelf.codes[..j], shelf.items)
      invariant Groups(order, rows) == Group(done)
    {
      var code := shelf.codes[j];
      VisitCode(visited, name, shelf.codes, shelf.items, j);
      if code in shelf.items {
        var item := shelf.items[code];
        order, rows := AddRecord(order, rows, Entry(name, code, item));
        done := done + [Entry(name, code, item)];
      }
    }
    assert shelf.codes[..|shelf.codes|] == shelf.codes;
    g := Groups(order, rows);
  }
}
