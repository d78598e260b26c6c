/**
 * The text of the inventory report, composed exactly as the export builds
 * it: a header line, then one line per report row. Nothing is quoted or
 * escaped, so a comma inside an item number, description or color adds
 * a field to its line.
 */
module Csv {
  import opened Registry
  import opened Aggregator

  /** The fields separated by `sep`, as JavaScript's array join writes them. */
  function Join(fs: seq<string>, sep: char): string {
    if fs == [] then "" else if |fs| == 1 then fs[0] else fs[0] + [sep] + Join(fs[1..], sep)
  }

  /** The fields of one line, as a reader splitting at every `sep` sees them. */
  function Split(s: string, sep: char): (fs: seq<string>)
    ensures |fs| >= 1
  {
    if s == [] then [""]
    else
      var rest := Split(s[1..], sep);
      if s[0] == sep then [""] + rest else [[s[0]] + rest[0]] + rest[1..]
  }

  /** The number of occurrences of `sep` in `s`. */
  function Count(s: string, sep: char): nat {
    if s == [] then 0 else (if s[0] == sep then 1 else 0) + Count(s[1..], sep)
  }

  lemma {:induction false} CountAppend(a: string, b: string, sep: char)
    ensures Count(a + b, sep) == Count(a, sep) + Count(b, sep)
  {
    if a == [] {
      assert a + b == b;
    } else {
      assert (a + b)[1..] == a[1..] + b;
      CountAppend(a[1..], b, sep);
    }
  }

  /** Splitting yields one field more than there are separators. */
  lemma {:induction false} SplitCount(s: string, sep: char)
    ensures |Split(s, sep)| == Count(s, sep) + 1
  {
    if s != [] {
      SplitCount(s[1..], sep);
    }
  }

  lemma {:induction false} SplitAfterField(a: string, b: string, sep: char)
    requires sep !in a
    ensures Split(a + [sep] + b, sep) == [a] + Split(b, sep)
  {
    if a != [] {
      assert (a + [sep] + b)[1..] == a[1..] + [sep] + b;
      SplitAfterField(a[1..], b, sep);
      assert [a[0]] + a[1..] == a;
    }
  }

  lemma {:induction false} SplitField(a: string, sep: char)
    requires sep !in a
    ensures Split(a, sep) == [a]
  {
    if a != [] {
      SplitField(a[1..], sep);
      assert [a[0]] + a[1..] == a;
    }
  }

  /** Joined fields that hold no separator split back into the same fields. */
  lemma {:induction false} SplitJoin(fs: seq<string>, sep: char)
    requires |fs| >= 1
    requires forall i :: 0 <= i < |fs| ==> sep !in fs[i]
    ensures Split(Join(fs, sep), sep) == fs
  {
    if |fs| == 1 {
      SplitField(fs[0], sep);
    } else {
      SplitJoin(fs[1..], sep);
      SplitAfterField(fs[0], Join(fs[1..], sep), sep);
    }
  }

  /** The joined text has one separator between each pair of fields, plus those inside the fields. */
  lemma {:induction false} JoinCount(fs: seq<string>, sep: char)
    requires |fs| >= 1
    ensures Count(Join(fs, sep), sep) == |fs| - 1 + CountAll(fs, sep)
  {
    if |fs| > 1 {
      JoinCount(fs[1..], sep);
      CountAppend(fs[0] + [sep], Join(fs[1..], sep), sep);
      CountAppend(fs[0], [sep], sep);
    }
  }

  function CountAll(fs: seq<string>, sep: char): nat {
    if fs == [] then 0 else Count(fs[0], sep) + CountAll(fs[1..], sep)
  }

  function Digit(d: nat): char
    requires d < 10
  {
    "0123456789"[d]
  }

  /** The decimal digits of `n`. */
  function NatToString(n: nat): (r: string)
    ensures |r| >= 1
    ensures forall i :: 0 <= i < |r| ==> '0' <= r[i] <= '9'
  {
    if n < 10 then [Digit(n)] else NatToString(n / 10) + [Digit(n % 10)]
  }

  /** The value of a string of decimal digits. */
  function DigitsValue(s: string): int {
    if s == [] then 0 else DigitsValue(s[..|s| - 1]) * 10 + (s[|s| - 1] as int - '0' as int)
  }

  lemma {:induction false} NatToStringValue(n: nat)
    ensures DigitsValue(NatToString(n)) == n
  {
    if n >= 10 {
      NatToStringValue(n / 10);
      var s := NatToString(n);
      assert s[..|s| - 1] == NatToString(n / 10);
    }
  }

  /** A number as the template literal renders it: decimal, with '-' when negative. */
  function IntToString(n: int): string {
    if n < 0 then "-" + NatToString(-n) else NatToString(n)
  }

  /** Reading the digits back gives the number: a reader recovers totals and cells. */
  lemma IntToStringValue(n: int)
    ensures n >= 0 ==> DigitsValue(IntToString(n)) == n
    ensures n < 0 ==> exists d :: IntToString(n) == "-" + d && DigitsValue(d) == -n
  {
    if n < 0 {
      var d := NatToString(-n);
      NatToStringValue(-n);
      assert IntToString(n) == "-" + d;
    } else {
      NatToStringValue(n);
      assert IntToString(n) == NatToString(n);
    }
  }

  /** A rendered number holds neither a comma nor a line break, so it stays one field. */
  lemma IntToStringPlain(n: int)
    ensures ',' !in IntToString(n) && '\n' !in IntToString(n)
  {
    var d := NatToString(if n < 0 then -n else n);
    var s := IntToString(n);
    assert s == if n < 0 then "-" + d else d;
    forall i | 0 <= i < |s|
      ensures s[i] != ',' && s[i] != '\n'
    {
      if n < 0 && i > 0 {
        assert s[i] == d[i - 1];
      }
    }
  }

  const ColumnTitles: seq<string> := ["Item Number", "Description", "Color", "Total Quantity"]

  /** The header line: the four column titles, then one column per warehouse, in directory order. */
  function Header(names: seq<string>): string {
    "Item Number,Description,Color,Total Quantity," + Join(names, ',') + "\n"
  }

  /** One warehouse column per name: the row's quantity there, or 0. */
  function Cells(row: Row, names: seq<string>): (cells: seq<string>)
    ensures |cells| == |names|
  {
    seq(|names|, i requires 0 <= i < |names| => IntToString(QuantityIn(row, names[i])))
  }

  /** The first four fields of a row's line, each followed by a comma. */
  function LeadingFields(row: Row): string {
    row.itemNumber + "," + row.description + "," + row.color + "," + IntToString(row.totalQuantity) + ","
  }

  /** The line of one report row: the leading fields, then the warehouse columns joined by commas. */
  function Line(row: Row, names: seq<string>): string {
    LeadingFields(row) + (Join(Cells(row, names), ',') + "\n")
  }

  function Lines(rows: seq<Row>, names: seq<string>): string {
    if rows == [] then "" else Lines(rows[..|rows| - 1], names) + Line(rows[|rows| - 1], names)
  }

  /** The whole exported text. */
  function CsvText(w: Warehouses): string {
    Header(w.names) + Lines(Report(w), w.names)
  }

  /** The fields of a row's line, in column order. */
  function RowFields(row: Row, names: seq<string>): seq<string> {
    [row.itemNumber, row.description, row.color, IntToString(row.totalQuantity)] + Cells(row, names)
  }

  lemma {:induction false} JoinAppend(a: seq<string>, b: seq<string>, sep: char)
    requires a != [] && b != []
    ensures Join(a + b, sep) == Join(a, sep) + [sep] + Join(b, sep)
  {
    if |a| == 1 {
      assert (a + b)[1..] == b;
    } else {
      assert (a + b)[1..] == a[1..] + b;
      JoinAppend(a[1..], b, sep);
    }
  }

  /** A character that is not the separator and occurs in no field does not occur in the joined text. */
  lemma {:induction false} JoinAvoids(fs: seq<string>, sep: char, c: char)
    requires c != sep
    requires forall i :: 0 <= i < |fs| ==> c !in fs[i]
    ensures c !in Join(fs, sep)
  {
    if |fs| > 1 {
      JoinAvoids(fs[1..], sep, c);
    }
  }

  lemma TitlesJoined()
    ensures Join(ColumnTitles, ',') + "," == "Item Number,Description,Color,Total Quantity,"
  {
    TitlesUnfold();
    TitlesLiteral();
  }

  /** The titles with their separators, as the one literal the export writes. */
  lemma TitlesLiteral()
    ensures "Item Number" + "," + "Description" + "," + "Color" + "," + "Total Quantity" + ","
            == "Item Number,Description,Color,Total Quantity,"
  {
  }

  lemma TitlesUnfold()
    ensures Join(ColumnTitles, ',') + "," == "Item Number" + "," + "Description" + "," + "Color" + "," + "Total Quantity" + ","
  {
    var t := ColumnTitles;
    assert t[3..] == ["Total Quantity"];
    assert Join(t, ',') == "Item Number" + [','] + ("Description" + [','] + ("Color" + [','] + "Total Quantity"));
  }

  /** With at least one warehouse, the header is the column titles and the names joined by commas. */
  lemma HeaderIsJoin(names: seq<string>)
    requires names != []
    ensures Header(names) == Join(ColumnTitles + names, ',') + "\n"
  {
    JoinAppend(ColumnTitles, names, ',');
    TitlesJoined();
  }

  /** With at least one warehouse, a line is the row's fields joined by commas. */
  lemma LineIsJoin(row: Row, names: seq<string>)
    requires names != []
    ensures Line(row, names) == Join(RowFields(row, names), ',') + "\n"
  {
    var cs := Cells(row, names);
    var t := IntToString(row.totalQuantity);
    var head := [row.itemNumber, row.description, row.color, t];
    JoinAppend(head, cs, ',');
    assert head + cs == RowFields(row, names);
    LeadingFieldsJoined(row);
  }

  lemma LeadingFieldsJoined(row: Row)
    ensures LeadingFields(row) ==
              Join([row.itemNumber, row.description, row.color, IntToString(row.totalQuantity)], ',') + [',']
  {
    var a, b, c, t := row.itemNumber, row.description, row.color, IntToString(row.totalQuantity);
    JoinAppend([a], [b], ',');
    assert [a] + [b] == [a, b];
    JoinAppend([a, b], [c], ',');
    assert [a, b] + [c] == [a, b, c];
    JoinAppend([a, b, c], [t], ',');
    assert [a, b, c] + [t] == [a, b, c, t];
  }

  /**
   * The header is one line: a reader splitting it at commas gets the four
   * column titles and then the warehouse names, when no name holds a comma
   * or a line break.
   */
  lemma HeaderFields(names: seq<string>)
    requires names != []
    requires forall i :: 0 <= i < |names| ==> ',' !in names[i] && '\n' !in names[i]
    ensures var h := Header(names);
            |h| >= 1 && h[|h| - 1] == '\n' && '\n' !in h[..|h| - 1]
            && Split(h[..|h| - 1], ',') == ColumnTitles + names
  {
    HeaderIsJoin(names);
    var fs := ColumnTitles + names;
    var h := Header(names);
    assert h[..|h| - 1] == Join(fs, ',');
    HeaderFieldsPlain(names);
    SplitJoin(fs, ',');
    JoinAvoids(fs, ',', '\n');
  }

  lemma HeaderFieldsPlain(names: seq<string>)
    requires forall i :: 0 <= i < |names| ==> ',' !in names[i] && '\n' !in names[i]
    ensures var fs := ColumnTitles + names;
            forall i :: 0 <= i < |fs| ==> ',' !in fs[i] && '\n' !in fs[i]
  {
    var fs := ColumnTitles + names;
    forall i | 0 <= i < |fs| ensures ',' !in fs[i] && '\n' !in fs[i] {
      if i >= 4 { assert fs[i] == names[i - 4]; }
    }
  }

  /**
   * A row's line is one line: a reader splitting it at commas gets item
   * number, description, color, total and one quantity per warehouse, in
   * directory order, when the text fields hold no comma and no line break.
   */
  lemma LineFields(row: Row, names: seq<string>)
    requires names != []
    requires ',' !in row.itemNumber && ',' !in row.description && ',' !in row.color
    requires '\n' !in row.itemNumber && '\n' !in row.description && '\n' !in row.color
    ensures var l := Line(row, names);
            |l| >= 1 && l[|l| - 1] == '\n' && '\n' !in l[..|l| - 1]
            && Split(l[..|l| - 1], ',') == RowFields(row, names)
            && |Split(l[..|l| - 1], ',')| == 4 + |names|
  {
    LineIsJoin(row, names);
    var fs := RowFields(row, names);
    var l := Line(row, names);
    assert l[..|l| - 1] == Join(fs, ',');
    forall i | 0 <= i < |fs| ensures ',' !in fs[i] && '\n' !in fs[i] {
      if i == 3 { IntToStringPlain(row.totalQuantity); }
      if i >= 4 { IntToStringPlain(QuantityIn(row, names[i - 4])); }
    }
    SplitJoin(fs, ',');
    JoinAvoids(fs, ',', '\n');
  }

  lemma {:induction false} CountAllPlain(fs: seq<string>, sep: char)
    requires forall i :: 0 <= i < |fs| ==> sep !in fs[i]
    ensures CountAll(fs, sep) == 0
  {
    if fs != [] {
      CountZero(fs[0], sep);
      CountAllPlain(fs[1..], sep);
    }
  }

  lemma {:induction false} CountZero(s: string, sep: char)
    requires sep !in s
    ensures Count(s, sep) == 0
  {
    if s != [] { CountZero(s[1..], sep); }
  }

  lemma {:induction false} CountAllAppend(a: seq<string>, b: seq<string>, sep: char)
    ensures CountAll(a + b, sep) == CountAll(a, sep) + CountAll(b, sep)
  {
    if a == [] {
      assert a + b == b;
    } else {
      assert (a + b)[1..] == a[1..] + b;
      CountAllAppend(a[1..], b, sep);
    }
  }

  /**
   * Without escaping, every comma inside the item number, description or
   * color is one more field on the line.
   */
  lemma LineFieldCount(row: Row, names: seq<string>)
    requires names != []
    ensures var l := Line(row, names);
            |Split(l[..|l| - 1], ',')|
            == 4 + |names| + Count(row.itemNumber, ',') + Count(row.description, ',') + Count(row.color, ',')
  {
    LineIsJoin(row, names);
    var fs := RowFields(row, names);
    var l := Line(row, names);
    assert l[..|l| - 1] == Join(fs, ',');
    SplitCount(Join(fs, ','), ',');
    JoinCount(fs, ',');
    var cs := Cells(row, names);
    var t := IntToString(row.totalQuantity);
    forall i | 0 <= i < |cs| ensures ',' !in cs[i] {
      IntToStringPlain(QuantityIn(row, names[i]));
    }
    CountAllPlain(cs, ',');
    IntToStringPlain(row.totalQuantity);
    CountZero(t, ',');
    var head := [row.itemNumber, row.description, row.color, t];
    CountAllAppend(head, cs, ',');
    assert head + cs == fs;
    assert head[1..] == [row.description, row.color, t];
    assert head[1..][1..] == [row.color, t];
    assert head[1..][1..][1..] == [t];
    assert head[1..][1..][1..][1..] == [];
    assert CountAll(head[1..][1..][1..], ',') == Count(t, ',');
    assert CountAll(head[1..][1..], ',') == Count(row.color, ',') + Count(t, ',');
    assert CountAll(head[1..], ',') == Count(row.description, ',') + Count(row.color, ',') + Count(t, ',');
    assert CountAll(head, ',') == Count(row.itemNumber, ',') + Count(row.description, ',') + Count(row.color, ',');
    assert |fs| == 4 + |names|;
  }

  /** With no warehouses at all, the line still ends in a comma: an empty fifth field. */
  lemma LineWithoutWarehouses(row: Row)
    requires ',' !in row.itemNumber && ',' !in row.description && ',' !in row.color
    ensures var l := Line(row, []);
            Split(l[..|l| - 1], ',') == [row.itemNumber, row.description, row.color, IntToString(row.totalQuantity), ""]
  {
    var t := IntToString(row.totalQuantity);
    IntToStringPlain(row.totalQuantity);
    var head := [row.itemNumber, row.description, row.color, t];
    var l := Line(row, []);
    assert Join(Cells(row, []), ',') == "";
    assert l[..|l| - 1] == LeadingFields(row);
    LeadingFieldsJoined(row);
    JoinAppend(head, [""], ',');
    assert Join(head + [""], ',') == LeadingFields(row);
    var fs := head + [""];
    assert fs == [row.itemNumber, row.description, row.color, t, ""];
    SplitJoin(fs, ',');
  }

  lemma LinesStep(rows: seq<Row>, i: int, names: seq<string>)
    requires 0 <= i < |rows|
    ensures Lines(rows[..i + 1], names) == Lines(rows[..i], names) + Line(rows[i], names)
  {
    assert rows[..i + 1][..i] == rows[..i];
  }

  /** Appending the next row's leading fields and cells extends the text by that row's line. */
  lemma WriteStep(text: string, rows: seq<Row>, i: int, names: seq<string>)
    requires 0 <= i < |rows|
    requires text == Lines(rows[..i], names)
    ensures text + LeadingFields(rows[i]) + (Join(Cells(rows[i], names), ',') + "\n") == Lines(rows[..i + 1], names)
  {
    var row := rows[i];
    var cells := Join(Cells(row, names), ',') + "\n";
    assert text + LeadingFields(row) + cells == text + (LeadingFields(row) + cells);
    LinesStep(rows, i, names);
  }

  /** The `forEach` over the grouped rows: one line per row, in key order. */
  method WriteLines(g: Groups, names: seq<string>) returns (text: string)
    requires forall k :: k in g.order ==> k in g.rows
    ensures text == Lines(RowsOf(g), names)
  {
    ghost var rows := RowsOf(g);
    text := "";
    for i := 0 to |g.order|
      invariant text == Lines(rows[..i], names)
    {
      var item := g.rows[g.order[i]];
      assert item == rows[i];
      ghost var before := text;
      text := text + (item.itemNumber + "," + item.description + "," + item.color + "," + IntToString(item.totalQuantity) + ",");
      text := text + (Join(Cells(item, names), ',') + "\n");
      WriteStep(before, rows, i, names);
    }
    assert rows[..|g.order|] == rows;
  }

  /** `exportToExcel` up to the download: aggregate, then the header and one line per row. */
  method ExportCsv(w: Warehouses) returns (csv: string)
    ensures csv == CsvText(w)
  {
    var g := Aggregate(w);
    GroupShape(Entries(w.names, w.shelves));
    csv := "Item Number,Description,Color,Total Quantity,";
    csv := csv + Join(w.names, ',') + "\n";
    var lines := WriteLines(g, w.names);
    csv := csv + lines;
  }
}
