/**
 * Reading offer identifiers out of the input workbook's active sheet.
 * A sheet is a sequence of rows; row 1 of the workbook is `sheet[0]`, and a
 * cell that holds nothing is `None`. Cells are modelled as the text they hold.
 */
module Loader {
  import opened Wrappers
  import opened Text

  type Cell = Option<string>
  type Row = seq<Cell>
  type Sheet = seq<Row>

  /** The header the loader looks for, after stripping and lower-casing. */
  const OfferIdHeader: string := "offer_id"

  /** Row 1 of the sheet; a sheet without rows has an empty first row. */
  function FirstRow(sheet: Sheet): Row {
    if sheet == [] then [] else sheet[0]
  }

  /** A header cell as it is compared: stripped and lower-cased, and "" for an empty cell. */
  function HeaderKey(c: Cell): string {
    match c
    case None => ""
    case Some(s) => Lower(Trim(s))
  }

  function Headers(sheet: Sheet): (h: seq<string>)
    ensures |h| == |FirstRow(sheet)|
    ensures forall j :: 0 <= j < |h| ==> h[j] == HeaderKey(FirstRow(sheet)[j])
  {
    seq(|FirstRow(sheet)|, j requires 0 <= j < |FirstRow(sheet)| => HeaderKey(FirstRow(sheet)[j]))
  }

  /** Python's `xs.index(key)`, with `None` where `key not in xs`. */
  function IndexOf(xs: seq<string>, key: string): (r: Option<nat>)
    ensures r.None? <==> key !in xs
    ensures r.Some? ==> r.value < |xs| && xs[r.value] == key && key !in xs[..r.value]
  {
    if xs == [] then None
    else if xs[0] == key then Some(0)
    else
      var rest := IndexOf(xs[1..], key);
      if rest.None? then None else Some(rest.value + 1)
  }

  /** The column to read and the row to start at, both counted from 1 as the workbook does. */
  datatype Selection = Selection(column: nat, startRow: nat)

  /**
   * With an `offer_id` header in row 1, its first occurrence is read from row 2 on;
   * without one, column 1 is read from row 1 on (a file without a header row).
   */
  function SelectColumn(sheet: Sheet): (sel: Selection)
    ensures sel.column >= 1 && sel.startRow - 1 <= |sheet|
    ensures OfferIdHeader in Headers(sheet) ==>
      sel.startRow == 2 && sel.column <= |Headers(sheet)| &&
      Headers(sheet)[sel.column - 1] == OfferIdHeader &&
      OfferIdHeader !in Headers(sheet)[..sel.column - 1]
    ensures OfferIdHeader !in Headers(sheet) ==> sel == Selection(1, 1)
  {
    match IndexOf(Headers(sheet), OfferIdHeader)
    case Some(j) => Selection(j + 1, 2)
    case None => Selection(1, 1)
  }

  /** The cell of `row` in column `column` (from 1); a row shorter than that reads as empty. */
  function CellAt(row: Row, column: nat): Cell
    requires column >= 1
  {
    if column - 1 < |row| then row[column - 1] else None
  }

  /** The cells the loader visits: column `sel.column` of every row from `sel.startRow` on. */
  function ColumnCells(sheet: Sheet, sel: Selection): (cells: seq<Cell>)
    requires sel.column >= 1 && sel.startRow >= 1
    requires sel.startRow - 1 <= |sheet|
    ensures |cells| == |sheet| - (sel.startRow - 1)
    ensures forall k :: 0 <= k < |cells| ==> cells[k] == CellAt(sheet[sel.startRow - 1 + k], sel.column)
  {
    var first := sel.startRow - 1;
    seq(|sheet| - first, k requires 0 <= k < |sheet| - first => CellAt(sheet[first + k], sel.column))
  }

  /** The loop of the loader: empty cells are skipped, every other value is stripped. */
  function Stripped(cells: seq<Cell>): (vs: seq<string>)
    ensures |vs| <= |cells|
  {
    if cells == [] then []
    else
      var rest := Stripped(cells[..|cells| - 1]);
      match cells[|cells| - 1]
      case None => rest
      case Some(v) => rest + [Trim(v)]
  }

  /** The final comprehension of the loader: empty strings are dropped, order is kept. */
  function DropEmpty(vs: seq<string>): (ids: seq<string>)
    ensures |ids| <= |vs|
    ensures forall k :: 0 <= k < |ids| ==> ids[k] != ""
    ensures forall x :: x in ids <==> x in vs && x != ""
    ensures forall x :: multiset(ids)[x] == if x == "" then 0 else multiset(vs)[x]
  {
    if vs == [] then []
    else
      var rest := DropEmpty(vs[..|vs| - 1]);
      assert vs == vs[..|vs| - 1] + [vs[|vs| - 1]];
      if vs[|vs| - 1] == "" then rest else rest + [vs[|vs| - 1]]
  }

  /** The row loop works cell by cell: reading two runs of cells reads each in turn, in order. */
  lemma {:induction false} StrippedAppend(a: seq<Cell>, b: seq<Cell>)
    ensures Stripped(a + b) == Stripped(a) + Stripped(b)
  {
    if b == [] {
      assert a + b == a;
    } else {
      var b' := b[..|b| - 1];
      assert (a + b)[..|a + b| - 1] == a + b';
      StrippedAppend(a, b');
    }
  }

  /** Dropping empty strings keeps every other value in place: it works value by value, in order. */
  lemma {:induction false} DropEmptyAppend(a: seq<string>, b: seq<string>)
    ensures DropEmpty(a + b) == DropEmpty(a) + DropEmpty(b)
  {
    if b == [] {
      assert a + b == a;
    } else {
      var b' := b[..|b| - 1];
      assert (a + b)[..|a + b| - 1] == a + b';
      DropEmptyAppend(a, b');
    }
  }

  /** The identifiers the loader returns for `sheet`. */
  function Loaded(sheet: Sheet): (ids: seq<string>)
    ensures forall k :: 0 <= k < |ids| ==> ids[k] != "" && Trim(ids[k]) == ids[k]
  {
    LoadedFrom(sheet, SelectColumn(sheet))
  }

  /** The identifiers read from column `sel` of `sheet`: stripped, with the empty ones dropped. */
  function LoadedFrom(sheet: Sheet, sel: Selection): (ids: seq<string>)
    requires sel.column >= 1 && sel.startRow >= 1 && sel.startRow - 1 <= |sheet|
    ensures forall k :: 0 <= k < |ids| ==> ids[k] != "" && Trim(ids[k]) == ids[k]
  {
    KeptAreTrimmed(ColumnCells(sheet, sel));
    DropEmpty(Stripped(ColumnCells(sheet, sel)))
  }

  /** What the loader keeps from a run of cells is non-empty and already stripped. */
  lemma KeptAreTrimmed(cells: seq<Cell>)
    ensures forall k :: 0 <= k < |DropEmpty(Stripped(cells))| ==>
      Trim(DropEmpty(Stripped(cells))[k]) == DropEmpty(Stripped(cells))[k]
  {
    var vs := Stripped(cells);
    var ids := DropEmpty(vs);
    StrippedAreTrimmed(cells);
    forall k | 0 <= k < |ids| ensures Trim(ids[k]) == ids[k] {
      assert ids[k] in vs;
    }
  }

  /** The loader itself: pick the column, read it, then drop empty strings. */
  method ReadOfferIds(sheet: Sheet) returns (ids: seq<string>)
    ensures ids == Loaded(sheet)
    ensures forall k :: 0 <= k < |ids| ==> ids[k] != "" && Trim(ids[k]) == ids[k]
  {
    var sel := SelectColumn(sheet);
    var raw := ReadColumn(sheet, sel);
    ids := DropEmpty(raw);
    forall k | 0 <= k < |ids| ensures Trim(ids[k]) == ids[k] {
      assert ids[k] in raw;
    }
  }

  /** The row loop of the loader: skip empty cells and strip every other value. */
  method ReadColumn(sheet: Sheet, sel: Selection) returns (raw: seq<string>)
    requires sel.column >= 1 && sel.startRow >= 1 && sel.startRow - 1 <= |sheet|
    ensures raw == Stripped(ColumnCells(sheet, sel))
    ensures forall k :: 0 <= k < |raw| ==> Trim(raw[k]) == raw[k]
  {
    ghost var cells := ColumnCells(sheet, sel);
    raw := [];
    var r := sel.startRow - 1;
    while r < |sheet|
      invariant sel.startRow - 1 <= r <= |sheet|
      invariant raw == Stripped(cells[..r - (sel.startRow - 1)])
    {
      ghost var k := r - (sel.startRow - 1);
      assert cells[..k + 1][..k] == cells[..k];
      var v := CellAt(sheet[r], sel.column);
      assert v == cells[k];
      if v.None? {
        r := r + 1;
        continue;
      }
      raw := raw + [Trim(v.value)];
      r := r + 1;
    }
    assert cells[..r - (sel.startRow - 1)] == cells;
    StrippedAreTrimmed(cells);
  }

  /**
   * An identifier is loaded exactly when it is the non-empty stripped value of
   * some non-empty cell of the selected column.
   */
  lemma {:induction false} LoadedMembership(sheet: Sheet, x: string)
    ensures var cells := ColumnCells(sheet, SelectColumn(sheet));
      x in Loaded(sheet) <==>
      x != "" && exists k :: 0 <= k < |cells| && cells[k].Some? && Trim(cells[k].value) == x
  {
    var cells := ColumnCells(sheet, SelectColumn(sheet));
    StrippedMembership(cells, x);
  }

  /** Every value the row loop keeps is already stripped. */
  lemma {:induction false} StrippedAreTrimmed(cells: seq<Cell>)
    ensures forall k :: 0 <= k < |Stripped(cells)| ==> Trim(Stripped(cells)[k]) == Stripped(cells)[k]
  {
    if cells != [] {
      var rest := Stripped(cells[..|cells| - 1]);
      StrippedAreTrimmed(cells[..|cells| - 1]);
      match cells[|cells| - 1]
      case None =>
        assert Stripped(cells) == rest;
      case Some(v) =>
        TrimIdempotent(v);
        var all := Stripped(cells);
        assert all == rest + [Trim(v)];
        forall k | 0 <= k < |all| ensures Trim(all[k]) == all[k] {
          if k < |rest| { assert all[k] == rest[k]; }
        }
    }
  }

  lemma {:induction false} StrippedMembership(cells: seq<Cell>, x: string)
    ensures x in Stripped(cells) <==> exists k :: 0 <= k < |cells| && cells[k].Some? && Trim(cells[k].value) == x
  {
    if cells != [] {
      var init := cells[..|cells| - 1];
      StrippedMembership(init, x);
      if x in Stripped(cells) {
        if x in Stripped(init) {
          var k :| 0 <= k < |init| && init[k].Some? && Trim(init[k].value) == x;
          assert cells[k] == init[k];
        } else {
          assert cells[|cells| - 1].Some? && Trim(cells[|cells| - 1].value) == x;
        }
      } else {
        forall k | 0 <= k < |cells| && cells[k].Some? ensures Trim(cells[k].value) != x {
          if k < |cells| - 1 { assert init[k] == cells[k]; }
        }
      }
    }
  }

  /** A sheet whose first row has no `offer_id` header is read from column 1, row 1. */
  lemma HeaderlessReadsFirstColumn(sheet: Sheet)
    requires forall j :: 0 <= j < |FirstRow(sheet)| ==> HeaderKey(FirstRow(sheet)[j]) != OfferIdHeader
    ensures Loaded(sheet) == DropEmpty(Stripped(seq(|sheet|, r requires 0 <= r < |sheet| => CellAt(sheet[r], 1))))
  {
    assert OfferIdHeader !in Headers(sheet);
    var cells := ColumnCells(sheet, SelectColumn(sheet));
    assert cells == seq(|sheet|, r requires 0 <= r < |sheet| => CellAt(sheet[r], 1));
  }
}
