/**
 * Report rows and `write_report_xlsx`: a fixed 7-column header, then one
 * worksheet row per report entry, in the order the entries were collected.
 */
module Report {
  import opened Wrappers

  /** A worksheet cell value: text, a number, a flag, or nothing. */
  datatype Value = Str(s: string) | Int(n: int) | Bool(b: bool) | Null

  /** The `action` column. `Skipped` is the placeholder a row starts with before it is classified. */
  datatype Action = Skipped | ToUnarchive | SkippedAutoarchived | SkippedNotArchived | NotFound

  /** The text of each action; no two actions share one, so the column tells them apart. */
  function ActionName(a: Action): (name: string)
    ensures name == "SKIPPED" <==> a == Skipped
    ensures name == "TO_UNARCHIVE" <==> a == ToUnarchive
    ensures name == "SKIPPED (AUTOARCHIVED)" <==> a == SkippedAutoarchived
    ensures name == "SKIPPED (NOT_ARCHIVED)" <==> a == SkippedNotArchived
    ensures name == "NOT_FOUND" <==> a == NotFound
  {
    match a
    case Skipped => "SKIPPED"
    case ToUnarchive => "TO_UNARCHIVE"
    case SkippedAutoarchived => "SKIPPED (AUTOARCHIVED)"
    case SkippedNotArchived => "SKIPPED (NOT_ARCHIVED)"
    case NotFound => "NOT_FOUND"
  }

  /** One entry of the report, as the run builds it. */
  datatype ReportRow = ReportRow(
    offerId: string,
    productId: Value,
    statusBefore: string,
    archived: Value,
    autoarchived: Value,
    action: Action,
    error: string)
  {
    /** The entry as the dictionary the report writer is given. */
    function AsDict(): map<string, Value> {
      map[
        "offer_id" := Str(offerId),
        "product_id" := productId,
        "status_before" := Str(statusBefore),
        "archived" := archived,
        "is_autoarchived" := autoarchived,
        "action" := Str(ActionName(action)),
        "error" := Str(error)]
    }
  }

  /** The header row's column names, in order. */
  const Columns: seq<string> :=
    ["offer_id", "product_id", "status_before", "archived", "is_autoarchived", "action", "error"]

  function HeaderRow(): (h: seq<Value>)
    ensures |h| == |Columns| && forall j :: 0 <= j < |h| ==> h[j] == Str(Columns[j])
  {
    seq(|Columns|, j requires 0 <= j < |Columns| => Str(Columns[j]))
  }

  /** Python's `d.get(key)`. */
  function Get(d: map<string, Value>, key: string): Value {
    if key in d then d[key] else Null
  }

  /**
   * The worksheet row written for one entry: column j holds the entry's value
   * for the j-th column name, a missing key reads as nothing, and a missing
   * `error` reads as the empty string.
   */
  function Layout(d: map<string, Value>): (cells: seq<Value>)
    ensures |cells| == |Columns|
    ensures forall j :: 0 <= j < |Columns| - 1 ==> cells[j] == Get(d, Columns[j])
    ensures cells[|Columns| - 1] == if "error" in d then d["error"] else Str("")
  {
    [Get(d, "offer_id"), Get(d, "product_id"), Get(d, "status_before"), Get(d, "archived"),
     Get(d, "is_autoarchived"), Get(d, "action"), if "error" in d then d["error"] else Str("")]
  }

  /** A run's entry is written as its seven fields in column order. */
  lemma LayoutOfRow(row: ReportRow)
    ensures Layout(row.AsDict()) ==
      [Str(row.offerId), row.productId, Str(row.statusBefore), row.archived, row.autoarchived,
       Str(ActionName(row.action)), Str(row.error)]
  {
  }

  /** `write_report_xlsx`, up to saving the workbook: the rows appended to the sheet. */
  method WriteReport(rows: seq<map<string, Value>>) returns (sheet: seq<seq<Value>>)
    ensures |sheet| == |rows| + 1
    ensures sheet[0] == HeaderRow()
    ensures forall k :: 0 <= k < |rows| ==> sheet[k + 1] == Layout(rows[k])
  {
    sheet := [HeaderRow()];
    for k := 0 to |rows|
      invariant |sheet| == k + 1 && sheet[0] == HeaderRow()
      invariant forall m :: 0 <= m < k ==> sheet[m + 1] == Layout(rows[m])
    {
      sheet := sheet + [Layout(rows[k])];
    }
  }
}
