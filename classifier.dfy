/**
 * The classification pass of a run: one report entry per fetched record, and
 * the list of product identifiers to restore.
 */
module Classifier {
  import opened Wrappers
  import opened Report

  /** The `statuses` key of a record: absent, an object with perhaps a `status_name`, or something else. */
  datatype Statuses = StatusesAbsent | StatusesObject(statusName: Option<string>) | StatusesOther

  /** A fetched product record; `None` is a key the record does not have. */
  datatype Product = Product(
    offerId: Option<string>,
    id: Option<int>,
    isArchived: Option<bool>,
    isAutoarchived: Option<bool>,
    statuses: Statuses)

  function Archived(p: Product): bool { p.isArchived.GetOr(false) }

  function Autoarchived(p: Product): bool { p.isAutoarchived.GetOr(false) }

  /** Restorable: archived by the merchant, not by the platform. */
  predicate Eligible(p: Product) { Archived(p) && !Autoarchived(p) }

  /**
   * The three-way decision, starting from the `Skipped` placeholder. The three
   * branches cover every pair of flags, so the placeholder never survives.
   */
  function Decide(archived: bool, autoarchived: bool): (a: Action)
    ensures a != Skipped && a != NotFound
    ensures a == ToUnarchive <==> archived && !autoarchived
    ensures a == SkippedAutoarchived <==> archived && autoarchived
    ensures a == SkippedNotArchived <==> !archived
  {
    var a := Skipped;
    if archived && !autoarchived then ToUnarchive
    else if archived && autoarchived then SkippedAutoarchived
    else if !archived then SkippedNotArchived
    else a
  }

  /** `status_before`: `statuses.status_name` when `statuses` is an object, else "unknown". */
  function StatusBefore(s: Statuses): (status: string)
    ensures s.StatusesObject? && s.statusName.Some? ==> status == s.statusName.value
    ensures !(s.StatusesObject? && s.statusName.Some?) ==> status == "unknown"
  {
    match s
    case StatusesAbsent => "unknown"
    case StatusesObject(name) => name.GetOr("unknown")
    case StatusesOther => "unknown"
  }

  function IdValue(id: Option<int>): Value {
    match id
    case Some(n) => Int(n)
    case None => Null
  }

  /** The report entry of one record; missing flags count as false. */
  function ClassifyRecord(p: Product): (row: ReportRow)
    ensures row.offerId == p.offerId.GetOr("unknown") && row.productId == IdValue(p.id)
    ensures row.archived == Bool(Archived(p)) && row.autoarchived == Bool(Autoarchived(p))
    ensures row.statusBefore == StatusBefore(p.statuses)
    ensures row.action == Decide(Archived(p), Autoarchived(p))
    ensures row.action == ToUnarchive <==> Eligible(p)
    ensures row.action != Skipped && row.action != NotFound && row.error == ""
  {
    ReportRow(p.offerId.GetOr("unknown"), IdValue(p.id), StatusBefore(p.statuses),
              Bool(Archived(p)), Bool(Autoarchived(p)), Decide(Archived(p), Autoarchived(p)), "")
  }

  function ClassifyAll(ps: seq<Product>): (rows: seq<ReportRow>)
    ensures |rows| == |ps| && forall k :: 0 <= k < |ps| ==> rows[k] == ClassifyRecord(ps[k])
  {
    seq(|ps|, k requires 0 <= k < |ps| => ClassifyRecord(ps[k]))
  }

  /** `to_unarchive`: the identifiers of the eligible records, in record order. */
  function RestoreList(ps: seq<Product>): (r: seq<Option<int>>)
    ensures |r| <= |ps|
    ensures forall x :: x in r <==> exists p :: p in ps && Eligible(p) && p.id == x
  {
    if ps == [] then []
    else
      var rest := RestoreList(ps[..|ps| - 1]);
      var p := ps[|ps| - 1];
      if Eligible(p) then rest + [p.id] else rest
  }

  /** The classification loop of a run: the restore list and the report entries, one per record. */
  method ClassifyProducts(ps: seq<Product>) returns (toUnarchive: seq<Option<int>>, rows: seq<ReportRow>)
    ensures rows == ClassifyAll(ps)
    ensures toUnarchive == RestoreList(ps)
  {
    toUnarchive, rows := [], [];
    for k := 0 to |ps|
      invariant rows == ClassifyAll(ps[..k])
      invariant toUnarchive == RestoreList(ps[..k])
    {
      var p := ps[k];
      var isAutoarchived := p.isAutoarchived.GetOr(false);
      var isArchived := p.isArchived.GetOr(false);
      var row := ReportRow(p.offerId.GetOr("unknown"), IdValue(p.id), StatusBefore(p.statuses),
                           Bool(isArchived), Bool(isAutoarchived), Skipped, "");
      if isArchived && !isAutoarchived {
        toUnarchive := toUnarchive + [p.id];
        row := row.(action := ToUnarchive);
      } else if isArchived && isAutoarchived {
        row := row.(action := SkippedAutoarchived);
      } else if !isArchived {
        row := row.(action := SkippedNotArchived);
      }
      assert ps[..k + 1][..k] == ps[..k];
      rows := rows + [row];
    }
    assert ps[..|ps|] == ps;
  }

  /** The product identifiers of the entries marked TO_UNARCHIVE, in report order. */
  function MarkedForRestore(rows: seq<ReportRow>): seq<Value> {
    if rows == [] then []
    else
      var rest := MarkedForRestore(rows[..|rows| - 1]);
      var r := rows[|rows| - 1];
      if r.action == ToUnarchive then rest + [r.productId] else rest
  }

  /** The restore list is exactly the product identifiers the report marks TO_UNARCHIVE, in the same order. */
  lemma {:induction false} RestoreListMatchesReport(ps: seq<Product>)
    ensures MarkedForRestore(ClassifyAll(ps)) ==
      seq(|RestoreList(ps)|, k requires 0 <= k < |RestoreList(ps)| => IdValue(RestoreList(ps)[k]))
  {
    if ps != [] {
      var init := ps[..|ps| - 1];
      RestoreListMatchesReport(init);
      assert ClassifyAll(ps)[..|ps| - 1] == ClassifyAll(init);
    }
  }

  /** A record after a successful restore: no longer archived. */
  function AfterRestore(p: Product): Product {
    p.(isArchived := Some(false))
  }

  /**
   * Running the classification again on restored records selects nothing and
   * marks every record SKIPPED (NOT_ARCHIVED).
   */
  lemma {:induction false} RestoredNotSelectedAgain(ps: seq<Product>)
    ensures var again := seq(|ps|, k requires 0 <= k < |ps| => AfterRestore(ps[k]));
      RestoreList(again) == [] &&
      forall k :: 0 <= k < |ps| ==> ClassifyRecord(again[k]).action == SkippedNotArchived
  {
    if ps != [] {
      var init := ps[..|ps| - 1];
      RestoredNotSelectedAgain(init);
      var again := seq(|ps|, k requires 0 <= k < |ps| => AfterRestore(ps[k]));
      assert again[..|ps| - 1] == seq(|init|, k requires 0 <= k < |init| => AfterRestore(init[k]));
    }
  }
}
