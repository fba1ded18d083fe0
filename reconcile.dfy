/**
 * The NOT_FOUND pass of a run: every input identifier that no fetched record
 * carries as its `offer_id` gets a NOT_FOUND entry after the classified ones.
 */
module Reconcile {
  import opened Wrappers
  import opened Report
  import opened Classifier

  /** The fixed error text of a NOT_FOUND entry ("product not found in the API"). */
  const NotFoundError: string := "Товар не найден в API"

  /**
   * `found_offer_ids`: the `offer_id` keys of the fetched records, taken
   * without a default, so a record lacking the key contributes `None`.
   */
  function Found(ps: seq<Product>): (found: set<Option<string>>)
    ensures forall p :: p in ps ==> p.offerId in found
    ensures forall o :: o in found ==> exists p :: p in ps && p.offerId == o
  {
    set p | p in ps :: p.offerId
  }

  /** An identifier is found when some record's `offer_id` is exactly that string. */
  predicate IsFound(id: string, ps: seq<Product>) {
    Some(id) in Found(ps)
  }

  /** The input identifiers that are not found, in input order, duplicates kept. */
  function Missing(ids: seq<string>, ps: seq<Product>): (ms: seq<string>)
    ensures |ms| <= |ids|
    ensures forall x :: x in ms <==> x in ids && !IsFound(x, ps)
  {
    if ids == [] then []
    else
      var rest := Missing(ids[..|ids| - 1], ps);
      var id := ids[|ids| - 1];
      if IsFound(id, ps) then rest else rest + [id]
  }

  function NotFoundRow(id: string): (row: ReportRow)
    ensures row.offerId == id && row.action == NotFound
    ensures row.productId == row.archived == row.autoarchived == Str("NOT_FOUND")
    ensures row.statusBefore == "NOT_FOUND" && row.error == NotFoundError
  {
    ReportRow(id, Str("NOT_FOUND"), "NOT_FOUND", Str("NOT_FOUND"), Str("NOT_FOUND"), NotFound, NotFoundError)
  }

  function NotFoundRows(ids: seq<string>): (rows: seq<ReportRow>)
    ensures |rows| == |ids| && forall k :: 0 <= k < |ids| ==> rows[k] == NotFoundRow(ids[k])
  {
    seq(|ids|, k requires 0 <= k < |ids| => NotFoundRow(ids[k]))
  }

  /** All entries of a run's report: the classified records in fetch order, then the NOT_FOUND entries. */
  function ReportEntries(ids: seq<string>, ps: seq<Product>): (entries: seq<ReportRow>)
    ensures |entries| == |ps| + |Missing(ids, ps)|
    ensures forall k :: 0 <= k < |entries| ==> (entries[k].action == NotFound <==> k >= |ps|)
  {
    ClassifyAll(ps) + NotFoundRows(Missing(ids, ps))
  }

  /** The NOT_FOUND loop of a run: append one entry per input identifier no record carries. */
  method AppendNotFound(rows: seq<ReportRow>, ids: seq<string>, ps: seq<Product>) returns (out: seq<ReportRow>)
    ensures |out| == |rows| + |Missing(ids, ps)|
    ensures out[..|rows|] == rows
    ensures forall k :: |rows| <= k < |out| ==> out[k] == NotFoundRow(Missing(ids, ps)[k - |rows|])
  {
    var found := Found(ps);
    out := rows;
    for k := 0 to |ids|
      invariant out == rows + NotFoundRows(Missing(ids[..k], ps))
    {
      assert ids[..k + 1][..k] == ids[..k];
      if Some(ids[k]) !in found {
        out := out + [NotFoundRow(ids[k])];
      }
    }
    assert ids[..|ids|] == ids;
  }

  /**
   * With duplicates kept: an identifier that some record carries never gets a
   * NOT_FOUND entry, and one that no record carries gets one per occurrence in the input.
   */
  lemma {:induction false} MissingCount(ids: seq<string>, ps: seq<Product>, id: string)
    ensures multiset(Missing(ids, ps))[id] == if IsFound(id, ps) then 0 else multiset(ids)[id]
  {
    if ids != [] {
      var init := ids[..|ids| - 1];
      MissingCount(init, ps, id);
      assert ids == init + [ids[|ids| - 1]];
    }
  }

  /** Every identifier with a NOT_FOUND entry is an input identifier that no record carries. */
  lemma MissingExactly(ids: seq<string>, ps: seq<Product>, id: string)
    ensures id in Missing(ids, ps) <==> id in ids && !IsFound(id, ps)
  {
    MissingCount(ids, ps, id);
  }

  /** When nothing was fetched, every input identifier becomes a NOT_FOUND entry, in input order. */
  lemma {:induction false} NothingFetchedAllMissing(ids: seq<string>)
    ensures ReportEntries(ids, []) == NotFoundRows(ids)
  {
    MissingAll(ids);
  }

  lemma {:induction false} MissingAll(ids: seq<string>)
    ensures Missing(ids, []) == ids
  {
    if ids != [] {
      MissingAll(ids[..|ids| - 1]);
    }
  }

  /** Every input identifier appears in some report entry, found or not. */
  lemma EveryIdReported(ids: seq<string>, ps: seq<Product>, id: string)
    requires id in ids
    ensures exists row :: row in ReportEntries(ids, ps) && row.offerId == id
  {
    var entries := ReportEntries(ids, ps);
    if IsFound(id, ps) {
      var p :| p in ps && p.offerId == Some(id);
      var k :| 0 <= k < |ps| && ps[k] == p;
      assert entries[k] == ClassifyRecord(p);
    } else {
      MissingExactly(ids, ps, id);
      var k :| 0 <= k < |Missing(ids, ps)| && Missing(ids, ps)[k] == id;
      assert entries[|ps| + k] == NotFoundRow(id);
    }
  }
}
