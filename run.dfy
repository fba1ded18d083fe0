/**
 * One run of the tool (`OzonUnarchiverApp.process`): load identifiers, fetch
 * their records chunk by chunk, classify them, restore the eligible ones, add
 * NOT_FOUND entries and write the report. Network replies are oracles indexed
 * by request number; the report is the worksheet rows that would be saved.
 */
module Run {
  import opened Wrappers
  import opened Loader
  import opened Chunking
  import opened Batches
  import opened Report
  import opened Classifier
  import opened Reconcile
  import Fetcher
  import Restorer

  /** How a run ends. */
  datatype Exit<B> =
    | NoOfferIds                                   // the input held no identifier: nothing is fetched
    | FetchFailed(errors: seq<ChunkError>)         // no record and at least one error: the run stops
    | Completed(restoreResults: seq<B>, restoreErrors: seq<ChunkError>)

  /** What a run did: the requests it posted, the report it wrote (if any), and how it ended. */
  datatype Trace<B> = Trace(
    fetchRequests: seq<seq<string>>,
    restoreRequests: seq<seq<Option<int>>>,
    report: Option<seq<seq<Value>>>,
    exit: Exit<B>)

  /** The worksheet rows of a report: the header, then one row per entry. */
  function WrittenSheet(entries: seq<ReportRow>): (sheet: seq<seq<Value>>)
    ensures |sheet| == |entries| + 1 && sheet[0] == HeaderRow()
    ensures forall k :: 0 <= k < |entries| ==> sheet[k + 1] == Layout(entries[k].AsDict())
  {
    [HeaderRow()] + seq(|entries|, k requires 0 <= k < |entries| => Layout(entries[k].AsDict()))
  }

  method Process<B>(sheet: Loader.Sheet, fetchReply: nat -> Fetcher.Reply<Product>,
                    restoreReply: nat -> Restorer.Reply<B>)
    returns (run: Trace<B>)
    // an empty identifier list stops before any request and any report
    ensures Loaded(sheet) == [] ==> run == Trace([], [], None, NoOfferIds)
    // otherwise the lookup visits every chunk of the identifiers
    ensures Loaded(sheet) != [] ==> run.fetchRequests == Chunks(Loaded(sheet))
    // the run stops early exactly when there is no identifier
    ensures run.exit.NoOfferIds? <==> Loaded(sheet) == []
    // no record and at least one error stops before classification, restore and report;
    // every other run with identifiers completes
    ensures Loaded(sheet) != [] ==>
      var outs := Fetcher.FetchOutcomes(Loaded(sheet), fetchReply);
      run.exit.Completed? <==> !(Items(outs) == [] && Errors(outs) != [])
    ensures Loaded(sheet) != [] ==>
      var outs := Fetcher.FetchOutcomes(Loaded(sheet), fetchReply);
      (run.exit.FetchFailed? <==> Items(outs) == [] && Errors(outs) != []) &&
      (run.exit.FetchFailed? ==> run.exit.errors == Errors(outs) && run.restoreRequests == [] && run.report == None)
    // otherwise the eligible records are restored (no request when there are none) and the report is written
    ensures run.exit.Completed? ==>
      var ids := Loaded(sheet);
      var ps := Items(Fetcher.FetchOutcomes(ids, fetchReply));
      run.restoreRequests == Chunks(RestoreList(ps)) &&
      run.exit.restoreResults == Oks(Restorer.RestoreOutcomes(RestoreList(ps), restoreReply)) &&
      run.exit.restoreErrors == Errors(Restorer.RestoreOutcomes(RestoreList(ps), restoreReply)) &&
      run.report == Some(WrittenSheet(ReportEntries(ids, ps)))
    // no record and no error is not a failure: every identifier is reported NOT_FOUND
    ensures Loaded(sheet) != [] ==>
      var outs := Fetcher.FetchOutcomes(Loaded(sheet), fetchReply);
      Items(outs) == [] && Errors(outs) == [] ==>
        run.exit.Completed? && run.restoreRequests == [] &&
        run.report == Some(WrittenSheet(NotFoundRows(Loaded(sheet))))
  {
    var offerIds := ReadOfferIds(sheet);
    if |offerIds| == 0 {
      return Trace([], [], None, NoOfferIds);
    }

    var fetchSent, products, apiErrors := Fetcher.GetProductsInfo(offerIds, fetchReply);
    if |products| == 0 && |apiErrors| > 0 {
      return Trace(fetchSent, [], None, FetchFailed(apiErrors));
    }

    var toUnarchive, reportData := ClassifyProducts(products);
    if |products| == 0 {
      assert RestoreList(products) == [];
      NothingFetchedAllMissing(offerIds);
    }

    var restoreSent: seq<seq<Option<int>>> := [];
    var unarchiveResults: seq<B> := [];
    var unarchiveErrors: seq<ChunkError> := [];
    if |toUnarchive| > 0 {
      restoreSent, unarchiveResults, unarchiveErrors := Restorer.UnarchiveProducts(toUnarchive, restoreReply);
    } else {
      assert Restorer.RestoreOutcomes(toUnarchive, restoreReply) == [];
    }

    var written := FinishReport(reportData, offerIds, products);
    run := Trace(fetchSent, restoreSent, Some(written), Completed(unarchiveResults, unarchiveErrors));
  }

  /** The end of a run: the NOT_FOUND entries are appended and every entry is written, header first. */
  method FinishReport(rows: seq<ReportRow>, ids: seq<string>, ps: seq<Product>) returns (written: seq<seq<Value>>)
    requires rows == ClassifyAll(ps)
    ensures written == WrittenSheet(ReportEntries(ids, ps))
  {
    var reportData := AppendNotFound(rows, ids, ps);
    assert reportData == ReportEntries(ids, ps);
    var dicts := seq(|reportData|, k requires 0 <= k < |reportData| => reportData[k].AsDict());
    written := WriteReport(dicts);
    var expected := WrittenSheet(reportData);
    assert |written| == |expected|;
    forall k | 0 <= k < |written| ensures written[k] == expected[k] {
      if k > 0 {
        assert written[k] == Layout(dicts[k - 1]);
        assert expected[k] == Layout(reportData[k - 1].AsDict());
      }
    }
  }

  /**
   * When every lookup request is refused (a 401 for each chunk, say), a run with
   * identifiers ends FetchFailed: no record and one error per chunk.
   */
  lemma AllLookupsRefused(ids: seq<string>, reply: nat -> Fetcher.Reply<Product>)
    requires ids != []
    requires forall k: nat :: reply(k).Responded? && reply(k).status != 200
    ensures Items(Fetcher.FetchOutcomes(ids, reply)) == []
    ensures |Errors(Fetcher.FetchOutcomes(ids, reply))| == |Chunks(ids)| > 0
  {
    var outs := Fetcher.FetchOutcomes(ids, reply);
    forall k | 0 <= k < |outs| ensures outs[k].Err? {
      assert outs[k] == Fetcher.FetchOutcome(reply(k));
    }
    Fetcher.AllChunksRejected(outs);
  }

  /**
   * Input A, B, C; A is archived by the merchant, B is not archived, C is not
   * returned: A is to be restored, B is skipped, C is NOT_FOUND, and only A's
   * identifier is sent for restore.
   */
  lemma ThreeIdScenario()
    ensures var a := Product(Some("A"), Some(1), Some(true), Some(false), StatusesAbsent);
      var b := Product(Some("B"), Some(2), Some(false), None, StatusesAbsent);
      var entries := ReportEntries(["A", "B", "C"], [a, b]);
      |entries| == 3 &&
      entries[0].offerId == "A" && entries[0].action == ToUnarchive &&
      entries[1].offerId == "B" && entries[1].action == SkippedNotArchived &&
      entries[2].offerId == "C" && entries[2].action == NotFound &&
      Chunks(RestoreList([a, b])) == [[Some(1)]]
  {
    var a := Product(Some("A"), Some(1), Some(true), Some(false), StatusesAbsent);
    var b := Product(Some("B"), Some(2), Some(false), None, StatusesAbsent);
    var ids := ["A", "B", "C"];
    assert Found([a, b]) == {Some("A"), Some("B")};
    assert IsFound("A", [a, b]) && IsFound("B", [a, b]) && !IsFound("C", [a, b]);
    assert ["A"][..0] == [];
    assert Missing(["A"], [a, b]) == [];
    assert ["A", "B"][..1] == ["A"];
    assert Missing(["A", "B"], [a, b]) == [];
    assert ids[..2] == ["A", "B"];
    assert Missing(ids, [a, b]) == ["C"];
    assert [a][..0] == [];
    assert RestoreList([a]) == [Some(1)];
    assert [a, b][..1] == [a];
    assert RestoreList([a, b]) == [Some(1)];
    var one := [Some(1)];
    assert Min(ChunkSize, |one|) == 1 && one[..1] == one && one[1..] == [];
    assert Chunks(one) == [one[..1]] + Chunks(one[1..]);
  }
}
