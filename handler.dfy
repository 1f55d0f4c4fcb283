/**
 * The `/analyze` request handler: it runs the per-URL banner analyser on
 * every submitted image URL, in order, flattens the per-URL banner lists
 * into one list and answers with the report id and that list (absent when
 * empty).
 *
 * The per-URL analyser (`analyze_banner_from_url`) is not part of this
 * model. It is a parameter: `analyzer(n, url)` is what the n-th call
 * (counting from 0) made on `url` returns, either a list of banners or an
 * error it raises. Taking the call number keeps the model from assuming
 * that two calls on the same URL answer alike. Banners are of an opaque
 * type `B`, errors of an opaque type `E`.
 */
module AnalyzeHandler {
  import opened Wrappers
  import opened Aggregation

  /** The request body: a report id and the image URLs, in submission order. */
  datatype ImageRequest = ImageRequest(reportId: int, imageUrls: seq<string>)

  /** The response body: the report id and the banner list, or `None`. */
  datatype AnalyzeResponse<B> = AnalyzeResponse(reportId: int, bannerList: Option<seq<B>>)

  /**
   * The results of calling the analyser on each of `urls`, the call on
   * `urls[j]` being call number `first + j`. The first error stops the
   * walk and is the outcome, as an uncaught exception would. A successful
   * walk has one entry per URL.
   */
  function Collect<B, E>(analyzer: (nat, string) -> Result<seq<B>, E>, urls: seq<string>, first: nat)
    : (r: Result<seq<seq<B>>, E>)
    ensures r.Ok? ==> |r.value| == |urls|
    decreases |urls|
  {
    if urls == [] then Ok([])
    else
      match analyzer(first, urls[0])
      case Err(e) => Err(e)
      case Ok(part) =>
        match Collect(analyzer, urls[1..], first + 1)
        case Err(e) => Err(e)
        case Ok(rest) => Ok([part] + rest)
  }

  /**
   * The handler's outcome, as a function of the request and the analyser.
   * A response always carries the request's report id.
   */
  function AnalyzeSpec<B, E>(req: ImageRequest, analyzer: (nat, string) -> Result<seq<B>, E>)
    : (r: Result<AnalyzeResponse<B>, E>)
    ensures r.Ok? ==> r.value.reportId == req.reportId
  {
    match Collect(analyzer, req.imageUrls, 0)
    case Err(e) => Err(e)
    case Ok(parts) => Ok(AnalyzeResponse(req.reportId, ResponseBannerList(Flatten(parts))))
  }

  /** When every call succeeds, the collected results are exactly their answers, one per URL. */
  lemma {:induction false} CollectAllOk<B, E>(
    analyzer: (nat, string) -> Result<seq<B>, E>, urls: seq<string>, first: nat, parts: seq<seq<B>>)
    requires |parts| == |urls|
    requires forall j :: 0 <= j < |urls| ==> analyzer(first + j, urls[j]) == Ok(parts[j])
    ensures Collect(analyzer, urls, first) == Ok(parts)
    decreases |urls|
  {
    if urls != [] {
      assert analyzer(first + 0, urls[0]) == Ok(parts[0]);
      forall j | 0 <= j < |urls[1..]|
        ensures analyzer(first + 1 + j, urls[1..][j]) == Ok(parts[1..][j])
      {
        assert analyzer(first + (j + 1), urls[j + 1]) == Ok(parts[j + 1]);
      }
      CollectAllOk(analyzer, urls[1..], first + 1, parts[1..]);
      assert parts == [parts[0]] + parts[1..];
    }
  }

  /** When the k-th call is the first to fail, its error is the outcome. */
  lemma {:induction false} CollectFirstErr<B, E>(
    analyzer: (nat, string) -> Result<seq<B>, E>, urls: seq<string>, first: nat, k: nat, e: E)
    requires k < |urls|
    requires forall j :: 0 <= j < k ==> analyzer(first + j, urls[j]).Ok?
    requires analyzer(first + k, urls[k]) == Err(e)
    ensures Collect(analyzer, urls, first) == Err(e)
    decreases |urls|
  {
    if k == 0 {
      assert analyzer(first + 0, urls[0]) == Err(e);
    } else {
      assert analyzer(first + 0, urls[0]).Ok?;
      forall j | 0 <= j < k - 1
        ensures analyzer(first + 1 + j, urls[1..][j]).Ok?
      {
        assert analyzer(first + (j + 1), urls[j + 1]).Ok?;
      }
      assert analyzer(first + 1 + (k - 1), urls[1..][k - 1]) == Err(e);
      CollectFirstErr(analyzer, urls[1..], first + 1, k - 1, e);
    }
  }

  /** A successful collection holds exactly one answer per URL, in URL order. */
  lemma {:induction false} CollectOkParts<B, E>(
    analyzer: (nat, string) -> Result<seq<B>, E>, urls: seq<string>, first: nat)
    requires Collect(analyzer, urls, first).Ok?
    ensures |Collect(analyzer, urls, first).value| == |urls|
    ensures forall j :: 0 <= j < |urls| ==>
      analyzer(first + j, urls[j]) == Ok(Collect(analyzer, urls, first).value[j])
    decreases |urls|
  {
    if urls != [] {
      var parts := Collect(analyzer, urls, first).value;
      var rest := Collect(analyzer, urls[1..], first + 1);
      assert rest.Ok?;
      CollectOkParts(analyzer, urls[1..], first + 1);
      assert parts == [analyzer(first, urls[0]).value] + rest.value;
      forall j | 0 <= j < |urls|
        ensures analyzer(first + j, urls[j]) == Ok(parts[j])
      {
        if j > 0 {
          assert analyzer(first + 1 + (j - 1), urls[1..][j - 1]) == Ok(rest.value[j - 1]);
        }
      }
    }
  }

  /** A failed collection failed at some call, every earlier call having succeeded. */
  lemma {:induction false} CollectErrAt<B, E>(
    analyzer: (nat, string) -> Result<seq<B>, E>, urls: seq<string>, first: nat)
    requires Collect(analyzer, urls, first).Err?
    ensures exists k ::
              && 0 <= k < |urls|
              && analyzer(first + k, urls[k]) == Err(Collect(analyzer, urls, first).error)
              && forall j :: 0 <= j < k ==> analyzer(first + j, urls[j]).Ok?
    decreases |urls|
  {
    var e := Collect(analyzer, urls, first).error;
    if analyzer(first, urls[0]).Err? {
      assert analyzer(first + 0, urls[0]) == Err(e);
    } else {
      CollectErrAt(analyzer, urls[1..], first + 1);
      var k :| 0 <= k < |urls[1..]| && analyzer(first + 1 + k, urls[1..][k]) == Err(e)
        && forall j :: 0 <= j < k ==> analyzer(first + 1 + j, urls[1..][j]).Ok?;
      assert analyzer(first + (k + 1), urls[k + 1]) == Err(e);
      forall j | 0 <= j < k + 1
        ensures analyzer(first + j, urls[j]).Ok?
      {
        if j > 0 {
          assert analyzer(first + 1 + (j - 1), urls[1..][j - 1]).Ok?;
        }
      }
    }
  }

  /**
   * The handler succeeds exactly when every call to the analyser succeeds;
   * then the report id is passed through, the banner list is absent exactly
   * when every URL yielded no banner, and otherwise it holds all the banners,
   * URL by URL in submission order, one block per URL (duplicates included).
   */
  lemma AnalyzeSucceeds<B, E>(req: ImageRequest, analyzer: (nat, string) -> Result<seq<B>, E>)
    ensures AnalyzeSpec(req, analyzer).Ok? <==>
      forall j :: 0 <= j < |req.imageUrls| ==> analyzer(j, req.imageUrls[j]).Ok?
    ensures AnalyzeSpec(req, analyzer).Ok? ==>
      var urls := req.imageUrls;
      var parts := seq(|urls|, j requires 0 <= j < |urls| => analyzer(j, urls[j]).value);
      var resp := AnalyzeSpec(req, analyzer).value;
      && resp.reportId == req.reportId
      && (resp.bannerList.None? <==> forall j :: 0 <= j < |urls| ==> |analyzer(j, urls[j]).value| == 0)
      && (resp.bannerList.Some? ==>
            && resp.bannerList.value == Flatten(parts)
            && |resp.bannerList.value| == SumLengths(parts))
  {
    var urls := req.imageUrls;
    var c := Collect(analyzer, urls, 0);
    if c.Ok? {
      CollectOkParts(analyzer, urls, 0);
      var parts := seq(|urls|, j requires 0 <= j < |urls| => analyzer(j, urls[j]).value);
      assert c.value == parts by {
        forall j | 0 <= j < |urls| ensures c.value[j] == parts[j] {
          assert analyzer(0 + j, urls[j]) == Ok(c.value[j]);
        }
      }
      FlattenEmpty(parts);
    } else {
      CollectErrAt(analyzer, urls, 0);
      var k :| 0 <= k < |urls| && analyzer(0 + k, urls[k]) == Err(c.error)
        && forall j :: 0 <= j < k ==> analyzer(0 + j, urls[j]).Ok?;
      assert !analyzer(k, urls[k]).Ok?;
    }
    if forall j :: 0 <= j < |urls| ==> analyzer(j, urls[j]).Ok? {
      var parts := seq(|urls|, j requires 0 <= j < |urls| => analyzer(j, urls[j]).value);
      CollectAllOk(analyzer, urls, 0, parts);
    }
  }

  /** When the k-th call is the first to fail, the handler fails with its error and sends no response. */
  lemma AnalyzeFails<B, E>(req: ImageRequest, analyzer: (nat, string) -> Result<seq<B>, E>, k: nat, e: E)
    requires k < |req.imageUrls|
    requires forall j :: 0 <= j < k ==> analyzer(j, req.imageUrls[j]).Ok?
    requires analyzer(k, req.imageUrls[k]) == Err(e)
    ensures AnalyzeSpec(req, analyzer) == Err(e)
  {
    CollectFirstErr(analyzer, req.imageUrls, 0, k, e);
  }

  /**
   * The `/analyze` handler. The first loop calls the analyser once per URL,
   * in submission order, and appends each answer to `results`; an error
   * raised by a call ends the handler with that error. The second loop
   * extends `flat` by each per-URL list in turn. The response carries the
   * request's report id and `flat`, or `None` when `flat` is empty.
   * The ghost log `calls` records, in order, the URL of each analyser
   * application the loop performs.
   */
  method Analyze<B, E>(req: ImageRequest, analyzer: (nat, string) -> Result<seq<B>, E>)
    returns (resp: Result<AnalyzeResponse<B>, E>, ghost calls: seq<string>)
    ensures resp == AnalyzeSpec(req, analyzer)
    ensures resp.Ok? ==> calls == req.imageUrls
    ensures resp.Err? ==>
      && 0 < |calls| <= |req.imageUrls|
      && calls == req.imageUrls[..|calls|]
      && analyzer(|calls| - 1, calls[|calls| - 1]) == Err(resp.error)
      && forall j :: 0 <= j < |calls| - 1 ==> analyzer(j, calls[j]).Ok?
    ensures req.imageUrls == [] ==> calls == [] && resp == Ok(AnalyzeResponse(req.reportId, None))
  {
    var urls := req.imageUrls;
    var results: seq<seq<B>> := [];
    calls := [];
    var i := 0;
    while i < |urls|
      invariant 0 <= i <= |urls|
      invariant calls == urls[..i]
      invariant |results| == i
      invariant forall j :: 0 <= j < i ==> analyzer(j, urls[j]) == Ok(results[j])
    {
      var result := analyzer(i, urls[i]);
      calls := calls + [urls[i]];
      match result
      case Err(e) =>
        CollectFirstErr(analyzer, urls, 0, i, e);
        assert calls == urls[..i + 1];
        return Err(e), calls;
      case Ok(part) =>
        results := results + [part];
      i := i + 1;
    }
    assert calls == urls;
    CollectAllOk(analyzer, urls, 0, results);

    var flat: seq<B> := [];
    var k := 0;
    while k < |results|
      invariant 0 <= k <= |results|
      invariant flat == Flatten(results[..k])
    {
      FlattenPrefix(results, k);
      flat := flat + results[k];
      k := k + 1;
    }
    assert results[..k] == results;

    resp := Ok(AnalyzeResponse(req.reportId, ResponseBannerList(flat)));
  }
}
