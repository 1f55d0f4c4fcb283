# Banner analysis: the `/analyze` request handler

This project models the request handler of a banner-analysis service. A
request (`ImageRequest`, a report id and a list of image URLs) is answered by
running the per-URL banner analyser on each URL in submission order,
flattening the per-URL banner lists into one list that keeps their order, and
returning the report id together with that list, or with `None` when no
banner was found.

Modules:

- `Wrappers` (`wrappers.dfy`): `Option` and `Result`.
- `Aggregation` (`aggregation.dfy`): `Flatten`, the reference definition of
  the flattening loop, and the properties of it: the loop step, length,
  block-by-block order, emptiness and membership. It also holds the
  empty-to-`None` mapping of the banner list.
- `AnalyzeHandler` (`handler.dfy`): the request and response records, the
  reference function `AnalyzeSpec`, and the method `Analyze`. `Analyze` has
  the handler's two loops and is proved equal to `AnalyzeSpec`. Lemmas
  describe when `AnalyzeSpec` succeeds and what it then returns, and when it
  fails.

The per-URL analyser `analyze_banner_from_url` (api/analyze_pipeline.py) is not
part of this model. It is a parameter `analyzer: (nat, string) -> Result<seq<B>, E>`:
`analyzer(n, url)` is what the call numbered `n` (from 0) on `url` returns.
That is either the list of banners found, or an error the call raises. Banners
have an opaque type `B` and errors an opaque type `E`. The call number is part
of the parameter so that the model does not assume two calls on the same URL
give the same answer. The handler catches nothing, so the first error a call
raises ends the handler and becomes its outcome, `Err(e)`. No response is
built in that case. The ghost out-parameter `calls` of `Analyze` records the
URLs passed to the analyser, in call order.

The request record `ImageRequest` (report id and URL list) models
app.py:34-36, and the response record `AnalyzeResponse` (report id and
optional banner list) models the dictionary returned at app.py:56-59. Both
are plain datatypes; what the handler puts into the response is stated by
`AnalyzeSpec`, `AnalyzeSucceeds` and `ResponseBannerList` below.

## Model

| member | source | states |
|---|---|---|
| `AnalyzeHandler.Analyze` | app.py:39-59 | the handler's outcome equals `AnalyzeSpec`. On success the ghost log of analyser applications equals the URL list: one per URL, in submission order, duplicates included. On failure the log is a non-empty prefix of the URL list, its last call raised the returned error, and every earlier call succeeded, so the walk stopped at the first failing URL. An empty URL list logs no call and yields the request's report id with `None` |
| `AnalyzeHandler.AnalyzeSpec` | app.py:39-59 | reference definition of the handler's outcome: the collected results flattened and mapped to `None` when empty; a response always carries the request's `report_id`. Characterised by `AnalyzeSucceeds` and `AnalyzeFails` |
| `AnalyzeHandler.Collect` | app.py:40-44 | reference definition of the collection loop, the first raised error ending it; a successful collection has one entry per URL. Characterised by `CollectAllOk`, `CollectOkParts`, `CollectFirstErr` and `CollectErrAt` |
| `AnalyzeHandler.AnalyzeSucceeds` | app.py:39-59 | the handler succeeds exactly when every per-URL call succeeds. Then `report_id` is passed through unchanged. `banner_list` is `None` exactly when every URL yielded an empty list. Otherwise it is the concatenation of the per-URL lists in URL order, and its length is the sum of their lengths |
| `AnalyzeHandler.AnalyzeFails` | app.py:41-44 | if the k-th call is the first to raise, the handler fails with that error |
| `AnalyzeHandler.CollectAllOk` | app.py:40-44 | when every call succeeds, `results` holds exactly one entry per URL, in URL order: the answer of that URL's call |
| `AnalyzeHandler.CollectOkParts` | app.py:40-44 | conversely, a successful collection has one entry per URL, and entry j is the answer of call j on URL j |
| `AnalyzeHandler.CollectFirstErr` | app.py:41-44 | the first call that raises decides the outcome of the collection loop |
| `AnalyzeHandler.CollectErrAt` | app.py:41-44 | conversely, a failed collection failed at some URL with that error, every earlier call having succeeded |
| `Aggregation.ResponseBannerList` | app.py:52 | the banner list is `None` exactly when the flattened list is empty; otherwise it is the flattened list unchanged |
| `Aggregation.FlattenPrefix` | app.py:47-48 | after the first k per-URL lists the accumulator is exactly their concatenation; extending it by list k gives the concatenation of the first k+1 |
| `Aggregation.FlattenSnoc` | app.py:48 | extending a flattened list by one more part equals flattening the parts with that part appended |
| `Aggregation.FlattenConcat` | app.py:46-48 | flattening two runs of parts one after the other gives the two flattened lists one after the other |
| `Aggregation.Flatten` | app.py:46-48 | reference definition of the flattening loop; its length is the sum of the parts' lengths, so nothing is dropped or deduplicated. Characterised further by `FlattenBlock`, `FlattenAt`, `FlattenEmpty` and `FlattenMembers` |
| `Aggregation.FlattenBlock` | app.py:46-48 | each per-URL list appears unchanged, as one contiguous block, at the offset given by the lengths of the lists before it |
| `Aggregation.FlattenAt` | app.py:46-48 | banner j of per-URL list i is at position offset(i) + j of the flattened list |
| `Aggregation.FlattenEmpty` | app.py:46-52 | the flattened list is empty exactly when every per-URL list is empty |
| `Aggregation.FlattenMembers` | app.py:46-48 | a banner is in the flattened list exactly when it is in one of the per-URL lists |

## Left out

- Process start-up (`lifespan`, app.py:15-29) is not modelled. This covers
  downloading the model weights from S3 and constructing the YOLO, OCR and
  classifier models into the application state. It is I/O and foreign model
  loading. The models reach the analyser through the `app` argument (app.py:42).
  In this model they are part of the `analyzer` parameter.
- What the per-URL analyser does inside is not modelled (fetching the image,
  detection, OCR, classification). api/analyze_pipeline.py is not part of this
  model. It is only an opaque parameter, and nothing is assumed about its
  results or about when it raises.
- Failure isolation per URL or per region is not modelled, because the
  handler has none. An error raised by the analyser aborts the whole request.
  The model states that, and it does not claim that failures are contained.
- The signature of the `analyzer` parameter builds in three assumptions about
  the unseen analyser. First, every call returns: a call that hangs, for
  instance on an image fetch, would never end the handler, and the model does
  not capture that. Second, every successful call yields a list: a `None` or
  other non-iterable result would make `extend` (app.py:48) raise in the
  second loop, after every call was made, and the model's second loop cannot
  fail. Third, results are snapshots: app.py:44 stores the list object and
  app.py:48 reads it only after all calls, so a list the analyser kept and
  changed later would be flattened in its later state, while the model
  flattens the value each call returned.
- The ghost log `calls` of `Analyze` is written by the handler's loop beside
  each application of `analyzer`; it records the applications the loop makes,
  not calls observed by the analyser itself.
- FastAPI routing, the `@app.post` decorator and pydantic validation of
  `ImageRequest` are framework plumbing and are not modelled. The model takes
  an already validated request.
- The `print` calls (app.py:43, 50, 54) are not modelled. They do not affect
  the result.
- The handler is sequential, so there is no concurrency to model. Python
  integers are unbounded, so `report_id` is an `int`.
