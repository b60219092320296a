/** The batch image fetcher: for each search query, one search request;
    then the results are walked in order, records without an image URL or
    an id are skipped, and each other record is downloaded to a file named
    after the query and the id, until the query's quota of successful
    downloads is reached. The network and the file system are oracles:
    the outcome of each query's search and of each download are inputs. */
module ImageFetcher {
  import opened Wrappers
  import Strings

  /** `IMAGES_PER_QUERY`: the quota of successful downloads per query. */
  const ImagesPerQuery: nat := 5
  /** `OUTPUT_DIR`. */
  const OutputDir := "downloaded_food_images"
  /** `IMAGE_QUALITY`: the key of `urls` that is downloaded. */
  const ImageQuality := "regular"
  /** `SEARCH_QUERIES`. */
  const SearchQueries: seq<string> := [
    "gourmet food photography", "plated dish top view", "home cooking flat lay",
    "healthy breakfast bowl", "chocolate cake slice closeup", "fresh artisan bread",
    "steak dinner plating", "vibrant fruit salad", "roasted vegetables dish",
    "cozy restaurant interior", "cafe ambiance", "chef cooking action",
    "fresh ingredients macro", "tempting dessert display", "ramen noodle bowl",
    "pasta carbonara plate"]

  /** One entry of a search response's `results`: its `urls` object (a
      missing object is the empty map) and its `id`. */
  datatype ImageRecord = ImageRecord(urls: map<string, string>, id: Option<string>)

  /** A query's search: the request raised before any response arrived
      (no connection, a timeout), the response had an error status or did
      not decode, or it gave a list of results. */
  datatype Search = NoResponse | SearchFailed | Found(results: seq<ImageRecord>)

  /** What fetching one image came to: the request failed, writing the
      file failed, or every chunk was written. */
  datatype Transfer = RequestError | WriteError | Complete(chunks: seq<seq<bv8>>)

  /** A download that was attempted: the image URL and the file path. */
  datatype Attempt = Attempt(url: string, path: string)

  /** `download_image`: true exactly when all chunks were written; a
      request error and a write error are both reported as false. */
  function DownloadImage(t: Transfer): (ok: bool)
    ensures ok <==> t.Complete?
    ensures t == RequestError || t == WriteError ==> !ok
  {
    match t
    case Complete(_) => true
    case _ => false
  }

  /** `img_data.get('urls', {}).get(IMAGE_QUALITY)`. */
  function ImageUrl(rec: ImageRecord): (r: Option<string>)
    ensures r.Some? <==> ImageQuality in rec.urls
  {
    if ImageQuality in rec.urls then Some(rec.urls[ImageQuality]) else None
  }

  /** Python truthiness of an optional string: present and not empty. */
  predicate Truthy(v: Option<string>) {
    v.Some? && v.value != ""
  }

  /** A record the loop downloads: it has an image URL and an id. */
  predicate Usable(rec: ImageRecord) {
    Truthy(ImageUrl(rec)) && Truthy(rec.id)
  }

  /** The file name: the query with its spaces replaced by `_`, then `_`,
      the id and `.jpg`. */
  function FileName(query: string, id: string): (r: string)
    ensures |r| == |query| + |id| + 5
    ensures forall i :: 0 <= i < |query| ==> r[i] != ' ' && (r[i] == '_' <==> query[i] in " _")
    ensures Strings.EndsWith(r, ".jpg")
  {
    var r := Strings.ReplaceChar(query, ' ', '_') + "_" + id + ".jpg";
    assert r[|r| - 4..] == ".jpg";
    r
  }

  /** `os.path.join(OUTPUT_DIR, filename)`. */
  function FilePath(query: string, id: string): string {
    OutputDir + "/" + FileName(query, id)
  }

  /** Within one query, distinct ids give distinct files. */
  lemma FilePathInjective(query: string, a: string, b: string)
    requires FilePath(query, a) == FilePath(query, b)
    ensures a == b
  {
    var prefix := OutputDir + "/" + Strings.ReplaceChar(query, ' ', '_') + "_";
    assert FilePath(query, a) == prefix + a + ".jpg";
    assert FilePath(query, b) == prefix + b + ".jpg";
    assert |a| == |b|;
    assert a == (prefix + a + ".jpg")[|prefix|..|prefix| + |a|];
    assert b == (prefix + b + ".jpg")[|prefix|..|prefix| + |b|];
  }

  /** The attempt for a usable record of `query`. */
  function AttemptFor(query: string, rec: ImageRecord): Attempt
    requires Usable(rec)
  {
    Attempt(ImageUrl(rec).value, FilePath(query, rec.id.value))
  }

  /** The inner loop from `count` successes on: the final count and the
      attempts made, in order. */
  function Fetch(query: string, results: seq<ImageRecord>, download: (string, string) -> Transfer, count: nat)
    : (r: (nat, seq<Attempt>))
    requires count <= ImagesPerQuery
    ensures count <= r.0 <= ImagesPerQuery
    ensures |r.1| <= |results|
    decreases |results|
  {
    if |results| == 0 || count >= ImagesPerQuery then (count, [])
    else if !Usable(results[0]) then Fetch(query, results[1..], download, count)
    else
      var a := AttemptFor(query, results[0]);
      var next := if DownloadImage(download(a.url, a.path)) then count + 1 else count;
      var rest := Fetch(query, results[1..], download, next);
      (rest.0, [a] + rest.1)
  }

  /** The attempts the loop would make without a quota: one per usable
      record, in order. */
  function Planned(query: string, results: seq<ImageRecord>): (r: seq<Attempt>)
    ensures |r| <= |results|
  {
    if |results| == 0 then []
    else if Usable(results[0]) then [AttemptFor(query, results[0])] + Planned(query, results[1..])
    else Planned(query, results[1..])
  }

  /** How many of `attempts` downloaded successfully. */
  function Successes(attempts: seq<Attempt>, download: (string, string) -> Transfer): (n: nat)
    ensures n <= |attempts|
  {
    if |attempts| == 0 then 0
    else (if DownloadImage(download(attempts[0].url, attempts[0].path)) then 1 else 0)
         + Successes(attempts[1..], download)
  }

  /** The count grows by exactly the successful attempts. */
  lemma {:induction false} FetchCountsSuccesses(query: string, results: seq<ImageRecord>, download: (string, string) -> Transfer, count: nat)
    requires count <= ImagesPerQuery
    ensures Fetch(query, results, download, count).0 == count + Successes(Fetch(query, results, download, count).1, download)
    decreases |results|
  {
    if |results| == 0 || count >= ImagesPerQuery {
    } else if !Usable(results[0]) {
      FetchCountsSuccesses(query, results[1..], download, count);
    } else {
      var a := AttemptFor(query, results[0]);
      var next := if DownloadImage(download(a.url, a.path)) then count + 1 else count;
      FetchCountsSuccesses(query, results[1..], download, next);
      var rest := Fetch(query, results[1..], download, next);
      assert ([a] + rest.1)[1..] == rest.1;
    }
  }

  /** Only usable records are tried, in the order of the results: the
      attempts are a prefix of the planned ones, and all of them when the
      quota was not reached. */
  lemma {:induction false} FetchFollowsPlan(query: string, results: seq<ImageRecord>, download: (string, string) -> Transfer, count: nat)
    requires count <= ImagesPerQuery
    ensures var r := Fetch(query, results, download, count);
      |r.1| <= |Planned(query, results)| && r.1 == Planned(query, results)[..|r.1|]
      && (r.0 < ImagesPerQuery ==> r.1 == Planned(query, results))
    decreases |results|
  {
    if |results| == 0 || count >= ImagesPerQuery {
    } else if !Usable(results[0]) {
      FetchFollowsPlan(query, results[1..], download, count);
    } else {
      var a := AttemptFor(query, results[0]);
      var next := if DownloadImage(download(a.url, a.path)) then count + 1 else count;
      FetchFollowsPlan(query, results[1..], download, next);
      var rest := Fetch(query, results[1..], download, next);
      var plan := Planned(query, results[1..]);
      assert Planned(query, results) == [a] + plan;
      assert ([a] + plan)[..1 + |rest.1|] == [a] + plan[..|rest.1|];
    }
  }

  /** One turn of the loop: below the quota, `Fetch` from record `i` is
      `Fetch` from record `i + 1` after trying record `i` when it is
      usable. */
  lemma FetchStep(query: string, results: seq<ImageRecord>, download: (string, string) -> Transfer, i: nat, count: nat)
    requires i < |results| && count < ImagesPerQuery
    ensures !Usable(results[i]) ==>
      Fetch(query, results[i..], download, count) == Fetch(query, results[i + 1..], download, count)
    ensures Usable(results[i]) ==>
      var a := AttemptFor(query, results[i]);
      var rest := Fetch(query, results[i + 1..], download, if DownloadImage(download(a.url, a.path)) then count + 1 else count);
      Fetch(query, results[i..], download, count) == (rest.0, [a] + rest.1)
  {
    assert results[i..][1..] == results[i + 1..];
  }

  /** The loop over one query's results (`download_count_for_query`). */
  method FetchQuery(query: string, results: seq<ImageRecord>, download: (string, string) -> Transfer)
    returns (count: nat, attempts: seq<Attempt>)
    ensures (count, attempts) == Fetch(query, results, download, 0)
    ensures count <= ImagesPerQuery
    ensures count == Successes(attempts, download)
  {
    count, attempts := 0, [];
    var i := 0;
    ghost var whole := Fetch(query, results, download, 0);
    assert results[0..] == results;
    assert attempts + whole.1 == whole.1;
    while i < |results|
      invariant 0 <= i <= |results|
      invariant count <= ImagesPerQuery
      invariant whole == (Fetch(query, results[i..], download, count).0, attempts + Fetch(query, results[i..], download, count).1)
    {
      if count >= ImagesPerQuery {
        break;
      }
      var rec := results[i];
      FetchStep(query, results, download, i, count);
      if Usable(rec) {
        var a := AttemptFor(query, rec);
        var next := if DownloadImage(download(a.url, a.path)) then count + 1 else count;
        var rest := Fetch(query, results[i + 1..], download, next);
        assert attempts + ([a] + rest.1) == (attempts + [a]) + rest.1;
        count := next;
        attempts := attempts + [a];
      }
      i := i + 1;
    }
    assert Fetch(query, results[i..], download, count) == (count, []);
    assert attempts + [] == attempts;
    FetchCountsSuccesses(query, results, download, 0);
  }

  /** One query's count and attempts: nothing when the search failed or
      found nothing. */
  function QueryOutcome(query: string, search: Search, download: (string, string) -> Transfer): (r: (nat, seq<Attempt>))
    ensures r.0 <= ImagesPerQuery
    ensures !search.Found? || |search.results| == 0 ==> r == (0, [])
  {
    match search
    case Found(results) => if |results| == 0 then (0, []) else Fetch(query, results, download, 0)
    case _ => (0, [])
  }

  function Sum(s: seq<nat>): nat {
    if |s| == 0 then 0 else Sum(s[..|s| - 1]) + s[|s| - 1]
  }

  lemma SumSnoc(s: seq<nat>, x: nat)
    ensures Sum(s + [x]) == Sum(s) + x
  {
    assert (s + [x])[..|s|] == s;
  }

  lemma {:induction false} SumBound(s: seq<nat>, bound: nat)
    requires forall i :: 0 <= i < |s| ==> s[i] <= bound
    ensures Sum(s) <= bound * |s|
  {
    if |s| > 0 {
      SumBound(s[..|s| - 1], bound);
    }
  }

  /** Every download attempt of the run, query after query. */
  function AllAttempts(queries: seq<string>, searches: seq<Search>, download: (string, string) -> Transfer): seq<Attempt>
    requires |searches| == |queries|
  {
    if |queries| == 0 then []
    else
      var n := |queries| - 1;
      AllAttempts(queries[..n], searches[..n], download) + QueryOutcome(queries[n], searches[n], download).1
  }

  lemma AllAttemptsStep(queries: seq<string>, searches: seq<Search>, download: (string, string) -> Transfer, q: nat)
    requires |searches| == |queries| && q < |queries|
    ensures AllAttempts(queries[..q + 1], searches[..q + 1], download)
      == AllAttempts(queries[..q], searches[..q], download) + QueryOutcome(queries[q], searches[q], download).1
  {
    assert queries[..q + 1][..q] == queries[..q] && searches[..q + 1][..q] == searches[..q];
    assert queries[..q + 1][q] == queries[q] && searches[..q + 1][q] == searches[q];
  }

  /** The script: when the output directory cannot be created, it stops
      before any search request; otherwise it makes one search per query,
      a failed search, answered or not, does not stop the later queries
      (the intended behaviour; `SearchRequestsAsWritten` models the crash
      of the script as written), each query counts
      its own successes and the total is their sum. */
  method Run(dirReady: bool, queries: seq<string>, searches: seq<Search>, download: (string, string) -> Transfer)
    returns (requests: nat, counts: seq<nat>, total: nat, attempts: seq<Attempt>)
    requires |searches| == |queries|
    ensures !dirReady ==> requests == 0 && counts == [] && total == 0 && attempts == []
    ensures dirReady ==> (requests == |queries| && |counts| == |queries|
                          && attempts == AllAttempts(queries, searches, download))
    ensures forall i :: 0 <= i < |counts| ==> counts[i] == QueryOutcome(queries[i], searches[i], download).0
    ensures total == Sum(counts)
    ensures total <= ImagesPerQuery * |queries|
  {
    requests, counts, total, attempts := 0, [], 0, [];
    if !dirReady {
      return;
    }
    var q := 0;
    while q < |queries|
      invariant 0 <= q <= |queries| && requests == q && |counts| == q
      invariant forall i :: 0 <= i < q ==> counts[i] == QueryOutcome(queries[i], searches[i], download).0
      invariant total == Sum(counts)
      invariant attempts == AllAttempts(queries[..q], searches[..q], download)
    {
      requests := requests + 1;
      var count: nat, tried: seq<Attempt> := 0, [];
      match searches[q] {
        case Found(results) =>
          if |results| > 0 {
            count, tried := FetchQuery(queries[q], results, download);
          }
        case _ =>
      }
      assert (count, tried) == QueryOutcome(queries[q], searches[q], download);
      SumSnoc(counts, count);
      counts := counts + [count];
      total := total + count;
      AllAttemptsStep(queries, searches, download, q);
      attempts := attempts + tried;
      q := q + 1;
    }
    assert queries[..q] == queries && searches[..q] == searches;
    SumBound(counts, ImagesPerQuery);
  }

  /** The search requests of the script as written, and whether it
      crashed: the handler of a failed search reads the status code of the
      module-level `response`, which is still unbound when the first
      search raised before any response arrived, so the handler itself
      fails and the remaining queries are never searched. `bound` says
      whether an earlier search produced a response. */
  function SearchRequestsAsWritten(searches: seq<Search>, bound: bool): (r: (nat, bool))
    ensures r.0 <= |searches|
    ensures !r.1 ==> r.0 == |searches|
    ensures r.1 <==> !bound && |searches| > 0 && searches[0].NoResponse?
    decreases |searches|
  {
    if |searches| == 0 then (0, false)
    else if searches[0].NoResponse? && !bound then (1, true)
    else
      var rest := SearchRequestsAsWritten(searches[1..], bound || !searches[0].NoResponse?);
      (1 + rest.0, rest.1)
  }

  /** As written, an unanswered first search ends the configured script
      after one of its sixteen searches, where `Run` goes on to search
      every query. */
  lemma UnansweredFirstSearchEndsRun(rest: seq<Search>)
    requires |rest| == |SearchQueries| - 1
    ensures SearchRequestsAsWritten([NoResponse] + rest, false) == (1, true)
    ensures |[NoResponse] + rest| == 16
  {
  }

  /** As written, the script only crashes on its first search: once a
      response exists the handler reads a stale but bound status code. */
  lemma AnsweredFirstSearchRunsToEnd(searches: seq<Search>)
    requires |searches| > 0 && !searches[0].NoResponse?
    ensures SearchRequestsAsWritten(searches, false) == (|searches|, false)
  {
  }

  /** The script as configured downloads at most 80 images. */
  lemma ConfiguredRunBound(counts: seq<nat>)
    requires |counts| == |SearchQueries|
    requires forall i :: 0 <= i < |counts| ==> counts[i] <= ImagesPerQuery
    ensures Sum(counts) <= 80
  {
    SumBound(counts, ImagesPerQuery);
  }
}
