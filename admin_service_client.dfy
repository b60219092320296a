/** The admin client's query for the food-showcase listing, and its round
    trip through the server's query parsing. */
module AdminServiceClient {
  import opened Wrappers
  import Strings
  import Numbers
  import QueryString
  import Controller = FoodShowcaseController

  /** The listing request's optional parameters; absent ones take the
      defaults page 1, limit 10 and `includeTags` true. */
  datatype ShowcaseParams = ShowcaseParams(
    page: Option<int>,
    limit: Option<int>,
    includeTags: Option<bool>,
    search: Option<string>,
    tags: Option<seq<string>>)

  function IncludePart(p: ShowcaseParams): seq<QueryString.Param> {
    if p.includeTags.GetOr(true) then [QueryString.Param("includeTags", "true")] else []
  }

  function SearchPart(p: ShowcaseParams): seq<QueryString.Param> {
    if p.search.Some? && p.search.value != "" then [QueryString.Param("search", p.search.value)] else []
  }

  function TagsPart(p: ShowcaseParams): seq<QueryString.Param> {
    if p.tags.Some? && |p.tags.value| > 0 then [QueryString.Param("tags", Strings.Join(p.tags.value, '|'))] else []
  }

  /** The parameters in the order they are appended: `page` and `limit`
      always, then `includeTags=true`, `search` and the `|`-joined `tags`
      when they are set and non-empty. */
  function ShowcaseQuery(p: ShowcaseParams): (q: seq<QueryString.Param>)
    ensures 2 <= |q| <= 5
    ensures q[0] == QueryString.Param("page", Numbers.IntToString(p.page.GetOr(1)))
    ensures q[1] == QueryString.Param("limit", Numbers.IntToString(p.limit.GetOr(10)))
  {
    [QueryString.Param("page", Numbers.IntToString(p.page.GetOr(1))),
     QueryString.Param("limit", Numbers.IntToString(p.limit.GetOr(10)))]
    + IncludePart(p) + SearchPart(p) + TagsPart(p)
  }

  lemma QueryPageLimit(p: ShowcaseParams)
    ensures QueryString.Get(ShowcaseQuery(p), "page") == Some(Numbers.IntToString(p.page.GetOr(1)))
    ensures QueryString.Get(ShowcaseQuery(p), "limit") == Some(Numbers.IntToString(p.limit.GetOr(10)))
  {
    var q := ShowcaseQuery(p);
    assert q[1..][0] == q[1];
  }

  lemma QueryInclude(p: ShowcaseParams)
    ensures QueryString.Get(ShowcaseQuery(p), "includeTags") == (if p.includeTags.GetOr(true) then Some("true") else None)
  {
    var q := ShowcaseQuery(p);
    var rest := SearchPart(p) + TagsPart(p);
    assert forall x :: x in rest ==> x.key != "includeTags";
    assert q == [q[0], q[1]] + IncludePart(p) + rest;
    QueryString.KeyOnceGet(q, "includeTags", "true");
  }

  lemma QuerySearch(p: ShowcaseParams)
    ensures QueryString.Get(ShowcaseQuery(p), "search") == (if p.search.Some? && p.search.value != "" then p.search else None)
  {
    var q := ShowcaseQuery(p);
    var before := [q[0], q[1]] + IncludePart(p);
    assert forall x :: x in before + TagsPart(p) ==> x.key != "search";
    assert q == before + SearchPart(p) + TagsPart(p);
    if p.search.Some? && p.search.value != "" {
      QueryString.KeyOnceGet(q, "search", p.search.value);
    }
  }

  lemma QueryTags(p: ShowcaseParams)
    ensures QueryString.Get(ShowcaseQuery(p), "tags") ==
      (if p.tags.Some? && |p.tags.value| > 0 then Some(Strings.Join(p.tags.value, '|')) else None)
  {
    var q := ShowcaseQuery(p);
    var before := [q[0], q[1]] + IncludePart(p) + SearchPart(p);
    assert forall x :: x in before ==> x.key != "tags";
    assert q == before + TagsPart(p);
    if p.tags.Some? && |p.tags.value| > 0 {
      QueryString.KeyOnceGet(q, "tags", Strings.Join(p.tags.value, '|'));
    }
  }

  /** Each key the server reads has the client's value, or is absent
      exactly when the client leaves it out. */
  lemma ShowcaseQueryValues(p: ShowcaseParams)
    ensures var q := ShowcaseQuery(p);
      && QueryString.Get(q, "page") == Some(Numbers.IntToString(p.page.GetOr(1)))
      && QueryString.Get(q, "limit") == Some(Numbers.IntToString(p.limit.GetOr(10)))
      && QueryString.Get(q, "includeTags") == (if p.includeTags.GetOr(true) then Some("true") else None)
      && QueryString.Get(q, "search") == (if p.search.Some? && p.search.value != "" then p.search else None)
      && QueryString.Get(q, "tags") ==
           (if p.tags.Some? && |p.tags.value| > 0 then Some(Strings.Join(p.tags.value, '|')) else None)
  {
    QueryPageLimit(p);
    QueryInclude(p);
    QuerySearch(p);
    QueryTags(p);
  }

  /** `getFoodShowcases`: the query built by successive appends to an
      empty `URLSearchParams`. */
  method BuildShowcaseQuery(p: ShowcaseParams) returns (q: seq<QueryString.Param>)
    ensures q == ShowcaseQuery(p)
  {
    var page := p.page.GetOr(1);
    var limit := p.limit.GetOr(10);
    var includeTags := p.includeTags.GetOr(true);
    q := [];
    q := q + [QueryString.Param("page", Numbers.IntToString(page))];
    q := q + [QueryString.Param("limit", Numbers.IntToString(limit))];
    if includeTags {
      q := q + [QueryString.Param("includeTags", "true")];
    }
    if p.search.Some? && p.search.value != "" {
      q := q + [QueryString.Param("search", p.search.value)];
    }
    if p.tags.Some? && |p.tags.value| > 0 {
      q := q + [QueryString.Param("tags", Strings.Join(p.tags.value, '|'))];
    }
  }

  /** Tags the server gets back unchanged: non-empty, without surrounding
      whitespace and without the `|` separator. */
  predicate CleanTags(tags: seq<string>) {
    forall k :: 0 <= k < |tags| ==> tags[k] != "" && Strings.Trim(tags[k]) == tags[k] && '|' !in tags[k]
  }

  lemma JoinNonEmpty(parts: seq<string>, sep: char)
    requires |parts| >= 1 && parts[0] != ""
    ensures Strings.Join(parts, sep) != ""
  {
    if |parts| > 1 {
      assert Strings.Join(parts, sep) == parts[0] + [sep] + Strings.Join(parts[1..], sep);
    }
  }

  /** Splitting the joined tags on `|`, trimming and dropping empty parts
      gives back exactly the list of clean tags. */
  lemma TagsRoundTrip(tags: seq<string>)
    requires |tags| > 0 && CleanTags(tags)
    ensures Controller.ParseTagsQuery(Some(Strings.Join(tags, '|'))) == Some(tags)
  {
    JoinNonEmpty(tags, '|');
    Strings.SplitJoin(tags, '|');
    assert Strings.TrimAll(tags) == tags by {
      var trimmed := Strings.TrimAll(tags);
      assert forall k :: 0 <= k < |tags| ==> trimmed[k] == tags[k];
    }
    assert Strings.NonEmpty(tags) == tags;
  }

  /** What the server reads back from the client's query: the page and
      limit (unless 0, which the server replaces by its default),
      `includeTags`, a non-empty search and a non-empty list of clean tags. */
  lemma ShowcaseQueryRoundTrip(p: ShowcaseParams)
    requires p.tags.Some? ==> CleanTags(p.tags.value)
    ensures var opts := Controller.ParseListQuery(ShowcaseQuery(p));
      && (p.page.GetOr(1) != 0 ==> opts.page == Some(p.page.GetOr(1)))
      && (p.limit.GetOr(10) != 0 ==> opts.limit == Some(p.limit.GetOr(10)))
      && opts.includeTags == Some(p.includeTags.GetOr(true))
      && opts.search == (if p.search.Some? && p.search.value != "" then p.search else None)
      && opts.tagNames == (if p.tags.Some? && |p.tags.value| > 0 then p.tags else None)
  {
    ShowcaseQueryValues(p);
    Numbers.ParseIntAutoOfIntToString(p.page.GetOr(1));
    Numbers.ParseIntAutoOfIntToString(p.limit.GetOr(10));
    if p.tags.Some? && |p.tags.value| > 0 {
      TagsRoundTrip(p.tags.value);
    }
  }
}
