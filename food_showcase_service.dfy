/** The food-showcase service: the filtered, paged listing, creation with
    connect-or-create of tags by name, partial update that replaces the tag
    set, single and bulk deletion, and the per-tag usage statistics. The
    listing and statistics only read the tables and are functions; the
    operations that write are methods on `Db.Database`. Search and tag
    matching are case-insensitive for ASCII letters. */
module FoodShowcaseService {
  import opened Wrappers
  import opened Db
  import Tables
  import Strings
  import Numbers
  import Json

  /** The search term occurs, ignoring case, in the title, the description
      or the name of one of the showcase's tags. */
  predicate SearchMatches(s: Showcase, foodTags: seq<Tag>, search: string) {
    var q := Strings.ToLowerAscii(search);
    (s.title.Some? && Strings.Contains(Strings.ToLowerAscii(s.title.value), q))
    || (s.description.Some? && Strings.Contains(Strings.ToLowerAscii(s.description.value), q))
    || exists t :: t in foodTags && t.id in s.tagIds && Strings.Contains(Strings.ToLowerAscii(t.name), q)
  }

  /** One of the showcase's tags is named, ignoring case, in `tagNames`. */
  predicate TagFilterMatches(s: Showcase, foodTags: seq<Tag>, tagNames: seq<string>) {
    exists t, k :: t in foodTags && 0 <= k < |tagNames| && t.id in s.tagIds
      && Strings.ToLowerAscii(t.name) == Strings.ToLowerAscii(tagNames[k])
  }

  /** The `where` clause: a non-empty search and a non-empty tag list each
      add a condition, and both must hold. */
  predicate Matches(s: Showcase, foodTags: seq<Tag>, search: Option<string>, tagNames: Option<seq<string>>) {
    (search.Some? && search.value != "" ==> SearchMatches(s, foodTags, search.value))
    && (tagNames.Some? && |tagNames.value| > 0 ==> TagFilterMatches(s, foodTags, tagNames.value))
  }

  /** `orderBy: { createdAt: 'desc' }`. */
  predicate NewestFirst(a: Showcase, b: Showcase) {
    a.createdAt >= b.createdAt
  }

  lemma NewestFirstIsPreorder()
    ensures Tables.TotalPreorder(NewestFirst)
  {
  }

  /** The showcases satisfying the `where` clause, in table order. */
  function Matching(showcases: seq<Showcase>, foodTags: seq<Tag>, search: Option<string>,
                    tagNames: Option<seq<string>>): (r: seq<Showcase>)
    ensures forall s :: s in r <==> s in showcases && Matches(s, foodTags, search, tagNames)
  {
    Tables.Filter(showcases, (s: Showcase) => Matches(s, foodTags, search, tagNames))
  }

  /** All matching showcases, newest first. */
  function Ordered(showcases: seq<Showcase>, foodTags: seq<Tag>, search: Option<string>,
                   tagNames: Option<seq<string>>): (r: seq<Showcase>)
    ensures multiset(r) == multiset(Matching(showcases, foodTags, search, tagNames))
    ensures |r| == |Matching(showcases, foodTags, search, tagNames)|
    ensures Tables.SortedBy(r, NewestFirst)
  {
    NewestFirstIsPreorder();
    Tables.SortBy(Matching(showcases, foodTags, search, tagNames), NewestFirst)
  }

  /** The options of `getAllShowcases`; an absent option takes its default
      (page 1, limit 10, includeTags false). */
  datatype ListOptions = ListOptions(
    search: Option<string>,
    tagNames: Option<seq<string>>,
    page: Option<int>,
    limit: Option<int>,
    includeTags: Option<bool>)

  /** A listed showcase, with its tag rows when `includeTags` was set. */
  datatype Item = Item(showcase: Showcase, tags: Option<seq<Tag>>)

  datatype ListResult = ListResult(items: seq<Item>, totalCount: nat)

  function TagsOf(s: Showcase, foodTags: seq<Tag>): (r: seq<Tag>)
    ensures forall t :: t in r <==> t in foodTags && t.id in s.tagIds
  {
    Tables.Filter(foodTags, (t: Tag) => t.id in s.tagIds)
  }

  function Embed(rows: seq<Showcase>, foodTags: seq<Tag>, includeTags: bool): (r: seq<Item>)
    ensures |r| == |rows|
    ensures forall i :: 0 <= i < |rows| ==>
      r[i].showcase == rows[i] && (r[i].tags.Some? <==> includeTags)
      && (includeTags ==> r[i].tags.value == TagsOf(rows[i], foodTags))
  {
    if |rows| == 0 then []
    else
      var first := Item(rows[0], if includeTags then Some(TagsOf(rows[0], foodTags)) else None);
      [first] + Embed(rows[1..], foodTags, includeTags)
  }

  /** `getAllShowcases(options)`. The page is `skip = (page-1)*limit`
      rows into the newest-first matches, `limit` rows long and read from
      the back of the matches when `limit` is negative; `totalCount` counts
      every match. A negative skip makes the query fail, which the service
      reports as an empty listing. */
  function GetAllShowcases(showcases: seq<Showcase>, foodTags: seq<Tag>, opts: ListOptions): (r: ListResult)
    ensures var limit := opts.limit.GetOr(10);
      Tables.Skip(opts.page.GetOr(1), limit) < 0 ==> r == ListResult([], 0)
    ensures var limit := opts.limit.GetOr(10);
      var skip := Tables.Skip(opts.page.GetOr(1), limit);
      var ordered := Ordered(showcases, foodTags, opts.search, opts.tagNames);
      skip >= 0 ==>
        r.totalCount == |Matching(showcases, foodTags, opts.search, opts.tagNames)|
        && Tables.IsPage(r.items, Embed(ordered, foodTags, opts.includeTags.GetOr(false)), skip, limit)
    ensures Tables.Skip(opts.page.GetOr(1), opts.limit.GetOr(10)) >= 0 ==>
      forall i :: 0 <= i < |r.items| ==>
        r.items[i].showcase in showcases
        && Matches(r.items[i].showcase, foodTags, opts.search, opts.tagNames)
        && (r.items[i].tags.Some? <==> opts.includeTags == Some(true))
  {
    var page := opts.page.GetOr(1);
    var limit := opts.limit.GetOr(10);
    var skip := Tables.Skip(page, limit);
    if skip < 0 then ListResult([], 0)
    else
      var matching := Matching(showcases, foodTags, opts.search, opts.tagNames);
      var ordered := Ordered(showcases, foodTags, opts.search, opts.tagNames);
      var window := Tables.Window(ordered, skip, limit);
      var items := Embed(window, foodTags, opts.includeTags.GetOr(false));
      WindowMatches(showcases, foodTags, opts.search, opts.tagNames, skip, limit);
      EmbedWindow(ordered, foodTags, opts.includeTags.GetOr(false), skip, limit);
      EmbeddedMatches(showcases, foodTags, opts.search, opts.tagNames, window, opts.includeTags);
      ListResult(items, |matching|)
  }

  /** Embedding a page of rows gives the same page of the embedded rows. */
  lemma EmbedWindow(rows: seq<Showcase>, foodTags: seq<Tag>, includeTags: bool, skip: nat, take: int)
    ensures Tables.IsPage(Embed(Tables.Window(rows, skip, take), foodTags, includeTags),
                          Embed(rows, foodTags, includeTags), skip, take)
  {
    var w := Tables.Window(rows, skip, take);
    var page := Embed(w, foodTags, includeTags);
    var views := Embed(rows, foodTags, includeTags);
    forall i, j | 0 <= i < |page| && 0 <= j < |rows| && w[i] == rows[j]
      ensures page[i] == views[j]
    {
    }
    Tables.PageOfMapped(page, views, rows, skip, take);
  }

  /** Embedding matching rows lists matches, with tags exactly when
      `includeTags` is set. */
  lemma EmbeddedMatches(showcases: seq<Showcase>, foodTags: seq<Tag>, search: Option<string>,
                        tagNames: Option<seq<string>>, rows: seq<Showcase>, includeTags: Option<bool>)
    requires forall s :: s in rows ==> s in showcases && Matches(s, foodTags, search, tagNames)
    ensures var items := Embed(rows, foodTags, includeTags.GetOr(false));
      forall i :: 0 <= i < |items| ==>
        items[i].showcase in showcases
        && Matches(items[i].showcase, foodTags, search, tagNames)
        && (items[i].tags.Some? <==> includeTags == Some(true))
  {
    var items := Embed(rows, foodTags, includeTags.GetOr(false));
    forall i | 0 <= i < |items|
      ensures items[i].showcase in showcases && Matches(items[i].showcase, foodTags, search, tagNames)
    {
      assert items[i].showcase == rows[i];
    }
  }

  /** Every showcase on a page of the ordered matches is a match. */
  lemma WindowMatches(showcases: seq<Showcase>, foodTags: seq<Tag>, search: Option<string>,
                      tagNames: Option<seq<string>>, skip: nat, limit: int)
    ensures forall s :: s in Tables.Window(Ordered(showcases, foodTags, search, tagNames), skip, limit) ==>
      s in showcases && Matches(s, foodTags, search, tagNames)
  {
    var ordered := Ordered(showcases, foodTags, search, tagNames);
    var w := Tables.Window(ordered, skip, limit);
    forall s | s in w
      ensures s in showcases && Matches(s, foodTags, search, tagNames)
    {
      var k :| 0 <= k < |w| && w[k] == s;
      Tables.WindowIsPage(ordered, skip, limit);
      var j := Tables.PageIndex(w, ordered, skip, limit, k);
      assert ordered[j] in multiset(Matching(showcases, foodTags, search, tagNames));
    }
  }

  /** The listed pages cover every match: with a positive limit, each
      matching showcase appears on some page between 1 and
      `ceil(totalCount / limit)`. */
  lemma EveryMatchIsOnSomePage(showcases: seq<Showcase>, foodTags: seq<Tag>, search: Option<string>,
                               tagNames: Option<seq<string>>, limit: nat, s: Showcase)
    requires limit > 0
    requires s in showcases && Matches(s, foodTags, search, tagNames)
    ensures var total := GetAllShowcases(showcases, foodTags, ListOptions(search, tagNames, Some(1), Some(limit), None)).totalCount;
      exists page :: 1 <= page <= Numbers.CeilDiv(total, limit)
        && Item(s, None) in GetAllShowcases(showcases, foodTags, ListOptions(search, tagNames, Some(page), Some(limit), None)).items
  {
    var ordered := Ordered(showcases, foodTags, search, tagNames);
    assert s in multiset(Matching(showcases, foodTags, search, tagNames));
    assert s in multiset(ordered);
    var i :| 0 <= i < |ordered| && ordered[i] == s;
    var total := GetAllShowcases(showcases, foodTags, ListOptions(search, tagNames, Some(1), Some(limit), None)).totalCount;
    assert total == |ordered|;
    Numbers.PageCountCoversItems(total, limit, i);
    PageHoldsIndex(showcases, foodTags, search, tagNames, limit, i);
  }

  /** The row at position `i` of the ordered matches is listed on page
      `i / limit + 1`. */
  lemma PageHoldsIndex(showcases: seq<Showcase>, foodTags: seq<Tag>, search: Option<string>,
                       tagNames: Option<seq<string>>, limit: nat, i: nat)
    requires limit > 0 && i < |Ordered(showcases, foodTags, search, tagNames)|
    ensures Item(Ordered(showcases, foodTags, search, tagNames)[i], None)
      in GetAllShowcases(showcases, foodTags, ListOptions(search, tagNames, Some(i / limit + 1), Some(limit), None)).items
  {
    PageOffset(i, limit);
    PageHolds(showcases, foodTags, search, tagNames, i / limit + 1, limit, i);
  }

  /** A page whose window covers offset `i` lists the `i`-th ordered match. */
  lemma PageHolds(showcases: seq<Showcase>, foodTags: seq<Tag>, search: Option<string>,
                  tagNames: Option<seq<string>>, page: int, limit: nat, i: nat)
    requires 0 <= Tables.Skip(page, limit) <= i < Tables.Skip(page, limit) + limit
    requires i < |Ordered(showcases, foodTags, search, tagNames)|
    ensures Item(Ordered(showcases, foodTags, search, tagNames)[i], None)
      in GetAllShowcases(showcases, foodTags, ListOptions(search, tagNames, Some(page), Some(limit), None)).items
  {
    var skip := Tables.Skip(page, limit);
    var ordered := Ordered(showcases, foodTags, search, tagNames);
    var w := Tables.Window(ordered, skip, limit);
    assert i - skip < |w| && w[i - skip] == ordered[i];
    EmbedAt(w, foodTags, i - skip);
    var opts := ListOptions(search, tagNames, Some(page), Some(limit), None);
    assert opts.page.GetOr(1) == page && opts.limit.GetOr(10) == limit;
    assert GetAllShowcases(showcases, foodTags, opts).items == Embed(w, foodTags, false);
  }

  /** Entry `k` of the untagged embedding is row `k` without tags. */
  lemma EmbedAt(rows: seq<Showcase>, foodTags: seq<Tag>, k: nat)
    requires k < |rows|
    ensures k < |Embed(rows, foodTags, false)| && Embed(rows, foodTags, false)[k] == Item(rows[k], None)
  {
  }

  /** Page `i / limit + 1` starts at or before offset `i` and ends after it. */
  lemma PageOffset(i: nat, limit: nat)
    requires limit > 0
    ensures 0 <= Tables.Skip(i / limit + 1, limit) <= i < Tables.Skip(i / limit + 1, limit) + limit
  {
    assert Tables.Skip(i / limit + 1, limit) == (i / limit) * limit;
  }

  /** Only the `P2025` code of a failed create is reported as a missing
      tag; every other failure is reported generically. */
  function CreateFailureMessage(code: Option<string>): (r: string)
    ensures r == "创建失败：一个或多个指定的标签不存在。" <==> code == Some("P2025")
    ensures r != "创建失败：一个或多个指定的标签不存在。" ==> r == "Failed to create food showcase"
  {
    if code == Some("P2025") then "创建失败：一个或多个指定的标签不存在。"
    else "Failed to create food showcase"
  }

  /** `createShowcase`: each tag name is connected to the food tag of that
      name, or to a new non-fixed tag created for it; then the showcase is
      inserted with a new id and the connected tags. */
  method CreateShowcase(db: Database, imageUrl: string, title: Option<string>, description: Option<string>,
                        tagNames: Option<seq<string>>, now: int) returns (r: Showcase)
    modifies db`foodTags, db`showcases
    ensures db.showcases == old(db.showcases) + [r]
    ensures forall s :: s in old(db.showcases) ==> s.id != r.id
    ensures r.imageUrl == imageUrl && r.title == title && r.description == description && r.createdAt == now
    ensures old(db.foodTags) <= db.foodTags
    ensures forall k :: |old(db.foodTags)| <= k < |db.foodTags| ==>
      !db.foodTags[k].isFixed && db.foodTags[k].name in tagNames.GetOr([])
      && forall t :: t in old(db.foodTags) ==> t.name != db.foodTags[k].name
    ensures forall n :: n in tagNames.GetOr([]) ==>
      exists t :: t in db.foodTags && t.name == n && t.id in r.tagIds
    ensures forall id :: id in r.tagIds ==>
      exists t :: t in db.foodTags && t.id == id && t.name in tagNames.GetOr([])
  {
    var names := tagNames.GetOr([]);
    var ids := ConnectAll(db, names);
    r := Showcase(FreshId(ShowcaseIds(db.showcases)), title, description, imageUrl, ids, now);
    forall s | s in db.showcases
      ensures s.id != r.id
    {
      var k :| 0 <= k < |db.showcases| && db.showcases[k] == s;
      assert ShowcaseIds(db.showcases)[k] == s.id;
    }
    db.showcases := db.showcases + [r];
  }

  /** The nested `connectOrCreate` list: one `ConnectOrCreate` per name, in
      order; the ids connected are those of the tags named. */
  method ConnectAll(db: Database, names: seq<string>) returns (ids: set<nat>)
    modifies db`foodTags
    ensures OnlyNewNamesAdded(old(db.foodTags), db.foodTags, names)
    ensures forall n :: n in names ==> exists t :: t in db.foodTags && t.name == n && t.id in ids
    ensures forall id :: id in ids ==> exists t :: t in db.foodTags && t.id == id && t.name in names
  {
    ids := {};
    ghost var linked: seq<Tag> := [];
    var i := 0;
    while i < |names|
      invariant 0 <= i <= |names| && |linked| == i
      invariant OnlyNewNamesAdded(old(db.foodTags), db.foodTags, names)
      invariant forall j :: 0 <= j < i ==> linked[j].name == names[j] && linked[j] in db.foodTags
      invariant ids == set t | t in linked :: t.id
    {
      ghost var before := db.foodTags;
      var id := ConnectOrCreate(db, names[i]);
      assert forall t :: t in before ==> t in db.foodTags;
      OnlyNewNamesAddedStep(old(db.foodTags), before, db.foodTags, names, names[i]);
      ghost var t :| t in db.foodTags && t.name == names[i] && t.id == id;
      linked := linked + [t];
      ids := ids + {id};
      i := i + 1;
    }
  }

  /** The tags after `base` in `tags` are non-fixed, named in `names`,
      and carry names no tag of `base` has. */
  ghost predicate OnlyNewNamesAdded(base: seq<Tag>, tags: seq<Tag>, names: seq<string>) {
    base <= tags
    && forall k :: |base| <= k < |tags| ==>
         !tags[k].isFixed && tags[k].name in names
         && forall t :: t in base ==> t.name != tags[k].name
  }

  lemma OnlyNewNamesAddedStep(base: seq<Tag>, before: seq<Tag>, after: seq<Tag>, names: seq<string>, name: string)
    requires OnlyNewNamesAdded(base, before, names)
    requires before <= after && |after| <= |before| + 1 && name in names
    requires |after| > |before| ==>
      !after[|before|].isFixed && after[|before|].name == name && forall t :: t in before ==> t.name != name
    ensures OnlyNewNamesAdded(base, after, names)
  {
    assert forall t :: t in base ==> t in before;
  }

  /** One `connectOrCreate` by name: the id of the food tag of that name,
      created as a non-fixed tag when there is none. */
  method ConnectOrCreate(db: Database, name: string) returns (id: nat)
    modifies db`foodTags
    ensures old(db.foodTags) <= db.foodTags && |db.foodTags| <= |old(db.foodTags)| + 1
    ensures exists t :: t in db.foodTags && t.name == name && t.id == id
    ensures |db.foodTags| > |old(db.foodTags)| ==>
      db.foodTags[|old(db.foodTags)|] == Tag(id, name, false)
      && forall t :: t in old(db.foodTags) ==> t.name != name
  {
    var found := Tables.FindFirst(db.foodTags, (t: Tag) => t.name == name);
    if found.Some? {
      id := found.value.id;
    } else {
      id := FreshId(TagIds(db.foodTags));
      db.foodTags := db.foodTags + [Tag(id, name, false)];
      assert db.foodTags[|db.foodTags| - 1] == Tag(id, name, false);
    }
  }

  function ShowcaseById(t: seq<Showcase>, id: int): (r: Option<Showcase>)
    ensures r.Some? ==> r.value in t && r.value.id == id
    ensures r.None? <==> forall s :: s in t ==> s.id != id
  {
    Tables.FindFirst(t, (s: Showcase) => s.id == id)
  }

  function NotFoundMessage(id: int): string {
    "Showcase with ID " + Numbers.IntToString(id) + " not found."
  }

  /** The failure messages of `updateShowcase`: a missing record (`P2025`)
      and a relation violation (`P2016`) have their own messages. */
  function UpdateFailureMessage(id: int, code: Option<string>): (r: string)
    ensures code == Some("P2025") ==> r == NotFoundMessage(id)
    ensures code == Some("P2016") ==> r == "更新失败：一个或多个指定的标签不存在。"
    ensures code != Some("P2025") && code != Some("P2016") ==> r == "Failed to update food showcase"
  {
    if code == Some("P2025") then NotFoundMessage(id)
    else if code == Some("P2016") then "更新失败：一个或多个指定的标签不存在。"
    else "Failed to update food showcase"
  }

  /** Ids of the food tags whose name is in `names`. */
  function TagIdsNamed(foodTags: seq<Tag>, names: seq<string>): set<nat> {
    set t | t in foodTags && t.name in names :: t.id
  }

  /** The fields `updateShowcase` copies: only the defined ones; a defined
      tag list replaces the whole tag set. */
  function ApplyUpdate(s: Showcase, title: Option<string>, description: Option<string>, imageUrl: Option<string>,
                       tagIds: Option<set<nat>>): (r: Showcase)
    ensures r.id == s.id && r.createdAt == s.createdAt
    ensures r.title == (if title.Some? then title else s.title)
    ensures r.description == (if description.Some? then description else s.description)
    ensures r.imageUrl == (if imageUrl.Some? then imageUrl.value else s.imageUrl)
    ensures r.tagIds == (if tagIds.Some? then tagIds.value else s.tagIds)
  {
    Showcase(s.id,
      if title.Some? then title else s.title,
      if description.Some? then description else s.description,
      if imageUrl.Some? then imageUrl.value else s.imageUrl,
      if tagIds.Some? then tagIds.value else s.tagIds,
      s.createdAt)
  }

  /** `updateShowcase(id, data)`. With no defined field it returns the
      current record (or `null`) and writes nothing. A missing record, or a
      tag name with no food tag (the relation to connect is missing too),
      fails with the `P2025` message and writes nothing. Otherwise the
      record takes the defined fields and exactly the named tags. */
  method UpdateShowcase(db: Database, id: int, title: Option<string>, description: Option<string>,
                        imageUrl: Option<string>, tagNames: Option<seq<string>>)
    returns (r: Result<Option<Showcase>, string>)
    modifies db`showcases
    ensures title.None? && description.None? && imageUrl.None? && tagNames.None? ==>
      r == Ok(ShowcaseById(old(db.showcases), id)) && db.showcases == old(db.showcases)
    ensures r.Err? ==> r.error == UpdateFailureMessage(id, Some("P2025")) && db.showcases == old(db.showcases)
    ensures ShowcaseById(old(db.showcases), id).None? ==> r.Err? || r == Ok(None)
    ensures title.Some? || description.Some? || imageUrl.Some? || tagNames.Some? ==>
      (r.Err? <==> ShowcaseById(old(db.showcases), id).None?
                   || (tagNames.Some? && exists n :: n in tagNames.value && forall t :: t in db.foodTags ==> t.name != n))
      && (r.Ok? ==> r.value.Some?)
    ensures r == Ok(None) ==> db.showcases == old(db.showcases)
    ensures r.Ok? && r.value.Some? ==>
      var tagIds := if tagNames.Some? then Some(TagIdsNamed(db.foodTags, tagNames.value)) else None;
      r.value.value == ApplyUpdate(ShowcaseById(old(db.showcases), id).value, title, description, imageUrl, tagIds)
      && |db.showcases| == |old(db.showcases)|
      && forall k :: 0 <= k < |db.showcases| ==>
           db.showcases[k] == (if old(db.showcases)[k].id == id
                               then ApplyUpdate(old(db.showcases)[k], title, description, imageUrl, tagIds)
                               else old(db.showcases)[k])
    ensures tagNames.Some? && r.Ok? && r.value.Some? ==>
      forall n :: n in tagNames.value ==> exists t :: t in db.foodTags && t.name == n && t.id in r.value.value.tagIds
  {
    if title.None? && description.None? && imageUrl.None? && tagNames.None? {
      return Ok(ShowcaseById(db.showcases, id));
    }
    var current := ShowcaseById(db.showcases, id);
    if current.None? {
      return Err(UpdateFailureMessage(id, Some("P2025")));
    }
    if tagNames.Some? && exists n :: n in tagNames.value && forall t :: t in db.foodTags ==> t.name != n {
      return Err(UpdateFailureMessage(id, Some("P2025")));
    }
    var tagIds := if tagNames.Some? then Some(TagIdsNamed(db.foodTags, tagNames.value)) else None;
    db.showcases := Tables.UpdateWhere(db.showcases, (s: Showcase) => s.id == id,
                                       (s: Showcase) => ApplyUpdate(s, title, description, imageUrl, tagIds));
    r := Ok(Some(ApplyUpdate(current.value, title, description, imageUrl, tagIds)));
  }

  /** `deleteShowcase(id)`: the removed record, or the not-found message
      with nothing removed. */
  method DeleteShowcase(db: Database, id: int) returns (r: Result<Showcase, string>)
    modifies db`showcases
    ensures ShowcaseById(old(db.showcases), id).None? <==> r.Err?
    ensures r.Err? ==> r.error == NotFoundMessage(id) && db.showcases == old(db.showcases)
    ensures r.Ok? ==>
      (r.value == ShowcaseById(old(db.showcases), id).value
       && forall s :: s in db.showcases <==> s in old(db.showcases) && s.id != id)
  {
    var current := ShowcaseById(db.showcases, id);
    if current.None? {
      return Err(NotFoundMessage(id));
    }
    db.showcases := Tables.DeleteWhere(db.showcases, (s: Showcase) => s.id == id);
    return Ok(current.value);
  }

  /** `deleteShowcasesBulk(ids)`. An empty list deletes nothing and counts
      0. A list holding a value that is not an integer id is rejected by
      the query and reported generically. Otherwise exactly the records
      whose id is listed are removed, and the count is how many. */
  method DeleteShowcasesBulk(db: Database, ids: seq<Json.NumberValue>) returns (r: Result<nat, string>)
    modifies db`showcases
    ensures |ids| == 0 ==> r == Ok(0)
    ensures r.Err? <==> |ids| > 0 && exists k :: 0 <= k < |ids| && !ids[k].IntVal?
    ensures r.Err? ==> r.error == "Failed to bulk delete food showcases"
    ensures r.Ok? ==>
      (forall s :: s in db.showcases <==> s in old(db.showcases) && Json.IntVal(s.id) !in ids)
      && r.value == |old(db.showcases)| - |db.showcases|
    ensures !r.Ok? || |ids| == 0 ==> db.showcases == old(db.showcases)
  {
    if |ids| == 0 {
      return Ok(0);
    }
    if exists k :: 0 <= k < |ids| && !ids[k].IntVal? {
      return Err("Failed to bulk delete food showcases");
    }
    var before := db.showcases;
    db.showcases := Tables.DeleteWhere(before, (s: Showcase) => Json.IntVal(s.id) in ids);
    r := Ok(Tables.Count(before, (s: Showcase) => Json.IntVal(s.id) in ids));
  }

  datatype TagCount = TagCount(name: string, count: nat)
  datatype Stats = Stats(totalCount: nat, tagsCount: seq<TagCount>)

  /** The number of showcases linked to tag `tagId`. */
  function UsageCount(showcases: seq<Showcase>, tagId: nat): nat {
    Tables.Count(showcases, (s: Showcase) => tagId in s.tagIds)
  }

  /** For each food tag, the number of showcases linked to it. */
  function Usage(foodTags: seq<Tag>, showcases: seq<Showcase>): (r: seq<TagCount>)
    ensures |r| == |foodTags|
    ensures forall k :: 0 <= k < |r| ==> r[k] == TagCount(foodTags[k].name, UsageCount(showcases, foodTags[k].id))
  {
    if |foodTags| == 0 then []
    else [TagCount(foodTags[0].name, UsageCount(showcases, foodTags[0].id))] + Usage(foodTags[1..], showcases)
  }

  predicate MostUsedFirst(a: TagCount, b: TagCount) {
    a.count >= b.count
  }

  lemma MostUsedFirstIsPreorder()
    ensures Tables.TotalPreorder(MostUsedFirst)
  {
  }

  function InUse(counts: seq<TagCount>): (r: seq<TagCount>)
    ensures forall c :: c in r <==> c in counts && c.count > 0
  {
    Tables.Filter(counts, (c: TagCount) => c.count > 0)
  }

  /** `getShowcaseStats()`: the number of showcases, and the tags in use
      with their usage counts, most used first. Tags used by no showcase
      are dropped. */
  function ShowcaseStats(showcases: seq<Showcase>, foodTags: seq<Tag>): (r: Stats)
    ensures r.totalCount == |showcases|
    ensures multiset(r.tagsCount) == multiset(InUse(Usage(foodTags, showcases)))
    ensures forall c :: c in r.tagsCount ==> c.count > 0
    ensures forall c :: c in r.tagsCount ==>
      exists k :: 0 <= k < |foodTags| && c == TagCount(foodTags[k].name, UsageCount(showcases, foodTags[k].id))
    ensures Tables.SortedBy(r.tagsCount, MostUsedFirst)
    ensures forall k :: 0 <= k < |foodTags| ==>
      (UsageCount(showcases, foodTags[k].id) > 0
       <==> TagCount(foodTags[k].name, UsageCount(showcases, foodTags[k].id)) in r.tagsCount)
  {
    MostUsedFirstIsPreorder();
    var counts := Usage(foodTags, showcases);
    var used := InUse(counts);
    var sorted := Tables.SortBy(used, MostUsedFirst);
    SameElements(sorted, used);
    assert forall k :: 0 <= k < |foodTags| ==> counts[k] in counts;
    Stats(|showcases|, sorted)
  }

  lemma SameElements(a: seq<TagCount>, b: seq<TagCount>)
    requires multiset(a) == multiset(b)
    ensures forall c :: c in a <==> c in b
  {
    forall c ensures c in a <==> c in b {
      assert c in a <==> c in multiset(a);
      assert c in b <==> c in multiset(b);
    }
  }
}
