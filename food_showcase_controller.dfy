/** The food-showcase HTTP handlers as functions from the parsed request
    (query, body fields, path id) and the storage and service outcomes to
    the reply. A handler that writes is split in two: the checks that lead
    to the service call (or to an early reply), and the reply chosen from
    the service's outcome. Storage uploads are outcomes given as inputs. */
module FoodShowcaseController {
  import opened Wrappers
  import Strings
  import Numbers
  import Tables
  import Json
  import QueryString
  import Db
  import Service = FoodShowcaseService

  /** A status code and the `message` of the JSON body. */
  datatype Reply = Reply(status: nat, message: string)

  /** A part free of `sep` stays free of it once trimmed, and its trim is
      trimmed. */
  lemma CleanPart(part: string, sep: char)
    requires sep !in part
    ensures Strings.Trim(Strings.Trim(part)) == Strings.Trim(part) && sep !in Strings.Trim(part)
  {
    Strings.TrimIdempotent(part);
    var i :| Strings.OccursAt(part, Strings.Trim(part), i);
    Strings.OccurrenceChars(part, Strings.Trim(part), i);
  }

  /** Splitting on `sep`, trimming each part and dropping empty parts
      leaves non-empty, trimmed parts free of `sep`. */
  lemma CleanParts(s: string, sep: char)
    ensures var r := Strings.NonEmpty(Strings.TrimAll(Strings.Split(s, sep)));
      forall k :: 0 <= k < |r| ==> r[k] != "" && Strings.Trim(r[k]) == r[k] && sep !in r[k]
  {
    var parts := Strings.Split(s, sep);
    var trimmed := Strings.TrimAll(parts);
    var kept := Strings.NonEmpty(trimmed);
    forall k | 0 <= k < |kept|
      ensures Strings.Trim(kept[k]) == kept[k] && sep !in kept[k]
    {
      var j :| 0 <= j < |trimmed| && trimmed[j] == kept[k];
      CleanPart(parts[j], sep);
    }
  }

  /** `tags` of the query: split on `|`, each part trimmed, empty parts
      dropped; an absent or empty parameter gives `undefined`. */
  function ParseTagsQuery(tags: Option<string>): (r: Option<seq<string>>)
    ensures r.None? <==> tags.None? || tags.value == ""
    ensures r.Some? ==> r.value == Strings.NonEmpty(Strings.TrimAll(Strings.Split(tags.value, '|')))
    ensures r.Some? ==> forall k :: 0 <= k < |r.value| ==>
      r.value[k] != "" && Strings.Trim(r.value[k]) == r.value[k] && '|' !in r.value[k]
  {
    if tags.None? || tags.value == "" then None
    else
      CleanParts(tags.value, '|');
      Some(Strings.NonEmpty(Strings.TrimAll(Strings.Split(tags.value, '|'))))
  }

  /** The service options `getAllFoodShowcases` derives from the query. */
  function ParseListQuery(q: seq<QueryString.Param>): (r: Service.ListOptions)
    ensures r.search == QueryString.Get(q, "search")
    ensures r.tagNames == ParseTagsQuery(QueryString.Get(q, "tags"))
    ensures r.page.Some? && r.page.value != 0 && r.limit.Some? && r.limit.value != 0
    ensures var page := QueryString.Get(q, "page");
      r.page == (if page.Some? && Numbers.ParseIntAuto(page.value).Some? && Numbers.ParseIntAuto(page.value) != Some(0)
                 then Numbers.ParseIntAuto(page.value) else Some(1))
    ensures var limit := QueryString.Get(q, "limit");
      r.limit == (if limit.Some? && Numbers.ParseIntAuto(limit.value).Some? && Numbers.ParseIntAuto(limit.value) != Some(0)
                  then Numbers.ParseIntAuto(limit.value) else Some(10))
    ensures r.includeTags == Some(QueryString.Get(q, "includeTags") == Some("true"))
  {
    Service.ListOptions(
      QueryString.Get(q, "search"),
      ParseTagsQuery(QueryString.Get(q, "tags")),
      Some(Numbers.ParseIntOr(QueryString.Get(q, "page"), 1)),
      Some(Numbers.ParseIntOr(QueryString.Get(q, "limit"), 10)),
      Some(QueryString.Get(q, "includeTags") == Some("true")))
  }

  datatype ListResponse = ListResponse(items: seq<Service.Item>, totalCount: nat, page: int, totalPages: int)

  /** The reply body of a listing: the page echoed and the number of
      pages, `ceil(totalCount / limit)`. */
  function PagedResponse(listed: Service.ListResult, page: int, limit: int): (r: ListResponse)
    requires limit != 0
    ensures r.items == listed.items && r.totalCount == listed.totalCount && r.page == page
    ensures limit > 0 ==> (r.totalPages - 1) * limit < r.totalCount <= r.totalPages * limit
    ensures r.totalCount == 0 ==> r.totalPages == 0
  {
    ListResponse(listed.items, listed.totalCount, page, Numbers.CeilDiv(listed.totalCount, limit))
  }

  /** `getAllFoodShowcases`: the options parsed from the query, the
      service's page of results and the page count. */
  function GetAllFoodShowcases(q: seq<QueryString.Param>, showcases: seq<Db.Showcase>, foodTags: seq<Db.Tag>)
    : ListResponse
  {
    var opts := ParseListQuery(q);
    PagedResponse(Service.GetAllShowcases(showcases, foodTags, opts), opts.page.value, opts.limit.value)
  }

  predicate IsString(j: Json.Json) {
    j.JStr?
  }

  /** The string elements of an array, in order: element by element, the
      strings of the array filtered by `typeof === 'string'`. */
  function StringItems(items: seq<Json.Json>): (r: seq<string>)
    ensures |r| <= |items|
    ensures forall s :: s in r <==> Json.JStr(s) in items
    ensures |r| == |Tables.Filter(items, IsString)|
    ensures forall i :: 0 <= i < |r| ==> Tables.Filter(items, IsString)[i] == Json.JStr(r[i])
  {
    if |items| == 0 then []
    else if items[0].JStr? then [items[0].s] + StringItems(items[1..])
    else StringItems(items[1..])
  }

  /** Filtering distributes over concatenation: the strings of two arrays
      joined are the strings of the first followed by those of the second. */
  lemma {:induction false} StringItemsAppend(a: seq<Json.Json>, b: seq<Json.Json>)
    ensures StringItems(a + b) == StringItems(a) + StringItems(b)
  {
    if |a| == 0 {
      assert a + b == b;
    } else {
      assert (a + b)[1..] == a[1..] + b;
      StringItemsAppend(a[1..], b);
    }
  }

  /** Each string occurs in the result exactly as often as it occurs as an
      element of the array. */
  lemma {:induction false} StringItemsCount(items: seq<Json.Json>, s: string)
    ensures multiset(StringItems(items))[s] == multiset(items)[Json.JStr(s)]
  {
    if |items| > 0 {
      assert items == [items[0]] + items[1..];
      StringItemsCount(items[1..], s);
    }
  }

  /** Body `tags`: a string is split on `,` with parts trimmed and empty
      parts dropped, an array keeps its string elements, anything else
      gives no tags. */
  function ParseBodyTags(tags: Option<Json.Json>): (r: seq<string>)
    ensures tags.Some? && tags.value.JStr? ==>
      r == Strings.NonEmpty(Strings.TrimAll(Strings.Split(tags.value.s, ',')))
      && forall k :: 0 <= k < |r| ==> r[k] != ""
    ensures tags.Some? && tags.value.JArr? ==> forall s :: s in r <==> Json.JStr(s) in tags.value.items
    ensures tags.Some? && tags.value.JArr? ==>
      |r| == |Tables.Filter(tags.value.items, IsString)|
      && forall i :: 0 <= i < |r| ==> Tables.Filter(tags.value.items, IsString)[i] == Json.JStr(r[i])
    ensures tags.None? || !(tags.value.JStr? || tags.value.JArr?) ==> r == []
  {
    if tags.None? then []
    else match tags.value
      case JStr(s) => Strings.NonEmpty(Strings.TrimAll(Strings.Split(s, ',')))
      case JArr(items) => StringItems(items)
      case _ => []
  }

  /** The outcome of uploading the image to the storage bucket: an upload
      error, or the public URL (absent when it cannot be obtained). */
  datatype Upload = UploadFailed(error: string) | Uploaded(publicUrl: Option<string>)

  datatype CreateStep =
    | CreateRejected(reply: Reply)
    | CallCreate(imageUrl: string, title: Option<string>, description: Option<string>, tagNames: Option<seq<string>>)

  /** `createShowcase` up to the service call: a file, a configured bucket
      and a successful upload with a public URL are required, in that
      order. An empty tag list is passed as `undefined`. */
  function CreateShowcaseStep(hasFile: bool, bucket: Option<string>, upload: Upload,
                              title: Option<string>, description: Option<string>, tags: Option<Json.Json>)
    : (r: CreateStep)
    ensures !hasFile ==> r == CreateRejected(Reply(400, "请求失败：需要上传图片文件。"))
    ensures hasFile && (bucket.None? || bucket.value == "") ==>
      r == CreateRejected(Reply(500, "服务器配置错误：存储桶名称未设置。"))
    ensures r.CallCreate? <==>
      hasFile && bucket.Some? && bucket.value != "" && upload.Uploaded? && upload.publicUrl.Some? && upload.publicUrl.value != ""
    ensures r.CallCreate? ==>
      r.imageUrl == upload.publicUrl.value && r.title == title && r.description == description
      && (r.tagNames.None? <==> ParseBodyTags(tags) == [])
      && (r.tagNames.Some? ==> r.tagNames.value == ParseBodyTags(tags))
    ensures r.CreateRejected? ==> r.reply.status in {400, 500}
  {
    if !hasFile then CreateRejected(Reply(400, "请求失败：需要上传图片文件。"))
    else if bucket.None? || bucket.value == "" then CreateRejected(Reply(500, "服务器配置错误：存储桶名称未设置。"))
    else match upload
      case UploadFailed(_) => CreateRejected(Reply(500, "上传图片到云存储失败。"))
      case Uploaded(url) =>
        if url.None? || url.value == "" then CreateRejected(Reply(500, "获取图片公共链接失败。"))
        else
          var names := ParseBodyTags(tags);
          CallCreate(url.value, title, description, if |names| > 0 then Some(names) else None)
  }

  /** The reply to the service's outcome of a create. */
  function CreateShowcaseReply(outcome: Result<Db.Showcase, string>): (r: Reply)
    ensures outcome.Ok? <==> r.status == 201
    ensures outcome.Err? && Strings.Contains(outcome.error, "标签不存在") ==> r == Reply(400, outcome.error)
    ensures outcome.Err? && !Strings.Contains(outcome.error, "标签不存在") ==> r.status == 500
  {
    match outcome
    case Ok(_) => Reply(201, "Food showcase created successfully")
    case Err(m) =>
      if Strings.Contains(m, "标签不存在") then Reply(400, m)
      else if Strings.Contains(m, "Failed to create") then Reply(500, m)
      else Reply(500, "创建美食展示时发生内部错误")
  }

  datatype UpdateStep =
    | UpdateRejected(reply: Reply)
    | CallUpdate(id: int, title: Option<string>, description: Option<string>, imageUrl: Option<string>,
                 tagNames: Option<seq<string>>)

  /** `updateShowcaseById` up to the service call. The id must parse; the
      bucket must be configured even when no file is sent; a sent file must
      upload. The parsed tag list is always passed, so an update whose body
      has no `tags` clears the showcase's tags. */
  function UpdateShowcaseStep(rawId: string, bucket: Option<string>, file: Option<Upload>,
                              title: Option<string>, description: Option<string>, tags: Option<Json.Json>)
    : (r: UpdateStep)
    ensures Numbers.ParseInt(rawId).None? ==> r == UpdateRejected(Reply(400, "无效的 Showcase ID"))
    ensures r.CallUpdate? <==>
      Numbers.ParseInt(rawId).Some? && bucket.Some? && bucket.value != ""
      && (file.Some? ==> file.value.Uploaded? && file.value.publicUrl.Some? && file.value.publicUrl.value != "")
    ensures Numbers.ParseInt(rawId).Some? && (bucket.None? || bucket.value == "") ==>
      r == UpdateRejected(Reply(500, "服务器配置错误：存储桶名称未设置。"))
    ensures Numbers.ParseInt(rawId).Some? && bucket.Some? && bucket.value != "" && file.Some? ==>
      (file.value.UploadFailed? ==> r == UpdateRejected(Reply(500, "更新图片时上传到云存储失败。")))
      && (file.value.Uploaded? && (file.value.publicUrl.None? || file.value.publicUrl.value == "") ==>
            r == UpdateRejected(Reply(500, "更新图片后获取公共链接失败。")))
    ensures r.CallUpdate? ==>
      Numbers.ParseInt(rawId) == Some(r.id) && bucket.Some? && bucket.value != ""
      && r.title == title && r.description == description
      && r.tagNames == Some(ParseBodyTags(tags))
      && (file.None? <==> r.imageUrl.None?)
      && (file.Some? ==> file.value == Uploaded(r.imageUrl))
    ensures r.CallUpdate? && tags.None? ==> r.tagNames == Some([])
  {
    match Numbers.ParseInt(rawId)
    case None => UpdateRejected(Reply(400, "无效的 Showcase ID"))
    case Some(id) =>
      if bucket.None? || bucket.value == "" then UpdateRejected(Reply(500, "服务器配置错误：存储桶名称未设置。"))
      else match file
        case None => CallUpdate(id, title, description, None, Some(ParseBodyTags(tags)))
        case Some(UploadFailed(_)) => UpdateRejected(Reply(500, "更新图片时上传到云存储失败。"))
        case Some(Uploaded(url)) =>
          if url.None? || url.value == "" then UpdateRejected(Reply(500, "更新图片后获取公共链接失败。"))
          else CallUpdate(id, title, description, url, Some(ParseBodyTags(tags)))
  }

  /** The reply to the service's outcome of an update: `null` and the
      not-found or missing-tag messages give 404, other failures 500. */
  function UpdateShowcaseReply(id: int, outcome: Result<Option<Db.Showcase>, string>): (r: Reply)
    ensures outcome.Ok? && outcome.value.Some? <==> r.status == 200
    ensures outcome == Ok(None) ==> r == Reply(404, Service.NotFoundMessage(id))
    ensures outcome.Err? ==>
      r.status == (if Strings.Contains(outcome.error, "not found") || Strings.Contains(outcome.error, "标签不存在")
                   then 404 else 500)
  {
    match outcome
    case Ok(None) => Reply(404, Service.NotFoundMessage(id))
    case Ok(Some(_)) => Reply(200, "Food showcase updated successfully")
    case Err(m) =>
      if Strings.Contains(m, "not found") || Strings.Contains(m, "标签不存在")
      then Reply(404, Strings.MessageOr(m, "资源未找到或关联标签不存在"))
      else Reply(500, Strings.MessageOr(m, "更新美食展示时发生内部错误"))
  }

  /** `deleteShowcaseById`: the id check, then the reply to the outcome. */
  function DeleteShowcaseStep(rawId: string): (r: Result<int, Reply>)
    ensures r.Err? <==> Numbers.ParseInt(rawId).None?
    ensures r.Err? ==> r.error == Reply(400, "无效的 Showcase ID")
    ensures r.Ok? ==> Numbers.ParseInt(rawId) == Some(r.value)
  {
    match Numbers.ParseInt(rawId)
    case None => Err(Reply(400, "无效的 Showcase ID"))
    case Some(id) => Ok(id)
  }

  function DeleteShowcaseReply(outcome: Result<Db.Showcase, string>): (r: Reply)
    ensures outcome.Ok? <==> r.status == 200
    ensures outcome.Err? ==> r.status == (if Strings.Contains(outcome.error, "not found") then 404 else 500)
  {
    match outcome
    case Ok(_) => Reply(200, "Food showcase deleted successfully")
    case Err(m) =>
      if Strings.Contains(m, "not found") then Reply(404, Strings.MessageOr(m, "资源未找到"))
      else Reply(500, Strings.MessageOr(m, "删除美食展示时发生内部错误"))
  }

  function ToNumbers(items: seq<Json.Json>): (r: seq<Json.NumberValue>)
    ensures |r| == |items| && forall k :: 0 <= k < |items| ==> r[k] == Json.ToNumber(items[k])
  {
    if |items| == 0 then [] else [Json.ToNumber(items[0])] + ToNumbers(items[1..])
  }

  /** The `ids` check of `deleteShowcasesBulk`: a non-empty array whose
      every element converts to a number; the converted values go to the
      service. */
  function ValidateBulkIds(ids: Option<Json.Json>): (r: Result<seq<Json.NumberValue>, Reply>)
    ensures ids.None? || !ids.value.JArr? || |ids.value.items| == 0 ==>
      r == Err(Reply(400, "请求体中需要包含有效的 ID 数组。"))
    ensures r.Ok? <==> (ids.Some? && ids.value.JArr? && |ids.value.items| > 0
      && forall k :: 0 <= k < |ids.value.items| ==> Json.ToNumber(ids.value.items[k]) != Json.NaN)
    ensures r.Ok? ==> r.value == ToNumbers(ids.value.items)
    ensures r.Err? ==> r.error.status == 400
  {
    if ids.None? || !ids.value.JArr? || |ids.value.items| == 0 then
      Err(Reply(400, "请求体中需要包含有效的 ID 数组。"))
    else
      var numbers := ToNumbers(ids.value.items);
      var numeric := Tables.Filter(numbers, (n: Json.NumberValue) => n != Json.NaN);
      Tables.FilterKeepsAll(numbers, (n: Json.NumberValue) => n != Json.NaN);
      if |numeric| != |ids.value.items| then Err(Reply(400, "ID 数组中包含无效值。"))
      else Ok(numbers)
  }

  /** An id in exponent notation passes the check as the integer it
      denotes: `["1e0"]` goes to the service as 1, and `["<n>e<k>"]` as
      `n * 10^k`. */
  lemma ExponentIdAccepted(n: nat, k: nat)
    ensures var id := Numbers.IntToString(n) + "e" + Numbers.NatToString(k);
      ValidateBulkIds(Some(Json.JArr([Json.JStr(id)]))) == Ok([Json.IntVal(n * Json.Pow10(k))])
  {
    var id := Numbers.IntToString(n) + "e" + Numbers.NatToString(k);
    var items := [Json.JStr(id)];
    Json.StringToNumberOfExponent(n, k);
    assert Json.ToNumber(items[0]) == Json.IntVal(n * Json.Pow10(k));
    assert ToNumbers(items) == [Json.IntVal(n * Json.Pow10(k))];
  }

  /** So does an id with a base prefix: `["0x2"]` goes to the service as 2. */
  lemma HexIdAccepted()
    ensures ValidateBulkIds(Some(Json.JArr([Json.JStr("0x2")]))) == Ok([Json.IntVal(2)])
  {
    var items := [Json.JStr("0x2")];
    var hex := "0x2";
    Strings.TrimTrimmed(hex);
    assert hex[2..] == "2";
    Json.StringToNumberOfPrefixed(hex);
    assert Json.ToNumber(items[0]) == Json.IntVal(2);
    assert ToNumbers(items) == [Json.IntVal(2)];
  }

  function BulkDeleteReply(outcome: Result<nat, string>): (r: Reply)
    ensures outcome.Ok? ==> r == Reply(200, "成功批量删除 " + Numbers.IntToString(outcome.value) + " 项。")
    ensures outcome.Err? ==> r == Reply(500, Strings.MessageOr(outcome.error, "批量删除时发生内部错误"))
  {
    match outcome
    case Ok(count) => Reply(200, "成功批量删除 " + Numbers.IntToString(count) + " 项。")
    case Err(m) => Reply(500, Strings.MessageOr(m, "批量删除时发生内部错误"))
  }
}
