/** The food-tag HTTP handlers as functions: the name check that comes
    before the service call, and the reply chosen from the service's
    outcome or from the text of its error. */
module FoodTagController {
  import opened Wrappers
  import Strings
  import Db
  import Service = FoodTagService

  /** A status code, the `message` of the JSON body and its `error` code
      when it has one. */
  datatype Reply = Reply(status: nat, message: string, error: Option<string>)

  const EmptyName := "标签名称不能为空"
  const Unavailable := "数据库服务不可用"

  /** The `if (!name)` check of `updateTag` and `createTag`: an absent or
      empty name is refused before the service is called. */
  function NameStep(name: Option<string>): (r: Result<string, Reply>)
    ensures r.Err? <==> name.None? || name.value == ""
    ensures r.Err? ==> r.error == Reply(400, EmptyName, None)
    ensures r.Ok? ==> name == Some(r.value) && r.value != ""
  {
    if name.None? || name.value == "" then Err(Reply(400, EmptyName, None)) else Ok(name.value)
  }

  /** An error text naming the database or the connection. */
  predicate DatabaseError(m: string) {
    Strings.Contains(m, "database") || Strings.Contains(m, "connection")
  }

  /** The classification shared by the four handlers: a database or
      connection error gives 503, anything else 500 with the handler's own
      message. */
  function FailureReply(m: string, internal: string): (r: Reply)
    ensures DatabaseError(m) <==> r.status == 503
    ensures r.status == 503 ==> r == Reply(503, Unavailable, Some("database_error"))
    ensures r.status != 503 ==> r == Reply(500, internal, Some("internal_error"))
  {
    if DatabaseError(m) then Reply(503, Unavailable, Some("database_error"))
    else Reply(500, internal, Some("internal_error"))
  }

  /** `getAllTags`: the list, or the classified failure. */
  function GetAllTagsReply(outcome: Result<seq<Db.Tag>, string>): (r: Reply)
    ensures outcome.Ok? <==> r.status == 200
    ensures outcome.Err? ==> r.status == (if DatabaseError(outcome.error) then 503 else 500)
  {
    match outcome
    case Ok(_) => Reply(200, "", None)
    case Err(m) => FailureReply(m, "获取美食标签时发生内部错误")
  }

  /** `updateTag` after the name check: `null` gives 404. */
  function UpdateTagReply(outcome: Result<Option<Db.Tag>, string>): (r: Reply)
    ensures outcome.Ok? && outcome.value.Some? <==> r.status == 200
    ensures outcome == Ok(None) ==> r == Reply(404, "美食标签未找到或为固定标签，无法更新", None)
    ensures outcome.Err? ==> r.status == (if DatabaseError(outcome.error) then 503 else 500)
  {
    match outcome
    case Ok(None) => Reply(404, "美食标签未找到或为固定标签，无法更新", None)
    case Ok(Some(_)) => Reply(200, "", None)
    case Err(m) => FailureReply(m, "更新美食标签时发生内部错误")
  }

  /** `createTag` after the name check: 201 on success; an error saying
      the name exists gives 409 with that text, whatever else it says; the
      rest is classified. */
  function CreateTagReply(outcome: Result<Db.Tag, string>): (r: Reply)
    ensures outcome.Ok? <==> r.status == 201
    ensures outcome.Err? && Strings.Contains(outcome.error, "已存在") ==>
      r == Reply(409, outcome.error, Some("tag_already_exists"))
    ensures outcome.Err? && !Strings.Contains(outcome.error, "已存在") ==>
      r.status == (if DatabaseError(outcome.error) then 503 else 500)
  {
    match outcome
    case Ok(_) => Reply(201, "", None)
    case Err(m) =>
      if Strings.Contains(m, "已存在") then Reply(409, m, Some("tag_already_exists"))
      else FailureReply(m, "创建美食标签时发生内部错误")
  }

  /** An error text naming a foreign key. */
  predicate ForeignKeyError(m: string) {
    Strings.Contains(m, "foreign key") || Strings.Contains(m, "外键")
  }

  /** `deleteTag`: `false` gives 404; a database error gives 503 even when
      it also names a foreign key; a foreign-key error gives 400
      `tag_in_use`; the rest gives 500. */
  function DeleteTagReply(outcome: Result<bool, string>): (r: Reply)
    ensures outcome == Ok(true) <==> r.status == 200
    ensures outcome == Ok(false) ==> r == Reply(404, "美食标签未找到或为固定标签，无法删除", None)
    ensures outcome.Err? && DatabaseError(outcome.error) ==> r == Reply(503, Unavailable, Some("database_error"))
    ensures outcome.Err? && !DatabaseError(outcome.error) && ForeignKeyError(outcome.error) ==>
      r == Reply(400, "无法删除此标签，因为它正被美食图片使用", Some("tag_in_use"))
    ensures outcome.Err? && !DatabaseError(outcome.error) && !ForeignKeyError(outcome.error) ==>
      r == Reply(500, "删除美食标签时发生内部错误", Some("internal_error"))
  {
    match outcome
    case Ok(true) => Reply(200, "美食标签删除成功", None)
    case Ok(false) => Reply(404, "美食标签未找到或为固定标签，无法删除", None)
    case Err(m) =>
      if DatabaseError(m) then FailureReply(m, "")
      else if ForeignKeyError(m) then Reply(400, "无法删除此标签，因为它正被美食图片使用", Some("tag_in_use"))
      else Reply(500, "删除美食标签时发生内部错误", Some("internal_error"))
  }

  /** Every duplicate the service reports on create, whether found by its
      own check or by the unique constraint, reaches the client as 409. */
  lemma DuplicatesAreConflicts(name: string, m: string)
    requires m == Service.Duplicate(name) || Strings.Contains(m, "Unique constraint")
    ensures CreateTagReply(Err(Service.CreateFailure(name, m))).status == 409
  {
    Strings.ContainsInfix("美食标签 \"" + name + "\" ", "已存在", "");
    assert "美食标签 \"" + name + "\" " + "已存在" + "" == Service.Duplicate(name);
  }

  /** A text without the letters `b`, `c`, `k` and `外` names neither the
      database, a connection nor a foreign key. */
  lemma PlainFailure(m: string)
    requires 'b' !in m && 'c' !in m && 'k' !in m && '外' !in m
    ensures !DatabaseError(m) && !ForeignKeyError(m)
  {
    assert "database"[4] == 'b' && "connection"[0] == 'c' && "foreign key"[8] == 'k' && "外键"[0] == '外';
    Strings.MissingCharNotContained(m, "database", 'b');
    Strings.MissingCharNotContained(m, "connection", 'c');
    Strings.MissingCharNotContained(m, "foreign key", 'k');
    Strings.MissingCharNotContained(m, "外键", '外');
  }

  /** The service replaces every failure of listing, renaming and deleting
      with a fixed text that names neither the database, a connection nor
      a foreign key, so those handlers answer every failure with 500
      `internal_error`: their 503 and `tag_in_use` replies cannot occur. */
  lemma ListFailureIsInternal()
    ensures GetAllTagsReply(Err("Failed to retrieve food tags")).status == 500
  {
    PlainFailure("Failed to retrieve food tags");
  }

  lemma UpdateFailureIsInternal()
    ensures UpdateTagReply(Err("Failed to update food tag")).status == 500
  {
    PlainFailure("Failed to update food tag");
  }

  lemma DeleteFailureIsInternal()
    ensures DeleteTagReply(Err("Failed to delete food tag")).error == Some("internal_error")
  {
    PlainFailure("Failed to delete food tag");
  }
}
