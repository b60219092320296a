/** The post-tag service of `TagService`: the `PostTag` table listed by
    name, renamed and deleted unless fixed, and grown by unique name. Every
    failure is reported with a message of its own, except a duplicate name
    on create, which keeps its message. */
module TagService {
  import opened Wrappers
  import opened Db
  import Tables
  import Strings
  import opened TagTable

  /** The duplicate-name error of `createTag`. */
  function Duplicate(name: string): string {
    "标签 \"" + name + "\" 已存在"
  }

  /** What `createTag` throws for an error: a duplicate error as it is,
      anything else as `Failed to create tag`. */
  function CreateFailure(message: string): (r: string)
    ensures Strings.Contains(message, "已存在") ==> r == message
    ensures !Strings.Contains(message, "已存在") ==> r == "Failed to create tag"
  {
    if Strings.Contains(message, "已存在") then message else "Failed to create tag"
  }

  lemma DuplicateKeepsMessage(name: string)
    ensures CreateFailure(Duplicate(name)) == Duplicate(name)
  {
    Strings.ContainsInfix("标签 \"" + name + "\" ", "已存在", "");
    assert "标签 \"" + name + "\" " + "已存在" + "" == Duplicate(name);
  }

  /** `getAllTags`: every tag, names ascending; a failed query is reported
      as `Failed to retrieve tags`. */
  function GetAllTags(postTags: seq<Tag>, dbError: Option<string>): (r: Result<seq<Tag>, string>)
    ensures r.Err? <==> dbError.Some?
    ensures r.Err? ==> r.error == "Failed to retrieve tags"
    ensures r.Ok? ==> multiset(r.value) == multiset(postTags)
    ensures r.Ok? ==> forall i, j :: 0 <= i < j < |r.value| ==> LexLe(r.value[i].name, r.value[j].name)
  {
    if dbError.Some? then Err("Failed to retrieve tags") else Ok(SortedByName(postTags))
  }

  /** `updateTag`: a missing or fixed tag gives `null` and no change;
      otherwise only the name changes. A failed query, or a name another
      tag already has, is reported as `Failed to update tag`. */
  method UpdateTag(db: Database, id: int, name: string, dbError: Option<string>) returns (r: Result<Option<Tag>, string>)
    modifies db`postTags
    ensures dbError.Some? ==> r == Err("Failed to update tag") && db.postTags == old(db.postTags)
    ensures dbError.None? && !Editable(old(db.postTags), id) ==> r == Ok(None) && db.postTags == old(db.postTags)
    ensures dbError.None? && Editable(old(db.postTags), id) && NameTakenByOther(old(db.postTags), id, name) ==>
      r == Err("Failed to update tag") && db.postTags == old(db.postTags)
    ensures dbError.None? && Editable(old(db.postTags), id) && !NameTakenByOther(old(db.postTags), id, name) ==>
      r == Ok(Some(TagById(old(db.postTags), id).value.(name := name)))
      && db.postTags == Renamed(old(db.postTags), id, name)
    ensures WellKeyed(old(db.postTags)) ==> WellKeyed(db.postTags)
    ensures WellKeyed(old(db.postTags)) ==> forall x :: x in old(db.postTags) && x.isFixed ==> x in db.postTags
  {
    if dbError.Some? {
      return Err("Failed to update tag");
    }
    var existing := TagById(db.postTags, id);
    if existing.None? || existing.value.isFixed {
      return Ok(None);
    }
    if NameTakenByOther(db.postTags, id, name) {
      return Err("Failed to update tag");
    }
    if WellKeyed(db.postTags) {
      RenameKeepsKeys(db.postTags, id, name);
      EditKeepsFixed(db.postTags, id, name);
    }
    db.postTags := Renamed(db.postTags, id, name);
    r := Ok(Some(existing.value.(name := name)));
  }

  /** `deleteTag`: `false` and no change for a missing or fixed tag;
      otherwise the tag is removed and the answer is `true`. A failed query
      is reported as `Failed to delete tag`. */
  method DeleteTag(db: Database, id: int, dbError: Option<string>) returns (r: Result<bool, string>)
    modifies db`postTags
    ensures dbError.Some? ==> r == Err("Failed to delete tag") && db.postTags == old(db.postTags)
    ensures dbError.None? ==> r == Ok(Editable(old(db.postTags), id))
    ensures r == Ok(false) ==> db.postTags == old(db.postTags)
    ensures r == Ok(true) ==>
      db.postTags == Tables.DeleteWhere(old(db.postTags), TagWithId(id)) && TagById(db.postTags, id).None?
    ensures WellKeyed(old(db.postTags)) ==> WellKeyed(db.postTags)
    ensures WellKeyed(old(db.postTags)) ==> forall x :: x in old(db.postTags) && x.isFixed ==> x in db.postTags
  {
    if dbError.Some? {
      return Err("Failed to delete tag");
    }
    if !Editable(db.postTags, id) {
      return Ok(false);
    }
    if WellKeyed(db.postTags) {
      DeleteByIdKeepsKeys(db.postTags, id);
      EditKeepsFixed(db.postTags, id, "");
    }
    db.postTags := Tables.DeleteWhere(db.postTags, TagWithId(id));
    r := Ok(true);
  }

  /** `createTag`: a name in use is refused with the duplicate error;
      otherwise a non-fixed tag of that name is added. A failed query is
      reported through `CreateFailure`. */
  method CreateTag(db: Database, name: string, dbError: Option<string>) returns (r: Result<Tag, string>)
    modifies db`postTags
    ensures dbError.Some? ==> r == Err(CreateFailure(dbError.value)) && db.postTags == old(db.postTags)
    ensures dbError.None? && TagByName(old(db.postTags), name).Some? ==>
      r == Err(Duplicate(name)) && db.postTags == old(db.postTags)
    ensures dbError.None? && TagByName(old(db.postTags), name).None? ==>
      r == Ok(NewTag(old(db.postTags), name)) && db.postTags == old(db.postTags) + [r.value]
    ensures WellKeyed(old(db.postTags)) ==> WellKeyed(db.postTags)
  {
    if dbError.Some? {
      return Err(CreateFailure(dbError.value));
    }
    if TagByName(db.postTags, name).Some? {
      DuplicateKeepsMessage(name);
      return Err(CreateFailure(Duplicate(name)));
    }
    var tag := NewTag(db.postTags, name);
    if WellKeyed(db.postTags) {
      AddKeepsKeys(db.postTags, name);
    }
    db.postTags := db.postTags + [tag];
    r := Ok(tag);
  }
}
