/** The food-tag service: the `FoodTag` table listed by name, renamed and
    deleted unless fixed, and grown by unique name inside one transaction.
    A unique-name violation on create is reported as the duplicate error;
    other create errors pass through unchanged. */
module FoodTagService {
  import opened Wrappers
  import opened Db
  import Tables
  import Strings
  import opened TagTable

  /** The duplicate-name error of `createTag`. */
  function Duplicate(name: string): string {
    "美食标签 \"" + name + "\" 已存在"
  }

  /** What `createTag` throws for an error: a unique-constraint or
      duplicate error becomes the duplicate error for `name`; anything else
      is passed on. */
  function CreateFailure(name: string, message: string): (r: string)
    ensures Strings.Contains(message, "Unique constraint") || Strings.Contains(message, "已存在") ==> r == Duplicate(name)
    ensures !Strings.Contains(message, "Unique constraint") && !Strings.Contains(message, "已存在") ==> r == message
  {
    if Strings.Contains(message, "Unique constraint") || Strings.Contains(message, "已存在") then Duplicate(name)
    else message
  }

  /** `getAllTags`: every tag, names ascending; a failed query is reported
      as `Failed to retrieve food tags`. */
  function GetAllTags(foodTags: seq<Tag>, dbError: Option<string>): (r: Result<seq<Tag>, string>)
    ensures r.Err? <==> dbError.Some?
    ensures r.Err? ==> r.error == "Failed to retrieve food tags"
    ensures r.Ok? ==> multiset(r.value) == multiset(foodTags)
    ensures r.Ok? ==> forall i, j :: 0 <= i < j < |r.value| ==> LexLe(r.value[i].name, r.value[j].name)
  {
    if dbError.Some? then Err("Failed to retrieve food tags") else Ok(SortedByName(foodTags))
  }

  /** `updateTag`: a missing or fixed tag gives `null` and no change;
      otherwise only the name changes. A failed query, or a name another
      tag already has, is reported as `Failed to update food tag`. */
  method UpdateTag(db: Database, id: int, name: string, dbError: Option<string>) returns (r: Result<Option<Tag>, string>)
    modifies db`foodTags
    ensures dbError.Some? ==> r == Err("Failed to update food tag") && db.foodTags == old(db.foodTags)
    ensures dbError.None? && !Editable(old(db.foodTags), id) ==> r == Ok(None) && db.foodTags == old(db.foodTags)
    ensures dbError.None? && Editable(old(db.foodTags), id) && NameTakenByOther(old(db.foodTags), id, name) ==>
      r == Err("Failed to update food tag") && db.foodTags == old(db.foodTags)
    ensures dbError.None? && Editable(old(db.foodTags), id) && !NameTakenByOther(old(db.foodTags), id, name) ==>
      r == Ok(Some(TagById(old(db.foodTags), id).value.(name := name)))
      && db.foodTags == Renamed(old(db.foodTags), id, name)
    ensures WellKeyed(old(db.foodTags)) ==> WellKeyed(db.foodTags)
    ensures WellKeyed(old(db.foodTags)) ==> forall x :: x in old(db.foodTags) && x.isFixed ==> x in db.foodTags
  {
    if dbError.Some? {
      return Err("Failed to update food tag");
    }
    var existing := TagById(db.foodTags, id);
    if existing.None? || existing.value.isFixed {
      return Ok(None);
    }
    if NameTakenByOther(db.foodTags, id, name) {
      return Err("Failed to update food tag");
    }
    if WellKeyed(db.foodTags) {
      RenameKeepsKeys(db.foodTags, id, name);
      EditKeepsFixed(db.foodTags, id, name);
    }
    db.foodTags := Renamed(db.foodTags, id, name);
    r := Ok(Some(existing.value.(name := name)));
  }

  function LinksTag(id: int): Showcase -> bool {
    (s: Showcase) => id in s.tagIds
  }

  function DropTag(id: int): Showcase -> Showcase {
    (s: Showcase) => s.(tagIds := s.tagIds - {id})
  }

  /** The showcases once the links of the deleted tag are gone, as the
      implicit many-to-many relation removes its rows. */
  function Unlinked(showcases: seq<Showcase>, id: int): (r: seq<Showcase>)
    ensures |r| == |showcases|
    ensures forall k :: 0 <= k < |showcases| ==>
      r[k].id == showcases[k].id && r[k].tagIds == showcases[k].tagIds - {id}
      && r[k] == showcases[k].(tagIds := showcases[k].tagIds - {id})
  {
    Tables.UpdateWhere(showcases, LinksTag(id), DropTag(id))
  }

  /** `deleteTag`: `false` and no change for a missing or fixed tag;
      otherwise the tag and its links to showcases are removed and the
      answer is `true`. A failed query is reported as `Failed to delete
      food tag`. */
  method DeleteTag(db: Database, id: int, dbError: Option<string>) returns (r: Result<bool, string>)
    modifies db`foodTags, db`showcases
    ensures dbError.Some? ==>
      r == Err("Failed to delete food tag") && db.foodTags == old(db.foodTags) && db.showcases == old(db.showcases)
    ensures dbError.None? ==> r == Ok(Editable(old(db.foodTags), id))
    ensures r == Ok(false) ==> db.foodTags == old(db.foodTags) && db.showcases == old(db.showcases)
    ensures r == Ok(true) ==>
      db.foodTags == Tables.DeleteWhere(old(db.foodTags), TagWithId(id)) && TagById(db.foodTags, id).None?
      && db.showcases == Unlinked(old(db.showcases), id)
    ensures r == Ok(true) ==> forall s :: s in db.showcases ==> id !in s.tagIds
    ensures WellKeyed(old(db.foodTags)) ==> WellKeyed(db.foodTags)
    ensures WellKeyed(old(db.foodTags)) ==> forall x :: x in old(db.foodTags) && x.isFixed ==> x in db.foodTags
  {
    if dbError.Some? {
      return Err("Failed to delete food tag");
    }
    if !Editable(db.foodTags, id) {
      return Ok(false);
    }
    if WellKeyed(db.foodTags) {
      DeleteByIdKeepsKeys(db.foodTags, id);
      EditKeepsFixed(db.foodTags, id, "");
    }
    db.foodTags := Tables.DeleteWhere(db.foodTags, TagWithId(id));
    db.showcases := Unlinked(db.showcases, id);
    r := Ok(true);
  }

  /** `createTag`: inside one transaction, a name in use is refused and
      otherwise a non-fixed tag of that name is added. Errors go through
      `CreateFailure`. */
  method CreateTag(db: Database, name: string, dbError: Option<string>) returns (r: Result<Tag, string>)
    modifies db`foodTags
    ensures dbError.Some? ==> r == Err(CreateFailure(name, dbError.value)) && db.foodTags == old(db.foodTags)
    ensures dbError.None? && TagByName(old(db.foodTags), name).Some? ==>
      r == Err(Duplicate(name)) && db.foodTags == old(db.foodTags)
    ensures dbError.None? && TagByName(old(db.foodTags), name).None? ==>
      r == Ok(NewTag(old(db.foodTags), name)) && db.foodTags == old(db.foodTags) + [r.value]
    ensures WellKeyed(old(db.foodTags)) ==> WellKeyed(db.foodTags)
  {
    if dbError.Some? {
      return Err(CreateFailure(name, dbError.value));
    }
    if TagByName(db.foodTags, name).Some? {
      Strings.ContainsInfix("美食标签 \"" + name + "\" ", "已存在", "");
      assert "美食标签 \"" + name + "\" " + "已存在" + "" == Duplicate(name);
      return Err(CreateFailure(name, Duplicate(name)));
    }
    var tag := NewTag(db.foodTags, name);
    if WellKeyed(db.foodTags) {
      AddKeepsKeys(db.foodTags, name);
    }
    db.foodTags := db.foodTags + [tag];
    r := Ok(tag);
  }
}
