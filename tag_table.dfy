/** What the three tag services share: a table of `Tag` rows with unique
    ids and unique names, listed by name, renamed and deleted by id, and
    grown by name. */
module TagTable {
  import opened Wrappers
  import opened Db
  import Tables

  /** Lexicographic order on names, by code unit. */
  predicate LexLe(a: string, b: string) {
    |a| == 0 || (|b| > 0 && (a[0] < b[0] || (a[0] == b[0] && LexLe(a[1..], b[1..]))))
  }

  lemma {:induction false} LexLeTotal(a: string, b: string)
    ensures LexLe(a, b) || LexLe(b, a)
  {
    if |a| > 0 && |b| > 0 && a[0] == b[0] {
      LexLeTotal(a[1..], b[1..]);
    }
  }

  lemma {:induction false} LexLeTrans(a: string, b: string, c: string)
    requires LexLe(a, b) && LexLe(b, c)
    ensures LexLe(a, c)
  {
    if |a| > 0 && a[0] == b[0] && b[0] == c[0] {
      LexLeTrans(a[1..], b[1..], c[1..]);
    }
  }

  /** `orderBy: { name: 'asc' }`. */
  function ByName(): (Tag, Tag) -> bool {
    (a: Tag, b: Tag) => LexLe(a.name, b.name)
  }

  lemma ByNameIsPreorder()
    ensures Tables.TotalPreorder(ByName())
  {
    forall a: Tag, b: Tag
      ensures ByName()(a, b) || ByName()(b, a)
    {
      LexLeTotal(a.name, b.name);
    }
    forall a: Tag, b: Tag, c: Tag | ByName()(a, b) && ByName()(b, c)
      ensures ByName()(a, c)
    {
      LexLeTrans(a.name, b.name, c.name);
    }
  }

  /** The table listed by name: the same rows, names ascending. */
  function SortedByName(t: seq<Tag>): (r: seq<Tag>)
    ensures multiset(r) == multiset(t)
    ensures forall i, j :: 0 <= i < j < |r| ==> LexLe(r[i].name, r[j].name)
  {
    ByNameIsPreorder();
    var r := Tables.SortBy(t, ByName());
    assert forall i, j :: 0 <= i < j < |r| ==> ByName()(r[i], r[j]);
    r
  }

  function TagWithId(id: int): Tag -> bool {
    (x: Tag) => x.id == id
  }

  function TagNamed(name: string): Tag -> bool {
    (x: Tag) => x.name == name
  }

  /** `findUnique({ where: { id } })`. */
  function TagById(t: seq<Tag>, id: int): (r: Option<Tag>)
    ensures r.Some? ==> r.value in t && r.value.id == id
    ensures r.None? <==> forall x :: x in t ==> x.id != id
  {
    Tables.FindFirst(t, TagWithId(id))
  }

  /** `findUnique({ where: { name } })`. */
  function TagByName(t: seq<Tag>, name: string): (r: Option<Tag>)
    ensures r.Some? ==> r.value in t && r.value.name == name
    ensures r.None? <==> forall x :: x in t ==> x.name != name
  {
    Tables.FindFirst(t, TagNamed(name))
  }

  /** The table's two unique keys. */
  predicate WellKeyed(t: seq<Tag>) {
    forall i, j :: 0 <= i < j < |t| ==> t[i].id != t[j].id && t[i].name != t[j].name
  }

  /** A tag that the services may rename or delete: present and not fixed. */
  predicate Editable(t: seq<Tag>, id: int) {
    TagById(t, id).Some? && !TagById(t, id).value.isFixed
  }

  /** Another tag than `id` already carries `name`: renaming would violate
      the unique name. */
  predicate NameTakenByOther(t: seq<Tag>, id: int, name: string) {
    exists x :: x in t && x.name == name && x.id != id
  }

  function Rename(name: string): Tag -> Tag {
    (x: Tag) => x.(name := name)
  }

  /** `update({ where: { id }, data: { name } })`. */
  function Renamed(t: seq<Tag>, id: int, name: string): (r: seq<Tag>)
    ensures |r| == |t|
    ensures forall k :: 0 <= k < |t| ==>
      r[k] == (if t[k].id == id then t[k].(name := name) else t[k])
  {
    Tables.UpdateWhere(t, TagWithId(id), Rename(name))
  }

  /** Renaming to a name no other tag has keeps both keys unique. */
  lemma RenameKeepsKeys(t: seq<Tag>, id: int, name: string)
    requires WellKeyed(t) && !NameTakenByOther(t, id, name)
    ensures WellKeyed(Renamed(t, id, name))
  {
    var r := Renamed(t, id, name);
    forall i, j | 0 <= i < j < |r|
      ensures r[i].id != r[j].id && r[i].name != r[j].name
    {
      assert t[i] in t && t[j] in t;
    }
  }

  /** A new tag: the next id, the given name, not fixed. */
  function NewTag(t: seq<Tag>, name: string): (r: Tag)
    ensures forall x :: x in t ==> x.id != r.id
    ensures r.name == name && !r.isFixed
  {
    var ids := TagIds(t);
    assert forall k :: 0 <= k < |t| ==> t[k].id == ids[k];
    Tag(FreshId(ids), name, false)
  }

  /** Adding a tag under a name not in use keeps both keys unique. */
  lemma AddKeepsKeys(t: seq<Tag>, name: string)
    requires WellKeyed(t) && TagByName(t, name).None?
    ensures WellKeyed(t + [NewTag(t, name)])
  {
    var r := t + [NewTag(t, name)];
    forall i, j | 0 <= i < j < |r|
      ensures r[i].id != r[j].id && r[i].name != r[j].name
    {
      assert r[i] in t;
    }
  }

  /** Deleting by id removes at most the one row with that id, so both
      keys stay unique. */
  lemma DeleteByIdKeepsKeys(t: seq<Tag>, id: int)
    requires WellKeyed(t)
    ensures WellKeyed(Tables.DeleteWhere(t, TagWithId(id)))
  {
    var p := TagWithId(id);
    if TagById(t, id).None? {
      forall j | 0 <= j < |t|
        ensures !p(t[j])
      {
        assert t[j] in t;
      }
      Tables.DeleteWhereNone(t, p);
    } else {
      var i :| 0 <= i < |t| && t[i] == TagById(t, id).value;
      forall j | 0 <= j < |t| && j != i
        ensures !p(t[j])
      {
        assert j < i || i < j;
      }
      Tables.DeleteWhereSingle(t, p, i);
      RemoveAtKeepsKeys(t, i);
    }
  }

  lemma RemoveAtKeepsKeys(t: seq<Tag>, i: nat)
    requires WellKeyed(t) && i < |t|
    ensures WellKeyed(t[..i] + t[i + 1..])
  {
    var r := t[..i] + t[i + 1..];
    forall a, b | 0 <= a < b < |r|
      ensures r[a].id != r[b].id && r[a].name != r[b].name
    {
      var a' := if a < i then a else a + 1;
      var b' := if b < i then b else b + 1;
      assert r[a] == t[a'] && r[b] == t[b'];
    }
  }

  /** With unique ids, the only row with an editable tag's id is that tag,
      so renaming or deleting it leaves every fixed tag in place. */
  lemma EditKeepsFixed(t: seq<Tag>, id: int, name: string)
    requires WellKeyed(t) && Editable(t, id)
    ensures forall x :: x in t && x.isFixed ==> x in Renamed(t, id, name)
    ensures forall x :: x in t && x.isFixed ==> x in Tables.DeleteWhere(t, TagWithId(id))
  {
    var r := Renamed(t, id, name);
    var i :| 0 <= i < |t| && t[i] == TagById(t, id).value;
    forall x | x in t && x.isFixed
      ensures x in r && !TagWithId(id)(x)
    {
      var k :| 0 <= k < |t| && t[k] == x;
      assert k != i;
      assert k < i || i < k;
      assert r[k] == x;
    }
  }
}
