/** The data step of the tag-split migration: every old tag that some
    post uses is copied, with its id, into the PostTag table, every old
    tag that some showcase uses into the FoodTag table, and the old join
    rows are copied into the new join tables. Rows already present are
    left alone, and a row the database refuses (a tag name already taken,
    a join row whose post, showcase or tag does not exist) is skipped
    while the loop goes on. The tables are maps keyed by id and sets of
    join rows. */
module MigrateTags {
  import opened Db

  /** A row of a join table: column `A` (the post or showcase id) and
      column `B` (the tag id). */
  datatype Relation = Relation(a: int, b: int)

  /** The four tables the migration writes. */
  datatype Tables = Tables(
    postTags: map<int, Tag>,
    foodTags: map<int, Tag>,
    postLinks: set<Relation>,
    foodLinks: set<Relation>)

  /** What the migration reads: which tables exist, the old tags, the old
      join rows, and the ids of the posts and showcases the new join rows
      may point at. */
  datatype Source = Source(
    tagTableExists: bool,
    postTagTableExists: bool,
    foodTagTableExists: bool,
    tags: seq<Tag>,
    postRelations: seq<Relation>,
    foodRelations: seq<Relation>,
    postIds: set<int>,
    showcaseIds: set<int>)

  /** The database the migration runs against, updated in place. */
  class Store {
    var postTags: map<int, Tag>
    var foodTags: map<int, Tag>
    var postLinks: set<Relation>
    var foodLinks: set<Relation>

    function State(): Tables
      reads this
    {
      Tables(postTags, foodTags, postLinks, foodLinks)
    }
  }

  /** `relations.some(rel => rel.B === id)`. */
  predicate Linked(rels: seq<Relation>, id: int) {
    exists r :: r in rels && r.b == id
  }

  /** The unique name of the new tag tables is taken. */
  predicate NameInUse(table: map<int, Tag>, name: string) {
    exists id :: id in table && table[id].name == name
  }

  /** `big` holds every row of `small`, unchanged. */
  predicate Extends(big: map<int, Tag>, small: map<int, Tag>) {
    forall id :: id in small ==> id in big && big[id] == small[id]
  }

  /** One turn of the tag loop: a used tag whose id is not in the table
      is created, unless its name is taken, in which case the insert fails
      and the table is unchanged. */
  function CopyStep(table: map<int, Tag>, rels: seq<Relation>, tag: Tag): map<int, Tag> {
    if Linked(rels, tag.id) && tag.id !in table && !NameInUse(table, tag.name) then table[tag.id := tag]
    else table
  }

  /** The tag loop over `tags`, in order. Existing rows are kept as they
      are, and every new row is a used old tag under its own id. */
  function CopyTags(table: map<int, Tag>, tags: seq<Tag>, rels: seq<Relation>): (r: map<int, Tag>)
    ensures Extends(r, table)
    ensures forall id :: id in r && id !in table ==> Linked(rels, id) && r[id] in tags && r[id].id == id
    decreases |tags|
  {
    if |tags| == 0 then table
    else CopyTags(CopyStep(table, rels, tags[0]), tags[1..], rels)
  }

  /** Old tags with distinct ids and distinct names. */
  predicate UniqueKeys(tags: seq<Tag>) {
    forall i, j :: 0 <= i < j < |tags| ==> tags[i].id != tags[j].id && tags[i].name != tags[j].name
  }

  /** Conversely, an old tag that is used, whose id is new and whose name
      is free is copied as it is. */
  lemma {:induction false} UsedTagIsCopied(table: map<int, Tag>, tags: seq<Tag>, rels: seq<Relation>, tag: Tag)
    requires UniqueKeys(tags) && tag in tags
    requires Linked(rels, tag.id) && tag.id !in table && !NameInUse(table, tag.name)
    ensures tag.id in CopyTags(table, tags, rels) && CopyTags(table, tags, rels)[tag.id] == tag
    decreases |tags|
  {
    var next := CopyStep(table, rels, tags[0]);
    assert CopyTags(table, tags, rels) == CopyTags(next, tags[1..], rels);
    if tags[0] != tag {
      var k :| 0 <= k < |tags| && tags[k] == tag;
      assert k > 0;
      assert tags[0].id != tag.id && tags[0].name != tag.name;
      assert tag in tags[1..] by { assert tags[1..][k - 1] == tag; }
      assert UniqueKeys(tags[1..]) by {
        forall i, j | 0 <= i < j < |tags[1..]|
          ensures tags[1..][i].id != tags[1..][j].id && tags[1..][i].name != tags[1..][j].name
        {
          assert tags[1..][i] == tags[i + 1] && tags[1..][j] == tags[j + 1];
        }
      }
      UsedTagIsCopied(next, tags[1..], rels, tag);
    }
  }

  /** After the loop, a second turn over any of the same tags changes
      nothing. */
  lemma {:induction false} CopyTagsSettles(table: map<int, Tag>, tags: seq<Tag>, rels: seq<Relation>)
    ensures forall tag :: tag in tags ==> CopyStep(CopyTags(table, tags, rels), rels, tag) == CopyTags(table, tags, rels)
    decreases |tags|
  {
    if |tags| > 0 {
      var x := tags[0];
      var next := CopyStep(table, rels, x);
      var r := CopyTags(next, tags[1..], rels);
      assert r == CopyTags(table, tags, rels);
      CopyTagsSettles(next, tags[1..], rels);
      forall tag | tag in tags
        ensures CopyStep(r, rels, tag) == r
      {
        if tag != x {
          assert tag in tags[1..];
        } else if x.id in next {
        } else if NameInUse(table, x.name) {
          var id :| id in table && table[id].name == x.name;
          assert id in next && id in r;
        }
      }
    }
  }

  lemma {:induction false} CopyTagsFixedPoint(table: map<int, Tag>, tags: seq<Tag>, rels: seq<Relation>)
    requires forall tag :: tag in tags ==> CopyStep(table, rels, tag) == table
    ensures CopyTags(table, tags, rels) == table
  {
    if |tags| > 0 {
      assert tags[0] in tags;
      CopyTagsFixedPoint(table, tags[1..], rels);
    }
  }

  /** Running the tag loop twice gives the table of running it once. */
  lemma CopyTagsIdempotent(table: map<int, Tag>, tags: seq<Tag>, rels: seq<Relation>)
    ensures CopyTags(CopyTags(table, tags, rels), tags, rels) == CopyTags(table, tags, rels)
  {
    CopyTagsSettles(table, tags, rels);
    CopyTagsFixedPoint(CopyTags(table, tags, rels), tags, rels);
  }

  /** The tag loop (`for (const tag of existingTags)`), creating each
      row that `CopyStep` admits. */
  method CopyTagLoop(table: map<int, Tag>, tags: seq<Tag>, rels: seq<Relation>) returns (r: map<int, Tag>)
    ensures r == CopyTags(table, tags, rels)
  {
    r := table;
    var i := 0;
    assert tags[0..] == tags;
    while i < |tags|
      invariant 0 <= i <= |tags|
      invariant CopyTags(table, tags, rels) == CopyTags(r, tags[i..], rels)
    {
      var tag := tags[i];
      assert tags[i..][1..] == tags[i + 1..];
      if Linked(rels, tag.id) {
        if tag.id !in r {
          if !NameInUse(r, tag.name) {
            r := r[tag.id := tag];
          }
        }
      }
      i := i + 1;
    }
  }

  /** The join rows the loop manages to insert: those whose owner and tag
      both exist. */
  function Insertable(rels: seq<Relation>, owners: set<int>, tagIds: set<int>): (r: set<Relation>)
    ensures forall rel :: rel in r <==> rel in rels && rel.a in owners && rel.b in tagIds
  {
    set rel | rel in rels && rel.a in owners && rel.b in tagIds
  }

  /** The join-row loop: a row already present is skipped, a row whose
      insert violates a foreign key is skipped, every other row is
      inserted. */
  method InsertLinks(links: set<Relation>, rels: seq<Relation>, owners: set<int>, tagIds: set<int>)
    returns (r: set<Relation>)
    ensures r == links + Insertable(rels, owners, tagIds)
  {
    r := links;
    for i := 0 to |rels|
      invariant r == links + Insertable(rels[..i], owners, tagIds)
    {
      var rel := rels[i];
      assert rels[..i + 1] == rels[..i] + [rel];
      if rel !in r {
        if rel.a in owners && rel.b in tagIds {
          r := r + {rel};
        }
      }
    }
    assert rels[..|rels|] == rels;
  }

  /** The migration stops without a change when the old Tag table is
      missing. */
  predicate Skipped(src: Source) {
    !src.tagTableExists || !src.postTagTableExists || !src.foodTagTableExists || |src.tags| == 0
  }

  /** `migrateTagsData`: nothing happens when a table is missing or there
      are no old tags; otherwise the post tags, the food tags, the post
      join rows and the food join rows are copied, in that order. */
  function Migrated(s: Tables, src: Source): (r: Tables)
    ensures Skipped(src) ==> r == s
    ensures Extends(r.postTags, s.postTags) && Extends(r.foodTags, s.foodTags)
    ensures s.postLinks <= r.postLinks && s.foodLinks <= r.foodLinks
    ensures forall id :: id in r.postTags && id !in s.postTags ==>
      Linked(src.postRelations, id) && r.postTags[id] in src.tags
    ensures forall id :: id in r.foodTags && id !in s.foodTags ==>
      Linked(src.foodRelations, id) && r.foodTags[id] in src.tags
    ensures forall rel :: rel in r.postLinks - s.postLinks ==>
      rel in src.postRelations && rel.a in src.postIds && rel.b in r.postTags
    ensures forall rel :: rel in r.foodLinks - s.foodLinks ==>
      rel in src.foodRelations && rel.a in src.showcaseIds && rel.b in r.foodTags
  {
    if Skipped(src) then s
    else
      var postTags := CopyTags(s.postTags, src.tags, src.postRelations);
      var foodTags := CopyTags(s.foodTags, src.tags, src.foodRelations);
      Tables(
        postTags, foodTags,
        s.postLinks + Insertable(src.postRelations, src.postIds, postTags.Keys),
        s.foodLinks + Insertable(src.foodRelations, src.showcaseIds, foodTags.Keys))
  }

  /** Running the migration a second time changes nothing. */
  lemma MigrateIdempotent(s: Tables, src: Source)
    ensures Migrated(Migrated(s, src), src) == Migrated(s, src)
  {
    if !Skipped(src) {
      CopyTagsIdempotent(s.postTags, src.tags, src.postRelations);
      CopyTagsIdempotent(s.foodTags, src.tags, src.foodRelations);
    }
  }

  /** A tag used by some post, with a new id and a free name, ends up in
      PostTag as it was; likewise for FoodTag. */
  lemma UsedTagsAreCopied(s: Tables, src: Source, tag: Tag)
    requires !Skipped(src) && UniqueKeys(src.tags) && tag in src.tags
    ensures Linked(src.postRelations, tag.id) && tag.id !in s.postTags && !NameInUse(s.postTags, tag.name) ==>
      tag.id in Migrated(s, src).postTags && Migrated(s, src).postTags[tag.id] == tag
    ensures Linked(src.foodRelations, tag.id) && tag.id !in s.foodTags && !NameInUse(s.foodTags, tag.name) ==>
      tag.id in Migrated(s, src).foodTags && Migrated(s, src).foodTags[tag.id] == tag
  {
    if Linked(src.postRelations, tag.id) && tag.id !in s.postTags && !NameInUse(s.postTags, tag.name) {
      UsedTagIsCopied(s.postTags, src.tags, src.postRelations, tag);
    }
    if Linked(src.foodRelations, tag.id) && tag.id !in s.foodTags && !NameInUse(s.foodTags, tag.name) {
      UsedTagIsCopied(s.foodTags, src.tags, src.foodRelations, tag);
    }
  }

  /** The migration against the store. */
  method Migrate(store: Store, src: Source)
    modifies store
    ensures store.State() == Migrated(old(store.State()), src)
  {
    if !src.tagTableExists {
      return;
    }
    if !src.postTagTableExists || !src.foodTagTableExists {
      return;
    }
    if |src.tags| == 0 {
      return;
    }
    store.postTags := CopyTagLoop(store.postTags, src.tags, src.postRelations);
    store.foodTags := CopyTagLoop(store.foodTags, src.tags, src.foodRelations);
    store.postLinks := InsertLinks(store.postLinks, src.postRelations, src.postIds, store.postTags.Keys);
    store.foodLinks := InsertLinks(store.foodLinks, src.foodRelations, src.showcaseIds, store.foodTags.Keys);
  }
}
