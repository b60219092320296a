/** The post seeding script: every image file of the post image folder
    becomes a showcase post by the chosen author, titled after its file
    name, unless a post with that image URL already exists. The folder
    listing, the author and the outcome of each insert are inputs. */
module Seed {
  import opened Wrappers
  import Strings
  import opened Db
  import ImageFetcher

  /** `imageUrlPrefix`. */
  const ImageUrlPrefix := "/static/images/post/"
  /** The title of a post whose derived title is empty. */
  const FallbackTitle := "精美美食图"

  /** `/\.(jpg|jpeg|png|webp)$/i`. */
  predicate IsImageFile(name: string) {
    var lower := Strings.ToLowerAscii(name);
    Strings.EndsWith(lower, ".jpg") || Strings.EndsWith(lower, ".jpeg")
    || Strings.EndsWith(lower, ".png") || Strings.EndsWith(lower, ".webp")
  }

  /** The listing filtered to image files, in listing order. */
  function ImageFiles(listing: seq<string>): (r: seq<string>)
    ensures |r| <= |listing|
    ensures forall f :: f in r <==> f in listing && IsImageFile(f)
  {
    if |listing| == 0 then []
    else (if IsImageFile(listing[0]) then [listing[0]] else []) + ImageFiles(listing[1..])
  }

  function ImageUrlOf(filename: string): string {
    ImageUrlPrefix + filename
  }

  /** `s.split('.')[0]`: the text before the first `.`, or all of it. */
  function BeforeFirstDot(s: string): (r: string)
    ensures |r| <= |s| && r == s[..|r|]
    ensures '.' !in r
    ensures |r| < |s| ==> s[|r|] == '.'
  {
    if |s| == 0 || s[0] == '.' then "" else [s[0]] + BeforeFirstDot(s[1..])
  }

  /** How many word characters end `s`. */
  function TrailingWordCount(s: string): (n: nat)
    ensures n <= |s|
    ensures forall i :: |s| - n <= i < |s| ==> Strings.IsWordChar(s[i])
    ensures n < |s| ==> !Strings.IsWordChar(s[|s| - n - 1])
  {
    if |s| == 0 || !Strings.IsWordChar(s[|s| - 1]) then 0 else TrailingWordCount(s[..|s| - 1]) + 1
  }

  /** `s` ends, from position `k`, with a space and eight or more word
      characters. */
  predicate IdSuffixAt(s: string, k: int) {
    0 <= k < |s| && s[k] == ' ' && |s| - k > 8 && forall i :: k < i < |s| ==> Strings.IsWordChar(s[i])
  }

  /** `s.replace(/ \w{8,}$/, '')`: a trailing space and eight or more word
      characters are cut off; otherwise `s` is kept. */
  function StripId(s: string): (r: string)
    ensures |r| <= |s| && r == s[..|r|]
    ensures (exists k :: IdSuffixAt(s, k)) ==> IdSuffixAt(s, |r|)
    ensures (forall k :: !IdSuffixAt(s, k)) ==> r == s
  {
    var n := TrailingWordCount(s);
    if n >= 8 && n < |s| && s[|s| - n - 1] == ' ' then
      assert IdSuffixAt(s, |s| - n - 1);
      s[..|s| - n - 1]
    else
      assert forall k :: !IdSuffixAt(s, k) by {
        forall k | IdSuffixAt(s, k)
          ensures false
        {
        }
      }
      s
  }

  /** `s.replace(/^\w/, c => c.toUpperCase())`. */
  function Capitalize(s: string): (r: string)
    ensures |r| == |s| && forall i :: 0 < i < |s| ==> r[i] == s[i]
    ensures |s| > 0 ==> r[0] == (if Strings.IsWordChar(s[0]) then Strings.ToUpperAsciiChar(s[0]) else s[0])
  {
    if |s| > 0 && Strings.IsWordChar(s[0]) then [Strings.ToUpperAsciiChar(s[0])] + s[1..] else s
  }

  /** Two id suffixes of the same text start at the same place. */
  lemma IdSuffixUnique(s: string, k: int, l: int)
    requires IdSuffixAt(s, k) && IdSuffixAt(s, l)
    ensures k == l
  {
  }

  /** The title derived from a file name: the part before the first dot,
      underscores read as spaces, a trailing id cut off, the first letter
      made a capital. */
  function Title(filename: string): (r: string)
    ensures |r| <= |filename|
    ensures forall i :: 0 <= i < |r| ==> r[i] != '.' && r[i] != '_'
    ensures |r| > 0 ==> !('a' <= r[0] <= 'z')
  {
    var base := BeforeFirstDot(filename);
    var spaced := Strings.ReplaceChar(base, '_', ' ');
    var stripped := StripId(spaced);
    assert forall i :: 0 <= i < |stripped| ==> stripped[i] == spaced[i] && base[i] != '.';
    Capitalize(stripped)
  }

  /** A file saved by the image fetcher, `<query>_<id>.jpg`, is titled
      after its query (underscores read as spaces, first letter capital)
      when the id is eight or more letters and digits. */
  lemma FetchedImageTitle(query: string, id: string)
    requires forall i :: 0 <= i < |query| ==> query[i] != '.'
    requires |id| >= 8 && forall i :: 0 <= i < |id| ==> Strings.IsWordChar(id[i]) && id[i] != '_'
    ensures Title(ImageFetcher.FileName(query, id))
      == Capitalize(Strings.ReplaceChar(Strings.ReplaceChar(query, ' ', '_'), '_', ' '))
  {
    var q := Strings.ReplaceChar(query, ' ', '_');
    var name := ImageFetcher.FileName(query, id);
    var base := BeforeFirstDot(name);
    StemBeforeDot(q, id, name);
    var spaced := Strings.ReplaceChar(base, '_', ' ');
    var head := Strings.ReplaceChar(q, '_', ' ');
    IdSuffixOfStem(q, id, base, spaced);
    IdSuffixUnique(spaced, |q|, |StripId(spaced)|);
    assert StripId(spaced) == head;
  }

  /** The part before the first dot of `<q>_<id>.jpg` is `<q>_<id>`, given
      character by character. */
  lemma StemBeforeDot(q: string, id: string, name: string)
    requires forall i :: 0 <= i < |q| ==> q[i] != '.'
    requires forall i :: 0 <= i < |id| ==> Strings.IsWordChar(id[i])
    requires name == q + "_" + id + ".jpg"
    ensures var base := BeforeFirstDot(name);
      |base| == |q| + 1 + |id| && base[|q|] == '_'
      && (forall i :: 0 <= i < |q| ==> base[i] == q[i])
      && (forall i :: 0 <= i < |id| ==> base[|q| + 1 + i] == id[i])
  {
    var n := |q| + 1 + |id|;
    var base := BeforeFirstDot(name);
    assert name[n] == '.';
    forall i | 0 <= i < n
      ensures name[i] != '.'
    {
      if i > |q| {
        assert name[i] == id[i - |q| - 1];
        assert Strings.IsWordChar(id[i - |q| - 1]);
      }
    }
    assert forall i :: 0 <= i < |id| ==> name[|q| + 1 + i] == id[i];
  }

  lemma IdSuffixOfStem(q: string, id: string, base: string, spaced: string)
    requires |id| >= 8 && forall i :: 0 <= i < |id| ==> Strings.IsWordChar(id[i]) && id[i] != '_'
    requires |base| == |q| + 1 + |id| && base[|q|] == '_'
    requires forall i :: 0 <= i < |q| ==> base[i] == q[i]
    requires forall i :: 0 <= i < |id| ==> base[|q| + 1 + i] == id[i]
    requires spaced == Strings.ReplaceChar(base, '_', ' ')
    ensures IdSuffixAt(spaced, |q|)
    ensures spaced[..|q|] == Strings.ReplaceChar(q, '_', ' ')
  {
    forall i | |q| < i < |spaced|
      ensures Strings.IsWordChar(spaced[i])
    {
      assert base[i] == id[i - |q| - 1];
    }
  }

  /** `分享关于 "title" 的精彩瞬间和美味故事！ #美食分享 #<first word>`. */
  function Content(title: string): string {
    "分享关于 \"" + title + "\" 的精彩瞬间和美味故事！ #美食分享 #" + Strings.Split(title, ' ')[0]
  }

  /** What the loop derives from one file name before touching the
      database: the image URL, the title and the content. */
  datatype SeedFile = SeedFile(filename: string, imageUrl: string, title: string, content: string)

  function Prepare(filename: string): (r: SeedFile)
    ensures r.filename == filename && r.imageUrl == ImageUrlOf(filename)
    ensures r.title == Title(filename) && r.content == Content(r.title)
  {
    var title := Title(filename);
    SeedFile(filename, ImageUrlOf(filename), title, Content(title))
  }

  function Prepared(files: seq<string>): (r: seq<SeedFile>)
    ensures |r| == |files| && forall k :: 0 <= k < |files| ==> r[k] == Prepare(files[k])
  {
    if |files| == 0 then [] else [Prepare(files[0])] + Prepared(files[1..])
  }

  /** Some post already has this image URL. */
  predicate HasImageUrl(posts: seq<Post>, url: string) {
    exists p :: p in posts && p.imageUrl == Some(url)
  }

  /** The post created for a file: a showcase post by the author, with
      the fallback title when the derived one is empty, and an id no post
      has. */
  function NewPost(posts: seq<Post>, file: SeedFile, authorId: nat, now: int): (r: Post)
    ensures r.title == (if file.title == "" then FallbackTitle else file.title)
    ensures r.isShowcase && r.authorId == authorId && r.imageUrl == Some(file.imageUrl)
    ensures forall p :: p in posts ==> p.id != r.id
  {
    var ids := PostIds(posts);
    assert forall k :: 0 <= k < |posts| ==> posts[k].id == ids[k];
    Post(FreshId(ids), if file.title == "" then FallbackTitle else file.title, Some(file.content),
         Some(file.imageUrl), authorId, DefaultPostStatus, None, true, 0, 0, 0, now)
  }

  /** The posts' image URLs are unique (the `imageUrl` column's unique
      key). */
  predicate UniqueImageUrls(posts: seq<Post>) {
    forall i, j :: 0 <= i < j < |posts| && posts[i].imageUrl.Some? ==> posts[i].imageUrl != posts[j].imageUrl
  }

  /** A post the loop created: a titled showcase post by the author, for
      a file whose insert succeeded. */
  predicate SeededFrom(p: Post, files: seq<SeedFile>, authorId: nat, failing: set<string>) {
    p.isShowcase && p.authorId == authorId && p.title != ""
    && exists f :: f in files && f.filename !in failing && p.imageUrl == Some(f.imageUrl)
  }

  /** The file is skipped: a post already has its URL, or its insert
      fails. */
  predicate Skips(posts: seq<Post>, f: SeedFile, failing: set<string>) {
    HasImageUrl(posts, f.imageUrl) || f.filename in failing
  }

  /** The posts the loop over `files` adds to `posts`, in order; their
      number is `createdCount`. `failing` holds the files whose insert
      fails. */
  function Created(posts: seq<Post>, files: seq<SeedFile>, authorId: nat, now: int, failing: set<string>)
    : (added: seq<Post>)
    ensures |added| <= |files|
    decreases |files|
  {
    if |files| == 0 then []
    else if Skips(posts, files[0], failing) then Created(posts, files[1..], authorId, now, failing)
    else
      var post := NewPost(posts, files[0], authorId, now);
      [post] + Created(posts + [post], files[1..], authorId, now, failing)
  }

  /** Every added post is a titled showcase post by the author for one of
      the files. */
  lemma {:induction false} CreatedAreSeeded(posts: seq<Post>, files: seq<SeedFile>, authorId: nat, now: int, failing: set<string>)
    ensures forall k :: 0 <= k < |Created(posts, files, authorId, now, failing)| ==>
      SeededFrom(Created(posts, files, authorId, now, failing)[k], files, authorId, failing)
    decreases |files|
  {
    if |files| > 0 {
      var f := files[0];
      var next := if Skips(posts, f, failing) then posts else posts + [NewPost(posts, f, authorId, now)];
      CreatedAreSeeded(next, files[1..], authorId, now, failing);
      var rest := Created(next, files[1..], authorId, now, failing);
      var added := Created(posts, files, authorId, now, failing);
      forall k | 0 <= k < |added|
        ensures SeededFrom(added[k], files, authorId, failing)
      {
        if !Skips(posts, f, failing) && k == 0 {
          assert added[0] == NewPost(posts, f, authorId, now);
        } else {
          var j := if Skips(posts, f, failing) then k else k - 1;
          assert added[k] == rest[j];
          var g :| g in files[1..] && g.filename !in failing && rest[j].imageUrl == Some(g.imageUrl);
          assert g in files;
        }
      }
    }
  }

  /** Skipping files whose URL is taken keeps the URLs unique. */
  lemma {:induction false} SeedKeepsUrlsUnique(posts: seq<Post>, files: seq<SeedFile>, authorId: nat, now: int, failing: set<string>)
    requires UniqueImageUrls(posts)
    ensures UniqueImageUrls(posts + Created(posts, files, authorId, now, failing))
    decreases |files|
  {
    var added := Created(posts, files, authorId, now, failing);
    if |files| == 0 {
      assert posts + added == posts;
    } else if Skips(posts, files[0], failing) {
      SeedKeepsUrlsUnique(posts, files[1..], authorId, now, failing);
    } else {
      var post := NewPost(posts, files[0], authorId, now);
      var next := posts + [post];
      forall i, j | 0 <= i < j < |next| && next[i].imageUrl.Some?
        ensures next[i].imageUrl != next[j].imageUrl
      {
        if j == |posts| {
          assert next[i] in posts;
        }
      }
      SeedKeepsUrlsUnique(next, files[1..], authorId, now, failing);
      assert posts + added == next + Created(next, files[1..], authorId, now, failing);
    }
  }

  /** After the loop every file is skipped by a second loop: a post has
      its URL, or its insert fails. */
  lemma {:induction false} SeedCoversFiles(posts: seq<Post>, files: seq<SeedFile>, authorId: nat, now: int, failing: set<string>)
    ensures forall f :: f in files ==> Skips(posts + Created(posts, files, authorId, now, failing), f, failing)
    decreases |files|
  {
    if |files| > 0 {
      var f := files[0];
      var r := posts + Created(posts, files, authorId, now, failing);
      var next := if Skips(posts, f, failing) then posts else posts + [NewPost(posts, f, authorId, now)];
      assert r == next + Created(next, files[1..], authorId, now, failing);
      SeedCoversFiles(next, files[1..], authorId, now, failing);
      forall g | g in files && g.filename !in failing
        ensures HasImageUrl(r, g.imageUrl)
      {
        if g != f {
          assert g in files[1..];
        } else if HasImageUrl(posts, f.imageUrl) {
          var p :| p in posts && p.imageUrl == Some(f.imageUrl);
          var k :| 0 <= k < |posts| && posts[k] == p;
          assert r[k] == p;
        } else {
          assert r[|posts|] == NewPost(posts, f, authorId, now);
        }
      }
    }
  }

  lemma {:induction false} SeedFixedPoint(posts: seq<Post>, files: seq<SeedFile>, authorId: nat, now: int, failing: set<string>)
    requires forall f :: f in files ==> Skips(posts, f, failing)
    ensures Created(posts, files, authorId, now, failing) == []
    decreases |files|
  {
    if |files| > 0 {
      assert files[0] in files;
      SeedFixedPoint(posts, files[1..], authorId, now, failing);
    }
  }

  /** Seeding again from the same folder, with the same inserts failing,
      creates nothing. */
  lemma ReseedCreatesNothing(posts: seq<Post>, files: seq<SeedFile>, authorId: nat, now: int, failing: set<string>)
    ensures Created(posts + Created(posts, files, authorId, now, failing), files, authorId, now, failing) == []
  {
    SeedCoversFiles(posts, files, authorId, now, failing);
    SeedFixedPoint(posts + Created(posts, files, authorId, now, failing), files, authorId, now, failing);
  }

  /** The `for (const filename of imageFiles)` loop, over the files'
      derived URLs and titles. */
  method SeedLoop(db: Database, plan: seq<SeedFile>, authorId: nat, now: int, failing: set<string>)
    returns (createdCount: nat)
    modifies db`posts
    ensures db.posts == old(db.posts) + Created(old(db.posts), plan, authorId, now, failing)
    ensures createdCount == |Created(old(db.posts), plan, authorId, now, failing)|
  {
    createdCount := 0;
    ghost var start := db.posts;
    ghost var done: seq<Post> := [];
    var i := 0;
    assert plan[0..] == plan;
    while i < |plan|
      invariant 0 <= i <= |plan|
      invariant db.posts == start + done && createdCount == |done|
      invariant Created(start, plan, authorId, now, failing) == done + Created(db.posts, plan[i..], authorId, now, failing)
    {
      var file := plan[i];
      assert plan[i..][0] == file && plan[i..][1..] == plan[i + 1..];
      if !HasImageUrl(db.posts, file.imageUrl) && file.filename !in failing {
        var post := NewPost(db.posts, file, authorId, now);
        assert done + Created(db.posts, plan[i..], authorId, now, failing)
          == (done + [post]) + Created(db.posts + [post], plan[i + 1..], authorId, now, failing);
        db.posts := db.posts + [post];
        done := done + [post];
        createdCount := createdCount + 1;
      }
      i := i + 1;
    }
    assert done + [] == done;
  }

  /** `main` from the folder listing on: nothing happens when the folder
      is missing or cannot be read; otherwise each image file is seeded
      in listing order and `createdCount` is the number of posts added.
      `failing` holds the files whose insert fails. */
  method SeedPosts(db: Database, folderReadable: bool, listing: seq<string>, authorId: nat, now: int, failing: set<string>)
    returns (createdCount: nat)
    modifies db`posts
    ensures !folderReadable ==> createdCount == 0 && db.posts == old(db.posts)
    ensures folderReadable ==>
      db.posts == old(db.posts) + Created(old(db.posts), Prepared(ImageFiles(listing)), authorId, now, failing)
    ensures |db.posts| == |old(db.posts)| + createdCount
  {
    createdCount := 0;
    if !folderReadable {
      return;
    }
    var files := ImageFiles(listing);
    if |files| == 0 {
      assert db.posts + [] == db.posts;
      return;
    }
    createdCount := SeedLoop(db, Prepared(files), authorId, now, failing);
  }
}
