/** In-memory tables: a table is a sequence of rows in insertion order.
    These are the query shapes the services issue (where-filters, counts,
    find-first, update-where, delete-where, order-by, skip/take). */
module Tables {
  import opened Wrappers

  /** Rows satisfying `p`, in table order (`findMany({ where })`). */
  function Filter<T(!new)>(s: seq<T>, p: T -> bool): (r: seq<T>)
    ensures |r| <= |s|
    ensures forall x :: x in r <==> x in s && p(x)
    ensures forall i :: 0 <= i < |r| ==> p(r[i])
    ensures (forall i :: 0 <= i < |s| ==> p(s[i])) ==> r == s
  {
    if |s| == 0 then []
    else if p(s[0]) then [s[0]] + Filter(s[1..], p)
    else Filter(s[1..], p)
  }

  /** Nothing is filtered out exactly when every row satisfies `p`. */
  lemma {:induction false} FilterKeepsAll<T(!new)>(s: seq<T>, p: T -> bool)
    ensures |Filter(s, p)| == |s| <==> forall i :: 0 <= i < |s| ==> p(s[i])
  {
    if |s| > 0 {
      FilterKeepsAll(s[1..], p);
      assert forall i :: 1 <= i < |s| ==> s[i] == s[1..][i - 1];
    }
  }

  /** `count({ where })`. */
  function Count<T(!new)>(s: seq<T>, p: T -> bool): nat {
    |Filter(s, p)|
  }

  /** Filtering distributes over concatenation. */
  lemma {:induction false} FilterAppend<T(!new)>(a: seq<T>, b: seq<T>, p: T -> bool)
    ensures Filter(a + b, p) == Filter(a, p) + Filter(b, p)
  {
    if |a| > 0 {
      assert (a + b)[1..] == a[1..] + b;
      FilterAppend(a[1..], b, p);
    } else {
      assert a + b == b;
    }
  }

  /** Appending one row adds one to the count when it satisfies `p`. */
  lemma CountSnoc<T(!new)>(s: seq<T>, x: T, p: T -> bool)
    ensures Count(s + [x], p) == Count(s, p) + (if p(x) then 1 else 0)
  {
    FilterAppend(s, [x], p);
    assert Filter([x], p) == if p(x) then [x] else [];
  }

  /** Removing the row at `i` takes one from the count when it satisfies `p`. */
  lemma CountRemoveAt<T(!new)>(s: seq<T>, i: nat, p: T -> bool)
    requires i < |s|
    ensures Count(s[..i] + s[i + 1..], p) == Count(s, p) - (if p(s[i]) then 1 else 0)
  {
    assert s == s[..i] + [s[i]] + s[i + 1..];
    FilterAppend(s[..i] + [s[i]], s[i + 1..], p);
    FilterAppend(s[..i], [s[i]], p);
    FilterAppend(s[..i], s[i + 1..], p);
    assert Filter([s[i]], p) == if p(s[i]) then [s[i]] else [];
  }

  /** No row satisfies `p` exactly when the count is zero. */
  lemma CountZero<T(!new)>(s: seq<T>, p: T -> bool)
    ensures Count(s, p) == 0 <==> forall x :: x in s ==> !p(x)
  {
    if Count(s, p) != 0 {
      assert Filter(s, p)[0] in Filter(s, p);
    }
  }

  /** The first row satisfying `p` (`findFirst`, or `findUnique` on a key). */
  function FindFirst<T(!new)>(s: seq<T>, p: T -> bool): (r: Option<T>)
    ensures r.Some? ==> r.value in s && p(r.value)
    ensures r.None? <==> forall x :: x in s ==> !p(x)
  {
    if |s| == 0 then None
    else if p(s[0]) then Some(s[0])
    else FindFirst(s[1..], p)
  }

  /** `updateMany({ where: p, data })`: rows satisfying `p` become `f(row)`. */
  function UpdateWhere<T>(s: seq<T>, p: T -> bool, f: T -> T): (r: seq<T>)
    ensures |r| == |s|
    ensures forall i :: 0 <= i < |s| ==> r[i] == (if p(s[i]) then f(s[i]) else s[i])
  {
    if |s| == 0 then [] else [if p(s[0]) then f(s[0]) else s[0]] + UpdateWhere(s[1..], p, f)
  }

  /** An update that keeps its rows matching `p` leaves the first match
      first: looking it up again finds the updated row. */
  lemma {:induction false} FindFirstAfterUpdate<T(!new)>(s: seq<T>, p: T -> bool, f: T -> T)
    requires forall x :: x in s && p(x) ==> p(f(x))
    requires FindFirst(s, p).Some?
    ensures FindFirst(UpdateWhere(s, p, f), p) == Some(f(FindFirst(s, p).value))
  {
    var r := UpdateWhere(s, p, f);
    assert r[1..] == UpdateWhere(s[1..], p, f);
    if !p(s[0]) {
      assert r[0] == s[0];
      FindFirstAfterUpdate(s[1..], p, f);
    }
  }

  /** `deleteMany({ where: p })`: keeps the rows not satisfying `p`. */
  function DeleteWhere<T(!new)>(s: seq<T>, p: T -> bool): (r: seq<T>)
    ensures forall x :: x in r <==> x in s && !p(x)
    ensures |r| + Count(s, p) == |s|
  {
    if |s| == 0 then []
    else if p(s[0]) then DeleteWhere(s[1..], p)
    else [s[0]] + DeleteWhere(s[1..], p)
  }

  /** Deleting where exactly one row, the one at `i`, satisfies `p` removes
      just that row. */
  lemma {:induction false} DeleteWhereSingle<T(!new)>(s: seq<T>, p: T -> bool, i: nat)
    requires i < |s| && p(s[i])
    requires forall j :: 0 <= j < |s| && j != i ==> !p(s[j])
    ensures DeleteWhere(s, p) == s[..i] + s[i + 1..]
  {
    var tail := s[1..];
    if i == 0 {
      TailNone(s, p, 0);
      DeleteWhereNone(tail, p);
    } else {
      TailNone(s, p, i);
      DeleteWhereSingle(tail, p, i - 1);
      DeleteWhereKeepsHead(s, p, tail[..i - 1] + tail[i..]);
      SpliceAfterHead(s, i);
    }
  }

  lemma SpliceAfterHead<T>(s: seq<T>, i: nat)
    requires 0 < i < |s|
    ensures [s[0]] + (s[1..][..i - 1] + s[1..][i..]) == s[..i] + s[i + 1..]
  {
    assert s[1..][..i - 1] == s[1..i] && s[1..][i..] == s[i + 1..];
    assert s[..i] == [s[0]] + s[1..i];
  }

  lemma TailNone<T>(s: seq<T>, p: T -> bool, i: nat)
    requires i < |s|
    requires forall j :: 0 <= j < |s| && j != i ==> !p(s[j])
    ensures i > 0 ==> !p(s[0])
    ensures forall j :: 0 <= j < |s| - 1 && j + 1 != i ==> !p(s[1..][j])
  {
  }

  lemma DeleteWhereKeepsHead<T(!new)>(s: seq<T>, p: T -> bool, rest: seq<T>)
    requires |s| > 0 && !p(s[0]) && DeleteWhere(s[1..], p) == rest
    ensures DeleteWhere(s, p) == [s[0]] + rest
  {
  }

  /** Deleting where no row satisfies `p` changes nothing. */
  lemma {:induction false} DeleteWhereNone<T(!new)>(s: seq<T>, p: T -> bool)
    requires forall j :: 0 <= j < |s| ==> !p(s[j])
    ensures DeleteWhere(s, p) == s
  {
    if |s| > 0 {
      assert forall j :: 0 <= j < |s[1..]| ==> !p(s[1..][j]);
      DeleteWhereNone(s[1..], p);
    }
  }

  /** The offset of page `page` (counted from 1) of `limit` rows. */
  function Skip(page: int, limit: int): int {
    (page - 1) * limit
  }

  /** `skip`/`take` on an ordered result, as Prisma reads them. A take of
      `n >= 0` gives the `n` rows after the first `skip`; a negative take
      counts from the end: it gives the `-take` rows that come before the
      last `skip`. A window past either end is empty or cut short. */
  function Window<T>(s: seq<T>, skip: nat, take: int): (r: seq<T>)
    ensures skip >= |s| ==> r == []
    ensures take >= 0 ==> |r| <= take
    ensures take >= 0 && skip + take <= |s| ==> |r| == take
    ensures take >= 0 && skip < |s| < skip + take ==> |r| == |s| - skip
    ensures take >= 0 ==> forall i :: 0 <= i < |r| ==> skip + i < |s| && r[i] == s[skip + i]
    ensures take < 0 ==> |r| <= -take
    ensures take < 0 && skip - take <= |s| ==> |r| == -take
    ensures take < 0 && skip < |s| < skip - take ==> |r| == |s| - skip
    ensures take < 0 ==> forall i :: 0 <= i < |r| ==> 0 <= |s| - skip - |r| + i && r[i] == s[|s| - skip - |r| + i]
  {
    if skip >= |s| then []
    else if take >= 0 then
      if skip + take <= |s| then s[skip..skip + take] else s[skip..]
    else
      var end := |s| - skip;
      if end + take >= 0 then s[end + take..end] else s[..end]
  }

  /** Prisma's `skip`/`take` page of `rows`: it holds `|take|` rows, or
      as many as remain once `skip` rows are passed over. A non-negative
      take reads them from the front after the first `skip` rows; a
      negative take reads them from the back, ending just before the last
      `skip` rows. */
  ghost predicate IsPage<T>(page: seq<T>, rows: seq<T>, skip: nat, take: int) {
    var want := if take >= 0 then take else -take;
    |page| == (if skip >= |rows| then 0 else if want <= |rows| - skip then want else |rows| - skip)
    && (take >= 0 ==> forall i :: 0 <= i < |page| ==> skip + i < |rows| && page[i] == rows[skip + i])
    && (take < 0 ==> forall i :: 0 <= i < |page| ==>
                       0 <= |rows| - skip - |page| + i < |rows| && page[i] == rows[|rows| - skip - |page| + i])
  }

  /** Every row of a page is a row of what was paged. */
  lemma PageIndex<T>(page: seq<T>, rows: seq<T>, skip: nat, take: int, i: nat) returns (k: nat)
    requires IsPage(page, rows, skip, take) && i < |page|
    ensures k < |rows| && page[i] == rows[k]
  {
    k := if take >= 0 then skip + i else |rows| - skip - |page| + i;
  }

  /** The window is the page Prisma returns. */
  lemma WindowIsPage<T>(s: seq<T>, skip: nat, take: int)
    ensures IsPage(Window(s, skip, take), s, skip, take)
  {
  }

  /** Mapping every row the same way commutes with paging: when `page`
      renders the window of `rows` as `views` renders `rows` itself, `page`
      is the page of `views`. */
  lemma PageOfMapped<T, U>(page: seq<U>, views: seq<U>, rows: seq<T>, skip: nat, take: int)
    requires |views| == |rows| && |page| == |Window(rows, skip, take)|
    requires forall i, j :: 0 <= i < |page| && 0 <= j < |rows| && Window(rows, skip, take)[i] == rows[j] ==> page[i] == views[j]
    ensures IsPage(page, views, skip, take)
  {
    WindowIsPage(rows, skip, take);
    if take >= 0 {
      PageOfMappedFront(page, views, rows, Window(rows, skip, take), skip, take);
    } else {
      PageOfMappedBack(page, views, rows, Window(rows, skip, take), skip, take);
    }
  }

  /** `PageOfMapped` for a page read from the front. */
  lemma PageOfMappedFront<T, U>(page: seq<U>, views: seq<U>, rows: seq<T>, w: seq<T>, skip: nat, take: int)
    requires take >= 0 && IsPage(w, rows, skip, take)
    requires |views| == |rows| && |page| == |w|
    requires forall i, j :: 0 <= i < |page| && 0 <= j < |rows| && w[i] == rows[j] ==> page[i] == views[j]
    ensures IsPage(page, views, skip, take)
  {
    forall i | 0 <= i < |page|
      ensures skip + i < |views| && page[i] == views[skip + i]
    {
      assert w[i] == rows[skip + i];
    }
  }

  /** `PageOfMapped` for a page read from the back. */
  lemma PageOfMappedBack<T, U>(page: seq<U>, views: seq<U>, rows: seq<T>, w: seq<T>, skip: nat, take: int)
    requires take < 0 && IsPage(w, rows, skip, take)
    requires |views| == |rows| && |page| == |w|
    requires forall i, j :: 0 <= i < |page| && 0 <= j < |rows| && w[i] == rows[j] ==> page[i] == views[j]
    ensures IsPage(page, views, skip, take)
  {
    forall i | 0 <= i < |page|
      ensures 0 <= |views| - skip - |page| + i < |views| && page[i] == views[|views| - skip - |page| + i]
    {
      assert w[i] == rows[|rows| - skip - |w| + i];
    }
  }

  /** `s` back to front. */
  function Reversed<T>(s: seq<T>): (r: seq<T>)
    ensures |r| == |s|
  {
    if |s| == 0 then [] else Reversed(s[1..]) + [s[0]]
  }

  /** Position `i` of the reversed rows is position `|s| - 1 - i` of the
      rows. */
  lemma {:induction false} ReversedAt<T>(s: seq<T>, i: nat)
    requires i < |s|
    ensures Reversed(s)[i] == s[|s| - 1 - i]
  {
    if i < |s| - 1 {
      ReversedAt(s[1..], i);
    }
  }

  /** A negative take is the positive take on the reversed order, turned
      back round: Prisma flips the `orderBy`, skips and takes, and flips the
      rows it got. */
  lemma WindowFromEnd<T>(s: seq<T>, skip: nat, take: int)
    requires take < 0
    ensures Window(s, skip, take) == Reversed(Window(Reversed(s), skip, -take))
  {
    var r := Window(s, skip, take);
    var rw := Reversed(Window(Reversed(s), skip, -take));
    assert |r| == |rw|;
    forall j | 0 <= j < |r|
      ensures r[j] == rw[j]
    {
      WindowFromEndAt(s, skip, take, j);
    }
  }

  /** One position of `WindowFromEnd`. */
  lemma WindowFromEndAt<T>(s: seq<T>, skip: nat, take: int, j: nat)
    requires take < 0 && j < |Window(s, skip, take)|
    ensures j < |Reversed(Window(Reversed(s), skip, -take))|
    ensures Window(s, skip, take)[j] == Reversed(Window(Reversed(s), skip, -take))[j]
  {
    var r := Window(s, skip, take);
    var rs := Reversed(s);
    var w := Window(rs, skip, -take);
    assert |r| == |w|;
    var k := skip + |w| - 1 - j;
    ReversedAt(w, j);
    assert w[|w| - 1 - j] == rs[k];
    ReversedAt(s, k);
  }

  /** A window of an ordered result keeps the order and holds rows of the
      result only. */
  lemma WindowOfSorted<T>(s: seq<T>, skip: nat, take: int, le: (T, T) -> bool)
    requires SortedBy(s, le)
    ensures SortedBy(Window(s, skip, take), le)
    ensures forall x :: x in Window(s, skip, take) ==> x in multiset(s)
  {
    var w := Window(s, skip, take);
    var off := if take >= 0 then skip else |s| - skip - |w|;
    assert forall i :: 0 <= i < |w| ==> 0 <= off + i < |s| && w[i] == s[off + i];
    forall i, j | 0 <= i < j < |w|
      ensures le(w[i], w[j])
    {
      assert w[i] == s[off + i] && w[j] == s[off + j];
    }
    forall x | x in w
      ensures x in multiset(s)
    {
      var k :| 0 <= k < |w| && w[k] == x;
      assert s[off + k] in s;
    }
  }

  /** `le` is a total preorder: any two rows compare, and comparisons chain. */
  ghost predicate TotalPreorder<T(!new)>(le: (T, T) -> bool) {
    (forall a, b :: le(a, b) || le(b, a))
    && (forall a, b, c :: le(a, b) && le(b, c) ==> le(a, c))
  }

  ghost predicate SortedBy<T>(s: seq<T>, le: (T, T) -> bool) {
    forall i, j :: 0 <= i < j < |s| ==> le(s[i], s[j])
  }

  function Insert<T>(x: T, s: seq<T>, le: (T, T) -> bool): (r: seq<T>)
    ensures multiset(r) == multiset(s) + multiset{x}
    ensures |r| == |s| + 1
  {
    if |s| == 0 then [x]
    else if le(x, s[0]) then [x] + s
    else
      assert s == [s[0]] + s[1..];
      [s[0]] + Insert(x, s[1..], le)
  }

  lemma {:induction false} InsertSorted<T(!new)>(x: T, s: seq<T>, le: (T, T) -> bool)
    requires TotalPreorder(le) && SortedBy(s, le)
    ensures SortedBy(Insert(x, s, le), le)
  {
    if |s| > 0 && !le(x, s[0]) {
      var tail := Insert(x, s[1..], le);
      InsertSorted(x, s[1..], le);
      assert tail[0] == x || tail[0] == s[1];
      forall j | 0 < j < |tail| + 1
        ensures le(s[0], ([s[0]] + tail)[j])
      {
        var y := tail[j - 1];
        assert y in multiset(tail);
        assert y in multiset(s[1..]) + multiset{x};
        if y in multiset(s[1..]) {
          var k :| 0 <= k < |s[1..]| && s[1..][k] == y;
          assert le(s[0], s[k + 1]);
        } else {
          assert y == x;
        }
      }
    }
  }

  /** `orderBy` via a comparison: a sorted permutation of the rows. */
  function SortBy<T(!new)>(s: seq<T>, le: (T, T) -> bool): (r: seq<T>)
    requires TotalPreorder(le)
    ensures multiset(r) == multiset(s)
    ensures |r| == |s|
    ensures SortedBy(r, le)
  {
    if |s| == 0 then []
    else
      var t := SortBy(s[1..], le);
      InsertSorted(s[0], t, le);
      assert s == [s[0]] + s[1..];
      Insert(s[0], t, le)
  }
}
