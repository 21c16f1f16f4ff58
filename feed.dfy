/** The read side of the post store: the filtered, newest-first, paginated
    feed, and the list of the caller's own posts. */
module Feed {
  import opened Base
  import opened PostSchema
  import opened Text

  // ---------------------------------------------------------------------
  // Filters
  // ---------------------------------------------------------------------

  /** A query parameter the handler treats as "no filter": not sent, empty,
      or the literal text "undefined" that a client sends for a missing value. */
  predicate Unset(s: Option<string>)
  {
    Absent(s) || s.value == "undefined"
  }

  /** The type filter: none when unset, otherwise the named type, and a 400
      when the name is not in the enumeration. */
  function TypeFilter(kind: Option<string>): (r: Result<Option<PostType>>)
    ensures Unset(kind) ==> r == Ok(None)
    ensures !Unset(kind) ==> (r.Ok? <==> ParseType(kind.value).Some?)
    ensures !Unset(kind) && r.Ok? ==> r.value.Some? && TypeName(r.value.value) == kind.value
    ensures r.Err? ==> r.error == BadRequest(InvalidPostType)
  {
    if Unset(kind) then Ok(None)
    else match ParseType(kind.value)
      case None => Err(BadRequest(InvalidPostType))
      case Some(t) => Ok(Some(t))
  }

  /** The location filter: none when unset, otherwise the pattern as sent. */
  function LocationFilter(location: Option<string>): Option<string>
  {
    if Unset(location) then None else location
  }

  datatype Filter = Filter(kind: Option<PostType>, location: Option<string>)

  /** A post passes the filter when it has the requested type and its
      location contains the requested text, ignoring case. A post without a
      location never passes a location filter. */
  predicate Matches(p: Post, f: Filter)
  {
    && (f.kind.Some? ==> p.kind == f.kind.value)
    && (f.location.Some? ==> p.location.Some? && ContainsIgnoringCase(p.location.value, f.location.value))
  }

  /** The posts that `keep` accepts, in store order. */
  function Select(posts: seq<Post>, keep: Post -> bool): (r: seq<Post>)
    ensures |r| <= |posts|
    ensures forall p :: multiset(r)[p] == if keep(p) then multiset(posts)[p] else 0
  {
    if posts == [] then []
    else
      assert posts == [posts[0]] + posts[1..];
      (if keep(posts[0]) then [posts[0]] else []) + Select(posts[1..], keep)
  }

  // ---------------------------------------------------------------------
  // Newest first
  // ---------------------------------------------------------------------

  /** Creation times never increase along `s`. */
  predicate NewestFirstOrdered(s: seq<Post>)
  {
    forall i, j :: 0 <= i < j < |s| ==> s[i].createdAt >= s[j].createdAt
  }

  /** A post no older than the head of a newest-first list can go in front. */
  lemma ConsOrdered(p: Post, s: seq<Post>)
    requires NewestFirstOrdered(s)
    requires s != [] ==> p.createdAt >= s[0].createdAt
    ensures NewestFirstOrdered([p] + s)
  {
    var r := [p] + s;
    forall i, j | 0 <= i < j < |r|
      ensures r[i].createdAt >= r[j].createdAt
    {
      if i == 0 {
        assert r[j] == s[j - 1];
        assert s[0].createdAt >= s[j - 1].createdAt;
      } else {
        assert r[i] == s[i - 1] && r[j] == s[j - 1];
      }
    }
  }

  /** Insert `p` into a newest-first list, in front of the first post that
      is not newer than it. */
  function InsertByTime(p: Post, s: seq<Post>): (r: seq<Post>)
    requires NewestFirstOrdered(s)
    ensures NewestFirstOrdered(r)
    ensures multiset(r) == multiset(s) + multiset{p}
    ensures |r| == |s| + 1 && (r[0] == p || (s != [] && r[0] == s[0]))
    decreases |s|
  {
    if s == [] || s[0].createdAt <= p.createdAt then
      ConsOrdered(p, s);
      [p] + s
    else
      assert s == [s[0]] + s[1..];
      var rest := InsertByTime(p, s[1..]);
      assert rest[0] == p || (|s| > 1 && rest[0] == s[1]);
      ConsOrdered(s[0], rest);
      [s[0]] + rest
  }

  /** The posts sorted by creation time, newest first; posts created at the
      same time keep their store order. */
  function NewestFirst(s: seq<Post>): (r: seq<Post>)
    ensures NewestFirstOrdered(r)
    ensures multiset(r) == multiset(s)
  {
    if s == [] then []
    else
      assert s == [s[0]] + s[1..];
      InsertByTime(s[0], NewestFirst(s[1..]))
  }

  // ---------------------------------------------------------------------
  // Pagination
  // ---------------------------------------------------------------------

  datatype Pagination = Pagination(
    currentPage: nat,
    totalPages: nat,
    totalPosts: nat,
    hasNextPage: bool,
    hasPrevPage: bool)

  datatype FeedPage = FeedPage(posts: seq<Post>, pagination: Pagination)

  function Min(a: nat, b: nat): nat
  {
    if a <= b then a else b
  }

  /** At most `limit` elements of `s`, starting after the first `skip`. */
  function Window(s: seq<Post>, skip: nat, limit: nat): (r: seq<Post>)
    ensures |r| == if skip >= |s| then 0 else Min(limit, |s| - skip)
    ensures forall j :: 0 <= j < |r| ==> r[j] == s[skip + j]
  {
    if skip >= |s| then [] else s[skip..Min(skip + limit, |s|)]
  }

  /** The number of pages of `limit` posts needed for `total` posts. */
  function PageCount(total: nat, limit: nat): nat
    requires limit >= 1
  {
    (total + limit - 1) / limit
  }

  /** The page count is the ceiling of total / limit: enough pages for every
      post, and no page wholly empty. */
  lemma PageCountIsCeiling(total: nat, limit: nat)
    requires limit >= 1
    ensures PageCount(total, limit) * limit >= total
    ensures PageCount(total, limit) >= 1 ==> (PageCount(total, limit) - 1) * limit < total
    ensures PageCount(total, limit) == 0 <==> total == 0
  {
    var q, m := (total + limit - 1) / limit, (total + limit - 1) % limit;
    assert total + limit - 1 == q * limit + m;
    assert q * limit - limit == (q - 1) * limit;
  }

  /** One page of the sorted matching posts, with the metadata the handler
      computes: the skip is (page - 1) * limit, the page count the ceiling,
      a next page when this page and those before it do not reach the total,
      a previous page from page 2 on. */
  function Paginate(sorted: seq<Post>, page: nat, limit: nat): FeedPage
    requires page >= 1 && limit >= 1
  {
    var skip := (page - 1) * limit;
    var items := Window(sorted, skip, limit);
    FeedPage(items, Pagination(page, PageCount(|sorted|, limit), |sorted|,
                               skip + |items| < |sorted|, page > 1))
  }

  /** A page holds at most `limit` posts, all taken from the sorted list and
      still newest first. */
  lemma PageIsSortedSlice(sorted: seq<Post>, page: nat, limit: nat)
    requires page >= 1 && limit >= 1
    requires NewestFirstOrdered(sorted)
    ensures |Paginate(sorted, page, limit).posts| <= limit
    ensures NewestFirstOrdered(Paginate(sorted, page, limit).posts)
    ensures forall p :: p in Paginate(sorted, page, limit).posts ==> p in sorted
  {
    var skip := (page - 1) * limit;
    var items := Paginate(sorted, page, limit).posts;
    assert items == Window(sorted, skip, limit);
    forall i, j | 0 <= i < j < |items|
      ensures items[i].createdAt >= items[j].createdAt
    {
      assert items[i] == sorted[skip + i] && items[j] == sorted[skip + j];
    }
    forall p | p in items
      ensures p in sorted
    {
      var j :| 0 <= j < |items| && items[j] == p;
      assert items[j] == sorted[skip + j];
    }
  }

  lemma MulMonotone(a: nat, b: nat, c: nat)
    requires a <= b
    ensures a * c <= b * c
  {
  }

  /** There is a next page exactly when the pages up to this one hold fewer
      posts than the total, that is, when this is not the last page. */
  lemma HasNextPageIff(sorted: seq<Post>, page: nat, limit: nat)
    requires page >= 1 && limit >= 1
    ensures Paginate(sorted, page, limit).pagination.hasNextPage <==> page * limit < |sorted|
    ensures Paginate(sorted, page, limit).pagination.hasNextPage <==>
              page < Paginate(sorted, page, limit).pagination.totalPages
  {
    var total := |sorted|;
    var q := PageCount(total, limit);
    var skip := (page - 1) * limit;
    assert skip + limit == page * limit;
    PageCountIsCeiling(total, limit);
    if page < q {
      MulMonotone(page, q - 1, limit);
    }
    if page >= q {
      MulMonotone(q, page, limit);
    }
  }

  /** Every matching post is on exactly the page its rank says: post k is
      item k % limit of page k / limit + 1, and that page exists. */
  lemma PageCovers(sorted: seq<Post>, limit: nat, k: nat)
    requires limit >= 1 && k < |sorted|
    ensures k / limit + 1 <= PageCount(|sorted|, limit)
    ensures k % limit < |Paginate(sorted, k / limit + 1, limit).posts|
    ensures Paginate(sorted, k / limit + 1, limit).posts[k % limit] == sorted[k]
  {
    var page := k / limit + 1;
    assert k == (page - 1) * limit + k % limit;
    PageCountIsCeiling(|sorted|, limit);
    var q := PageCount(|sorted|, limit);
    if q < page {
      MulMonotone(q, page - 1, limit);
    }
  }

  // ---------------------------------------------------------------------
  // The feed and the caller's own posts
  // ---------------------------------------------------------------------

  /** The store's posts that pass the filter, in store order. */
  function Matching(posts: seq<Post>, f: Filter): seq<Post>
  {
    Select(posts, (p: Post) => Matches(p, f))
  }

  /** Every post of a page of the sorted matching posts is a store post that
      passes the filter. */
  lemma PageDrawsFromMatches(posts: seq<Post>, f: Filter, page: nat, limit: nat)
    requires page >= 1 && limit >= 1
    ensures forall p :: p in Paginate(NewestFirst(Matching(posts, f)), page, limit).posts ==>
              p in posts && Matches(p, f)
  {
    var matching := Matching(posts, f);
    var sorted := NewestFirst(matching);
    PageIsSortedSlice(sorted, page, limit);
    forall p | p in Paginate(sorted, page, limit).posts
      ensures p in posts && Matches(p, f)
    {
      assert multiset(sorted)[p] > 0;
      assert multiset(matching)[p] > 0;
    }
  }

  /** One page of the feed for a filter that passed its checks; `Query`
      wraps it with the type check. */
  function FilteredPage(posts: seq<Post>, f: Filter, page: nat, limit: nat): (r: FeedPage)
    requires page >= 1 && limit >= 1
    ensures r == Paginate(NewestFirst(Matching(posts, f)), page, limit)
    ensures r.pagination.totalPosts == |Matching(posts, f)|
    ensures r.pagination.totalPages == PageCount(|Matching(posts, f)|, limit)
    ensures r.pagination.currentPage == page
    ensures r.pagination.hasNextPage <==> page * limit < |Matching(posts, f)|
    ensures r.pagination.hasPrevPage <==> page > 1
    ensures |r.posts| <= limit && NewestFirstOrdered(r.posts)
    ensures forall p :: p in r.posts ==> p in posts && Matches(p, f)
  {
    var sorted := NewestFirst(Matching(posts, f));
    assert |multiset(sorted)| == |multiset(Matching(posts, f))|;
    PageIsSortedSlice(sorted, page, limit);
    HasNextPageIff(sorted, page, limit);
    PageDrawsFromMatches(posts, f, page, limit);
    Paginate(sorted, page, limit)
  }

  /** The feed query: check the type filter, select the matching posts, sort
      them newest first, cut out the requested page. The total is counted
      with the same filter as the page. */
  function Query(posts: seq<Post>, kind: Option<string>, location: Option<string>,
                 page: nat, limit: nat): (r: Result<FeedPage>)
    requires page >= 1 && limit >= 1
    ensures r.Err? <==> TypeFilter(kind).Err?
    ensures r.Err? ==> r.error == BadRequest(InvalidPostType)
    ensures r.Ok? ==>
              var f := Filter(TypeFilter(kind).value, LocationFilter(location));
              var total := |Matching(posts, f)|;
              && r.value == Paginate(NewestFirst(Matching(posts, f)), page, limit)
              && r.value.pagination.totalPosts == total
              && r.value.pagination.totalPages == PageCount(total, limit)
              && r.value.pagination.currentPage == page
              && (r.value.pagination.hasNextPage <==> page * limit < total)
              && (r.value.pagination.hasPrevPage <==> page > 1)
              && |r.value.posts| <= limit
              && NewestFirstOrdered(r.value.posts)
              && forall p :: p in r.value.posts ==> p in posts && Matches(p, f)
  {
    match TypeFilter(kind)
    case Err(e) => Err(e)
    case Ok(k) => Ok(FilteredPage(posts, Filter(k, LocationFilter(location)), page, limit))
  }

  /** The caller's own posts, newest first: every post they authored, with
      its multiplicity, and nothing else. */
  function AuthorPosts(posts: seq<Post>, author: UserId): (r: seq<Post>)
    ensures NewestFirstOrdered(r)
    ensures forall p :: multiset(r)[p] == if p.author == author then multiset(posts)[p] else 0
  {
    NewestFirst(Select(posts, (p: Post) => p.author == author))
  }

  /** A store holding a single post: the feed filtered by its own type
      shows it as the only post of the only page. */
  lemma SinglePostFeed(p: Post, limit: nat)
    requires limit >= 1
    ensures Query([p], Some(TypeName(p.kind)), None, 1, limit) ==
            Ok(FeedPage([p], Pagination(1, 1, 1, false, false)))
  {
    ParseTypeName(p.kind);
    assert TypeFilter(Some(TypeName(p.kind))) == Ok(Some(p.kind));
    assert LocationFilter(None) == None;
    assert Matches(p, Filter(Some(p.kind), None));
    forall keep: Post -> bool | keep(p)
      ensures Select([p], keep) == [p]
    {
      assert [p][1..] == [];
    }
    assert NewestFirst([p]) == [p] by {
      assert [p][1..] == [];
    }
    assert PageCount(1, limit) == 1;
    assert Window([p], 0, limit) == [p];
  }
}
