/** The post store and the three request handlers that change it: create a
    post (with image uploads), toggle a like, append a comment. */
module Posts {
  import opened Base
  import opened PostSchema

  /** The multipart middleware accepts at most this many image files. */
  const MaxImages := 5

  // ---------------------------------------------------------------------
  // Likes: the specification of the toggle
  // ---------------------------------------------------------------------

  /** `user` has a like in `likes`. */
  predicate HasLiked(likes: seq<Like>, user: UserId)
  {
    exists j :: 0 <= j < |likes| && likes[j].user == user
  }

  /** No user has two likes on one post. The schema does not require this;
      the toggle handler keeps it. */
  predicate OneLikePerUser(likes: seq<Like>)
  {
    forall i, j :: 0 <= i < j < |likes| ==> likes[i].user != likes[j].user
  }

  /** Index of the first like by `user`, or -1 when there is none. */
  function LikeIndex(likes: seq<Like>, user: UserId): (i: int)
    ensures -1 <= i < |likes|
    ensures 0 <= i ==> likes[i].user == user && forall j :: 0 <= j < i ==> likes[j].user != user
    ensures i == -1 ==> forall j :: 0 <= j < |likes| ==> likes[j].user != user
  {
    if |likes| == 0 then -1
    else if likes[0].user == user then 0
    else
      var k := LikeIndex(likes[1..], user);
      if k == -1 then -1 else k + 1
  }

  /** The like list after `user` toggles: their first like is cut out if
      there is one, otherwise a like stamped `now` goes on the end. */
  function Toggled(likes: seq<Like>, user: UserId, now: Time): seq<Like>
  {
    var i := LikeIndex(likes, user);
    if 0 <= i then likes[..i] + likes[i + 1..] else likes + [Like(user, now)]
  }

  /** The likes by `user`, in list order. */
  function LikesBy(likes: seq<Like>, user: UserId): seq<Like>
  {
    if likes == [] then []
    else (if likes[0].user == user then [likes[0]] else []) + LikesBy(likes[1..], user)
  }

  lemma {:induction false} LikesByAppend(a: seq<Like>, b: seq<Like>, user: UserId)
    ensures LikesBy(a + b, user) == LikesBy(a, user) + LikesBy(b, user)
  {
    if a != [] {
      assert (a + b)[0] == a[0] && (a + b)[1..] == a[1..] + b;
      LikesByAppend(a[1..], b, user);
    } else {
      assert a + b == b;
    }
  }

  /** Toggling changes the count by exactly one: down when the user had
      liked, up when they had not. */
  lemma ToggleCount(likes: seq<Like>, user: UserId, now: Time)
    ensures HasLiked(likes, user) ==> |Toggled(likes, user, now)| == |likes| - 1
    ensures !HasLiked(likes, user) ==> |Toggled(likes, user, now)| == |likes| + 1
  {
  }

  /** With at most one like per user, a toggle flips whether the user likes the post. */
  lemma ToggleFlips(likes: seq<Like>, user: UserId, now: Time)
    requires OneLikePerUser(likes)
    ensures HasLiked(Toggled(likes, user, now), user) <==> !HasLiked(likes, user)
  {
    var i := LikeIndex(likes, user);
    var t := Toggled(likes, user, now);
    if 0 <= i {
      assert HasLiked(likes, user) by { assert likes[i].user == user; }
      forall k | 0 <= k < |t|
        ensures t[k].user != user
      {
        if k < i {
          assert t[k] == likes[k];
        } else {
          assert t[k] == likes[k + 1] && likes[i].user != likes[k + 1].user;
        }
      }
    } else {
      assert t[|t| - 1].user == user;
    }
  }

  /** A toggle keeps the list free of duplicate likers. */
  lemma TogglePreservesOneLikePerUser(likes: seq<Like>, user: UserId, now: Time)
    requires OneLikePerUser(likes)
    ensures OneLikePerUser(Toggled(likes, user, now))
  {
    var i := LikeIndex(likes, user);
    var t := Toggled(likes, user, now);
    if 0 <= i {
      forall a, b | 0 <= a < b < |t|
        ensures t[a].user != t[b].user
      {
        var a' := if a < i then a else a + 1;
        var b' := if b < i then b else b + 1;
        assert t[a] == likes[a'] && t[b] == likes[b'];
      }
    }
  }

  /** A toggle by `user` leaves every other user's likes as they were. */
  lemma ToggleKeepsOtherLikes(likes: seq<Like>, user: UserId, now: Time, other: UserId)
    requires other != user
    ensures LikesBy(Toggled(likes, user, now), other) == LikesBy(likes, other)
  {
    var i := LikeIndex(likes, user);
    if 0 <= i {
      var before, after := likes[..i], likes[i + 1..];
      var rest := [likes[i]] + after;
      assert likes == before + rest;
      assert rest[1..] == after;
      assert LikesBy(rest, other) == LikesBy(after, other);
      LikesByAppend(before, rest, other);
      LikesByAppend(before, after, other);
    } else {
      var added := [Like(user, now)];
      assert added[1..] == [];
      assert LikesBy(added, other) == [];
      LikesByAppend(likes, added, other);
    }
  }

  /** Two toggles by the same user: from "not liked" they restore the list
      exactly; in every case, given one like per user, they restore the count
      and whether the user likes the post. */
  lemma ToggleTwice(likes: seq<Like>, user: UserId, t1: Time, t2: Time)
    ensures !HasLiked(likes, user) ==> Toggled(Toggled(likes, user, t1), user, t2) == likes
    ensures OneLikePerUser(likes) ==>
              |Toggled(Toggled(likes, user, t1), user, t2)| == |likes| &&
              (HasLiked(Toggled(Toggled(likes, user, t1), user, t2), user) <==> HasLiked(likes, user))
  {
    var once := Toggled(likes, user, t1);
    if !HasLiked(likes, user) {
      assert once == likes + [Like(user, t1)];
      assert forall j :: 0 <= j < |likes| ==> once[j] == likes[j];
      assert once[|likes|].user == user;
      assert LikeIndex(once, user) == |likes|;
      assert once[..|likes|] == likes;
    }
    if OneLikePerUser(likes) {
      ToggleCount(likes, user, t1);
      ToggleFlips(likes, user, t1);
      TogglePreservesOneLikePerUser(likes, user, t1);
      ToggleCount(once, user, t2);
      ToggleFlips(once, user, t2);
    }
  }

  /** `users` toggle one after another, all at time `now`. */
  function ToggleInTurn(likes: seq<Like>, users: seq<UserId>, now: Time): seq<Like>
    decreases |users|
  {
    if users == [] then likes else ToggleInTurn(Toggled(likes, users[0], now), users[1..], now)
  }

  /** Distinct users who had not liked the post each toggle once: each gets
      exactly one like, in turn order, and the count grows by their number. */
  lemma {:induction false} DistinctLikersEachAddOne(likes: seq<Like>, users: seq<UserId>, now: Time)
    requires OneLikePerUser(likes)
    requires forall a, b :: 0 <= a < b < |users| ==> users[a] != users[b]
    requires forall k :: 0 <= k < |users| ==> !HasLiked(likes, users[k])
    ensures |ToggleInTurn(likes, users, now)| == |likes| + |users|
    ensures ToggleInTurn(likes, users, now)[..|likes|] == likes
    ensures forall k :: 0 <= k < |users| ==> ToggleInTurn(likes, users, now)[|likes| + k] == Like(users[k], now)
    ensures OneLikePerUser(ToggleInTurn(likes, users, now))
    decreases |users|
  {
    if users != [] {
      var u := users[0];
      var next := Toggled(likes, u, now);
      assert next == likes + [Like(u, now)];
      TogglePreservesOneLikePerUser(likes, u, now);
      forall k | 0 <= k < |users[1..]|
        ensures !HasLiked(next, users[1..][k])
      {
        assert users[1..][k] == users[k + 1] && users[k + 1] != u;
        assert forall j :: 0 <= j < |likes| ==> next[j] == likes[j];
      }
      DistinctLikersEachAddOne(next, users[1..], now);
      var result := ToggleInTurn(likes, users, now);
      assert result == ToggleInTurn(next, users[1..], now);
      assert result[..|likes|] == likes by {
        assert result[..|next|][..|likes|] == result[..|likes|];
      }
      forall k | 0 <= k < |users|
        ensures result[|likes| + k] == Like(users[k], now)
      {
        if k == 0 {
          assert result[..|next|][|likes|] == next[|likes|];
        } else {
          assert result[|next| + (k - 1)] == Like(users[1..][k - 1], now);
        }
      }
    }
  }

  // ---------------------------------------------------------------------
  // Validation of request bodies
  // ---------------------------------------------------------------------

  /** The body checks of the create handler, in the order it makes them:
      both fields present, content length, type membership. */
  function ValidateNewPost(content: Option<string>, kind: Option<string>): (r: Result<(string, PostType)>)
    ensures r.Ok? <==> (!Absent(content) && |content.value| <= MaxContentLength &&
                        !Absent(kind) && ParseType(kind.value).Some?)
    ensures r.Ok? ==> r.value.0 == content.value && TypeName(r.value.1) == kind.value
    ensures Absent(content) || Absent(kind) ==> r == Err(BadRequest(ContentAndTypeRequired))
    ensures !Absent(content) && !Absent(kind) && |content.value| > MaxContentLength ==>
              r == Err(BadRequest(ContentTooLong))
    ensures (!Absent(content) && !Absent(kind) && |content.value| <= MaxContentLength &&
             ParseType(kind.value).None?) ==> r == Err(BadRequest(InvalidPostType))
  {
    if Absent(content) || Absent(kind) then Err(BadRequest(ContentAndTypeRequired))
    else if |content.value| > MaxContentLength then Err(BadRequest(ContentTooLong))
    else match ParseType(kind.value)
      case None => Err(BadRequest(InvalidPostType))
      case Some(t) => Ok((content.value, t))
  }

  /** The body check of the comment handler. */
  function ValidateComment(content: Option<string>): (r: Result<string>)
    ensures r.Ok? <==> !Absent(content) && |content.value| <= MaxCommentLength
    ensures r.Ok? ==> r.value == content.value && CommentConforms(Comment(0, r.value, 0))
    ensures Absent(content) ==> r == Err(BadRequest(CommentRequired))
    ensures !Absent(content) && |content.value| > MaxCommentLength ==> r == Err(BadRequest(CommentTooLong))
  {
    if Absent(content) then Err(BadRequest(CommentRequired))
    else if |content.value| > MaxCommentLength then Err(BadRequest(CommentTooLong))
    else Ok(content.value)
  }

  // ---------------------------------------------------------------------
  // Image uploads
  // ---------------------------------------------------------------------

  predicate AllUploaded(files: seq<Upload>)
  {
    forall k :: 0 <= k < |files| ==> files[k].Uploaded?
  }

  /** `urls` are the locations the uploader returned, one per file, in file order. */
  predicate UploadedInOrder(urls: seq<Url>, files: seq<Upload>)
  {
    |urls| == |files| && forall k :: 0 <= k < |files| ==> files[k] == Uploaded(urls[k])
  }

  /** Uploads the files one after another, collecting their URLs; the first
      failure ends the request with a server error. */
  method UploadImages(files: seq<Upload>) returns (r: Result<seq<Url>>)
    ensures r.Ok? <==> AllUploaded(files)
    ensures r.Ok? ==> UploadedInOrder(r.value, files)
    ensures r.Err? ==> r.error == ServerError(ImageUploadFailed)
  {
    var urls: seq<Url> := [];
    for k := 0 to |files|
      invariant |urls| == k
      invariant forall j :: 0 <= j < k ==> files[j] == Uploaded(urls[j])
    {
      match files[k]
      case UploadFailed =>
        return Err(ServerError(ImageUploadFailed));
      case Uploaded(location) =>
        urls := urls + [location];
    }
    return Ok(urls);
  }

  // ---------------------------------------------------------------------
  // The store
  // ---------------------------------------------------------------------

  /** What every stored post satisfies: the schema, the upload limit, and
      one like per user. */
  predicate Stored(p: Post)
  {
    PostConforms(p) && |p.images| <= MaxImages && OneLikePerUser(p.likes)
  }

  /** `p` is the post the create handler saves for these inputs. */
  predicate IsCreated(p: Post, id: PostId, author: UserId, content: string, kind: string,
                      location: Option<string>, files: seq<Upload>, now: Time)
  {
    && p.id == id && p.author == author
    && p.content == content && TypeName(p.kind) == kind
    && p.location == location
    && UploadedInOrder(p.images, files)
    && p.likes == [] && p.comments == []
    && p.createdAt == now && p.updatedAt == now
  }

  /** The answer of the like handler. */
  datatype LikeState = LikeState(liked: bool, likesCount: nat)

  /** All posts, in insertion order; a post's id is its position. */
  class PostStore {
    var posts: seq<Post>

    ghost predicate Valid()
      reads this
    {
      forall i :: 0 <= i < |posts| ==> posts[i].id == i && Stored(posts[i])
    }

    constructor ()
      ensures Valid() && posts == []
    {
      posts := [];
    }

    /** Create a post: too many files are refused before the handler runs;
        then the body checks; then every upload must succeed; only then is
        the post saved. Every failure leaves the store unchanged. */
    method Create(author: UserId, content: Option<string>, kind: Option<string>,
                  location: Option<string>, files: seq<Upload>, now: Time)
      returns (r: Result<PostId>)
      requires Valid()
      modifies this
      ensures Valid()
      ensures |files| > MaxImages ==> r == Err(ServerError(TooManyImages))
      ensures |files| <= MaxImages && ValidateNewPost(content, kind).Err? ==>
                r == Err(ValidateNewPost(content, kind).error)
      ensures |files| <= MaxImages && ValidateNewPost(content, kind).Ok? && !AllUploaded(files) ==>
                r == Err(ServerError(ImageUploadFailed))
      ensures r.Ok? <==> |files| <= MaxImages && ValidateNewPost(content, kind).Ok? && AllUploaded(files)
      ensures r.Err? ==> posts == old(posts)
      ensures r.Ok? ==>
                && r.value == |old(posts)|
                && |posts| == r.value + 1 && posts[..r.value] == old(posts)
                && IsCreated(posts[r.value], r.value, author, content.value, kind.value, location, files, now)
    {
      if |files| > MaxImages {
        return Err(ServerError(TooManyImages));
      }
      var checked := ValidateNewPost(content, kind);
      if checked.Err? {
        return Err(checked.error);
      }
      var uploaded := UploadImages(files);
      if uploaded.Err? {
        return Err(uploaded.error);
      }
      var id := |posts|;
      var post := Post(id, author, checked.value.0, checked.value.1, location, uploaded.value, [], [], now, now);
      posts := posts + [post];
      r := Ok(id);
    }

    /** Toggle `user`'s like on a post. A missing post is a 404 and changes
        nothing; otherwise only that post's likes and update time change, and
        the answer reports whether the user now likes it and the new count. */
    method ToggleLike(postId: PostId, user: UserId, now: Time) returns (r: Result<LikeState>)
      requires Valid()
      modifies this
      ensures Valid()
      ensures postId >= |old(posts)| ==> r == Err(NotFound(PostNotFound)) && posts == old(posts)
      ensures postId < |old(posts)| ==>
                && posts == old(posts)[postId := old(posts)[postId].(
                     likes := Toggled(old(posts)[postId].likes, user, now), updatedAt := now)]
                && r == Ok(LikeState(HasLiked(posts[postId].likes, user), |posts[postId].likes|))
    {
      if postId >= |posts| {
        return Err(NotFound(PostNotFound));
      }
      var post := posts[postId];
      var i := LikeIndex(post.likes, user);
      var likes: seq<Like>;
      var liked: bool;
      if i > -1 {
        likes := post.likes[..i] + post.likes[i + 1..];
        liked := false;
      } else {
        likes := post.likes + [Like(user, now)];
        liked := true;
      }
      assert likes == Toggled(post.likes, user, now);
      ToggleFlips(post.likes, user, now);
      TogglePreservesOneLikePerUser(post.likes, user, now);
      posts := posts[postId := post.(likes := likes, updatedAt := now)];
      r := Ok(LikeState(liked, |likes|));
    }

    /** Append a comment. The body is checked before the post is looked up;
        a missing post is a 404; on success the comment goes on the end, the
        earlier comments stay as they were, and the new last comment is
        returned. */
    method AddComment(postId: PostId, user: UserId, content: Option<string>, now: Time)
      returns (r: Result<Comment>)
      requires Valid()
      modifies this
      ensures Valid()
      ensures ValidateComment(content).Err? ==> r == Err(ValidateComment(content).error) && posts == old(posts)
      ensures ValidateComment(content).Ok? && postId >= |old(posts)| ==>
                r == Err(NotFound(PostNotFound)) && posts == old(posts)
      ensures r.Ok? <==> ValidateComment(content).Ok? && postId < |old(posts)|
      ensures r.Ok? ==>
                && r.value == Comment(user, content.value, now)
                && posts == old(posts)[postId := old(posts)[postId].(
                     comments := old(posts)[postId].comments + [r.value], updatedAt := now)]
                && r.value == posts[postId].comments[|posts[postId].comments| - 1]
    {
      var checked := ValidateComment(content);
      if checked.Err? {
        return Err(checked.error);
      }
      if postId >= |posts| {
        return Err(NotFound(PostNotFound));
      }
      var post := posts[postId];
      var comment := Comment(user, checked.value, now);
      posts := posts[postId := post.(comments := post.comments + [comment], updatedAt := now)];
      var stored := posts[postId].comments;
      r := Ok(stored[|stored| - 1]);
    }
  }
}
