/** A client of the two stores that walks through one session: three users
    sign up, one posts a request for help, another likes and unlikes it, a
    third comments, and the feed filtered by type shows the post. */
module Scenario {
  import opened Base
  import opened PostSchema
  import opened Posts
  import opened Feed
  import opened Users
  import opened Text

  /** The three users sign up; a second "bob" is refused. */
  method SignupSession(hashA: string, hashB: string, hashC: string)
    requires hashA != "" && hashB != "" && hashC != ""
  {
    var people := new UserStore();
    var a := people.Signup(Some("alice"), None, Some("5550000001"), Some("secret1"), hashA, 1);
    assert a.Ok? && a.value.id == 0;
    var b := people.Signup(Some("bob"), None, Some("5550000002"), Some("secret2"), hashB, 2);
    assert b.Ok? && b.value.id == 1;
    var c := people.Signup(Some("carol"), None, Some("5550000003"), Some("secret3"), hashC, 3);
    assert c.Ok? && c.value.id == 2;
    assert people.users[1].username == "bob";
    var again := people.Signup(Some("bob"), None, Some("5550000009"), Some("secret9"), hashB, 4);
    assert again == Err(BadRequest(UserExists));
  }

  /** alice (user 0) posts; bob (user 1) likes and unlikes; carol (user 2)
      comments; the feed filtered by type shows the post with one comment
      and no likes. */
  method PostSession()
  {
    var store := new PostStore();
    var created := store.Create(0, Some("Looking for a plumber"), Some("ask_for_help"), None, [], 10);
    assert created == Ok(0);
    var liked := store.ToggleLike(0, 1, 11);
    assert store.posts[0].likes == [Like(1, 11)];
    assert store.posts[0].likes[0].user == 1;
    assert liked == Ok(LikeState(true, 1));
    var unliked := store.ToggleLike(0, 1, 12);
    assert unliked == Ok(LikeState(false, 0));
    var comment := store.AddComment(0, 2, Some("Try Joe's Plumbing"), 13);
    assert comment == Ok(Comment(2, "Try Joe's Plumbing", 13));
    var missing := store.ToggleLike(7, 1, 14);
    assert missing == Err(NotFound(PostNotFound));

    assert store.posts == [store.posts[0]] && store.posts[0].kind == AskForHelp;
    SinglePostFeed(store.posts[0], 10);
    var feed := Query(store.posts, Some("ask_for_help"), None, 1, 10);
    assert feed == Ok(FeedPage([store.posts[0]], Pagination(1, 1, 1, false, false)));
    assert |feed.value.posts[0].comments| == 1 && feed.value.posts[0].likes == [];
  }

  /** The location filter is a case-insensitive substring match: a post
      located "Downtown" is found by "down"; one without a location is not. */
  method LocationSession()
  {
    var store := new PostStore();
    var first := store.Create(0, Some("Farmers market on Sunday"), Some("event_announcement"),
                              Some("Downtown"), [], 20);
    var second := store.Create(0, Some("Road closed"), Some("local_update"), None, [], 21);
    assert first == Ok(0) && second == Ok(1);
    assert ContainsIgnoringCase("Downtown", "down") by {
      assert LowerString("Down") == "down";
      assert StartsWithIgnoringCase("Downtown", "down");
    }
    var feed := Query(store.posts, None, Some("down"), 1, 10);
    assert feed.Ok?;
    assert Matches(store.posts[0], Filter(None, Some("down")));
    assert !Matches(store.posts[1], Filter(None, Some("down")));
  }
}
