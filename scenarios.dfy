/** A client of the two services: an admin likes a blog another user wrote,
    then the author tries to like their own blog. Every assertion follows
    from the services' contracts alone. */
module Scenarios {
  import opened Common
  import opened UserEntity
  import opened BlogEntity
  import opened Store
  import opened Users
  import opened Blogs
  import opened BlogApi

  /** A database holding two users, Alice (an admin) and Bob, and one blog
      Bob wrote, with the two services over it. */
  method Setup() returns (db: Database, users: UserService, blogs: BlogService)
    ensures fresh(db) && users.db == db && blogs.db == db && db.Valid()
    ensures Canon("alice-id") == "alice-id" && Canon("bob-id") == "bob-id" && Canon("blog-id") == "blog-id"
    ensures db.users == map["alice-id" := User("alice-id", "a@x.com", "Alice", Admin, UserStatus.Active),
                            "bob-id" := User("bob-id", "b@x.com", "Bob", Regular, UserStatus.Active)]
    ensures db.blogs == map["blog-id" := Blog("blog-id", "T", "D", BlogStatus.Active, Some("bob-id"))]
    ensures db.likes == {}
  {
    assert IsCanonical("alice-id") && IsCanonical("bob-id") && IsCanonical("blog-id");
    db := new Database();
    users := new UserService(db);
    blogs := new BlogService(db);
    var alice := users.Create(CreateUserDto("a@x.com", "Alice", Some(Admin), None), "alice-id");
    assert "a@x.com"[0] != "b@x.com"[0];
    var bob := users.Create(CreateUserDto("b@x.com", "Bob", None, None), "bob-id");
    var post := blogs.Create(CreateBlogDto("T", "D", None, "bob-id"), "blog-id");
  }

  /** Alice likes Bob's blog: the response counts one like, by Alice. */
  method AdminLikesAnotherUsersBlog()
  {
    var db, users, blogs := Setup();
    var liked := blogs.Like("blog-id", "alice-id");
    assert db.likes == {("blog-id", "alice-id")};
    assert Likers(db.Snapshot(), "blog-id") == {"alice-id"};
    assert LikerNames(db.Snapshot(), "blog-id") == {"Alice"};
    var response := RespondOne(liked);
    ResponseShowsLikers(db.Snapshot(), db.blogs["blog-id"]);
    assert response.value.likesCount == 1;
    assert response.value.likedBy == ["Alice"];
  }

  /** Bob may not like the blog Bob wrote, and nothing changes. The ban is
      the corrected test `WrittenBy`, so it holds under every letter case of
      Bob's id; the code's own `===` test lets the upper-case spelling
      through (see `SelfLikeTestMissesUpperCase`). */
  method NoSelfLike()
  {
    var db, users, blogs := Setup();
    var own := blogs.Like("blog-id", "bob-id");
    assert own == Err(BadRequest(SelfLike)) && db.likes == {};

    // Nor under the id spelled in upper case, which finds the same user.
    CanonIgnoresCase("BOB-ID", "bob-id");
    var shouted := blogs.Like("blog-id", "BOB-ID");
    assert shouted == Err(BadRequest(SelfLike)) && db.likes == {};
  }

  /** Liking twice is liking once; unliking twice is unliking once. */
  method RepeatedLikesAndUnlikes()
  {
    var db, users, blogs := Setup();
    var liked := blogs.Like("blog-id", "alice-id");
    var again := blogs.Like("blog-id", "alice-id");
    assert again.Ok? && db.likes == {("blog-id", "alice-id")};
    var gone := blogs.Unlike("blog-id", "alice-id");
    var goneAgain := blogs.Unlike("blog-id", "alice-id");
    assert goneAgain.Ok? && db.likes == {};
  }
}
