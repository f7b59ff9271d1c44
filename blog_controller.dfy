/** `BlogController`: the HTTP handlers for blogs. They hand each request to
    the blog service and reshape what it returns: every blog gains a
    `likesCount`, and `likedBy` becomes the list of the likers' names. */
module BlogApi {
  import opened Common
  import opened UserEntity
  import opened BlogEntity
  import opened Store
  import opened Blogs

  const Deleted := "Blog deleted successfully"

  /** A blog as the handlers send it: the row and its author, the number of
      likers, and their names. */
  datatype BlogResponse = BlogResponse(blog: Blog, author: Option<string>, likesCount: nat, likedBy: seq<string>)

  /** `likers.map((u) => u.name)`. */
  function Names(likers: seq<UserRef>): (names: seq<string>)
    ensures |names| == |likers|
    ensures forall i | 0 <= i < |likers| :: names[i] == likers[i].name
  {
    if likers == [] then [] else [likers[0].name] + Names(likers[1..])
  }

  /** The reshaping every handler applies to a blog. A relation that was not
      loaded counts as no likers. */
  function Project(v: BlogView): (r: BlogResponse)
    ensures r.blog == v.blog && r.author == v.author
    ensures r.likesCount == |r.likedBy|
    ensures v.likedBy.None? ==> r.likesCount == 0 && r.likedBy == []
    ensures v.likedBy.Some? ==> |r.likedBy| == |v.likedBy.value|
    ensures v.likedBy.Some? ==> forall i | 0 <= i < |r.likedBy| :: r.likedBy[i] == v.likedBy.value[i].name
  {
    var likers := v.likedBy.GetOr([]);
    BlogResponse(v.blog, v.author, |likers|, Names(likers))
  }

  /** `blogs.map(...)`: one response per blog, in the same order. */
  function ProjectAll(vs: seq<BlogView>): (r: seq<BlogResponse>)
    ensures |r| == |vs|
    ensures forall i | 0 <= i < |vs| :: r[i] == Project(vs[i])
  {
    if vs == [] then [] else [Project(vs[0])] + ProjectAll(vs[1..])
  }

  /** A listing handler: the service's error unchanged, or its blogs
      reshaped one by one, in the same order. */
  function Respond(s: Result<seq<BlogView>>): (r: Result<seq<BlogResponse>>)
    ensures s.Err? ==> r == Err(s.error)
    ensures s.Ok? ==> r.Ok? && |r.value| == |s.value|
    ensures s.Ok? ==> forall i | 0 <= i < |s.value| :: r.value[i] == Project(s.value[i])
  {
    match s
    case Err(e) => Err(e)
    case Ok(blogs) => Ok(ProjectAll(blogs))
  }

  /** `GET /blogs?userId=`: the service's listing reshaped blog by blog, in
      its order (so the visibility rule and the title order carry over).
      NotFound exactly when a named acting user does not exist; otherwise
      every blog listed is a stored row, and its `likesCount` is the number
      of users who like it. */
  function FindAll(db: Db, userId: Option<Id>): (r: Result<seq<BlogResponse>>)
    requires UsersKeyed(db) && BlogsKeyed(db)
    ensures r == Respond(FindAllForUser(db, userId))
    ensures r.Err? <==> !Anonymous(userId) && Canon(userId.value) !in db.users
    ensures r.Err? ==> r.error == NotFound(UserNotFound)
    ensures r.Ok? ==> forall i | 0 <= i < |r.value| ::
      var b := r.value[i].blog;
      b.id in db.blogs && db.blogs[b.id] == b && r.value[i].likesCount == |Likers(db, b.id)|
  {
    var s := FindAllForUser(db, userId);
    if s.Ok? then ListedCounts(db, s.value); Respond(s) else Respond(s)
  }

  /** `GET /blogs/active?userId=`: the same, over the active blogs. */
  function FindActive(db: Db, userId: Option<Id>): (r: Result<seq<BlogResponse>>)
    requires UsersKeyed(db) && BlogsKeyed(db)
    ensures r == Respond(FindActiveForUser(db, userId))
    ensures r.Err? <==> !Anonymous(userId) && Canon(userId.value) !in db.users
    ensures r.Err? ==> r.error == NotFound(UserNotFound)
    ensures r.Ok? ==> forall i | 0 <= i < |r.value| ::
      var b := r.value[i].blog;
      b.id in db.blogs && db.blogs[b.id] == b && b.status == BlogStatus.Active
      && r.value[i].likesCount == |Likers(db, b.id)|
  {
    var s := FindActiveForUser(db, userId);
    if s.Ok? then
      ListedCounts(db, s.value);
      ActiveListingIsActive(db, userId);
      Respond(s)
    else Respond(s)
  }

  /** Every blog of a service listing is a stored row, and its response
      counts its likers. */
  lemma ListedCounts(db: Db, vs: seq<BlogView>)
    requires exists ids :: ListsBlogs(db, vs, ids)
    ensures forall i | 0 <= i < |vs| ::
      var b := vs[i].blog;
      b.id in db.blogs && db.blogs[b.id] == b && Project(vs[i]).likesCount == |Likers(db, b.id)|
  {
    var ids :| ListsBlogs(db, vs, ids);
    forall i | 0 <= i < |vs|
      ensures var b := vs[i].blog; b.id in db.blogs && db.blogs[b.id] == b && Project(vs[i]).likesCount == |Likers(db, b.id)|
    {
      ViewLikerCount(db, db.blogs[vs[i].blog.id]);
    }
  }

  /** `POST /blogs/:id/like` and `DELETE /blogs/:id/like`: the service's
      error unchanged, or the one blog it returns, reshaped. */
  function RespondOne(s: Result<BlogView>): (r: Result<BlogResponse>)
    ensures s.Err? ==> r == Err(s.error)
    ensures s.Ok? ==> r == Ok(Project(s.value))
    ensures s.Ok? ==> r.Ok? && r.value.blog == s.value.blog && r.value.likesCount == |r.value.likedBy|
    ensures s.Ok? && s.value.likedBy.Some? ==> r.value.likedBy == Names(s.value.likedBy.value)
  {
    match s
    case Err(e) => Err(e)
    case Ok(blog) => Ok(Project(blog))
  }

  /** `DELETE /blogs/:id`: the confirmation, and only once the service's
      delete has succeeded; otherwise its error unchanged. */
  function RespondRemoved(s: Result<()>): (r: Result<string>)
    ensures r.Ok? <==> s.Ok?
    ensures r.Ok? ==> r.value == Deleted
    ensures r.Err? ==> r.error == s.error
  {
    match s
    case Err(e) => Err(e)
    case Ok(_) => Ok(Deleted)
  }

  /** The names of the users who like blog `blogId`. */
  function LikerNames(db: Db, blogId: Id): set<string>
  {
    set u | u in Likers(db, blogId) && u in db.users :: db.users[u].name
  }

  /** In every response a blog's `likesCount` is the number of users who
      like it, and `likedBy` holds their names: every liker's, and only
      likers'. */
  lemma ResponseShowsLikers(db: Db, b: Blog)
    ensures var r := Project(View(db, b));
      && r.likesCount == |Likers(db, b.id)|
      && (forall u | u in Likers(db, b.id) :: db.users[u].name in r.likedBy)
      && (forall i | 0 <= i < |r.likedBy| :: r.likedBy[i] in LikerNames(db, b.id))
  {
    CountIsLikers(db, b);
    assert Project(View(db, b)).likedBy == Names(LikerRefs(db, b.id));
    LikedByNamesLikers(db, b.id);
  }

  /** The names of a blog's liker list are every liker's name, and only
      likers' names. */
  lemma {:induction false} LikedByNamesLikers(db: Db, blogId: Id)
    ensures var names := Names(LikerRefs(db, blogId));
      && (forall u | u in Likers(db, blogId) :: db.users[u].name in names)
      && (forall i | 0 <= i < |names| :: names[i] in LikerNames(db, blogId))
  {
    var refs := LikerRefs(db, blogId);
    var names := Names(refs);
    forall u | u in Likers(db, blogId) ensures db.users[u].name in names {
      var j :| 0 <= j < |refs| && refs[j].id == u;
      assert names[j] == db.users[u].name;
    }
    forall i | 0 <= i < |names| ensures names[i] in LikerNames(db, blogId) {
      var u := refs[i].id;
      assert u in Likers(db, blogId) && u in db.users && names[i] == db.users[u].name;
    }
  }

  /** A response's `likesCount` is the number of the blog's likers. */
  lemma CountIsLikers(db: Db, b: Blog)
    ensures Project(View(db, b)).likesCount == |Likers(db, b.id)|
  {
    ViewLikerCount(db, b);
  }

  /** Liking adds one to a blog's `likesCount`, or nothing when that user
      already liked it; no double like is ever counted twice. */
  lemma LikeCountsOnce(db: Db, blogId: Id, userId: Id)
    requires BlogsKeyed(db) && blogId in db.blogs && userId in db.users
    ensures var b := db.blogs[blogId];
      var liked := db.(likes := db.likes + {(blogId, userId)});
      Project(View(liked, b)).likesCount
        == Project(View(db, b)).likesCount + (if (blogId, userId) in db.likes then 0 else 1)
  {
    var b := db.blogs[blogId];
    CountIsLikers(db, b);
    CountIsLikers(db.(likes := db.likes + {(blogId, userId)}), b);
    LikersGrowByOne(db, blogId, userId);
  }

  /** Adding a like pair adds one liker, or none when the pair was there. */
  lemma {:induction false} LikersGrowByOne(db: Db, blogId: Id, userId: Id)
    requires userId in db.users
    ensures |Likers(db.(likes := db.likes + {(blogId, userId)}), blogId)|
      == |Likers(db, blogId)| + (if (blogId, userId) in db.likes then 0 else 1)
  {
    LikeAddsLiker(db, blogId, userId, blogId);
    var before := Likers(db, blogId);
    assert (blogId, userId) in db.likes <==> userId in before;
    if userId !in before {
      assert |before + {userId}| == |before| + 1;
    } else {
      assert before + {userId} == before;
    }
  }

  /** Unliking takes one from a blog's `likesCount` when that user liked it,
      and nothing otherwise. */
  lemma UnlikeCountsOnce(db: Db, blogId: Id, userId: Id)
    requires BlogsKeyed(db) && blogId in db.blogs && userId in db.users
    ensures var b := db.blogs[blogId];
      var unliked := db.(likes := db.likes - {(blogId, userId)});
      Project(View(unliked, b)).likesCount
        == Project(View(db, b)).likesCount - (if (blogId, userId) in db.likes then 1 else 0)
  {
    var b := db.blogs[blogId];
    CountIsLikers(db, b);
    CountIsLikers(db.(likes := db.likes - {(blogId, userId)}), b);
    LikersShrinkByOne(db, blogId, userId);
  }

  /** Removing a like pair removes one liker, or none when the pair was not
      there. */
  lemma {:induction false} LikersShrinkByOne(db: Db, blogId: Id, userId: Id)
    requires userId in db.users
    ensures |Likers(db.(likes := db.likes - {(blogId, userId)}), blogId)|
      == |Likers(db, blogId)| - (if (blogId, userId) in db.likes then 1 else 0)
  {
    UnlikeRemovesLiker(db, blogId, userId, blogId);
    var before := Likers(db, blogId);
    assert (blogId, userId) in db.likes <==> userId in before;
    if userId in before {
      assert |before - {userId}| == |before| - 1;
    } else {
      assert before - {userId} == before;
    }
  }
}
