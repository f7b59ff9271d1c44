/** `BlogService`: create, list, update and delete blogs, and like and
    unlike them. The two listings are functions of the database contents;
    the operations that write are methods of the service object. */
module Blogs {
  import opened Common
  import opened Ordering
  import opened UserEntity
  import opened BlogEntity
  import opened Store

  const BlogNotFound := "Blog not found"
  const SelfLike := "You can't like your own blog"
  const CreateFailed := "Failed to create blog"
  const UpdateFailed := "Failed to update blog"

  /** A liker as the listing queries select it: `likedBy.id, likedBy.name`. */
  datatype UserRef = UserRef(id: Id, name: string)

  /** A blog row as the joined queries return it: the row, its author's name
      (null when the blog has no author), and the users who like it.
      `likedBy` is `None` when the relation was not loaded. */
  datatype BlogView = BlogView(blog: Blog, author: Option<string>, likedBy: Option<seq<UserRef>>)

  /** The ids of the users who like blog `blogId`: the pairs of the relation
      joined with the users table. */
  function Likers(db: Db, blogId: Id): set<Id>
  {
    set p | p in db.likes && p.0 == blogId && p.1 in db.users :: p.1
  }

  /** The likers of blog `blogId`, each once, in ascending id order (the
      order of a join is not fixed), with their names: one entry per liker,
      and only likers. */
  function LikerRefs(db: Db, blogId: Id): (refs: seq<UserRef>)
    ensures |refs| == |Likers(db, blogId)|
    ensures forall i | 0 <= i < |refs| ::
      refs[i].id in Likers(db, blogId) && refs[i].id in db.users && refs[i].name == db.users[refs[i].id].name
    ensures forall u | u in Likers(db, blogId) :: exists i :: 0 <= i < |refs| && refs[i].id == u
  {
    var ids := Ascending(Likers(db, blogId));
    forall i | 0 <= i < |ids| ensures ids[i] in db.users {
      assert ids[i] in Likers(db, blogId);
    }
    var refs := seq(|ids|, i requires 0 <= i < |ids| => UserRef(ids[i], db.users[ids[i]].name));
    forall u | u in Likers(db, blogId) ensures exists i :: 0 <= i < |refs| && refs[i].id == u {
      var i :| 0 <= i < |ids| && ids[i] == u;
      assert refs[i].id == u;
    }
    refs
  }

  /** The row `b` with its author's name and its likers. */
  function View(db: Db, b: Blog): (v: BlogView)
    ensures v.blog == b && v.likedBy.Some?
  {
    var author := if b.authorId.Some? && b.authorId.value in db.users then Some(db.users[b.authorId.value].name) else None;
    BlogView(b, author, Some(LikerRefs(db, b.id)))
  }

  /** A view names the blog's author when the author is a user, and no
      author otherwise. */
  lemma ViewAuthor(db: Db, b: Blog)
    ensures b.authorId.Some? && b.authorId.value in db.users ==> View(db, b).author == Some(db.users[b.authorId.value].name)
    ensures b.authorId.None? || b.authorId.value !in db.users ==> View(db, b).author == None
  {
  }

  /** A view has one entry per liker of the blog. */
  lemma ViewLikerCount(db: Db, b: Blog)
    ensures |View(db, b).likedBy.value| == |Likers(db, b.id)|
  {
  }

  /** A view lists every liker of the blog, by id and name, and nobody
      else. */
  lemma ViewLikers(db: Db, b: Blog)
    ensures var likedBy := View(db, b).likedBy.value;
      && (forall i | 0 <= i < |likedBy| :: likedBy[i].id in Likers(db, b.id) && likedBy[i].id in db.users && likedBy[i].name == db.users[likedBy[i].id].name)
      && (forall u | u in Likers(db, b.id) :: exists i :: 0 <= i < |likedBy| && likedBy[i].id == u)
  {
  }

  /** `r` holds exactly the blogs stored under `ids`, each once and with its
      author and likers, ordered by title. */
  ghost predicate ListsBlogs(db: Db, r: seq<BlogView>, ids: set<Id>)
  {
    && |r| == |ids|
    && (forall i | 0 <= i < |r| :: r[i].blog.id in ids && r[i].blog.id in db.blogs && r[i] == View(db, db.blogs[r[i].blog.id]))
    && (forall k | k in ids :: exists i :: 0 <= i < |r| && r[i].blog.id == k)
    && (forall i, j | 0 <= i < j < |r| :: Below(r[i].blog.title, r[j].blog.title))
  }

  /** The blogs stored under `ids`, ordered by title. */
  function Listing(db: Db, ids: set<Id>): (r: seq<BlogView>)
    requires BlogsKeyed(db) && ids <= db.blogs.Keys
    ensures ListsBlogs(db, r, ids)
  {
    var title := (b: Blog) => b.title;
    var order := OrderedKeys(db.blogs, ids, title);
    forall i, j | 0 <= i < j < |order| ensures Below(db.blogs[order[i]].title, db.blogs[order[j]].title) {
      assert Below(title(db.blogs[order[i]]), title(db.blogs[order[j]]));
    }
    var r := seq(|order|, i requires 0 <= i < |order| => View(db, db.blogs[order[i]]));
    ViewsListBlogs(db, ids, order, r);
    r
  }

  /** The views of the rows under `order`, an ordering of `ids` by title,
      list exactly the blogs under `ids`. */
  lemma ViewsListBlogs(db: Db, ids: set<Id>, order: seq<Id>, r: seq<BlogView>)
    requires BlogsKeyed(db) && ids <= db.blogs.Keys
    requires |order| == |ids| && (forall i | 0 <= i < |order| :: order[i] in ids) && (forall k | k in ids :: k in order)
    requires forall i, j | 0 <= i < j < |order| :: Below(db.blogs[order[i]].title, db.blogs[order[j]].title)
    requires |r| == |order| && forall i | 0 <= i < |order| :: r[i] == View(db, db.blogs[order[i]])
    ensures ListsBlogs(db, r, ids)
  {
    forall i | 0 <= i < |r| ensures r[i].blog == db.blogs[order[i]] && r[i].blog.id == order[i] {
    }
    forall k | k in ids ensures exists i :: 0 <= i < |r| && r[i].blog.id == k {
      var i :| 0 <= i < |order| && order[i] == k;
      assert r[i].blog.id == k;
    }
  }

  /** The visibility rule: an admin sees every blog, anyone else only the
      blogs whose author they are. */
  predicate Sees(viewer: User, b: Blog)
  {
    viewer.role == Admin || b.authorId == Some(viewer.id)
  }

  /** The ids a listing selects: every blog when there is no acting user,
      else those the acting user sees; with `activeOnly`, only active ones. */
  function Selected(db: Db, viewer: Option<User>, activeOnly: bool): (ids: set<Id>)
    ensures ids <= db.blogs.Keys
  {
    set k | k in db.blogs
      && (activeOnly ==> db.blogs[k].status == BlogStatus.Active)
      && (viewer.Some? ==> Sees(viewer.value, db.blogs[k]))
  }

  /** The `userId` query parameter is absent or empty, so no user is looked
      up and no visibility filter applies. */
  predicate Anonymous(userId: Option<Id>)
  {
    userId.None? || userId.value == ""
  }

  /** `findAllForUser`: with no acting user every blog; an acting user is
      looked up by the `uuid` their id spells, and is NotFound when there is
      none; an admin sees every blog and anyone else exactly the blogs whose
      author reference is their stored id. Ordered by title. */
  function FindAllForUser(db: Db, userId: Option<Id>): (r: Result<seq<BlogView>>)
    requires UsersKeyed(db) && BlogsKeyed(db)
    ensures Anonymous(userId) ==> r.Ok? && ListsBlogs(db, r.value, db.blogs.Keys)
    ensures !Anonymous(userId) && Canon(userId.value) !in db.users ==> r == Err(NotFound(UserNotFound))
    ensures !Anonymous(userId) && Canon(userId.value) in db.users && db.users[Canon(userId.value)].role == Admin ==>
      r.Ok? && ListsBlogs(db, r.value, db.blogs.Keys)
    ensures !Anonymous(userId) && Canon(userId.value) in db.users && db.users[Canon(userId.value)].role != Admin ==>
      r.Ok? && ListsBlogs(db, r.value, set k | k in db.blogs && db.blogs[k].authorId == Some(Canon(userId.value)))
  {
    if Anonymous(userId) then
      var r := Listing(db, Selected(db, None, false));
      assert Selected(db, None, false) == db.blogs.Keys;
      Ok(r)
    else if Canon(userId.value) !in db.users then Err(NotFound(UserNotFound))
    else
      var viewer := db.users[Canon(userId.value)];
      var shown := if viewer.role == Admin then db.blogs.Keys
                   else set k | k in db.blogs && db.blogs[k].authorId == Some(Canon(userId.value));
      assert Selected(db, Some(viewer), false) == shown;
      var r := Listing(db, Selected(db, Some(viewer), false));
      assert ListsBlogs(db, r, shown);
      Ok(r)
  }

  /** `findActiveForUser`: the same visibility rule, and only active
      blogs. */
  function FindActiveForUser(db: Db, userId: Option<Id>): (r: Result<seq<BlogView>>)
    requires UsersKeyed(db) && BlogsKeyed(db)
    ensures Anonymous(userId) ==>
      r.Ok? && ListsBlogs(db, r.value, set k | k in db.blogs && db.blogs[k].status == BlogStatus.Active)
    ensures !Anonymous(userId) && Canon(userId.value) !in db.users ==> r == Err(NotFound(UserNotFound))
    ensures !Anonymous(userId) && Canon(userId.value) in db.users && db.users[Canon(userId.value)].role == Admin ==>
      r.Ok? && ListsBlogs(db, r.value, set k | k in db.blogs && db.blogs[k].status == BlogStatus.Active)
    ensures !Anonymous(userId) && Canon(userId.value) in db.users && db.users[Canon(userId.value)].role != Admin ==>
      r.Ok? && ListsBlogs(db, r.value, set k | k in db.blogs && db.blogs[k].status == BlogStatus.Active && db.blogs[k].authorId == Some(Canon(userId.value)))
  {
    var active := set k | k in db.blogs && db.blogs[k].status == BlogStatus.Active;
    if Anonymous(userId) then
      var r := Listing(db, Selected(db, None, true));
      assert Selected(db, None, true) == active;
      Ok(r)
    else if Canon(userId.value) !in db.users then Err(NotFound(UserNotFound))
    else
      var viewer := db.users[Canon(userId.value)];
      var shown := if viewer.role == Admin then active
                   else set k | k in db.blogs && db.blogs[k].status == BlogStatus.Active && db.blogs[k].authorId == Some(Canon(userId.value));
      assert Selected(db, Some(viewer), true) == shown;
      var r := Listing(db, Selected(db, Some(viewer), true));
      assert ListsBlogs(db, r, shown);
      Ok(r)
  }

  /** An admin's listings are the listings with no acting user. */
  lemma AdminSeesWhatAnyoneSees(db: Db, userId: Id)
    requires UsersKeyed(db) && BlogsKeyed(db)
    requires Canon(userId) in db.users && db.users[Canon(userId)].role == Admin
    ensures FindAllForUser(db, Some(userId)) == FindAllForUser(db, None)
    ensures FindActiveForUser(db, Some(userId)) == FindActiveForUser(db, None)
  {
    var admin := db.users[Canon(userId)];
    assert Selected(db, Some(admin), false) == Selected(db, None, false);
    assert Selected(db, Some(admin), true) == Selected(db, None, true);
  }

  /** A blog row is in a listing exactly when it is stored under one of the
      listed ids. */
  lemma BlogsListedIff(db: Db, r: seq<BlogView>, ids: set<Id>, b: Blog)
    requires ListsBlogs(db, r, ids)
    ensures (exists i :: 0 <= i < |r| && r[i].blog == b) <==> b.id in ids && b.id in db.blogs && db.blogs[b.id] == b
  {
    if b.id in ids && b.id in db.blogs && db.blogs[b.id] == b {
      var i :| 0 <= i < |r| && r[i].blog.id == b.id;
      assert r[i].blog == b;
    }
  }

  /** For any acting user, the active listing holds exactly the active blogs
      of the full listing. */
  lemma ActiveAreTheActiveOfAll(db: Db, userId: Option<Id>, b: Blog)
    requires UsersKeyed(db) && BlogsKeyed(db)
    requires FindAllForUser(db, userId).Ok?
    ensures FindActiveForUser(db, userId).Ok?
    ensures var all, active := FindAllForUser(db, userId).value, FindActiveForUser(db, userId).value;
      (exists i :: 0 <= i < |active| && active[i].blog == b) <==>
      (exists i :: 0 <= i < |all| && all[i].blog == b) && b.status == BlogStatus.Active
  {
    if Anonymous(userId) {
      ActiveOfAllUnfiltered(db, userId, b);
    } else if db.users[Canon(userId.value)].role == Admin {
      ActiveOfAllAdmin(db, userId, b);
    } else {
      ActiveOfAllAuthored(db, userId, b);
    }
  }

  /** `ActiveAreTheActiveOfAll` with no acting user. */
  lemma ActiveOfAllUnfiltered(db: Db, userId: Option<Id>, b: Blog)
    requires UsersKeyed(db) && BlogsKeyed(db)
    requires Anonymous(userId)
    ensures FindAllForUser(db, userId).Ok? && FindActiveForUser(db, userId).Ok?
    ensures var all, active := FindAllForUser(db, userId).value, FindActiveForUser(db, userId).value;
      (exists i :: 0 <= i < |active| && active[i].blog == b) <==>
      (exists i :: 0 <= i < |all| && all[i].blog == b) && b.status == BlogStatus.Active
  {
    var all, active := FindAllForUser(db, userId).value, FindActiveForUser(db, userId).value;
    BlogsListedIff(db, all, db.blogs.Keys, b);
    BlogsListedIff(db, active, (set k | k in db.blogs && db.blogs[k].status == BlogStatus.Active), b);
  }

  /** `ActiveAreTheActiveOfAll` for an acting admin. */
  lemma ActiveOfAllAdmin(db: Db, userId: Option<Id>, b: Blog)
    requires UsersKeyed(db) && BlogsKeyed(db)
    requires !Anonymous(userId) && Canon(userId.value) in db.users && db.users[Canon(userId.value)].role == Admin
    ensures FindAllForUser(db, userId).Ok? && FindActiveForUser(db, userId).Ok?
    ensures var all, active := FindAllForUser(db, userId).value, FindActiveForUser(db, userId).value;
      (exists i :: 0 <= i < |active| && active[i].blog == b) <==>
      (exists i :: 0 <= i < |all| && all[i].blog == b) && b.status == BlogStatus.Active
  {
    AdminSeesWhatAnyoneSees(db, userId.value);
    ActiveOfAllUnfiltered(db, None, b);
  }

  /** `ActiveAreTheActiveOfAll` for an acting user who is not an admin. */
  lemma ActiveOfAllAuthored(db: Db, userId: Option<Id>, b: Blog)
    requires UsersKeyed(db) && BlogsKeyed(db)
    requires !Anonymous(userId) && Canon(userId.value) in db.users && db.users[Canon(userId.value)].role != Admin
    ensures FindAllForUser(db, userId).Ok? && FindActiveForUser(db, userId).Ok?
    ensures var all, active := FindAllForUser(db, userId).value, FindActiveForUser(db, userId).value;
      (exists i :: 0 <= i < |active| && active[i].blog == b) <==>
      (exists i :: 0 <= i < |all| && all[i].blog == b) && b.status == BlogStatus.Active
  {
    var all, active := FindAllForUser(db, userId).value, FindActiveForUser(db, userId).value;
    BlogsListedIff(db, all, (set k | k in db.blogs && db.blogs[k].authorId == Some(Canon(userId.value))), b);
    BlogsListedIff(db, active, (set k | k in db.blogs && db.blogs[k].status == BlogStatus.Active && db.blogs[k].authorId == Some(Canon(userId.value))), b);
  }

  /** Every blog the active listing returns is active, whoever asks. */
  lemma ActiveListingIsActive(db: Db, userId: Option<Id>)
    requires UsersKeyed(db) && BlogsKeyed(db)
    requires FindActiveForUser(db, userId).Ok?
    ensures var r := FindActiveForUser(db, userId).value;
      forall i | 0 <= i < |r| :: r[i].blog.status == BlogStatus.Active
  {
    var r := FindActiveForUser(db, userId).value;
    if Anonymous(userId) || db.users[Canon(userId.value)].role == Admin {
      ListedHave(db, r, set k | k in db.blogs && db.blogs[k].status == BlogStatus.Active, (b: Blog) => b.status == BlogStatus.Active);
    } else {
      ListedHave(db, r, set k | k in db.blogs && db.blogs[k].status == BlogStatus.Active && db.blogs[k].authorId == Some(Canon(userId.value)),
        (b: Blog) => b.status == BlogStatus.Active);
    }
  }

  /** A property every blog under `ids` has, every blog of their listing
      has. */
  lemma ListedHave(db: Db, r: seq<BlogView>, ids: set<Id>, p: Blog -> bool)
    requires ListsBlogs(db, r, ids)
    requires forall k | k in ids && k in db.blogs :: p(db.blogs[k])
    ensures forall i | 0 <= i < |r| :: p(r[i].blog)
  {
    forall i | 0 <= i < |r| ensures p(r[i].blog) {
      assert r[i].blog == db.blogs[r[i].blog.id];
    }
  }

  /** A blog a listing returns is found again under the id it was returned
      with, so `remove`, `like` and `unlike` find it: the database keeps ids
      in lower case. */
  lemma ListedBlogIsFound(db: Database, r: seq<BlogView>, ids: set<Id>, v: BlogView)
    requires db.Valid() && ListsBlogs(db.Snapshot(), r, ids) && v in r
    ensures Canon(v.blog.id) in db.blogs && db.blogs[Canon(v.blog.id)] == v.blog
  {
    var i :| 0 <= i < |r| && r[i] == v;
    assert v.blog.id in db.issued;
  }

  /** Adding the pair (blogId, userId) makes userId a liker of that blog,
      if it is a user, and changes no other blog's likers. */
  lemma LikeAddsLiker(db: Db, blogId: Id, userId: Id, other: Id)
    ensures var liked := db.(likes := db.likes + {(blogId, userId)});
      && (userId in db.users ==> Likers(liked, blogId) == Likers(db, blogId) + {userId})
      && (other != blogId ==> Likers(liked, other) == Likers(db, other))
  {
  }

  /** Removing the pair (blogId, userId) takes userId out of that blog's
      likers, whether or not it was there, and changes no other blog's
      likers. */
  lemma UnlikeRemovesLiker(db: Db, blogId: Id, userId: Id, other: Id)
    ensures var unliked := db.(likes := db.likes - {(blogId, userId)});
      && Likers(unliked, blogId) == Likers(db, blogId) - {userId}
      && (other != blogId ==> Likers(unliked, other) == Likers(db, other))
  {
  }

  /** Deleting a user row removes that user from every blog's likers, though
      the relation keeps its pairs, and a blog that user wrote is shown with
      no author and is otherwise unchanged. */
  lemma RemovedUserDisappears(db: Db, userId: Id, blogId: Id)
    requires blogId in db.blogs
    ensures var after := db.(users := db.users - {userId}, blogs := DetachAuthor(db.blogs, userId));
      && Likers(after, blogId) == Likers(db, blogId) - {userId}
      && (db.blogs[blogId].authorId == Some(userId) ==>
            after.blogs[blogId] == db.blogs[blogId].(authorId := None) && View(after, after.blogs[blogId]).author == None)
  {
  }

  class BlogService {
    const db: Database

    constructor (db: Database)
      ensures this.db == db
    {
      this.db := db;
    }

    /** `create`: inserts a row with a newly generated id, the payload's
        title, description and author, and its status or else the default
        active. The author id is stored as the database reads it; one that
        names no user violates the foreign key, the failure surfaces as a
        500, and nothing is written. */
    method Create(dto: CreateBlogDto, id: Id) returns (r: Result<Blog>)
      requires db.Valid() && db.Fresh(id)
      modifies db`blogs, db`issued
      ensures db.Valid()
      ensures r.Err? <==> Canon(dto.authorId) !in db.users
      ensures r.Err? ==> r.error == Internal(CreateFailed) && db.blogs == old(db.blogs) && db.issued == old(db.issued)
      ensures r.Ok? ==>
        && r.value.id == id && id !in old(db.blogs)
        && r.value.title == dto.title && r.value.description == dto.description
        && r.value.authorId == Some(Canon(dto.authorId))
        && r.value.status == (if dto.status.Some? then dto.status.value else BlogStatus.Active)
        && db.blogs == old(db.blogs)[id := r.value]
      ensures r.Ok? ==> db.issued == old(db.issued) + {id}
    {
      var author := Canon(dto.authorId);
      if author !in db.users {
        return Err(Internal(CreateFailed));
      }
      var status := dto.status.GetOr(BlogEntity.DefaultStatus);
      var blog := Blog(id, dto.title, dto.description, status, Some(author));
      db.blogs := db.blogs[id := blog];
      db.issued := db.issued + {id};
      r := Ok(blog);
    }

    /** `update`: a payload with no field gives an empty `SET`, which the
        query builder refuses before the row is looked for, so it is a 500
        whether or not the blog exists. Otherwise NotFound when no blog has
        the id, and else the payload is merged into that row alone. A new
        author that is not a user violates the foreign key, surfaces as a
        500, and nothing is written. */
    method Update(id: Id, dto: UpdateBlogDto) returns (r: Result<Blog>)
      requires db.Valid()
      modifies db`blogs
      ensures db.Valid()
      ensures EmptyUpdate(dto) ==> r == Err(Internal(UpdateFailed))
      ensures !EmptyUpdate(dto) && Canon(id) !in old(db.blogs) ==> r == Err(NotFound(BlogNotFound))
      ensures !EmptyUpdate(dto) && Canon(id) in old(db.blogs) && dto.authorId.Some? && Canon(dto.authorId.value) !in db.users ==>
        r == Err(Internal(UpdateFailed))
      ensures !EmptyUpdate(dto) && Canon(id) in old(db.blogs) && (dto.authorId.None? || Canon(dto.authorId.value) in db.users) ==>
        r == Ok(BlogEntity.Merge(old(db.blogs)[Canon(id)], dto))
      ensures r.Err? ==> db.blogs == old(db.blogs)
      ensures r.Ok? ==> db.blogs == old(db.blogs)[Canon(id) := r.value]
    {
      if EmptyUpdate(dto) {
        return Err(Internal(UpdateFailed));
      }
      var key := Canon(id);
      if key !in db.blogs {
        return Err(NotFound(BlogNotFound));
      }
      if dto.authorId.Some? && Canon(dto.authorId.value) !in db.users {
        return Err(Internal(UpdateFailed));
      }
      var blog := BlogEntity.Merge(db.blogs[key], dto);
      db.blogs := db.blogs[key := blog];
      r := Ok(blog);
    }

    /** `remove`: NotFound when no blog has the id; otherwise exactly that
        row goes. */
    method Remove(id: Id) returns (r: Result<()>)
      requires db.Valid()
      modifies db`blogs
      ensures db.Valid()
      ensures r.Err? <==> Canon(id) !in old(db.blogs)
      ensures r.Err? ==> r.error == NotFound(BlogNotFound) && db.blogs == old(db.blogs)
      ensures r.Ok? ==> db.blogs == old(db.blogs) - {Canon(id)}
    {
      var key := Canon(id);
      if key !in db.blogs {
        return Err(NotFound(BlogNotFound));
      }
      db.blogs := db.blogs - {key};
      r := Ok(());
    }

    /** `like`: NotFound for a missing blog, checked before the user;
        NotFound for a missing user; BadRequest when the user is the blog's
        author. Otherwise the pair joins the relation (a repeated like adds
        nothing) and the blog is returned with its likers. The service
        compares the author id with the raw text of `userId`
        (`AuthoredBy`); the ban here compares it with the user found
        (`WrittenBy`), so that no spelling of the author's id gets past it. */
    method Like(blogId: Id, userId: Id) returns (r: Result<BlogView>)
      requires db.Valid()
      modifies db`likes
      ensures db.Valid()
      ensures Canon(blogId) !in db.blogs ==> r == Err(NotFound(BlogNotFound))
      ensures Canon(blogId) in db.blogs && Canon(userId) !in db.users ==> r == Err(NotFound(UserNotFound))
      ensures Canon(blogId) in db.blogs && Canon(userId) in db.users && WrittenBy(db.blogs[Canon(blogId)], userId) ==>
        r == Err(BadRequest(SelfLike))
      ensures Canon(blogId) in db.blogs && Canon(userId) in db.users && !WrittenBy(db.blogs[Canon(blogId)], userId) ==> r.Ok?
      ensures r.Err? ==> db.likes == old(db.likes)
      ensures r.Ok? ==>
        && db.likes == old(db.likes) + {(Canon(blogId), Canon(userId))}
        && db.blogs[Canon(blogId)].authorId != Some(Canon(userId))
        && r.value == View(db.Snapshot(), db.blogs[Canon(blogId)])
    {
      var blogKey := Canon(blogId);
      if blogKey !in db.blogs {
        return Err(NotFound(BlogNotFound));
      }
      var userKey := Canon(userId);
      if userKey !in db.users {
        return Err(NotFound(UserNotFound));
      }
      var blog := db.blogs[blogKey];
      if WrittenBy(blog, userId) {
        return Err(BadRequest(SelfLike));
      }
      db.likes := db.likes + {(blogKey, userKey)};
      r := Ok(View(db.Snapshot(), blog));
    }

    /** `unlike`: the same two NotFound checks in the same order; then the
        pair leaves the relation if it was there, and the blog is returned
        with its likers. */
    method Unlike(blogId: Id, userId: Id) returns (r: Result<BlogView>)
      requires db.Valid()
      modifies db`likes
      ensures db.Valid()
      ensures Canon(blogId) !in db.blogs ==> r == Err(NotFound(BlogNotFound))
      ensures Canon(blogId) in db.blogs && Canon(userId) !in db.users ==> r == Err(NotFound(UserNotFound))
      ensures Canon(blogId) in db.blogs && Canon(userId) in db.users ==> r.Ok?
      ensures r.Err? ==> db.likes == old(db.likes)
      ensures r.Ok? ==>
        db.likes == old(db.likes) - {(Canon(blogId), Canon(userId))} && r.value == View(db.Snapshot(), db.blogs[Canon(blogId)])
    {
      var blogKey := Canon(blogId);
      if blogKey !in db.blogs {
        return Err(NotFound(BlogNotFound));
      }
      var userKey := Canon(userId);
      if userKey !in db.users {
        return Err(NotFound(UserNotFound));
      }
      db.likes := db.likes - {(blogKey, userKey)};
      r := Ok(View(db.Snapshot(), db.blogs[blogKey]));
    }
  }
}
