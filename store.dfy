/** The database both services share: the `users` and `blogs` tables, keyed
    by id, and the like relation as a set of (blog id, user id) pairs. */
module Store {
  import opened Common
  import opened UserEntity
  import opened BlogEntity

  /** The contents of the database at one moment. */
  datatype Db = Db(users: map<Id, User>, blogs: map<Id, Blog>, likes: set<(Id, Id)>)

  /** Every user row is stored under its own, non-empty, id. */
  ghost predicate UsersKeyed(db: Db)
  {
    forall k | k in db.users :: db.users[k].id == k && k != ""
  }

  /** Every blog row is stored under its own, non-empty, id. */
  ghost predicate BlogsKeyed(db: Db)
  {
    forall k | k in db.blogs :: db.blogs[k].id == k && k != ""
  }

  /** The constraints the schema enforces: keys, the foreign key from a
      blog's `authorId` to `users`, and the unique `email` column. */
  ghost predicate Consistent(db: Db)
  {
    && UsersKeyed(db)
    && BlogsKeyed(db)
    && (forall k | k in db.blogs && db.blogs[k].authorId.Some? :: db.blogs[k].authorId.value in db.users)
    && (forall a, b | a in db.users && b in db.users && a != b :: db.users[a].email != db.users[b].email)
  }

  /** Some user other than `except` has the address `email`. */
  predicate EmailTaken(users: map<Id, User>, email: string, except: Id)
  {
    exists k | k in users :: k != except && users[k].email == email
  }

  class Database {
    var users: map<Id, User>
    var blogs: map<Id, Blog>
    var likes: set<(Id, Id)>
    /** Every id the database has generated so far; generated ids are never
        handed out twice. */
    ghost var issued: set<Id>

    ghost predicate Valid()
      reads this
    {
      && Consistent(Snapshot())
      && users.Keys <= issued
      && blogs.Keys <= issued
      && (forall p | p in likes :: p.0 in issued && p.1 in issued)
      && (forall k | k in issued :: IsCanonical(k))
    }

    function Snapshot(): Db
      reads this
    {
      Db(users, blogs, likes)
    }

    /** `id` may be the next generated key: a lower-case `uuid` never
        handed out before. */
    ghost predicate Fresh(id: Id)
      reads this
    {
      id != "" && IsCanonical(id) && id !in issued
    }

    /** An empty database. */
    constructor ()
      ensures Valid()
      ensures Snapshot() == Db(map[], map[], {})
      ensures issued == {}
    {
      users, blogs, likes := map[], map[], {};
      issued := {};
    }
  }
}
