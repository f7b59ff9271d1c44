/** `UserService`: create, list, look up, update and delete users. The
    read-only queries are functions of the database contents; the operations
    that write are methods of the service object. */
module Users {
  import opened Common
  import opened Ordering
  import opened UserEntity
  import BlogEntity
  import opened Store

  /** What the framework answers when an exception that is not an HTTP
      exception escapes a handler, such as the unique-constraint violation
      `save` raises on a duplicate email. */
  const ServerError := "Internal server error"

  /** `r` holds exactly the users stored under `ids`, each once, ordered by
      name. */
  ghost predicate ListsUsers(db: Db, r: seq<User>, ids: set<Id>)
  {
    && |r| == |ids|
    && (forall i | 0 <= i < |r| :: r[i].id in ids && r[i].id in db.users && r[i] == db.users[r[i].id])
    && (forall k | k in ids :: exists i :: 0 <= i < |r| && r[i].id == k)
    && (forall i, j | 0 <= i < j < |r| :: Below(r[i].name, r[j].name))
  }

  /** The users stored under `ids`, ordered by name. */
  function Listing(db: Db, ids: set<Id>): (r: seq<User>)
    requires UsersKeyed(db) && ids <= db.users.Keys
    ensures ListsUsers(db, r, ids)
  {
    var order := OrderedKeys(db.users, ids, (u: User) => u.name);
    var r := seq(|order|, i requires 0 <= i < |order| => db.users[order[i]]);
    forall i | 0 <= i < |r| ensures r[i] == db.users[order[i]] && r[i].id == order[i] {
    }
    forall i | 0 <= i < |r| ensures r[i].id in ids && r[i].id in db.users && r[i] == db.users[r[i].id] {
    }
    forall k | k in ids ensures exists i :: 0 <= i < |r| && r[i].id == k {
      var i :| 0 <= i < |order| && order[i] == k;
      assert r[i].id == k;
    }
    forall i, j | 0 <= i < j < |r| ensures Below(r[i].name, r[j].name) {
      assert Below(db.users[order[i]].name, db.users[order[j]].name);
    }
    r
  }

  /** `findAll`: every user, ordered by name. */
  function FindAll(db: Db): (r: seq<User>)
    requires UsersKeyed(db)
    ensures ListsUsers(db, r, db.users.Keys)
  {
    Listing(db, db.users.Keys)
  }

  /** `findActive`: exactly the users whose status is active, ordered by
      name. */
  function FindActive(db: Db): (r: seq<User>)
    requires UsersKeyed(db)
    ensures ListsUsers(db, r, set k | k in db.users && db.users[k].status == UserStatus.Active)
  {
    Listing(db, set k | k in db.users && db.users[k].status == UserStatus.Active)
  }

  /** A user is in a listing exactly when it is the row stored under one of
      the listed ids. */
  lemma UsersListedIff(db: Db, r: seq<User>, ids: set<Id>, u: User)
    requires ListsUsers(db, r, ids)
    ensures u in r <==> u.id in ids && u.id in db.users && db.users[u.id] == u
  {
    if u.id in ids && u.id in db.users && db.users[u.id] == u {
      var i :| 0 <= i < |r| && r[i].id == u.id;
    }
  }

  /** Every user `findActive` returns is active and is returned by
      `findAll`, and the active ones among `findAll`'s are all returned by
      `findActive`. */
  lemma ActiveAreTheActiveOfAll(db: Db, u: User)
    requires UsersKeyed(db)
    ensures u in FindActive(db) <==> u in FindAll(db) && u.status == UserStatus.Active
  {
    UsersListedIff(db, FindActive(db), (set k | k in db.users && db.users[k].status == UserStatus.Active), u);
    UsersListedIff(db, FindAll(db), db.users.Keys, u);
  }

  /** `findById`: the row stored under the `uuid` that `id` spells, or
      NotFound when there is none. */
  function FindById(db: Db, id: Id): (r: Result<User>)
    ensures r.Ok? <==> Canon(id) in db.users
    ensures r.Ok? ==> r.value == db.users[Canon(id)]
    ensures r.Err? ==> r.error == NotFound(UserNotFound)
  {
    var key := Canon(id);
    if key in db.users then Ok(db.users[key]) else Err(NotFound(UserNotFound))
  }

  /** A user a listing (`findAll`, `findActive`) returns is found again by
      `findById` under the id it was returned with: the database keeps ids in
      lower case. */
  lemma ListedUserIsFound(db: Database, r: seq<User>, ids: set<Id>, u: User)
    requires db.Valid() && ListsUsers(db.Snapshot(), r, ids) && u in r
    ensures FindById(db.Snapshot(), u.id) == Ok(u)
  {
    UsersListedIff(db.Snapshot(), r, ids, u);
    assert u.id in db.issued;
  }

  class UserService {
    const db: Database

    constructor (db: Database)
      ensures this.db == db
    {
      this.db := db;
    }

    /** `create`: inserts a row with a newly generated id and the table's
        defaults for an omitted role or status. The unique `email` column
        rejects an address already in use, and nothing is written then. */
    method Create(dto: CreateUserDto, id: Id) returns (r: Result<User>)
      requires db.Valid() && db.Fresh(id)
      modifies db`users, db`issued
      ensures db.Valid()
      ensures r.Err? <==> EmailTaken(old(db.users), dto.email, id)
      ensures r.Err? ==> r.error == Internal(ServerError) && db.users == old(db.users) && db.issued == old(db.issued)
      ensures r.Ok? ==> id !in old(db.users) && r.value == NewUser(id, dto) && db.users == old(db.users)[id := r.value]
      ensures r.Ok? ==> db.issued == old(db.issued) + {id}
    {
      if EmailTaken(db.users, dto.email, id) {
        return Err(Internal(ServerError));
      }
      var user := NewUser(id, dto);
      db.users := db.users[id := user];
      db.issued := db.issued + {id};
      r := Ok(user);
    }

    /** `update`: NotFound when no user has the id; otherwise the payload is
        merged into the row and saved, unless that gives the row an email
        another user has, which the unique column rejects. Only that row can
        change. */
    method Update(id: Id, dto: UpdateUserDto) returns (r: Result<User>)
      requires db.Valid()
      modifies db`users
      ensures db.Valid()
      ensures Canon(id) !in old(db.users) ==> r == Err(NotFound(UserNotFound))
      ensures Canon(id) in old(db.users) ==>
        var merged := Merge(old(db.users)[Canon(id)], dto);
        r == if EmailTaken(old(db.users), merged.email, Canon(id)) then Err(Internal(ServerError)) else Ok(merged)
      ensures r.Err? ==> db.users == old(db.users)
      ensures r.Ok? ==> db.users == old(db.users)[Canon(id) := r.value]
    {
      var found := FindById(db.Snapshot(), id);
      if found.Err? {
        return found;
      }
      var user := Merge(found.value, dto);
      if EmailTaken(db.users, user.email, user.id) {
        return Err(Internal(ServerError));
      }
      db.users := db.users[user.id := user];
      r := Ok(user);
    }

    /** `remove`: NotFound when no user has the id; otherwise the row goes,
        and the schema's `ON DELETE SET NULL` clears the author reference of
        every blog that user wrote. The like relation is left as it was. */
    method Remove(id: Id) returns (r: Result<()>)
      requires db.Valid()
      modifies db`users, db`blogs
      ensures db.Valid()
      ensures r.Err? <==> Canon(id) !in old(db.users)
      ensures r.Err? ==> r.error == NotFound(UserNotFound) && db.users == old(db.users) && db.blogs == old(db.blogs)
      ensures r.Ok? ==> db.users == old(db.users) - {Canon(id)} && db.blogs == BlogEntity.DetachAuthor(old(db.blogs), Canon(id))
    {
      var key := Canon(id);
      if key !in db.users {
        return Err(NotFound(UserNotFound));
      }
      db.users := db.users - {key};
      db.blogs := BlogEntity.DetachAuthor(db.blogs, key);
      r := Ok(());
    }
  }
}
