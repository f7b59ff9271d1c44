/** A row of the `blogs` table, its status enumeration and default, the
    payloads the blog service accepts, and the `ON DELETE SET NULL` rule of
    the author reference. */
module BlogEntity {
  import opened Common

  /** `'active'` and `'inactive'`. */
  datatype BlogStatus = Active | Inactive

  /** The column default of `status`. */
  const DefaultStatus: BlogStatus := BlogStatus.Active

  /** `authorId` is nullable: `None` is SQL `NULL`. */
  datatype Blog = Blog(id: Id, title: string, description: string, status: BlogStatus, authorId: Option<Id>)

  /** The body of `POST /blogs`; `status` may be omitted, `authorId` may not. */
  datatype CreateBlogDto = CreateBlogDto(title: string, description: string, status: Option<BlogStatus>, authorId: Id)

  /** The body of `PUT /blogs/:id`: every field optional. */
  datatype UpdateBlogDto = UpdateBlogDto(title: Option<string>, description: Option<string>, status: Option<BlogStatus>, authorId: Option<Id>)

  /** `blog.authorId && blog.authorId === userId`: the self-like test as the
      service writes it. A null or empty author reference never matches, and
      the comparison is of the raw text of `userId`, not of the `uuid` the
      database reads from it. */
  predicate AuthoredBy(b: Blog, userId: Id)
  {
    b.authorId.Some? && b.authorId.value != "" && b.authorId.value == userId
  }

  /** The self-like test as intended: the user the service looked up under
      `userId` is the blog's author, however `userId` was spelled. */
  predicate WrittenBy(b: Blog, userId: Id): (r: bool)
    ensures r <==> userId != "" && b.authorId == Some(Canon(userId))
  {
    AuthoredBy(b, Canon(userId))
  }

  /** On ids in the form the database returns, the two tests agree. */
  lemma WrittenByAgrees(b: Blog, userId: Id)
    requires IsCanonical(userId)
    ensures WrittenBy(b, userId) <==> AuthoredBy(b, userId)
  {
  }

  /** The test as written lets an author through when their id is spelled
      in upper case: the database finds the user, but the text differs from
      the stored author id. */
  lemma SelfLikeTestMissesUpperCase()
    ensures var b := Blog("b1", "T", "D", BlogStatus.Active, Some("ab"));
      !AuthoredBy(b, "AB") && WrittenBy(b, "AB")
  {
    CanonIgnoresCase("AB", "ab");
  }

  /** `UPDATE blogs SET ...updateDto`: every field present in the payload
      overwrites the row's, every absent one is left alone, and the id is
      never touched. A new author id is stored as the database reads it. */
  function Merge(b: Blog, dto: UpdateBlogDto): (r: Blog)
    ensures r.id == b.id
    ensures r.title == (if dto.title.Some? then dto.title.value else b.title)
    ensures r.description == (if dto.description.Some? then dto.description.value else b.description)
    ensures r.status == (if dto.status.Some? then dto.status.value else b.status)
    ensures r.authorId == (if dto.authorId.Some? then Some(Canon(dto.authorId.value)) else b.authorId)
  {
    b.(title := dto.title.GetOr(b.title),
       description := dto.description.GetOr(b.description),
       status := dto.status.GetOr(b.status),
       authorId := if dto.authorId.Some? then Some(Canon(dto.authorId.value)) else b.authorId)
  }

  /** Applying the same payload twice is applying it once. */
  lemma MergeIdempotent(b: Blog, dto: UpdateBlogDto)
    ensures Merge(Merge(b, dto), dto) == Merge(b, dto)
  {
  }

  /** The payload that sets nothing: `UPDATE` refuses it. */
  predicate EmptyUpdate(dto: UpdateBlogDto)
  {
    dto == UpdateBlogDto(None, None, None, None)
  }

  /** What `ON DELETE SET NULL` does to the blogs table when the user
      `userId` is deleted: no blog refers to that user any more, every blog
      that did has lost only its author reference, and every other blog is
      untouched; no blog is added or removed. */
  function DetachAuthor(blogs: map<Id, Blog>, userId: Id): (r: map<Id, Blog>)
    ensures r.Keys == blogs.Keys
    ensures forall k | k in r :: r[k].authorId != Some(userId)
    ensures forall k | k in blogs && blogs[k].authorId == Some(userId) :: r[k] == blogs[k].(authorId := None)
    ensures forall k | k in blogs && blogs[k].authorId != Some(userId) :: r[k] == blogs[k]
  {
    map k | k in blogs :: if blogs[k].authorId == Some(userId) then blogs[k].(authorId := None) else blogs[k]
  }
}
