/** A row of the `users` table, its enumerations and defaults, and the two
    payloads the user service accepts. */
module UserEntity {
  import opened Common

  /** `'user'` and `'admin'`. */
  datatype UserRole = Regular | Admin

  /** `'active'` and `'inactive'`. */
  datatype UserStatus = Active | Inactive

  /** The column default of `role`. */
  const DefaultRole: UserRole := Regular

  /** The column default of `status`. */
  const DefaultStatus: UserStatus := UserStatus.Active

  /** `email` is unique across the table; `id` is generated. */
  datatype User = User(id: Id, email: string, name: string, role: UserRole, status: UserStatus)

  /** The body of `POST /users`; `role` and `status` may be omitted. */
  datatype CreateUserDto = CreateUserDto(email: string, name: string, role: Option<UserRole>, status: Option<UserStatus>)

  /** The body of `PUT /users/:id`: every field of the create payload, each
      optional. */
  datatype UpdateUserDto = UpdateUserDto(email: Option<string>, name: Option<string>, role: Option<UserRole>, status: Option<UserStatus>)

  /** The row a create payload becomes once the table's defaults are filled
      in. */
  function NewUser(id: Id, dto: CreateUserDto): (u: User)
    ensures u.id == id && u.email == dto.email && u.name == dto.name
    ensures dto.role.None? ==> u.role == Regular
    ensures dto.role.Some? ==> u.role == dto.role.value
    ensures dto.status.None? ==> u.status == UserStatus.Active
    ensures dto.status.Some? ==> u.status == dto.status.value
  {
    User(id, dto.email, dto.name, dto.role.GetOr(DefaultRole), dto.status.GetOr(DefaultStatus))
  }

  /** `Object.assign(user, updateDto)`: every field present in the payload
      overwrites the row's, every absent one is left alone, and the id is
      never touched. */
  function Merge(u: User, dto: UpdateUserDto): (r: User)
    ensures r.id == u.id
    ensures r.email == (if dto.email.Some? then dto.email.value else u.email)
    ensures r.name == (if dto.name.Some? then dto.name.value else u.name)
    ensures r.role == (if dto.role.Some? then dto.role.value else u.role)
    ensures r.status == (if dto.status.Some? then dto.status.value else u.status)
  {
    u.(email := dto.email.GetOr(u.email),
       name := dto.name.GetOr(u.name),
       role := dto.role.GetOr(u.role),
       status := dto.status.GetOr(u.status))
  }

  /** Applying the same payload twice is applying it once. */
  lemma MergeIdempotent(u: User, dto: UpdateUserDto)
    ensures Merge(Merge(u, dto), dto) == Merge(u, dto)
  {
  }

  /** A payload that carries no field leaves the row as it was. */
  lemma MergeNothing(u: User)
    ensures Merge(u, UpdateUserDto(None, None, None, None)) == u
  {
  }
}
