/** The stored records (backend/models.py) and the request and response bodies
    (backend/schemas.py). Timestamps are abstract instants: larger is later. */
module Records {
  import opened Common

  // ---------------------------------------------------------------- models.py

  const UsernameMax: nat := 50
  const EmailMax: nat := 100
  const HashMax: nat := 255
  const FenMax: nat := 100
  const CategoryMax: nat := 50
  const ImagePathMax: nat := 255

  datatype User = User(id: int, username: string, email: string,
                       hashedPassword: string, createdAt: int)

  /** A row of the positions table. `fen` is NOT NULL, so a stored row always has one. */
  datatype Position = Position(id: int, userId: int, fen: string,
                               category: Option<string>, notes: Option<string>,
                               imagePath: Option<string>, createdAt: int)

  /** An optional VARCHAR(n) column. */
  predicate FitsOptional(s: Option<string>, max: nat)
  {
    s.None? || |s.value| <= max
  }

  /** The declared column widths of the users table. */
  predicate UserColumnsOk(u: User)
  {
    |u.username| <= UsernameMax && |u.email| <= EmailMax && |u.hashedPassword| <= HashMax
  }

  /** The declared column widths of the positions table; notes are TEXT. */
  predicate PositionColumnsOk(p: Position)
  {
    |p.fen| <= FenMax && FitsOptional(p.category, CategoryMax) && FitsOptional(p.imagePath, ImagePathMax)
  }

  // --------------------------------------------------------------- schemas.py

  /** `PositionCreate`, which is `PositionBase` with nothing added. */
  datatype PositionCreate = PositionCreate(fen: string, category: Option<string>,
                                           notes: Option<string>, imagePath: Option<string>)

  /** The body with only `fen` given: the other fields default to None. */
  function CreateWithFen(fen: string): (c: PositionCreate)
    ensures c.fen == fen && c.category.None? && c.notes.None? && c.imagePath.None?
  {
    PositionCreate(fen, None, None, None)
  }

  /** A field of a partial update: left out of the request, or sent (possibly as null).
      `model_dump(exclude_unset=True)` keeps exactly the sent ones. */
  datatype Field<T> = Unset | Sent(value: Option<T>)

  /** `PositionUpdate`: fen, category and notes, each optional. There is no
      image_path field, so an update cannot change it. */
  datatype PositionUpdate = PositionUpdate(fen: Field<string>, category: Field<string>,
                                           notes: Field<string>)

  /** `PositionResponse`: the `PositionBase` fields plus id, user_id and created_at. */
  datatype PositionResponse = PositionResponse(fen: string, category: Option<string>,
                                               notes: Option<string>, imagePath: Option<string>,
                                               id: int, userId: int, createdAt: int)

  function ToPositionResponse(p: Position): (r: PositionResponse)
    ensures r.id == p.id && r.userId == p.userId && r.createdAt == p.createdAt
    ensures r.fen == p.fen && r.category == p.category && r.notes == p.notes
    ensures r.imagePath == p.imagePath
  {
    PositionResponse(p.fen, p.category, p.notes, p.imagePath, p.id, p.userId, p.createdAt)
  }

  function FromPositionResponse(r: PositionResponse): Position
  {
    Position(r.id, r.userId, r.fen, r.category, r.notes, r.imagePath, r.createdAt)
  }

  /** The response drops no column of the row: the row can be rebuilt from it. */
  lemma PositionResponseLossless(p: Position)
    ensures FromPositionResponse(ToPositionResponse(p)) == p
  {
  }

  /** `UserCreate`: username, email and the plain password. */
  datatype UserCreate = UserCreate(username: string, email: string, password: string)

  /** `UserResponse`: id, username, email and created_at, and no password. */
  datatype UserResponse = UserResponse(id: int, username: string, email: string, createdAt: int)

  function ToUserResponse(u: User): (r: UserResponse)
    ensures r.id == u.id && r.username == u.username && r.email == u.email
    ensures r.createdAt == u.createdAt
  {
    UserResponse(u.id, u.username, u.email, u.createdAt)
  }

  /** The user response does not depend on the stored password hash. */
  lemma UserResponseHidesPassword(u: User, otherHash: string)
    ensures ToUserResponse(u) == ToUserResponse(u.(hashedPassword := otherHash))
  {
  }
}
