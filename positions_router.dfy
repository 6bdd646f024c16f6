/** The saved-position endpoints (backend/routers/positions.py), every one scoped
    to the user the request is authenticated as. */
module PositionsRouter {
  import opened Common
  import opened Seqs
  import opened Records
  import opened Database

  const NotFoundDetail: string := "Position not found"
  /** The detail FastAPI gives an exception the handler does not catch, such as a
      failed commit. */
  const ServerErrorDetail: string := "Internal Server Error"

  // ------------------------------------------------------------ get_positions

  /** The `where` clauses: the owner, and the category only when one is given;
      None and "" both mean no category filter. */
  predicate Matches(p: Position, userId: int, category: Option<string>)
  {
    p.userId == userId && (!Present(category) || p.category == category)
  }

  function Selected(rows: seq<Position>, userId: int, category: Option<string>): seq<Position>
  {
    FilterBy(rows, (p: Position) => Matches(p, userId, category))
  }

  /** `order_by(desc(created_at))`. */
  predicate NewestFirst(rows: seq<Position>)
  {
    forall i, j :: 0 <= i < j < |rows| ==> rows[i].createdAt >= rows[j].createdAt
  }

  /** A row at least as new as the head of a newest-first list can go in front. */
  lemma PrependNewest(h: Position, rest: seq<Position>)
    requires NewestFirst(rest)
    requires |rest| > 0 ==> h.createdAt >= rest[0].createdAt
    ensures NewestFirst([h] + rest)
  {
    var r := [h] + rest;
    forall i, j | 0 <= i < j < |r|
      ensures r[i].createdAt >= r[j].createdAt
    {
      assert r[j] == rest[j - 1];
      if i == 0 {
        assert rest[0].createdAt >= rest[j - 1].createdAt;
      } else {
        assert r[i] == rest[i - 1];
      }
    }
  }

  /** The tail of a newest-first list is newest first. */
  lemma NewestFirstTail(sorted: seq<Position>)
    requires NewestFirst(sorted) && |sorted| > 0
    ensures NewestFirst(sorted[1..])
  {
    forall i, j | 0 <= i < j < |sorted| - 1
      ensures sorted[1..][i].createdAt >= sorted[1..][j].createdAt
    {
      assert sorted[1..][i] == sorted[i + 1] && sorted[1..][j] == sorted[j + 1];
    }
  }

  /** Places a row before the first row that is not newer than it. */
  function InsertNewestFirst(x: Position, sorted: seq<Position>): (r: seq<Position>)
    requires NewestFirst(sorted)
    ensures NewestFirst(r)
    ensures multiset(r) == multiset(sorted) + multiset{x}
    ensures |sorted| == 0 ==> r == [x]
    ensures |sorted| > 0 ==> r[0] == x || r[0] == sorted[0]
    decreases |sorted|
  {
    if |sorted| == 0 || x.createdAt >= sorted[0].createdAt then
      PrependNewest(x, sorted);
      [x] + sorted
    else
      NewestFirstTail(sorted);
      var rest := InsertNewestFirst(x, sorted[1..]);
      InsertBehindHead(x, sorted, rest);
      [sorted[0]] + rest
  }

  /** The recursive case of the insertion: a row older than the head goes into the
      tail, and the head stays in front. */
  lemma InsertBehindHead(x: Position, sorted: seq<Position>, rest: seq<Position>)
    requires NewestFirst(sorted) && |sorted| > 0 && x.createdAt < sorted[0].createdAt
    requires NewestFirst(rest) && multiset(rest) == multiset(sorted[1..]) + multiset{x}
    requires |sorted| == 1 ==> rest == [x]
    requires |sorted| > 1 ==> rest[0] == x || rest[0] == sorted[1..][0]
    ensures NewestFirst([sorted[0]] + rest)
    ensures multiset([sorted[0]] + rest) == multiset(sorted) + multiset{x}
  {
    if |sorted| > 1 {
      assert sorted[0].createdAt >= sorted[1].createdAt;
    }
    PrependNewest(sorted[0], rest);
    calc {
      multiset([sorted[0]] + rest);
      multiset{sorted[0]} + multiset(rest);
      multiset{sorted[0]} + multiset(sorted[1..]) + multiset{x};
      { assert sorted == [sorted[0]] + sorted[1..]; }
      multiset(sorted) + multiset{x};
    }
  }

  /** Taking one more row into the query adds it when it matches. */
  lemma SelectedSnoc(rows: seq<Position>, i: nat, userId: int, category: Option<string>)
    requires i < |rows|
    ensures multiset(Selected(rows[..i + 1], userId, category)) ==
      multiset(Selected(rows[..i], userId, category)) +
      (if Matches(rows[i], userId, category) then multiset{rows[i]} else multiset{})
  {
    var keep := (p: Position) => Matches(p, userId, category);
    assert rows[..i + 1] == rows[..i] + [rows[i]];
    FilterAppend(rows[..i], [rows[i]], keep);
    assert FilterBy([rows[i]], keep) == if keep(rows[i]) then [rows[i]] else [];
  }

  /** A row is selected exactly when it is in the table and matches. */
  lemma InSelected(rows: seq<Position>, userId: int, category: Option<string>, p: Position)
    ensures p in multiset(Selected(rows, userId, category)) <==> p in rows && Matches(p, userId, category)
  {
    FilterMultiset(rows, (q: Position) => Matches(q, userId, category), p);
  }

  /** The query of `get_positions`: the selected rows, newest first. */
  method Query(rows: seq<Position>, userId: int, category: Option<string>) returns (result: seq<Position>)
    ensures NewestFirst(result)
    ensures multiset(result) == multiset(Selected(rows, userId, category))
    ensures forall k :: 0 <= k < |result| ==> result[k].userId == userId
    ensures Present(category) ==> forall k :: 0 <= k < |result| ==> result[k].category == category
    ensures forall k :: 0 <= k < |rows| && Matches(rows[k], userId, category) ==> rows[k] in result
  {
    result := SortSelected(rows, userId, category);
    SelectedFacts(rows, userId, category, result);
  }

  /** The selection and the ordering as one pass: each matching row is inserted
      into a newest-first list. */
  method SortSelected(rows: seq<Position>, userId: int, category: Option<string>) returns (result: seq<Position>)
    ensures NewestFirst(result)
    ensures multiset(result) == multiset(Selected(rows, userId, category))
  {
    SelectedBeforeEnds(rows, userId, category);
    result := [];
    var i := 0;
    while i < |rows|
      invariant i <= |rows|
      invariant NewestFirst(result)
      invariant multiset(result) == SelectedBefore(rows, i, userId, category)
    {
      var next := result;
      if Matches(rows[i], userId, category) {
        next := InsertNewestFirst(rows[i], result);
      }
      QueryStep(rows, i, userId, category, result, next);
      result, i := next, i + 1;
    }
  }

  /** The rows the query has selected after looking at the first `i`. */
  ghost function SelectedBefore(rows: seq<Position>, i: nat, userId: int, category: Option<string>): multiset<Position>
    requires i <= |rows|
  {
    multiset(Selected(rows[..i], userId, category))
  }

  /** Before the first row nothing is selected; after the last, the whole selection is. */
  lemma SelectedBeforeEnds(rows: seq<Position>, userId: int, category: Option<string>)
    ensures SelectedBefore(rows, 0, userId, category) == multiset{}
    ensures SelectedBefore(rows, |rows|, userId, category) == multiset(Selected(rows, userId, category))
  {
    assert rows[..0] == [];
    assert rows[..|rows|] == rows;
  }

  /** One iteration of the query loop keeps its invariant: the list, with the row
      inserted when it matches, is newest first and holds the rows selected so far. */
  lemma QueryStep(rows: seq<Position>, i: nat, userId: int, category: Option<string>,
                  result: seq<Position>, next: seq<Position>)
    requires i < |rows| && NewestFirst(result)
    requires multiset(result) == SelectedBefore(rows, i, userId, category)
    requires Matches(rows[i], userId, category) ==> next == InsertNewestFirst(rows[i], result)
    requires !Matches(rows[i], userId, category) ==> next == result
    ensures NewestFirst(next)
    ensures multiset(next) == SelectedBefore(rows, i + 1, userId, category)
  {
    SelectedSnoc(rows, i, userId, category);
  }

  /** What a list with the selected rows' multiset holds: only matching rows, and
      every matching row. */
  lemma SelectedFacts(rows: seq<Position>, userId: int, category: Option<string>, result: seq<Position>)
    requires multiset(result) == multiset(Selected(rows, userId, category))
    ensures forall k :: 0 <= k < |result| ==> Matches(result[k], userId, category)
    ensures forall k :: 0 <= k < |result| ==> result[k].userId == userId
    ensures Present(category) ==> forall k :: 0 <= k < |result| ==> result[k].category == category
    ensures forall k :: 0 <= k < |rows| && Matches(rows[k], userId, category) ==> rows[k] in result
  {
    forall k | 0 <= k < |result|
      ensures Matches(result[k], userId, category)
    {
      assert result[k] in multiset(result);
      InSelected(rows, userId, category, result[k]);
    }
    forall k | 0 <= k < |rows| && Matches(rows[k], userId, category)
      ensures rows[k] in result
    {
      InSelected(rows, userId, category, rows[k]);
      assert rows[k] in multiset(result);
    }
  }

  /** `get_positions`: the current user's positions, optionally of one category,
      newest first. The table is only read. */
  method GetPositions(db: Db, userId: int, category: Option<string>) returns (result: seq<Position>)
    ensures NewestFirst(result)
    ensures multiset(result) == multiset(Selected(db.positions, userId, category))
  {
    result := Query(db.positions, userId, category);
  }

  // ---------------------------------------------------------- create_position

  /** `create_position`: the payload's fields, with the owner forced to the current
      user whatever the payload says. */
  method CreatePosition(db: Db, userId: int, payload: PositionCreate, now: int)
    returns (r: Result<PositionResponse, HttpError>)
    requires db.Valid()
    modifies db
    ensures db.Valid()
    ensures var p := Position(old(db.nextPositionId), userId, payload.fen, payload.category,
                              payload.notes, payload.imagePath, now);
      if CanInsertPosition(old(db.users), p) then
        r == Ok(ToPositionResponse(p)) && db.positions == old(db.positions) + [p]
      else
        r == Err(Fail(500, ServerErrorDetail)) && db.positions == old(db.positions)
    ensures db.users == old(db.users)
  {
    var inserted := db.InsertPosition(userId, payload.fen, payload.category, payload.notes,
                                      payload.imagePath, now);
    if inserted.None? {
      return Err(Fail(500, ServerErrorDetail));
    }
    r := Ok(ToPositionResponse(inserted.value));
  }

  // ----------------------------------------------------------- update_position

  /** The attributes of the session object an update can set. `fen` is optional here
      because an update can set it to None before the commit refuses it. */
  datatype Editable = Editable(fen: Option<string>, category: Option<string>, notes: Option<string>)

  datatype FieldName = FenField | CategoryField | NotesField

  /** The position of a field in the declaration of `PositionUpdate`. */
  function DeclarationIndex(f: FieldName): nat
  {
    match f
    case FenField => 0
    case CategoryField => 1
    case NotesField => 2
  }

  /** `update_data.model_dump(exclude_unset=True).items()`: the sent fields, explicit
      nulls included, in declaration order. Every listed field was sent and carries
      the sent value, every sent field is listed, and none twice. */
  function SentFields(u: PositionUpdate): (items: seq<(FieldName, Option<string>)>)
    ensures |items| <= 3
    ensures (u.fen.Sent? && u.category.Sent? && u.notes.Sent?) <==> |items| == 3
    ensures u.fen.Unset? && u.category.Unset? && u.notes.Unset? <==> items == []
    ensures forall k :: 0 <= k < |items| ==>
      (items[k].0 == FenField ==> u.fen.Sent? && items[k].1 == u.fen.value) &&
      (items[k].0 == CategoryField ==> u.category.Sent? && items[k].1 == u.category.value) &&
      (items[k].0 == NotesField ==> u.notes.Sent? && items[k].1 == u.notes.value)
    ensures u.fen.Sent? ==> (FenField, u.fen.value) in items
    ensures u.category.Sent? ==> (CategoryField, u.category.value) in items
    ensures u.notes.Sent? ==> (NotesField, u.notes.value) in items
    ensures forall k, l :: 0 <= k < l < |items| ==>
      DeclarationIndex(items[k].0) < DeclarationIndex(items[l].0)
  {
    (if u.fen.Sent? then [(FenField, u.fen.value)] else []) +
    (if u.category.Sent? then [(CategoryField, u.category.value)] else []) +
    (if u.notes.Sent? then [(NotesField, u.notes.value)] else [])
  }

  /** `setattr(position, key, value)`. */
  function SetField(e: Editable, item: (FieldName, Option<string>)): Editable
  {
    match item.0
    case FenField => e.(fen := item.1)
    case CategoryField => e.(category := item.1)
    case NotesField => e.(notes := item.1)
  }

  function ApplyItems(e: Editable, items: seq<(FieldName, Option<string>)>): Editable
    decreases |items|
  {
    if |items| == 0 then e else ApplyItems(SetField(e, items[0]), items[1..])
  }

  /** What a partial update means: each sent field takes its value, explicit null
      included, and every field left out keeps its old value. */
  function Updated(e: Editable, u: PositionUpdate): Editable
  {
    Editable(if u.fen.Sent? then u.fen.value else e.fen,
             if u.category.Sent? then u.category.value else e.category,
             if u.notes.Sent? then u.notes.value else e.notes)
  }

  /** The `setattr` loop over the sent fields performs exactly the partial update. */
  lemma ApplySentFields(e: Editable, u: PositionUpdate)
    ensures ApplyItems(e, SentFields(u)) == Updated(e, u)
  {
    var f := if u.fen.Sent? then [(FenField, u.fen.value)] else [];
    var c := if u.category.Sent? then [(CategoryField, u.category.value)] else [];
    var n := if u.notes.Sent? then [(NotesField, u.notes.value)] else [];
    ApplyAppend(e, f, c + n);
    ApplyAppend(ApplyItems(e, f), c, n);
    assert f + c + n == f + (c + n);
  }

  lemma {:induction false} ApplyAppend(e: Editable, a: seq<(FieldName, Option<string>)>,
                                       b: seq<(FieldName, Option<string>)>)
    ensures ApplyItems(e, a + b) == ApplyItems(ApplyItems(e, a), b)
    decreases |a|
  {
    if |a| == 0 {
      assert a + b == b;
    } else {
      ApplyAppend(SetField(e, a[0]), a[1..], b);
      assert (a + b)[1..] == a[1..] + b;
    }
  }

  /** The loop `for key, value in update_dict.items(): setattr(position, key, value)`. */
  method ApplyUpdate(e: Editable, items: seq<(FieldName, Option<string>)>) returns (out: Editable)
    ensures out == ApplyItems(e, items)
  {
    out := e;
    var i := 0;
    while i < |items|
      invariant i <= |items|
      invariant ApplyItems(out, items[i..]) == ApplyItems(e, items)
    {
      assert items[i..][1..] == items[i + 1..];
      out := SetField(out, items[i]);
      i := i + 1;
    }
  }

  function EditableOf(p: Position): Editable
  {
    Editable(Some(p.fen), p.category, p.notes)
  }

  /** The row an update would store, or None when it sets the NOT NULL `fen` to null.
      The id, owner, image path and creation time never change. */
  function Edited(p: Position, u: PositionUpdate): (r: Option<Position>)
    ensures r.None? <==> u.fen == Sent(None)
    ensures r.Some? ==> r.value.id == p.id && r.value.userId == p.userId
    ensures r.Some? ==> r.value.imagePath == p.imagePath && r.value.createdAt == p.createdAt
  {
    var e := Updated(EditableOf(p), u);
    if e.fen.None? then None
    else Some(Position(p.id, p.userId, e.fen.value, e.category, e.notes, p.imagePath, p.createdAt))
  }

  /** An update that sends nothing leaves the row as it is. */
  lemma EmptyUpdateKeepsRow(p: Position)
    ensures Edited(p, PositionUpdate(Unset, Unset, Unset)) == Some(p)
  {
  }

  /** Sending the same update twice stores the same row as sending it once. */
  lemma UpdateIdempotent(p: Position, u: PositionUpdate)
    requires Edited(p, u).Some?
    ensures Edited(Edited(p, u).value, u) == Edited(p, u)
  {
  }

  /** A field that was sent takes the sent value; a field left out keeps the stored one. */
  lemma EditedFields(p: Position, u: PositionUpdate)
    requires Edited(p, u).Some?
    ensures u.fen.Sent? ==> Some(Edited(p, u).value.fen) == u.fen.value
    ensures u.fen.Unset? ==> Edited(p, u).value.fen == p.fen
    ensures Edited(p, u).value.category == (if u.category.Sent? then u.category.value else p.category)
    ensures Edited(p, u).value.notes == (if u.notes.Sent? then u.notes.value else p.notes)
  {
  }

  /** The row with that id owned by that user exists. */
  predicate Owned(rows: seq<Position>, positionId: int, userId: int)
  {
    exists k :: 0 <= k < |rows| && rows[k].id == positionId && rows[k].userId == userId
  }

  /** `select … where id == position_id and user_id == current_user.id` and `.first()`. */
  method FindOwned(rows: seq<Position>, positionId: int, userId: int) returns (found: Option<nat>)
    ensures found.None? <==> !Owned(rows, positionId, userId)
    ensures found.Some? ==> found.value < |rows|
    ensures found.Some? ==> rows[found.value].id == positionId && rows[found.value].userId == userId
  {
    var i := 0;
    while i < |rows|
      invariant i <= |rows|
      invariant forall k :: 0 <= k < i ==> !(rows[k].id == positionId && rows[k].userId == userId)
    {
      if rows[i].id == positionId && rows[i].userId == userId {
        return Some(i);
      }
      i := i + 1;
    }
    return None;
  }

  /** `update_position`: 404 with no change unless the current user owns the row;
      otherwise the sent fields are written, and a commit that breaks a column
      constraint (a null fen, an over-long value) fails with 500 and no change. */
  method UpdatePosition(db: Db, userId: int, positionId: int, update: PositionUpdate)
    returns (r: Result<PositionResponse, HttpError>)
    requires db.Valid()
    modifies db
    ensures db.Valid()
    ensures !Owned(old(db.positions), positionId, userId) ==>
      r == Err(Fail(404, NotFoundDetail)) && db.positions == old(db.positions)
    ensures forall k | 0 <= k < |old(db.positions)| && old(db.positions)[k].id == positionId &&
                       old(db.positions)[k].userId == userId ::
      var e := Edited(old(db.positions)[k], update);
      if e.Some? && PositionColumnsOk(e.value) then
        r == Ok(ToPositionResponse(e.value)) && db.positions == old(db.positions)[k := e.value]
      else
        r == Err(Fail(500, ServerErrorDetail)) && db.positions == old(db.positions)
    ensures db.users == old(db.users)
  {
    var found := FindOwned(db.positions, positionId, userId);
    if found.None? {
      return Err(Fail(404, NotFoundDetail));
    }
    var i := found.value;
    var position := db.positions[i];
    var items := SentFields(update);
    var e := ApplyUpdate(EditableOf(position), items);
    ApplySentFields(EditableOf(position), update);
    if e.fen.None? {
      return Err(Fail(500, ServerErrorDetail));
    }
    var row := Position(position.id, position.userId, e.fen.value, e.category, e.notes,
                        position.imagePath, position.createdAt);
    assert Edited(position, update) == Some(row);
    var committed := db.ReplacePosition(i, row);
    if !committed {
      return Err(Fail(500, ServerErrorDetail));
    }
    r := Ok(ToPositionResponse(row));
  }

  // ----------------------------------------------------------- delete_position

  /** Removal by id distributes over concatenation. */
  lemma WithoutIdAppend(a: seq<Position>, b: seq<Position>, id: int)
    ensures WithoutId(a + b, id) == WithoutId(a, id) + WithoutId(b, id)
  {
    FilterAppend(a, b, (p: Position) => p.id != id);
  }

  /** Removing an id no row has changes nothing. */
  lemma WithoutIdAbsent(a: seq<Position>, id: int)
    requires forall i :: 0 <= i < |a| ==> a[i].id != id
    ensures WithoutId(a, id) == a
  {
    FilterKeepsAll(a, (p: Position) => p.id != id);
  }

  /** In a table with unique ids, no row other than the k-th has its id. */
  lemma OnlyRowWithId(rows: seq<Position>, k: nat, lo: nat, hi: nat)
    requires PositionIdsUnique(rows) && k < |rows|
    requires lo <= hi <= |rows| && (hi <= k || k < lo)
    ensures WithoutId(rows[lo..hi], rows[k].id) == rows[lo..hi]
  {
    var part := rows[lo..hi];
    forall i | 0 <= i < |part|
      ensures part[i].id != rows[k].id
    {
      assert part[i] == rows[lo + i];
    }
    WithoutIdAbsent(part, rows[k].id);
  }

  /** A row followed by rows with other ids: removing its id leaves those rows. */
  lemma WithoutIdDropsHead(p: Position, after: seq<Position>)
    requires forall i :: 0 <= i < |after| ==> after[i].id != p.id
    ensures WithoutId([p] + after, p.id) == after
  {
    var rows := [p] + after;
    assert forall i :: 0 < i < |rows| ==> rows[i] == after[i - 1];
    FilterRemovesOne(rows, (q: Position) => q.id != p.id, 0);
    assert rows[1..] == after;
  }

  /** In a table with unique ids, removing the row at k is removing that id. */
  lemma RemoveAtIsRemoveId(rows: seq<Position>, k: nat)
    requires PositionIdsUnique(rows) && k < |rows|
    ensures rows[..k] + rows[k + 1..] == WithoutId(rows, rows[k].id)
  {
    FilterRemovesOne(rows, (q: Position) => q.id != rows[k].id, k);
  }

  /** `delete_position`: 404 with no change unless the current user owns the row;
      otherwise exactly that row goes and the others keep their order. */
  method DeletePosition(db: Db, userId: int, positionId: int) returns (err: Option<HttpError>)
    requires db.Valid()
    modifies db
    ensures db.Valid()
    ensures !Owned(old(db.positions), positionId, userId) ==>
      err == Some(Fail(404, NotFoundDetail)) && db.positions == old(db.positions)
    ensures Owned(old(db.positions), positionId, userId) ==>
      err.None? && db.positions == WithoutId(old(db.positions), positionId)
    ensures db.users == old(db.users)
  {
    var found := FindOwned(db.positions, positionId, userId);
    if found.None? {
      return Some(Fail(404, NotFoundDetail));
    }
    RemoveAtIsRemoveId(db.positions, found.value);
    db.RemovePositionAt(found.value);
    err := None;
  }
}
