/** The users and positions tables behind the session (backend/models.py): each
    insert is an `add` followed by a `commit`, and a commit that would break a
    declared constraint (unique, NOT NULL, VARCHAR width, foreign key) fails and
    leaves both tables as they were. */
module Database {
  import opened Common
  import opened Seqs
  import opened Records

  predicate UsersUnique(users: seq<User>)
  {
    forall i, j :: 0 <= i < j < |users| ==>
      users[i].id != users[j].id && users[i].username != users[j].username &&
      users[i].email != users[j].email
  }

  predicate PositionIdsUnique(positions: seq<Position>)
  {
    forall i, j :: 0 <= i < j < |positions| ==> positions[i].id != positions[j].id
  }

  predicate HasUser(users: seq<User>, id: int)
  {
    exists i :: 0 <= i < |users| && users[i].id == id
  }

  /** Some stored user already has the username or the email. */
  predicate Taken(users: seq<User>, username: string, email: string)
  {
    exists i :: 0 <= i < |users| && (users[i].username == username || users[i].email == email)
  }

  /** Every declared constraint of both tables, and ids below the next ones to hand out. */
  predicate TablesValid(users: seq<User>, positions: seq<Position>, nextUserId: int, nextPositionId: int)
  {
    0 < nextUserId && 0 < nextPositionId &&
    UsersUnique(users) && PositionIdsUnique(positions) &&
    (forall i :: 0 <= i < |users| ==> 0 < users[i].id < nextUserId && UserColumnsOk(users[i])) &&
    (forall i :: 0 <= i < |positions| ==>
       0 < positions[i].id < nextPositionId && PositionColumnsOk(positions[i]) &&
       HasUser(users, positions[i].userId))
  }

  /** Whether a commit of the new user succeeds. */
  predicate CanInsertUser(users: seq<User>, u: User)
  {
    UserColumnsOk(u) && !Taken(users, u.username, u.email)
  }

  /** Whether a commit of the new position succeeds. */
  predicate CanInsertPosition(users: seq<User>, p: Position)
  {
    PositionColumnsOk(p) && HasUser(users, p.userId)
  }

  /** The positions left when a user is deleted: `cascade="all, delete-orphan"`
      removes every position the user owns and nothing else. */
  function Cascade(positions: seq<Position>, userId: int): (r: seq<Position>)
    ensures forall i :: 0 <= i < |r| ==> r[i].userId != userId && r[i] in positions
    ensures forall i :: 0 <= i < |positions| && positions[i].userId != userId ==> positions[i] in r
  {
    FilterMembers(positions, (p: Position) => p.userId != userId);
    FilterBy(positions, (p: Position) => p.userId != userId)
  }

  /** The table without the rows that have the id: every other row stays. */
  function WithoutId(positions: seq<Position>, id: int): (r: seq<Position>)
    ensures forall i :: 0 <= i < |r| ==> r[i].id != id && r[i] in positions
    ensures forall i :: 0 <= i < |positions| && positions[i].id != id ==> positions[i] in r
    ensures forall p :: multiset(r)[p] == if p.id != id then multiset(positions)[p] else 0
  {
    FilterMembers(positions, (p: Position) => p.id != id);
    FilterCounts(positions, (p: Position) => p.id != id);
    FilterBy(positions, (p: Position) => p.id != id)
  }

  function WithoutUser(users: seq<User>, userId: int): (r: seq<User>)
    ensures forall i :: 0 <= i < |r| ==> r[i].id != userId && r[i] in users
    ensures forall i :: 0 <= i < |users| && users[i].id != userId ==> users[i] in r
  {
    FilterMembers(users, (u: User) => u.id != userId);
    FilterBy(users, (u: User) => u.id != userId)
  }

  /** Removing users keeps the remaining ids, usernames and emails unique. */
  lemma WithoutUserUnique(users: seq<User>, userId: int)
    requires UsersUnique(users)
    ensures UsersUnique(WithoutUser(users, userId))
  {
    var us := WithoutUser(users, userId);
    var ui := FilterIndices(users, (u: User) => u.id != userId);
    forall i, j | 0 <= i < j < |us|
      ensures us[i].id != us[j].id && us[i].username != us[j].username && us[i].email != us[j].email
    {
      assert us[i] == users[ui[i]] && us[j] == users[ui[j]];
    }
  }

  /** Removing positions keeps the remaining ids unique. */
  lemma CascadeIdsUnique(positions: seq<Position>, userId: int)
    requires PositionIdsUnique(positions)
    ensures PositionIdsUnique(Cascade(positions, userId))
  {
    var ps := Cascade(positions, userId);
    var pi := FilterIndices(positions, (p: Position) => p.userId != userId);
    forall i, j | 0 <= i < j < |ps|
      ensures ps[i].id != ps[j].id
    {
      assert ps[i] == positions[pi[i]] && ps[j] == positions[pi[j]];
    }
  }

  /** Every position the cascade keeps still has its owner. */
  lemma CascadeOwnersPresent(users: seq<User>, positions: seq<Position>, userId: int)
    requires forall i :: 0 <= i < |positions| ==> HasUser(users, positions[i].userId)
    ensures forall i :: 0 <= i < |Cascade(positions, userId)| ==>
      HasUser(WithoutUser(users, userId), Cascade(positions, userId)[i].userId)
  {
    var us := WithoutUser(users, userId);
    var ps := Cascade(positions, userId);
    forall i | 0 <= i < |ps|
      ensures HasUser(us, ps[i].userId)
    {
      var p := ps[i];
      var n :| 0 <= n < |positions| && positions[n] == p;
      var k :| 0 <= k < |users| && users[k].id == p.userId;
      assert users[k] in us;
      var m :| 0 <= m < |us| && us[m] == users[k];
    }
  }

  /** Deleting a user together with the cascade keeps every constraint, the foreign
      key included: no position is left pointing at the deleted user. */
  lemma CascadeKeepsTablesValid(users: seq<User>, positions: seq<Position>,
                                nextUserId: int, nextPositionId: int, userId: int)
    requires TablesValid(users, positions, nextUserId, nextPositionId)
    ensures TablesValid(WithoutUser(users, userId), Cascade(positions, userId), nextUserId, nextPositionId)
  {
    var us := WithoutUser(users, userId);
    var ps := Cascade(positions, userId);
    WithoutUserUnique(users, userId);
    CascadeIdsUnique(positions, userId);
    CascadeOwnersPresent(users, positions, userId);
    forall i | 0 <= i < |us|
      ensures 0 < us[i].id < nextUserId && UserColumnsOk(us[i])
    {
      var k :| 0 <= k < |users| && users[k] == us[i];
    }
    forall i | 0 <= i < |ps|
      ensures 0 < ps[i].id < nextPositionId && PositionColumnsOk(ps[i])
    {
      var k :| 0 <= k < |positions| && positions[k] == ps[i];
    }
  }

  class Db {
    var users: seq<User>
    var positions: seq<Position>
    var nextUserId: int
    var nextPositionId: int

    predicate Valid()
      reads this
    {
      TablesValid(users, positions, nextUserId, nextPositionId)
    }

    constructor ()
      ensures users == [] && positions == [] && Valid()
    {
      users := [];
      positions := [];
      nextUserId := 1;
      nextPositionId := 1;
    }

    /** `db.add(user)` and `commit`: the next id is assigned when the commit succeeds. */
    method InsertUser(username: string, email: string, hashedPassword: string, now: int)
      returns (inserted: Option<User>)
      requires Valid()
      modifies this
      ensures Valid()
      ensures var u := User(old(nextUserId), username, email, hashedPassword, now);
        if CanInsertUser(old(users), u) then
          inserted == Some(u) && users == old(users) + [u] && nextUserId == old(nextUserId) + 1
        else
          inserted.None? && users == old(users) && nextUserId == old(nextUserId)
      ensures positions == old(positions) && nextPositionId == old(nextPositionId)
    {
      var u := User(nextUserId, username, email, hashedPassword, now);
      if !CanInsertUser(users, u) {
        return None;
      }
      users := users + [u];
      nextUserId := nextUserId + 1;
      inserted := Some(u);
      assert forall id :: HasUser(old(users), id) ==> HasUser(users, id) by {
        forall id | HasUser(old(users), id)
          ensures HasUser(users, id)
        {
          var k :| 0 <= k < |old(users)| && old(users)[k].id == id;
          assert users[k] == old(users)[k];
        }
      }
    }

    /** `db.add(position)` and `commit`. */
    method InsertPosition(userId: int, fen: string, category: Option<string>, notes: Option<string>,
                          imagePath: Option<string>, now: int)
      returns (inserted: Option<Position>)
      requires Valid()
      modifies this
      ensures Valid()
      ensures var p := Position(old(nextPositionId), userId, fen, category, notes, imagePath, now);
        if CanInsertPosition(old(users), p) then
          inserted == Some(p) && positions == old(positions) + [p] &&
          nextPositionId == old(nextPositionId) + 1
        else
          inserted.None? && positions == old(positions) && nextPositionId == old(nextPositionId)
      ensures users == old(users) && nextUserId == old(nextUserId)
    {
      var p := Position(nextPositionId, userId, fen, category, notes, imagePath, now);
      if !CanInsertPosition(users, p) {
        return None;
      }
      positions := positions + [p];
      nextPositionId := nextPositionId + 1;
      inserted := Some(p);
    }

    /** Writing an edited row back with `commit`; the id, owner and creation time
        are not editable. */
    method ReplacePosition(i: nat, p: Position) returns (committed: bool)
      requires Valid()
      requires i < |positions|
      requires p.id == positions[i].id && p.userId == positions[i].userId
      modifies this
      ensures Valid()
      ensures committed <==> PositionColumnsOk(p)
      ensures committed ==> positions == old(positions)[i := p]
      ensures !committed ==> positions == old(positions)
      ensures users == old(users) && nextUserId == old(nextUserId) && nextPositionId == old(nextPositionId)
    {
      if !PositionColumnsOk(p) {
        return false;
      }
      positions := positions[i := p];
      committed := true;
    }

    /** `db.delete(position)` and `commit`. */
    method RemovePositionAt(i: nat)
      requires Valid()
      requires i < |positions|
      modifies this
      ensures Valid()
      ensures positions == old(positions[..i] + positions[i + 1..])
      ensures users == old(users) && nextUserId == old(nextUserId) && nextPositionId == old(nextPositionId)
    {
      positions := positions[..i] + positions[i + 1..];
      assert forall k :: 0 <= k < |positions| ==>
        positions[k] == old(positions)[if k < i then k else k + 1];
    }

    /** Deleting a user row, with the cascade the relationship declares. */
    method DeleteUser(userId: int)
      requires Valid()
      modifies this
      ensures Valid()
      ensures users == WithoutUser(old(users), userId)
      ensures positions == Cascade(old(positions), userId)
      ensures nextUserId == old(nextUserId) && nextPositionId == old(nextPositionId)
    {
      CascadeKeepsTablesValid(users, positions, nextUserId, nextPositionId, userId);
      users := WithoutUser(users, userId);
      positions := Cascade(positions, userId);
    }
  }
}
