/** The user repository (the gorm/PostgreSQL implementation of UserRepository), re-modelled
    as an in-memory table. Rows are kept in ID order; IDs are assigned 1, 2, 3, ... by Create;
    a delete is soft: it stamps the row's `deletedAt` and every query then skips the row.
    A storage failure is modelled by the `faults` map: a query whose operation has an entry
    fails with that message and changes nothing. */
module Repository {
  import opened Errors
  import opened Models

  /** The store's queries, each of which can be made to fail. FindAll runs two: a count and a find. */
  datatype Op = CreateOp | FindByIdOp | FindByEmailOp | CountOp | FindOp | UpdateOp | DeleteOp

  predicate IsLive(u: User) {
    u.deletedAt.None?
  }

  /** The rows that are not soft-deleted, in ID order. */
  function Live(rows: seq<User>): (live: seq<User>)
    ensures |live| <= |rows|
    ensures forall u | u in live :: u in rows && IsLive(u)
    ensures forall i | 0 <= i < |rows| && IsLive(rows[i]) :: rows[i] in live
  {
    if rows == [] then []
    else
      var init := rows[..|rows| - 1];
      var last := rows[|rows| - 1];
      assert forall i | 0 <= i < |init| :: init[i] == rows[i];
      Live(init) + (if IsLive(last) then [last] else [])
  }

  lemma LiveAppend(rows: seq<User>, u: User)
    ensures Live(rows + [u]) == Live(rows) + (if IsLive(u) then [u] else [])
  {
    assert (rows + [u])[..|rows|] == rows;
  }

  /** Replacing one row changes the number of live rows by what it does to that row alone. */
  lemma {:induction false} LiveCountReplace(rows: seq<User>, k: nat, v: User)
    requires k < |rows|
    ensures |Live(rows[k := v])| ==
      |Live(rows)| - (if IsLive(rows[k]) then 1 else 0) + (if IsLive(v) then 1 else 0)
    decreases |rows|
  {
    var n := |rows|;
    var updated := rows[k := v];
    if k == n - 1 {
      assert updated[..n - 1] == rows[..n - 1];
    } else {
      assert updated[..n - 1] == rows[..n - 1][k := v];
      LiveCountReplace(rows[..n - 1], k, v);
    }
  }

  /** The position of the first live row whose e-mail is exactly `email`, or |rows| if none. */
  function FirstWithEmail(rows: seq<User>, email: string): (k: nat)
    ensures k <= |rows|
    ensures k < |rows| ==> IsLive(rows[k]) && rows[k].email == email
    ensures forall j | 0 <= j < k :: !(IsLive(rows[j]) && rows[j].email == email)
  {
    if rows == [] then 0
    else if IsLive(rows[0]) && rows[0].email == email then 0
    else
      assert forall j | 1 <= j < |rows| :: rows[j] == rows[1..][j - 1];
      1 + FirstWithEmail(rows[1..], email)
  }

  /** LIMIT/OFFSET on the live rows: a negative limit means no limit, an offset of
      zero or less means no offset. */
  function Page(live: seq<User>, limit: int, offset: int): (page: seq<User>)
    ensures limit >= 0 ==> |page| <= limit
    ensures var skip := if offset > 0 then offset else 0;
      |page| == (if skip >= |live| then 0
                 else if 0 <= limit < |live| - skip then limit
                 else |live| - skip)
      && forall i | 0 <= i < |page| :: page[i] == live[skip + i]
  {
    var skip := if offset <= 0 then 0 else if offset < |live| then offset else |live|;
    var rest := live[skip..];
    if 0 <= limit < |rest| then rest[..limit] else rest
  }

  /** No two live rows share an e-mail. The store does not enforce this itself. */
  ghost predicate UniqueEmails(rows: seq<User>) {
    forall i, j | 0 <= i < j < |rows| && IsLive(rows[i]) && IsLive(rows[j]) ::
      rows[i].email != rows[j].email
  }

  /** Replacing one row keeps e-mails unique when no other live row has the new e-mail. */
  lemma UniqueAfterReplace(rows: seq<User>, k: nat, v: User)
    requires UniqueEmails(rows) && k < |rows|
    requires forall j | 0 <= j < |rows| && j != k && IsLive(rows[j]) :: rows[j].email != v.email
    ensures UniqueEmails(rows[k := v])
  {
  }

  /** Appending a row keeps e-mails unique when no live row has its e-mail. */
  lemma UniqueAfterAppend(rows: seq<User>, v: User)
    requires UniqueEmails(rows)
    requires forall j | 0 <= j < |rows| && IsLive(rows[j]) :: rows[j].email != v.email
    ensures UniqueEmails(rows + [v])
  {
  }

  /** With unique e-mails, a live row is determined by its e-mail. */
  lemma LiveEmailDetermines(rows: seq<User>, u: User, v: User)
    requires UniqueEmails(rows)
    requires u in Live(rows) && v in Live(rows) && u.email == v.email
    ensures u == v
  {
    var i :| 0 <= i < |rows| && rows[i] == u;
    var j :| 0 <= j < |rows| && rows[j] == v;
    assert IsLive(rows[i]) && IsLive(rows[j]);
  }

  /** In a table whose row i has ID i + 1, a live row never has an ID whose row is absent
      or deleted. */
  lemma LiveRowId(rows: seq<User>, id: nat, u: User)
    requires forall i | 0 <= i < |rows| :: rows[i].id == i + 1
    requires !(1 <= id <= |rows| && IsLive(rows[id - 1]))
    requires u in Live(rows)
    ensures u.id != id
  {
    var i :| 0 <= i < |rows| && rows[i] == u;
    assert IsLive(rows[i]) && rows[i].id == i + 1;
  }

  lemma NoLiveWithId(rows: seq<User>, id: nat)
    requires forall i | 0 <= i < |rows| :: rows[i].id == i + 1
    requires !(1 <= id <= |rows| && IsLive(rows[id - 1]))
    ensures forall u | u in Live(rows) :: u.id != id
  {
    forall u | u in Live(rows) ensures u.id != id {
      LiveRowId(rows, id, u);
    }
  }

  class UserRepository {
    var rows: seq<User>
    var faults: map<Op, string>

    /** Row i holds the record with ID i + 1. */
    ghost predicate Valid()
      reads this
    {
      forall i | 0 <= i < |rows| :: rows[i].id == i + 1
    }

    constructor ()
      ensures Valid() && rows == [] && faults == map[]
    {
      rows := [];
      faults := map[];
    }

    /** Whether a live record with this ID exists. */
    predicate HasLive(id: nat)
      reads this
    {
      1 <= id <= |rows| && IsLive(rows[id - 1])
    }

    /** First: the live record with this ID, or record-not-found. */
    function FindByID(id: nat): (r: Result<User>)
      requires Valid()
      reads this
      ensures FindByIdOp in faults ==> r == Err(Failure(faults[FindByIdOp]))
      ensures r.Ok? ==> r.value in Live(rows) && r.value.id == id
      ensures FindByIdOp !in faults && r.Err? ==>
        r.error == RecordNotFound && forall u | u in Live(rows) :: u.id != id
    {
      if FindByIdOp in faults then Err(Failure(faults[FindByIdOp]))
      else if HasLive(id) then Ok(rows[id - 1])
      else Err(RecordNotFound)
    }

    /** WHERE email = ? ... First: the live record with exactly this e-mail and the smallest
        ID, or record-not-found. */
    function FindByEmail(email: string): (r: Result<User>)
      requires Valid()
      reads this
      ensures FindByEmailOp in faults ==> r == Err(Failure(faults[FindByEmailOp]))
      ensures r.Ok? ==> r.value in Live(rows) && r.value.email == email
      ensures r.Ok? ==> forall u | u in Live(rows) && u.email == email :: r.value.id <= u.id
      ensures FindByEmailOp !in faults && r.Err? ==>
        r.error == RecordNotFound && forall u | u in Live(rows) :: u.email != email
    {
      if FindByEmailOp in faults then Err(Failure(faults[FindByEmailOp]))
      else
        var k := FirstWithEmail(rows, email);
        if k < |rows| then Ok(rows[k]) else Err(RecordNotFound)
    }

    /** The count of all live records, then one page of them. */
    function FindAll(limit: int, offset: int): (r: Result<(seq<User>, nat)>)
      reads this
      ensures CountOp in faults ==> r == Err(Failure(faults[CountOp]))
      ensures CountOp !in faults && FindOp in faults ==> r == Err(Failure(faults[FindOp]))
      ensures r.Ok? <==> CountOp !in faults && FindOp !in faults
      ensures r.Ok? ==> r.value.1 == |Live(rows)| && r.value.0 == Page(Live(rows), limit, offset)
    {
      if CountOp in faults then Err(Failure(faults[CountOp]))
      else
        var total := |Live(rows)|;
        if FindOp in faults then Err(Failure(faults[FindOp]))
        else Ok((Page(Live(rows), limit, offset), total))
    }

    /** INSERT: the record gets the next ID and both timestamps; `u.id` is not used. */
    method Create(u: User, now: Time) returns (r: Result<User>)
      requires Valid()
      modifies this
      ensures Valid() && faults == old(faults)
      ensures CreateOp in old(faults) ==> r == Err(Failure(old(faults)[CreateOp])) && rows == old(rows)
      ensures CreateOp !in old(faults) ==>
        r == Ok(u.(id := |old(rows)| + 1, createdAt := now, updatedAt := now))
        && rows == old(rows) + [r.value]
      ensures r.Ok? ==> forall v | v in old(rows) :: v.id != r.value.id
      ensures r.Ok? && IsLive(u) && FindByIdOp !in faults ==> FindByID(r.value.id) == Ok(r.value)
    {
      if CreateOp in faults {
        return Err(Failure(faults[CreateOp]));
      }
      var created := u.(id := |rows| + 1, createdAt := now, updatedAt := now);
      rows := rows + [created];
      return Ok(created);
    }

    /** Save: the whole stored record with the same ID is replaced, with a new UpdatedAt;
        every other record stays as it was. */
    method Update(u: User, now: Time) returns (r: Result<User>)
      requires Valid()
      modifies this
      ensures Valid() && faults == old(faults)
      ensures UpdateOp in old(faults) ==> r == Err(Failure(old(faults)[UpdateOp])) && rows == old(rows)
      ensures UpdateOp !in old(faults) && old(HasLive(u.id)) ==>
        r == Ok(u.(updatedAt := now)) && rows == old(rows)[u.id - 1 := r.value]
      ensures UpdateOp !in old(faults) && !old(HasLive(u.id)) ==>
        r == Err(RecordNotFound) && rows == old(rows)
    {
      if UpdateOp in faults {
        return Err(Failure(faults[UpdateOp]));
      }
      if !HasLive(u.id) {
        return Err(RecordNotFound);
      }
      var saved := u.(updatedAt := now);
      rows := rows[u.id - 1 := saved];
      return Ok(saved);
    }

    /** Soft delete: the live record with this ID, if any, is stamped as deleted; deleting
        an absent ID succeeds and changes nothing. Afterwards no query returns the record. */
    method Delete(id: nat, now: Time) returns (r: Result<()>)
      requires Valid()
      modifies this
      ensures Valid() && faults == old(faults)
      ensures DeleteOp in old(faults) ==> r == Err(Failure(old(faults)[DeleteOp])) && rows == old(rows)
      ensures DeleteOp !in old(faults) ==>
        && r == Ok(())
        && rows == if old(HasLive(id)) then old(rows)[id - 1 := old(rows)[id - 1].(deletedAt := Some(now))]
                   else old(rows)
      ensures DeleteOp !in old(faults) ==> forall u | u in Live(rows) :: u.id != id
      ensures DeleteOp !in old(faults) && old(HasLive(id)) ==> |Live(rows)| == |Live(old(rows))| - 1
    {
      if DeleteOp in faults {
        return Err(Failure(faults[DeleteOp]));
      }
      if HasLive(id) {
        LiveCountReplace(rows, id - 1, rows[id - 1].(deletedAt := Some(now)));
        rows := rows[id - 1 := rows[id - 1].(deletedAt := Some(now))];
      }
      NoLiveWithId(rows, id);
      return Ok(());
    }
  }
}
