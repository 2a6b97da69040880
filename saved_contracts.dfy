/**
 * The saved-contract service as a store whose operations change its rows in
 * place, one database statement at a time. Every method is specified by the
 * table functions of SavedContractTable, and every state-changing method keeps
 * the table well formed.
 */
module SavedContracts {
  import opened Common
  import ContractIds
  import opened SavedContractTable

  /** Well formed rows, each naming a stored contract record and stamped before `clock`. */
  ghost predicate Consistent(rows: seq<Entry>, contracts: set<string>, clock: nat) {
    WellFormed(rows)
    && (forall i :: 0 <= i < |rows| ==> rows[i].contractId in contracts && rows[i].createdAt < clock)
  }

  lemma CreateKeepsConsistent(rows: seq<Entry>, contracts: set<string>, clock: nat,
                              userId: string, contractId: string, nickname: Option<string>)
    requires Consistent(rows, contracts, clock)
    requires Find(rows, userId, contractId).None?
    requires ContractIds.IsContractId(contractId)
    ensures Consistent(rows + [NewEntry(rows, userId, contractId, nickname, clock)], contracts + {contractId}, clock + 1)
  {
    CreateKeepsWellFormed(rows, userId, contractId, nickname, clock);
  }

  lemma RenameKeepsConsistent(rows: seq<Entry>, contracts: set<string>, clock: nat, i: nat, nickname: string)
    requires Consistent(rows, contracts, clock)
    requires i < |rows|
    ensures Consistent(Renamed(rows, i, nickname), contracts, clock)
  {
    RenameKeepsWellFormed(rows, i, nickname);
  }

  lemma DeleteKeepsConsistent(rows: seq<Entry>, contracts: set<string>, clock: nat, i: nat)
    requires Consistent(rows, contracts, clock)
    requires i < |rows|
    ensures Consistent(AfterDelete(rows, i), contracts, clock)
    ensures Chronological(Removed(rows, i))
  {
    DeleteKeepsWellFormed(rows, i);
    RemovedKeepsShape(rows, i);
    var r := AfterDelete(rows, i);
    var rest := Removed(rows, i);
    forall k | 0 <= k < |r| ensures r[k].contractId in contracts && r[k].createdAt < clock {
      var x := r[k].(isDefault := false);
      assert x == rest[k].(isDefault := false);
      assert rest[k] == if k < i then rows[k] else rows[k + 1];
    }
  }

  lemma SetDefaultKeepsConsistent(rows: seq<Entry>, contracts: set<string>, clock: nat, i: nat)
    requires Consistent(rows, contracts, clock)
    requires i < |rows|
    ensures Consistent(AfterSetDefault(rows, i), contracts, clock)
  {
    SetDefaultKeepsWellFormed(rows, i);
    var r := AfterSetDefault(rows, i);
    forall k | 0 <= k < |r| ensures r[k].contractId in contracts && r[k].createdAt < clock {
      var x := r[k].(isDefault := false);
      assert x == rows[k].(isDefault := false);
    }
  }

  /**
   * The two tables behind the service: the user-saved-contract rows and the
   * global contract records (one per contract ID), plus the clock that stamps
   * each new row's creation time.
   */
  class SavedContractStore {
    var rows: seq<Entry>
    var contracts: set<string>
    var clock: nat

    ghost predicate Valid()
      reads this
    {
      Consistent(rows, contracts, clock)
    }

    constructor ()
      ensures Valid()
      ensures rows == [] && contracts == {}
    {
      rows := [];
      contracts := {};
      clock := 0;
    }

    /** `findUnique` on the (userId, contractId) key. */
    method FindRow(userId: string, contractId: string) returns (idx: Option<nat>)
      ensures idx == Find(rows, userId, contractId)
    {
      var i := 0;
      while i < |rows|
        invariant 0 <= i <= |rows|
        invariant forall j :: 0 <= j < i ==> !IsKey(rows[j], userId, contractId)
      {
        if rows[i].userId == userId && rows[i].contractId == contractId {
          return Some(i);
        }
        i := i + 1;
      }
      return None;
    }

    /** `findFirst({ where: { userId } })`: whether the user has any row. */
    method HasAnyRow(userId: string) returns (found: bool)
      ensures found == HasRows(rows, userId)
    {
      var i := 0;
      while i < |rows|
        invariant 0 <= i <= |rows|
        invariant forall j :: 0 <= j < i ==> rows[j].userId != userId
      {
        if rows[i].userId == userId {
          return true;
        }
        i := i + 1;
      }
      return false;
    }

    /** `findFirst({ where: { userId }, orderBy: { createdAt: 'desc' } })` */
    method MostRecentRow(userId: string) returns (best: Option<nat>)
      requires Chronological(rows)
      ensures best == Latest(rows, userId)
    {
      best := None;
      var k := 0;
      while k < |rows|
        invariant 0 <= k <= |rows|
        invariant best == Latest(rows[..k], userId)
      {
        assert rows[..k + 1][..k] == rows[..k];
        if rows[k].userId == userId && (best.None? || rows[k].createdAt > rows[best.value].createdAt) {
          best := Some(k);
        }
        k := k + 1;
      }
      assert rows[..|rows|] == rows;
    }

    /**
     * `createSavedContract`, one transaction: a malformed ID is BAD_REQUEST,
     * an existing (user, contract) row is CONFLICT and rolls everything back;
     * otherwise the contract record exists afterwards and the user gains a
     * row that is the default exactly when it is the user's first.
     */
    method Create(userId: string, rawId: string, nickname: Option<string>) returns (r: Result<SavedView>)
      requires Valid()
      modifies this
      ensures Valid()
      ensures Created(old(rows), userId, rawId, nickname, old(clock)).Err? ==>
        r == Err(Created(old(rows), userId, rawId, nickname, old(clock)).status)
        && rows == old(rows) && contracts == old(contracts)
      ensures Created(old(rows), userId, rawId, nickname, old(clock)).Ok? ==>
        var e := Created(old(rows), userId, rawId, nickname, old(clock)).value;
        r == Ok(View(e)) && rows == old(rows) + [e] && contracts == old(contracts) + {e.contractId}
    {
      var v := ContractIds.ValidateAndSanitize(rawId);
      if v.Err? {
        return Err(v.status);
      }
      var contractId := v.value;
      var existing := FindRow(userId, contractId);
      if existing.Some? {
        return Err(Conflict);
      }
      var hasRows := HasAnyRow(userId);
      var e := Entry(userId, contractId, NicknameOrDefault(nickname, contractId), !hasRows, clock);
      assert e == NewEntry(rows, userId, contractId, nickname, clock);
      CreateKeepsConsistent(rows, contracts, clock, userId, contractId, nickname);
      contracts := contracts + {contractId};
      rows := rows + [e];
      clock := clock + 1;
      r := Ok(View(e));
    }

    /**
     * `querySavedContracts` sorted by creation time: page, limit and order
     * default to 1, `defaultLimit` and newest first; the page is the window of the user's listing
     * after (page - 1) * limit entries.
     */
    method Query(userId: string, page: Option<nat>, limit: Option<nat>, sortOrder: Option<SortOrder>, defaultLimit: nat)
      returns (p: Page)
      requires page.Some? ==> page.value >= 1
      requires limit.Some? ==> limit.value >= 1
      requires defaultLimit >= 1
      ensures p == Paginate(Listing(rows, userId, if sortOrder.Some? then sortOrder.value else Desc),
                            if page.Some? then page.value else 1,
                            if limit.Some? then limit.value else defaultLimit)
    {
      var pg := if page.Some? then page.value else 1;
      var lim := if limit.Some? then limit.value else defaultLimit;
      var order := if sortOrder.Some? then sortOrder.value else Desc;
      var listing := [];
      var k := 0;
      while k < |rows|
        invariant 0 <= k <= |rows|
        invariant listing == Listing(rows[..k], userId, order)
      {
        assert rows[..k + 1][..k] == rows[..k];
        var e := rows[k];
        if e.userId == userId {
          if order == Asc {
            listing := listing + [e];
          } else {
            listing := [e] + listing;
          }
        }
        k := k + 1;
      }
      assert rows[..|rows|] == rows;
      p := Paginate(listing, pg, lim);
    }

    /** `getSavedContractById`: BAD_REQUEST for a malformed ID, NOT_FOUND for an unsaved one. */
    method GetById(userId: string, rawId: string) returns (r: Result<SavedView>)
      ensures r.Ok? <==> Locate(rows, userId, rawId).Ok?
      ensures r.Ok? ==> r.value == View(rows[Locate(rows, userId, rawId).value])
      ensures r.Err? ==> r.status == Locate(rows, userId, rawId).status
    {
      var v := ContractIds.ValidateAndSanitize(rawId);
      if v.Err? {
        return Err(v.status);
      }
      var idx := FindRow(userId, v.value);
      if idx.None? {
        return Err(NotFound);
      }
      r := Ok(View(rows[idx.value]));
    }

    /** `updateSavedContractById`: only the nickname of the located row changes. */
    method Update(userId: string, rawId: string, nickname: string) returns (r: Result<SavedView>)
      requires Valid()
      modifies this
      ensures Valid()
      ensures contracts == old(contracts) && clock == old(clock)
      ensures Locate(old(rows), userId, rawId).Err? ==>
        r == Err(Locate(old(rows), userId, rawId).status) && rows == old(rows)
      ensures Locate(old(rows), userId, rawId).Ok? ==>
        var i := Locate(old(rows), userId, rawId).value;
        rows == Renamed(old(rows), i, nickname) && r == Ok(View(rows[i]))
    {
      var v := ContractIds.ValidateAndSanitize(rawId);
      if v.Err? {
        return Err(v.status);
      }
      LocateSanitized(rows, userId, rawId);
      var found := GetById(userId, v.value);
      if found.Err? {
        return Err(found.status);
      }
      var idx := FindRow(userId, v.value);
      var i := idx.value;
      assert Locate(rows, userId, rawId) == Ok(i);
      RenameKeepsConsistent(rows, contracts, clock, i, nickname);
      rows := Renamed(rows, i, nickname);
      r := Ok(View(rows[i]));
    }

    /**
     * `deleteSavedContractById`, one transaction: the row is deleted and,
     * when it was the default, the user's most recent remaining row is made
     * the default.
     */
    method Delete(userId: string, rawId: string) returns (o: Outcome)
      requires Valid()
      modifies this
      ensures Valid()
      ensures contracts == old(contracts) && clock == old(clock)
      ensures Locate(old(rows), userId, rawId).Err? ==>
        o == Failed(Locate(old(rows), userId, rawId).status) && rows == old(rows)
      ensures Locate(old(rows), userId, rawId).Ok? ==>
        o == Done && rows == AfterDelete(old(rows), Locate(old(rows), userId, rawId).value)
    {
      var v := ContractIds.ValidateAndSanitize(rawId);
      if v.Err? {
        return Failed(v.status);
      }
      var idx := FindRow(userId, v.value);
      if idx.None? {
        return Failed(NotFound);
      }
      var i := idx.value;
      ghost var before := rows;
      assert Locate(before, userId, rawId) == Ok(i);
      var wasDefault := rows[i].isDefault;
      DeleteKeepsConsistent(rows, contracts, clock, i);
      rows := Removed(rows, i);
      if wasDefault {
        var other := MostRecentRow(userId);
        if other.Some? {
          var j := other.value;
          rows := rows[j := rows[j].(isDefault := true)];
        }
      }
      assert rows == AfterDelete(before, i);
      o := Done;
    }

    /** `updateMany({ where: { userId, isDefault: true }, data: { isDefault: false } })` */
    method ClearUserDefaults(userId: string)
      modifies this
      ensures rows == ClearDefaults(old(rows), userId)
      ensures contracts == old(contracts) && clock == old(clock)
    {
      var k := 0;
      while k < |rows|
        invariant 0 <= k <= |rows|
        invariant |rows| == |old(rows)|
        invariant forall j :: 0 <= j < k ==> rows[j] == ClearDefaults(old(rows), userId)[j]
        invariant forall j :: k <= j < |rows| ==> rows[j] == old(rows)[j]
        invariant contracts == old(contracts) && clock == old(clock)
      {
        if rows[k].userId == userId && rows[k].isDefault {
          rows := rows[k := rows[k].(isDefault := false)];
        }
        k := k + 1;
      }
    }

    /**
     * `setDefaultContract`, one transaction: every default row of the user
     * is unset, then the located row is set.
     */
    method SetDefault(userId: string, rawId: string) returns (o: Outcome)
      requires Valid()
      modifies this
      ensures Valid()
      ensures contracts == old(contracts) && clock == old(clock)
      ensures Locate(old(rows), userId, rawId).Err? ==>
        o == Failed(Locate(old(rows), userId, rawId).status) && rows == old(rows)
      ensures Locate(old(rows), userId, rawId).Ok? ==>
        o == Done && rows == AfterSetDefault(old(rows), Locate(old(rows), userId, rawId).value)
    {
      var v := ContractIds.ValidateAndSanitize(rawId);
      if v.Err? {
        return Failed(v.status);
      }
      var idx := FindRow(userId, v.value);
      if idx.None? {
        return Failed(NotFound);
      }
      var i := idx.value;
      ghost var before := rows;
      assert Locate(before, userId, rawId) == Ok(i);
      SetDefaultKeepsConsistent(rows, contracts, clock, i);
      ClearUserDefaults(userId);
      rows := rows[i := rows[i].(isDefault := true)];
      assert rows == AfterSetDefault(before, i);
      o := Done;
    }

    /** `getContractNickname`: the user's nickname for the contract, or null. */
    method GetContractNickname(userId: string, rawId: string) returns (r: Result<Option<string>>)
      ensures r == NicknameOf(rows, userId, rawId)
    {
      var v := ContractIds.ValidateAndSanitize(rawId);
      if v.Err? {
        return Err(v.status);
      }
      var idx := FindRow(userId, v.value);
      if idx.None? {
        return Ok(None);
      }
      r := Ok(Some(rows[idx.value].nickname));
    }
  }
}
