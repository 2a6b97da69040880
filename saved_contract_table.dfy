/**
 * The user-saved-contract table as a value: its rows, the invariant the
 * service keeps (one row per (user, contract) key, creation times in table
 * order, and exactly one default row for every user who has rows), and the
 * new table each service operation produces. The store in saved_contracts.dfy
 * computes these step by step.
 */
module SavedContractTable {
  import opened Common
  import ContractIds

  /** A row: which user saved which contract, under what nickname, whether it is the user's default. */
  datatype Entry = Entry(
    userId: string,
    contractId: string,
    nickname: string,
    isDefault: bool,
    createdAt: nat)

  /** What the service hands back for a saved contract. */
  datatype SavedView = SavedView(contractId: string, isDefault: bool, nickname: string)

  datatype SortOrder = Asc | Desc

  /** One page of a user's saved contracts with its pagination figures. */
  datatype Page = Page(
    results: seq<SavedView>,
    page: nat,
    limit: nat,
    totalPages: nat,
    totalResults: nat)

  function View(e: Entry): SavedView {
    SavedView(e.contractId, e.isDefault, e.nickname)
  }

  predicate IsKey(e: Entry, userId: string, contractId: string) {
    e.userId == userId && e.contractId == contractId
  }

  predicate HasRows(rows: seq<Entry>, userId: string) {
    exists i :: 0 <= i < |rows| && rows[i].userId == userId
  }

  // ----- the invariant -----

  function DefaultsOf(e: Entry, userId: string): nat {
    if e.userId == userId && e.isDefault then 1 else 0
  }

  /** The number of default rows of `userId`. */
  function DefaultCount(rows: seq<Entry>, userId: string): nat {
    if rows == [] then 0
    else DefaultCount(rows[..|rows| - 1], userId) + DefaultsOf(rows[|rows| - 1], userId)
  }

  predicate OneDefaultPerUser(rows: seq<Entry>) {
    forall i :: 0 <= i < |rows| ==> DefaultCount(rows, rows[i].userId) == 1
  }

  predicate UniqueKeys(rows: seq<Entry>) {
    forall i, j :: 0 <= i < j < |rows| ==> !IsKey(rows[j], rows[i].userId, rows[i].contractId)
  }

  predicate Chronological(rows: seq<Entry>) {
    forall i, j :: 0 <= i < j < |rows| ==> rows[i].createdAt < rows[j].createdAt
  }

  predicate ValidIds(rows: seq<Entry>) {
    forall i :: 0 <= i < |rows| ==> ContractIds.IsContractId(rows[i].contractId)
  }

  predicate WellFormed(rows: seq<Entry>) {
    UniqueKeys(rows) && Chronological(rows) && OneDefaultPerUser(rows) && ValidIds(rows)
  }

  // ----- lookups -----

  /** `findUnique` on the (userId, contractId) key: the first row with that key. */
  function Find(rows: seq<Entry>, userId: string, contractId: string): (r: Option<nat>)
    ensures r.Some? ==> r.value < |rows| && IsKey(rows[r.value], userId, contractId)
    ensures r.Some? ==> forall j :: 0 <= j < r.value ==> !IsKey(rows[j], userId, contractId)
    ensures r.None? ==> forall j :: 0 <= j < |rows| ==> !IsKey(rows[j], userId, contractId)
  {
    if rows == [] then None
    else if IsKey(rows[0], userId, contractId) then Some(0)
    else match Find(rows[1..], userId, contractId)
      case None => None
      case Some(k) => Some(k + 1)
  }

  /** The last row of `userId` in table order. */
  function Latest(rows: seq<Entry>, userId: string): (r: Option<nat>)
    ensures r.Some? ==> r.value < |rows| && rows[r.value].userId == userId
    ensures r.Some? ==> forall j :: r.value < j < |rows| ==> rows[j].userId != userId
    ensures r.None? <==> !HasRows(rows, userId)
  {
    if rows == [] then None
    else if rows[|rows| - 1].userId == userId then Some(|rows| - 1)
    else Latest(rows[..|rows| - 1], userId)
  }

  /** In a chronological table the last row of a user is the user's most recently created one. */
  lemma LatestIsMostRecent(rows: seq<Entry>, userId: string)
    requires Chronological(rows)
    requires HasRows(rows, userId)
    ensures forall i :: 0 <= i < |rows| && rows[i].userId == userId ==>
      rows[i].createdAt <= rows[Latest(rows, userId).value].createdAt
  {
  }

  /**
   * `getSavedContractById` and the lookups that precede update, delete and
   * set-default: the ID is validated first (BAD_REQUEST), then the row must
   * exist (NOT_FOUND).
   */
  function Locate(rows: seq<Entry>, userId: string, rawId: string): (r: Result<nat>)
    ensures r.Ok? ==> r.value < |rows| && rows[r.value].userId == userId
    ensures r.Ok? <==>
      (ContractIds.ValidateAndSanitize(rawId).Ok?
       && Find(rows, userId, ContractIds.ValidateAndSanitize(rawId).value).Some?)
    ensures r.Err? ==>
      r.status == (if ContractIds.ValidateAndSanitize(rawId).Err? then BadRequest else NotFound)
  {
    match ContractIds.ValidateAndSanitize(rawId)
    case Err(s) => Err(s)
    case Ok(contractId) =>
      match Find(rows, userId, contractId)
      case None => Err(NotFound)
      case Some(i) => Ok(i)
  }

  /** Locating by an already sanitized ID finds the same row as locating by the raw ID. */
  lemma LocateSanitized(rows: seq<Entry>, userId: string, rawId: string)
    requires ContractIds.ValidateAndSanitize(rawId).Ok?
    ensures Locate(rows, userId, ContractIds.ValidateAndSanitize(rawId).value) == Locate(rows, userId, rawId)
  {
    ContractIds.ValidateIdempotent(rawId);
    LocateSameVerdict(rows, userId, ContractIds.ValidateAndSanitize(rawId).value, rawId);
  }

  /** Locate sees an ID only through the validator's verdict. */
  lemma LocateSameVerdict(rows: seq<Entry>, userId: string, a: string, b: string)
    requires ContractIds.ValidateAndSanitize(a) == ContractIds.ValidateAndSanitize(b)
    ensures Locate(rows, userId, a) == Locate(rows, userId, b)
  {
  }

  /** `getContractNickname`: the user's nickname for the contract, or null when unsaved. */
  function NicknameOf(rows: seq<Entry>, userId: string, rawId: string): (r: Result<Option<string>>)
    ensures r.Err? <==> ContractIds.ValidateAndSanitize(rawId).Err?
    ensures r.Ok? && r.value.Some? ==>
      exists i :: 0 <= i < |rows| && rows[i].userId == userId && rows[i].nickname == r.value.value
        && rows[i].contractId == ContractIds.ValidateAndSanitize(rawId).value
    ensures r.Ok? && r.value.None? ==>
      forall i :: 0 <= i < |rows| ==> !IsKey(rows[i], userId, ContractIds.ValidateAndSanitize(rawId).value)
  {
    match ContractIds.ValidateAndSanitize(rawId)
    case Err(s) => Err(s)
    case Ok(contractId) =>
      match Find(rows, userId, contractId)
      case None => Ok(None)
      case Some(i) => Ok(Some(rows[i].nickname))
  }

  // ----- the new table after each operation -----

  /** `nickname || "Contract " + contractId.slice(0, 8)` */
  function NicknameOrDefault(nickname: Option<string>, contractId: string): (r: string)
    ensures nickname.Some? && nickname.value != "" ==> r == nickname.value
    ensures (nickname.None? || nickname.value == "") && |contractId| >= 8 ==>
      r == "Contract " + contractId[..8]
  {
    match nickname
    case Some(n) => if n != "" then n else "Contract " + contractId[..if |contractId| < 8 then |contractId| else 8]
    case None => "Contract " + contractId[..if |contractId| < 8 then |contractId| else 8]
  }

  /** The row `createSavedContract` adds: default exactly when it is the user's first. */
  function NewEntry(rows: seq<Entry>, userId: string, contractId: string, nickname: Option<string>, now: nat): (e: Entry)
    ensures e.isDefault <==> !HasRows(rows, userId)
    ensures IsKey(e, userId, contractId) && e.createdAt == now
    ensures e.nickname == NicknameOrDefault(nickname, contractId)
  {
    Entry(userId, contractId, NicknameOrDefault(nickname, contractId), !HasRows(rows, userId), now)
  }

  /**
   * `createSavedContract`: BAD_REQUEST for a malformed ID, CONFLICT when the
   * user already saved the contract, otherwise the row to append.
   */
  function Created(rows: seq<Entry>, userId: string, rawId: string, nickname: Option<string>, now: nat): (r: Result<Entry>)
    ensures r.Ok? <==>
      (ContractIds.ValidateAndSanitize(rawId).Ok?
       && Find(rows, userId, ContractIds.ValidateAndSanitize(rawId).value).None?)
    ensures r.Ok? ==> r.value == NewEntry(rows, userId, ContractIds.ValidateAndSanitize(rawId).value, nickname, now)
    ensures r.Err? ==>
      r.status == (if ContractIds.ValidateAndSanitize(rawId).Err? then BadRequest else Conflict)
  {
    match ContractIds.ValidateAndSanitize(rawId)
    case Err(s) => Err(s)
    case Ok(contractId) =>
      if Find(rows, userId, contractId).Some? then Err(Conflict)
      else Ok(NewEntry(rows, userId, contractId, nickname, now))
  }

  function Removed(rows: seq<Entry>, i: nat): (r: seq<Entry>)
    requires i < |rows|
    ensures |r| == |rows| - 1
    ensures forall k :: 0 <= k < |r| ==> r[k] == if k < i then rows[k] else rows[k + 1]
  {
    rows[..i] + rows[i + 1..]
  }

  /**
   * `deleteSavedContractById`: the row goes; when it was the default, the
   * user's most recent remaining row (if any) becomes the default.
   */
  function AfterDelete(rows: seq<Entry>, i: nat): (r: seq<Entry>)
    requires i < |rows|
    ensures |r| == |rows| - 1
    ensures !rows[i].isDefault ==> r == Removed(rows, i)
    ensures forall k :: 0 <= k < |r| ==> r[k].(isDefault := false) == Removed(rows, i)[k].(isDefault := false)
    ensures forall k :: 0 <= k < |r| && Removed(rows, i)[k].userId != rows[i].userId ==> r[k] == Removed(rows, i)[k]
    ensures forall k :: 0 <= k < |r| && Latest(Removed(rows, i), rows[i].userId) != Some(k) ==> r[k] == Removed(rows, i)[k]
    ensures rows[i].isDefault && HasRows(Removed(rows, i), rows[i].userId) ==>
      r[Latest(Removed(rows, i), rows[i].userId).value].isDefault
  {
    var rest := Removed(rows, i);
    if rows[i].isDefault then
      match Latest(rest, rows[i].userId)
      case Some(j) => rest[j := rest[j].(isDefault := true)]
      case None => rest
    else
      rest
  }

  /** `updateMany` setting isDefault to false on every row of the user. */
  function ClearDefaults(rows: seq<Entry>, userId: string): (r: seq<Entry>)
    ensures |r| == |rows|
    ensures forall k :: 0 <= k < |rows| ==>
      r[k] == if rows[k].userId == userId then rows[k].(isDefault := false) else rows[k]
  {
    seq(|rows|, k requires 0 <= k < |rows| =>
      if rows[k].userId == userId then rows[k].(isDefault := false) else rows[k])
  }

  /**
   * `setDefaultContract`: afterwards the target is the only default row of
   * its user; every other row keeps its key, nickname and creation time, and
   * the rows of other users do not change at all.
   */
  function AfterSetDefault(rows: seq<Entry>, i: nat): (r: seq<Entry>)
    requires i < |rows|
    ensures |r| == |rows|
    ensures forall k :: 0 <= k < |r| && r[k].userId == rows[i].userId ==> (r[k].isDefault <==> k == i)
    ensures forall k :: 0 <= k < |r| && rows[k].userId != rows[i].userId ==> r[k] == rows[k]
    ensures forall k :: 0 <= k < |r| ==> r[k].(isDefault := false) == rows[k].(isDefault := false)
  {
    var cleared := ClearDefaults(rows, rows[i].userId);
    cleared[i := cleared[i].(isDefault := true)]
  }

  /** `updateSavedContractById`: only the nickname of the target row changes. */
  function Renamed(rows: seq<Entry>, i: nat, nickname: string): (r: seq<Entry>)
    requires i < |rows|
    ensures |r| == |rows| && r[i].nickname == nickname
    ensures r[i] == rows[i].(nickname := nickname)
    ensures forall k :: 0 <= k < |r| && k != i ==> r[k] == rows[k]
  {
    rows[i := rows[i].(nickname := nickname)]
  }

  // ----- listing and pagination -----

  /** The user's rows by creation time: oldest first for Asc, newest first for Desc. */
  function Listing(rows: seq<Entry>, userId: string, order: SortOrder): seq<Entry> {
    if rows == [] then []
    else
      var rest := Listing(rows[..|rows| - 1], userId, order);
      var e := rows[|rows| - 1];
      if e.userId != userId then rest
      else if order == Asc then rest + [e]
      else [e] + rest
  }

  lemma {:induction false} ListingContents(rows: seq<Entry>, userId: string, order: SortOrder)
    ensures forall e :: e in Listing(rows, userId, order) <==> e in rows && e.userId == userId
    ensures |Listing(rows, userId, order)| <= |rows|
  {
    if rows != [] {
      var init := rows[..|rows| - 1];
      ListingContents(init, userId, order);
      assert rows == init + [rows[|rows| - 1]];
    }
  }

  /** Strictly ordered by creation time: ascending for Asc, descending for Desc. */
  predicate Ordered(l: seq<Entry>, order: SortOrder) {
    forall i, j :: 0 <= i < j < |l| ==>
      if order == Asc then l[i].createdAt < l[j].createdAt else l[i].createdAt > l[j].createdAt
  }

  /**
   * In a chronological table the listing is strictly ordered by creation
   * time, ascending for Asc and descending for Desc (the default order).
   */
  lemma {:induction false} ListingSorted(rows: seq<Entry>, userId: string, order: SortOrder)
    requires Chronological(rows)
    ensures Ordered(Listing(rows, userId, order), order)
  {
    if rows != [] {
      var init := rows[..|rows| - 1];
      var e := rows[|rows| - 1];
      ListingSorted(init, userId, order);
      ListingContents(init, userId, order);
      var rest := Listing(init, userId, order);
      forall x | x in rest ensures x.createdAt < e.createdAt {
        var k :| 0 <= k < |init| && init[k] == x;
      }
      if e.userId == userId {
        ExtendOrdered(rest, e, order);
      }
    }
  }

  /** A row newer than every listed one goes last in ascending order and first in descending order. */
  lemma ExtendOrdered(l: seq<Entry>, e: Entry, order: SortOrder)
    requires Ordered(l, order)
    requires forall x :: x in l ==> x.createdAt < e.createdAt
    ensures Ordered(if order == Asc then l + [e] else [e] + l, order)
  {
    var m := if order == Asc then l + [e] else [e] + l;
    forall i, j | 0 <= i < j < |m|
      ensures if order == Asc then m[i].createdAt < m[j].createdAt else m[i].createdAt > m[j].createdAt
    {
      if order == Asc {
        assert m[i] in l;
      } else {
        assert m[j] in l;
      }
    }
  }

  function Min(a: int, b: int): int {
    if a < b then a else b
  }

  /** `Math.ceil(total / limit)` */
  function CeilDiv(total: nat, limit: nat): (q: nat)
    requires limit >= 1
    ensures q * limit >= total
    ensures q == 0 || (q - 1) * limit < total
  {
    (total + limit - 1) / limit
  }

  /** The number of entries before page `page`. */
  function Skip(page: nat, limit: nat): (s: nat)
    requires page >= 1
    ensures page == 1 ==> s == 0
  {
    (page - 1) * limit
  }

  /**
   * `querySavedContracts`: skip (page - 1) * limit entries of the listing,
   * take at most `limit`, and report the total and the number of pages.
   */
  function Paginate(listing: seq<Entry>, page: nat, limit: nat): (p: Page)
    requires page >= 1 && limit >= 1
    ensures |p.results| <= limit
    ensures p.totalResults == |listing|
    ensures p.totalPages * limit >= |listing| && (p.totalPages == 0 || (p.totalPages - 1) * limit < |listing|)
    ensures forall k :: 0 <= k < |p.results| ==>
      Skip(page, limit) + k < |listing| && p.results[k] == View(listing[Skip(page, limit) + k])
    ensures Skip(page, limit) + limit <= |listing| ==> |p.results| == limit
    ensures Skip(page, limit) < |listing| ==> |p.results| == Min(limit, |listing| - Skip(page, limit))
    ensures Skip(page, limit) >= |listing| ==> p.results == []
    ensures p.page == page && p.limit == limit
  {
    var window := Window(listing, Skip(page, limit), limit);
    Page(seq(|window|, k requires 0 <= k < |window| => View(window[k])), page, limit,
         CeilDiv(|listing|, limit), |listing|)
  }

  /** The at most `limit` entries after the first `skip`. */
  function Window(listing: seq<Entry>, skip: nat, limit: nat): (w: seq<Entry>)
    ensures |w| <= limit
    ensures skip + limit <= |listing| ==> |w| == limit
    ensures skip < |listing| ==> |w| == Min(limit, |listing| - skip)
    ensures skip >= |listing| ==> w == []
    ensures forall k :: 0 <= k < |w| ==> skip + k < |listing| && w[k] == listing[skip + k]
  {
    listing[Min(skip, |listing|)..Min(skip + limit, |listing|)]
  }

  // ----- counting default rows -----

  lemma {:induction false} DefaultCountConcat(a: seq<Entry>, b: seq<Entry>, userId: string)
    ensures DefaultCount(a + b, userId) == DefaultCount(a, userId) + DefaultCount(b, userId)
  {
    if b == [] {
      assert a + b == a;
    } else {
      var init := b[..|b| - 1];
      assert (a + b)[..|a + b| - 1] == a + init;
      DefaultCountConcat(a, init, userId);
    }
  }

  lemma DefaultCountSplit(rows: seq<Entry>, i: nat, userId: string)
    requires i < |rows|
    ensures DefaultCount(rows, userId)
      == DefaultCount(rows[..i], userId) + DefaultsOf(rows[i], userId) + DefaultCount(rows[i + 1..], userId)
  {
    assert rows == rows[..i] + [rows[i]] + rows[i + 1..];
    DefaultCountConcat(rows[..i] + [rows[i]], rows[i + 1..], userId);
    DefaultCountConcat(rows[..i], [rows[i]], userId);
    assert [rows[i]][..0] == [];
  }

  lemma DefaultCountRemoved(rows: seq<Entry>, i: nat, userId: string)
    requires i < |rows|
    ensures DefaultCount(Removed(rows, i), userId) + DefaultsOf(rows[i], userId) == DefaultCount(rows, userId)
  {
    DefaultCountSplit(rows, i, userId);
    DefaultCountConcat(rows[..i], rows[i + 1..], userId);
  }

  lemma DefaultCountUpdated(rows: seq<Entry>, i: nat, e: Entry, userId: string)
    requires i < |rows|
    ensures DefaultCount(rows[i := e], userId) + DefaultsOf(rows[i], userId)
      == DefaultCount(rows, userId) + DefaultsOf(e, userId)
  {
    var rows' := rows[i := e];
    DefaultCountSplit(rows, i, userId);
    DefaultCountSplit(rows', i, userId);
    assert rows'[..i] == rows[..i];
    assert rows'[i + 1..] == rows[i + 1..];
  }

  lemma DefaultCountZero(rows: seq<Entry>, userId: string)
    requires DefaultCount(rows, userId) == 0
    ensures forall i :: 0 <= i < |rows| ==> DefaultsOf(rows[i], userId) == 0
  {
    forall i | 0 <= i < |rows| ensures DefaultsOf(rows[i], userId) == 0 {
      DefaultCountSplit(rows, i, userId);
    }
  }

  lemma {:induction false} DefaultCountNoRows(rows: seq<Entry>, userId: string)
    requires !HasRows(rows, userId)
    ensures DefaultCount(rows, userId) == 0
  {
    if rows != [] {
      DefaultCountNoRows(rows[..|rows| - 1], userId);
    }
  }

  lemma {:induction false} DefaultCountCleared(rows: seq<Entry>, userId: string, other: string)
    ensures DefaultCount(ClearDefaults(rows, userId), other)
      == if other == userId then 0 else DefaultCount(rows, other)
  {
    if rows != [] {
      var init := rows[..|rows| - 1];
      assert ClearDefaults(rows, userId)[..|rows| - 1] == ClearDefaults(init, userId);
      DefaultCountCleared(init, userId, other);
    }
  }

  // ----- each operation keeps the invariant -----

  /** Adding the user's next contract keeps the invariant. */
  lemma CreateKeepsWellFormed(rows: seq<Entry>, userId: string, contractId: string, nickname: Option<string>, now: nat)
    requires WellFormed(rows)
    requires Find(rows, userId, contractId).None?
    requires ContractIds.IsContractId(contractId)
    requires forall i :: 0 <= i < |rows| ==> rows[i].createdAt < now
    ensures WellFormed(rows + [NewEntry(rows, userId, contractId, nickname, now)])
  {
    var e := NewEntry(rows, userId, contractId, nickname, now);
    AppendKeepsShape(rows, e);
    CreateKeepsOneDefault(rows, userId, contractId, nickname, now);
  }

  /** A new row with a fresh key, a later creation time and a valid ID keeps the shape of the table. */
  lemma AppendKeepsShape(rows: seq<Entry>, e: Entry)
    requires UniqueKeys(rows) && Chronological(rows) && ValidIds(rows)
    requires Find(rows, e.userId, e.contractId).None?
    requires ContractIds.IsContractId(e.contractId)
    requires forall i :: 0 <= i < |rows| ==> rows[i].createdAt < e.createdAt
    ensures UniqueKeys(rows + [e]) && Chronological(rows + [e]) && ValidIds(rows + [e])
  {
    var r := rows + [e];
    forall i, j | 0 <= i < j < |r|
      ensures !IsKey(r[j], r[i].userId, r[i].contractId) && r[i].createdAt < r[j].createdAt
    {
      assert r[i] == rows[i];
      if j < |rows| {
        assert r[j] == rows[j];
      }
    }
    forall i | 0 <= i < |r| ensures ContractIds.IsContractId(r[i].contractId) {
      if i < |rows| {
        assert r[i] == rows[i];
      }
    }
  }

  /** The user's first contract becomes the default, later ones do not. */
  lemma CreateKeepsOneDefault(rows: seq<Entry>, userId: string, contractId: string, nickname: Option<string>, now: nat)
    requires OneDefaultPerUser(rows)
    ensures OneDefaultPerUser(rows + [NewEntry(rows, userId, contractId, nickname, now)])
  {
    var e := NewEntry(rows, userId, contractId, nickname, now);
    var rows' := rows + [e];
    assert rows'[..|rows|] == rows;
    forall k | 0 <= k < |rows'| ensures DefaultCount(rows', rows'[k].userId) == 1 {
      var v := rows'[k].userId;
      assert DefaultCount(rows', v) == DefaultCount(rows, v) + DefaultsOf(e, v);
      if v != userId {
        assert k < |rows|;
      } else if HasRows(rows, userId) {
        var j :| 0 <= j < |rows| && rows[j].userId == userId;
        assert DefaultCount(rows, rows[j].userId) == 1;
      } else {
        DefaultCountNoRows(rows, userId);
      }
    }
  }

  /** Removing a row keeps keys unique, creation times ordered and IDs valid. */
  lemma RemovedKeepsShape(rows: seq<Entry>, i: nat)
    requires UniqueKeys(rows) && Chronological(rows) && ValidIds(rows)
    requires i < |rows|
    ensures UniqueKeys(Removed(rows, i)) && Chronological(Removed(rows, i)) && ValidIds(Removed(rows, i))
  {
  }

  /** Deleting a row keeps the invariant, promoting a row when needed. */
  lemma DeleteKeepsWellFormed(rows: seq<Entry>, i: nat)
    requires WellFormed(rows)
    requires i < |rows|
    ensures WellFormed(AfterDelete(rows, i))
  {
    RemovedKeepsShape(rows, i);
    SameShape(AfterDelete(rows, i), Removed(rows, i));
    DeleteKeepsOneDefault(rows, i);
  }

  /** Rows that differ only in their default flags share keys, creation times and IDs. */
  lemma SameShape(r: seq<Entry>, s: seq<Entry>)
    requires |r| == |s|
    requires forall k :: 0 <= k < |r| ==> r[k].(isDefault := false) == s[k].(isDefault := false)
    requires UniqueKeys(s) && Chronological(s) && ValidIds(s)
    ensures UniqueKeys(r) && Chronological(r) && ValidIds(r)
  {
    forall k | 0 <= k < |r|
      ensures r[k].userId == s[k].userId && r[k].contractId == s[k].contractId && r[k].createdAt == s[k].createdAt
    {
      var x := r[k].(isDefault := false);
      assert x.userId == r[k].userId && x.contractId == r[k].contractId && x.createdAt == r[k].createdAt;
    }
  }

  /** Deleting a row keeps exactly one default per user, promoting a row when needed. */
  lemma DeleteKeepsOneDefault(rows: seq<Entry>, i: nat)
    requires OneDefaultPerUser(rows)
    requires i < |rows|
    ensures OneDefaultPerUser(AfterDelete(rows, i))
  {
    var u := rows[i].userId;
    var rest := Removed(rows, i);
    forall k | 0 <= k < |rest| ensures DefaultCount(rows, rest[k].userId) == 1 {
      if k < i { assert rows[k] == rest[k]; } else { assert rows[k + 1] == rest[k]; }
    }
    forall v ensures DefaultCount(rest, v) + DefaultsOf(rows[i], v) == DefaultCount(rows, v) {
      DefaultCountRemoved(rows, i, v);
    }
    if rows[i].isDefault {
      assert DefaultCount(rest, u) == 0;
      match Latest(rest, u)
      case None =>
      case Some(j) =>
        PromoteKeepsOneDefault(rest, j);
    }
  }

  /** Making row `j` the default of a user who has none gives that user exactly one. */
  lemma PromoteKeepsOneDefault(rows: seq<Entry>, j: nat)
    requires j < |rows| && DefaultCount(rows, rows[j].userId) == 0
    requires forall k :: 0 <= k < |rows| && rows[k].userId != rows[j].userId ==> DefaultCount(rows, rows[k].userId) == 1
    ensures OneDefaultPerUser(rows[j := rows[j].(isDefault := true)])
  {
    var u := rows[j].userId;
    var e := rows[j].(isDefault := true);
    var r := rows[j := e];
    DefaultCountZero(rows, u);
    forall k | 0 <= k < |r| ensures DefaultCount(r, r[k].userId) == 1 {
      DefaultCountUpdated(rows, j, e, r[k].userId);
    }
  }

  /** Making a row the default keeps exactly one default per user. */
  lemma SetDefaultKeepsWellFormed(rows: seq<Entry>, i: nat)
    requires WellFormed(rows)
    requires i < |rows|
    ensures WellFormed(AfterSetDefault(rows, i))
  {
    var u := rows[i].userId;
    var cleared := ClearDefaults(rows, u);
    var r := AfterSetDefault(rows, i);
    var e := cleared[i].(isDefault := true);
    forall k | 0 <= k < |r| ensures DefaultCount(r, r[k].userId) == 1 {
      var v := r[k].userId;
      DefaultCountUpdated(cleared, i, e, v);
      DefaultCountCleared(rows, u, v);
      assert v == rows[k].userId;
    }
  }

  /** Renaming a row keeps the invariant. */
  lemma RenameKeepsWellFormed(rows: seq<Entry>, i: nat, nickname: string)
    requires WellFormed(rows)
    requires i < |rows|
    ensures WellFormed(Renamed(rows, i, nickname))
  {
    var r := Renamed(rows, i, nickname);
    forall k | 0 <= k < |r| ensures DefaultCount(r, r[k].userId) == 1 {
      DefaultCountUpdated(rows, i, r[i], r[k].userId);
      assert r[k].userId == rows[k].userId;
    }
  }

  /**
   * When the deleted row was the default and the user has rows left, the
   * user's most recently created remaining row is the new default.
   */
  lemma DeletePromotesMostRecent(rows: seq<Entry>, i: nat)
    requires WellFormed(rows)
    requires i < |rows| && rows[i].isDefault
    requires HasRows(Removed(rows, i), rows[i].userId)
    ensures var r := AfterDelete(rows, i);
      exists j :: 0 <= j < |r| && r[j].userId == rows[i].userId && r[j].isDefault
        && forall k :: 0 <= k < |r| && r[k].userId == rows[i].userId ==> r[k].createdAt <= r[j].createdAt
  {
    var rest := Removed(rows, i);
    var u := rows[i].userId;
    var j := Latest(rest, u).value;
    assert Chronological(rest);
    LatestIsMostRecent(rest, u);
    var r := AfterDelete(rows, i);
    assert r[j].userId == u && r[j].isDefault;
  }
}
