/**
 * The hourly alert e-mail job: the window it asks the warehouse about, the
 * grouping of the fetched alerts by the users who saved the alerting
 * contract, and the per-user digests it hands to the mailer. Clock, warehouse,
 * user directory and mailer are parameters: the current time, the fetched
 * alerts, a map from user ID to profile, and the list of digests produced.
 */
module AlertDigest {
  import opened Common
  import ContractIds

  // ----- display -----

  /** `truncateContractId`: short IDs unchanged, long ones as six characters, "...", and the last four. */
  function TruncateContractId(contractId: string): (r: string)
    ensures |contractId| <= 10 ==> r == contractId
    ensures |contractId| > 10 ==>
      && |r| == 13
      && r[..6] == contractId[..6]
      && r[6..9] == "..."
      && r[9..] == contractId[|contractId| - 4..]
  {
    if |contractId| <= 10 then contractId
    else contractId[..6] + "..." + contractId[|contractId| - 4..]
  }

  /** A valid contract ID is shown as 13 characters keeping its leading 'C'. */
  lemma TruncatedContractId(contractId: string)
    requires ContractIds.IsContractId(contractId)
    ensures |TruncateContractId(contractId)| == 13 && TruncateContractId(contractId)[0] == 'C'
    ensures |TruncateContractId(contractId)| < |contractId|
  {
    assert TruncateContractId(contractId)[..6][0] == contractId[..6][0];
  }

  // ----- the alert window -----

  const MinuteMs: int := 60 * 1000

  datatype Window = Window(startMs: int, endMs: int)

  /** The hour that ended thirty minutes before `nowMs`. */
  function AlertWindow(nowMs: int): (w: Window)
    ensures w.endMs == nowMs - 1800000
    ensures w.endMs - w.startMs == 3600000
    ensures w.startMs < w.endMs < nowMs
  {
    var endMs := nowMs - 30 * MinuteMs;
    Window(endMs - 60 * MinuteMs, endMs)
  }

  /** Runs an hour apart ask about back-to-back windows: none overlap and none leave a gap. */
  lemma HourlyRunsTile(nowMs: int)
    ensures AlertWindow(nowMs + 60 * MinuteMs).startMs == AlertWindow(nowMs).endMs
  {
  }

  // ----- inputs -----

  datatype Alert = Alert(
    id: string,
    contractId: string,
    alertTimeMs: int,
    alertType: string,
    totalTransactions: nat,
    failedTransactions: nat,
    errorRate: real,
    message: string)

  /** A user who saved the contract, with that user's nickname for it. */
  datatype Watcher = Watcher(userId: string, nickname: string)

  /** A saved contract with the users who saved it. */
  datatype WatchedContract = WatchedContract(contractId: string, users: seq<Watcher>)

  /** An alert as delivered to one user. */
  datatype UserAlert = UserAlert(alert: Alert, contractNickname: string, userName: string, userEmail: string)

  /** What the user directory knows about a user. */
  datatype Profile = Profile(firstName: Option<string>, emailAddresses: seq<string>)

  datatype Email = Email(to: string, userName: string, alerts: seq<UserAlert>)

  /**
   * The contract IDs the warehouse is asked about: every saved ID validated;
   * one malformed stored ID aborts the run.
   */
  function WatchedIds(saved: seq<WatchedContract>): (r: Result<seq<string>>)
    ensures r.Err? <==> exists k :: 0 <= k < |saved| && ContractIds.ValidateAndSanitize(saved[k].contractId).Err?
    ensures r.Ok? ==> |r.value| == |saved|
    ensures r.Ok? ==> forall k :: 0 <= k < |saved| ==>
      ContractIds.ValidateAndSanitize(saved[k].contractId) == Ok(r.value[k])
  {
    if saved == [] then Ok([])
    else
      match ContractIds.ValidateAndSanitize(saved[0].contractId)
      case Err(s) => Err(s)
      case Ok(id) =>
        match WatchedIds(saved[1..])
        case Err(s) => Err(s)
        case Ok(rest) => Ok([id] + rest)
  }

  // ----- grouping, as a specification -----

  /** `savedContracts.find(c => c.contractId === contractId)`: the first match. */
  function FindContract(saved: seq<WatchedContract>, contractId: string): (r: Option<nat>)
    ensures r.Some? ==> r.value < |saved| && saved[r.value].contractId == contractId
    ensures r.Some? ==> forall k :: 0 <= k < r.value ==> saved[k].contractId != contractId
    ensures r.None? ==> forall k :: 0 <= k < |saved| ==> saved[k].contractId != contractId
  {
    if saved == [] then None
    else if saved[0].contractId == contractId then Some(0)
    else match FindContract(saved[1..], contractId)
      case None => None
      case Some(k) => Some(k + 1)
  }

  /** The users of the contract an alert belongs to; none when it matches no saved contract. */
  function Recipients(saved: seq<WatchedContract>, alert: Alert): seq<Watcher> {
    match FindContract(saved, alert.contractId)
    case None => []
    case Some(k) => saved[k].users
  }

  /** What one alert adds to `userId`'s list while walking the users `ws`. */
  function EntriesFor(ws: seq<Watcher>, alert: Alert, userId: string): seq<UserAlert> {
    if ws == [] then []
    else
      var w := ws[|ws| - 1];
      EntriesFor(ws[..|ws| - 1], alert, userId)
        + (if w.userId == userId then [UserAlert(alert, w.nickname, "", "")] else [])
  }

  /** `userAlerts[userId]` after all of `alerts` have been grouped. */
  function AlertsFor(saved: seq<WatchedContract>, alerts: seq<Alert>, userId: string): seq<UserAlert> {
    if alerts == [] then []
    else EntriesFor(Recipients(saved, alerts[0]), alerts[0], userId) + AlertsFor(saved, alerts[1..], userId)
  }

  /** `order` followed by the users of `ws` it does not contain yet, in first-appearance order. */
  function AppendNew(order: seq<string>, ws: seq<Watcher>): (r: seq<string>)
    ensures |order| <= |r| && r[..|order|] == order
  {
    if ws == [] then order
    else
      var o := AppendNew(order, ws[..|ws| - 1]);
      if ws[|ws| - 1].userId in o then o else o + [ws[|ws| - 1].userId]
  }

  /**
   * The keys of `userAlerts` in insertion order, which is the order
   * `Object.entries` visits for user IDs that are not array indices.
   */
  function FirstSeen(saved: seq<WatchedContract>, alerts: seq<Alert>): seq<string> {
    if alerts == [] then []
    else AppendNew(FirstSeen(saved, alerts[..|alerts| - 1]), Recipients(saved, alerts[|alerts| - 1]))
  }

  /** The dictionary built by the grouping loop. */
  function GroupsOf(saved: seq<WatchedContract>, alerts: seq<Alert>): map<string, seq<UserAlert>> {
    map u | u in FirstSeen(saved, alerts) :: AlertsFor(saved, alerts, u)
  }

  // ----- properties of the grouping -----

  lemma {:induction false} AppendNewMembers(order: seq<string>, ws: seq<Watcher>)
    ensures forall u :: u in AppendNew(order, ws) <==> u in order || Watches(ws, u)
  {
    if ws != [] {
      AppendNewMembers(order, ws[..|ws| - 1]);
      assert forall u :: Watches(ws, u) <==> Watches(ws[..|ws| - 1], u) || ws[|ws| - 1].userId == u;
    }
  }

  lemma EntriesForAll(ws: seq<Watcher>, alert: Alert)
    ensures forall u :: EntriesFor(ws, alert, u) == [] <==> !Watches(ws, u)
  {
    forall u ensures EntriesFor(ws, alert, u) == [] <==> !Watches(ws, u) {
      EntriesForEmpty(ws, alert, u);
    }
  }

  lemma AppendNewSnoc(order: seq<string>, ws: seq<Watcher>, w: Watcher)
    ensures AppendNew(order, ws + [w])
      == if w.userId in AppendNew(order, ws) then AppendNew(order, ws) else AppendNew(order, ws) + [w.userId]
  {
    assert (ws + [w])[..|ws|] == ws;
  }

  predicate Distinct(users: seq<string>) {
    forall i, j :: 0 <= i < j < |users| ==> users[i] != users[j]
  }

  lemma {:induction false} EntriesForEmpty(ws: seq<Watcher>, alert: Alert, userId: string)
    ensures EntriesFor(ws, alert, userId) == [] <==> !Watches(ws, userId)
  {
    if ws != [] {
      EntriesForEmpty(ws[..|ws| - 1], alert, userId);
    }
  }

  /** A user is a key exactly when at least one alert reached the user. */
  lemma {:induction false} FirstSeenMembers(saved: seq<WatchedContract>, alerts: seq<Alert>)
    ensures forall u :: u in FirstSeen(saved, alerts) <==> AlertsFor(saved, alerts, u) != []
  {
    if alerts != [] {
      var a := alerts[|alerts| - 1];
      FirstSeenMembers(saved, alerts[..|alerts| - 1]);
      AppendNewMembers(FirstSeen(saved, alerts[..|alerts| - 1]), Recipients(saved, a));
      assert alerts == alerts[..|alerts| - 1] + [a];
      forall u ensures u in FirstSeen(saved, alerts) <==> AlertsFor(saved, alerts, u) != [] {
        EntriesForEmpty(Recipients(saved, a), a, u);
        AlertsForSnoc(saved, alerts[..|alerts| - 1], a, u);
      }
    }
  }

  lemma {:induction false} AppendNewDistinct(order: seq<string>, ws: seq<Watcher>)
    requires Distinct(order)
    ensures Distinct(AppendNew(order, ws))
  {
    if ws != [] {
      var o := AppendNew(order, ws[..|ws| - 1]);
      AppendNewDistinct(order, ws[..|ws| - 1]);
      var x := ws[|ws| - 1].userId;
      if x !in o {
        assert forall i :: 0 <= i < |o| ==> o[i] in o;
      }
    }
  }

  /** Every user is visited once by the dispatch loop. */
  lemma {:induction false} FirstSeenDistinct(saved: seq<WatchedContract>, alerts: seq<Alert>)
    ensures Distinct(FirstSeen(saved, alerts))
  {
    if alerts != [] {
      FirstSeenDistinct(saved, alerts[..|alerts| - 1]);
      AppendNewDistinct(FirstSeen(saved, alerts[..|alerts| - 1]), Recipients(saved, alerts[|alerts| - 1]));
    }
  }

  lemma AlertsForSnoc(saved: seq<WatchedContract>, alerts: seq<Alert>, alert: Alert, userId: string)
    ensures AlertsFor(saved, alerts + [alert], userId)
      == AlertsFor(saved, alerts, userId) + EntriesFor(Recipients(saved, alert), alert, userId)
  {
    AlertsForConcat(saved, alerts, [alert], userId);
    assert [alert][1..] == [];
  }

  lemma EntriesForSnoc(ws: seq<Watcher>, w: Watcher, alert: Alert, userId: string)
    ensures EntriesFor(ws + [w], alert, userId)
      == EntriesFor(ws, alert, userId) + (if w.userId == userId then [UserAlert(alert, w.nickname, "", "")] else [])
  {
    assert (ws + [w])[..|ws|] == ws;
  }

  /** Each user's list follows the alert order: the alerts of a later batch come after the earlier ones. */
  lemma {:induction false} AlertsForConcat(saved: seq<WatchedContract>, a: seq<Alert>, b: seq<Alert>, userId: string)
    ensures AlertsFor(saved, a + b, userId) == AlertsFor(saved, a, userId) + AlertsFor(saved, b, userId)
  {
    if a == [] {
      assert a + b == b;
    } else {
      assert (a + b)[0] == a[0];
      assert (a + b)[1..] == a[1..] + b;
      AlertsForConcat(saved, a[1..], b, userId);
    }
  }

  /** No user saved the same contract twice (the table's (user, contract) key). */
  predicate DistinctWatchers(ws: seq<Watcher>) {
    forall i, j :: 0 <= i < j < |ws| ==> ws[i].userId != ws[j].userId
  }

  predicate Watches(ws: seq<Watcher>, userId: string) {
    exists k :: 0 <= k < |ws| && ws[k].userId == userId
  }

  /**
   * One alert reaches each user of the first saved contract with its ID once,
   * with that user's nickname; an alert matching no saved contract reaches nobody.
   */
  lemma SingleAlert(saved: seq<WatchedContract>, alert: Alert, userId: string)
    requires forall c :: 0 <= c < |saved| ==> DistinctWatchers(saved[c].users)
    ensures FindContract(saved, alert.contractId).None? ==> AlertsFor(saved, [alert], userId) == []
    ensures FindContract(saved, alert.contractId).Some? ==>
      var ws := saved[FindContract(saved, alert.contractId).value].users;
      AlertsFor(saved, [alert], userId)
      == if Watches(ws, userId) then [UserAlert(alert, Nickname(ws, userId), "", "")] else []
  {
    AlertsForSnoc(saved, [], alert, userId);
    assert [] + [alert] == [alert];
    match FindContract(saved, alert.contractId)
    case None =>
    case Some(c) =>
      UniqueWatcher(saved[c].users, alert, userId);
  }

  /** The nickname of the first watcher entry of `userId`. */
  function Nickname(ws: seq<Watcher>, userId: string): string {
    if ws == [] then ""
    else if ws[0].userId == userId then ws[0].nickname
    else Nickname(ws[1..], userId)
  }

  lemma {:induction false} UniqueWatcher(ws: seq<Watcher>, alert: Alert, userId: string)
    requires DistinctWatchers(ws)
    ensures EntriesFor(ws, alert, userId)
      == if Watches(ws, userId) then [UserAlert(alert, Nickname(ws, userId), "", "")] else []
  {
    if ws != [] {
      var init := ws[..|ws| - 1];
      var w := ws[|ws| - 1];
      UniqueWatcher(init, alert, userId);
      assert DistinctWatchers(init);
      if w.userId == userId {
        assert forall k :: 0 <= k < |init| ==> init[k].userId != userId;
        NicknameOfLast(ws, userId);
      } else if Watches(init, userId) {
        NicknameOfInit(ws, userId);
      } else {
        assert !Watches(ws, userId);
      }
    }
  }

  lemma {:induction false} NicknameOfLast(ws: seq<Watcher>, userId: string)
    requires ws != [] && ws[|ws| - 1].userId == userId
    requires forall k :: 0 <= k < |ws| - 1 ==> ws[k].userId != userId
    ensures Nickname(ws, userId) == ws[|ws| - 1].nickname
  {
    if |ws| > 1 {
      NicknameOfLast(ws[1..], userId);
    }
  }

  lemma {:induction false} NicknameOfInit(ws: seq<Watcher>, userId: string)
    requires ws != [] && exists k :: 0 <= k < |ws| - 1 && ws[k].userId == userId
    ensures Nickname(ws, userId) == Nickname(ws[..|ws| - 1], userId)
  {
    if ws[0].userId != userId {
      assert ws[1..][..|ws[1..]| - 1] == ws[..|ws| - 1][1..];
      NicknameOfInit(ws[1..], userId);
    }
  }

  // ----- grouping, as the loop does it -----

  /** `groups` after one copy of `alert` is pushed onto the list of the user of `w`. */
  function PushOne(groups: map<string, seq<UserAlert>>, w: Watcher, alert: Alert): map<string, seq<UserAlert>> {
    groups[w.userId := (if w.userId in groups then groups[w.userId] else []) + [UserAlert(alert, w.nickname, "", "")]]
  }

  /** `groups` after the inner loop has walked `ws`. */
  function PushAll(groups: map<string, seq<UserAlert>>, ws: seq<Watcher>, alert: Alert): map<string, seq<UserAlert>> {
    if ws == [] then groups
    else PushOne(PushAll(groups, ws[..|ws| - 1], alert), ws[|ws| - 1], alert)
  }

  /** The inner loop creates exactly the lists of the users it walks. */
  lemma {:induction false} PushAllKeys(groups: map<string, seq<UserAlert>>, ws: seq<Watcher>, alert: Alert)
    ensures forall u :: u in PushAll(groups, ws, alert) <==> u in groups || Watches(ws, u)
  {
    if ws != [] {
      var init := ws[..|ws| - 1];
      PushAllKeys(groups, init, alert);
      assert forall u :: Watches(ws, u) <==> Watches(init, u) || ws[|ws| - 1].userId == u;
    }
  }

  /** The inner loop appends to each user's list what the specification says. */
  lemma {:induction false} PushAllContents(groups: map<string, seq<UserAlert>>, ws: seq<Watcher>, alert: Alert)
    ensures forall u :: u in PushAll(groups, ws, alert) <==> u in groups || Watches(ws, u)
    ensures forall u :: u in PushAll(groups, ws, alert) ==>
      PushAll(groups, ws, alert)[u] == (if u in groups then groups[u] else []) + EntriesFor(ws, alert, u)
  {
    PushAllKeys(groups, ws, alert);
    if ws != [] {
      var init := ws[..|ws| - 1];
      var w := ws[|ws| - 1];
      PushAllContents(groups, init, alert);
      assert ws == init + [w];
      forall u | u in PushAll(groups, ws, alert)
        ensures PushAll(groups, ws, alert)[u] == (if u in groups then groups[u] else []) + EntriesFor(ws, alert, u)
      {
        PushOneEntries(PushAll(groups, init, alert), groups, init, w, alert, u);
      }
    }
  }

  /** One step of the inner loop, for one user. */
  lemma PushOneEntries(g: map<string, seq<UserAlert>>, groups: map<string, seq<UserAlert>>,
                       init: seq<Watcher>, w: Watcher, alert: Alert, u: string)
    requires u in g <==> u in groups || Watches(init, u)
    requires u in g ==> g[u] == (if u in groups then groups[u] else []) + EntriesFor(init, alert, u)
    requires u in PushOne(g, w, alert)
    ensures PushOne(g, w, alert)[u] == (if u in groups then groups[u] else []) + EntriesFor(init + [w], alert, u)
  {
    EntriesForSnoc(init, w, alert, u);
    if u !in g {
      EntriesForEmpty(init, alert, u);
    }
  }

  /** `if (!userAlerts[id]) userAlerts[id] = []; userAlerts[id].push(...)` for one user. */
  method Push(groups: map<string, seq<UserAlert>>, order: seq<string>, user: Watcher, alert: Alert)
    returns (groups': map<string, seq<UserAlert>>, order': seq<string>)
    requires forall u :: u in groups <==> u in order
    ensures order' == if user.userId in order then order else order + [user.userId]
    ensures groups' == PushOne(groups, user, alert)
  {
    groups' := groups;
    order' := order;
    if user.userId !in groups {
      groups' := groups'[user.userId := []];
      order' := order' + [user.userId];
    }
    groups' := groups'[user.userId := groups'[user.userId] + [UserAlert(alert, user.nickname, "", "")]];
  }

  /**
   * The inner loop: push a copy of `alert` onto the list of each user in
   * `users`, creating the list on first use.
   */
  method Deliver(groups: map<string, seq<UserAlert>>, order: seq<string>, users: seq<Watcher>, alert: Alert)
    returns (groups': map<string, seq<UserAlert>>, order': seq<string>)
    requires forall u :: u in groups <==> u in order
    ensures order' == AppendNew(order, users)
    ensures groups' == PushAll(groups, users, alert)
  {
    groups' := groups;
    order' := order;
    var j := 0;
    while j < |users|
      invariant 0 <= j <= |users|
      invariant order' == AppendNew(order, users[..j])
      invariant groups' == PushAll(groups, users[..j], alert)
      invariant forall u :: u in groups' <==> u in order'
    {
      var user := users[j];
      assert users[..j + 1] == users[..j] + [user];
      assert users[..j + 1][..j] == users[..j];
      groups', order' := Push(groups', order', user, alert);
      j := j + 1;
    }
    assert users[..|users|] == users;
  }

  /** One more alert: the dictionary grows by what the inner loop pushes for it. */
  lemma GroupsOfSnoc(saved: seq<WatchedContract>, alerts: seq<Alert>, alert: Alert)
    ensures FirstSeen(saved, alerts + [alert]) == AppendNew(FirstSeen(saved, alerts), Recipients(saved, alert))
    ensures GroupsOf(saved, alerts + [alert]) == PushAll(GroupsOf(saved, alerts), Recipients(saved, alert), alert)
  {
    var g := GroupsOf(saved, alerts);
    var ws := Recipients(saved, alert);
    assert (alerts + [alert])[..|alerts|] == alerts;
    PushAllKeys(g, ws, alert);
    AppendNewMembers(FirstSeen(saved, alerts), ws);
    var lhs := GroupsOf(saved, alerts + [alert]);
    var rhs := PushAll(g, ws, alert);
    assert lhs.Keys == rhs.Keys;
    forall u | u in lhs ensures lhs[u] == rhs[u] {
      GroupsOfSnocAt(saved, alerts, alert, u);
    }
  }

  /** One more alert, for one user who has a list afterwards. */
  lemma GroupsOfSnocAt(saved: seq<WatchedContract>, alerts: seq<Alert>, alert: Alert, u: string)
    requires u in PushAll(GroupsOf(saved, alerts), Recipients(saved, alert), alert)
    ensures PushAll(GroupsOf(saved, alerts), Recipients(saved, alert), alert)[u] == AlertsFor(saved, alerts + [alert], u)
  {
    var g := GroupsOf(saved, alerts);
    var ws := Recipients(saved, alert);
    PushAllContents(g, ws, alert);
    AlertsForSnoc(saved, alerts, alert, u);
    if u !in g {
      FirstSeenMembers(saved, alerts);
    }
  }

  /**
   * The nested loop of `runAlertEmailScheduler`: for each alert, find its
   * saved contract and deliver a copy to each of its users.
   */
  method GroupByUser(saved: seq<WatchedContract>, alerts: seq<Alert>)
    returns (groups: map<string, seq<UserAlert>>, order: seq<string>)
    ensures groups == GroupsOf(saved, alerts)
    ensures order == FirstSeen(saved, alerts)
  {
    groups := map[];
    order := [];
    var i := 0;
    while i < |alerts|
      invariant 0 <= i <= |alerts|
      invariant order == FirstSeen(saved, alerts[..i])
      invariant groups == GroupsOf(saved, alerts[..i])
    {
      var alert := alerts[i];
      assert alerts[..i + 1] == alerts[..i] + [alert];
      GroupsOfSnoc(saved, alerts[..i], alert);
      var found := FindContract(saved, alert.contractId);
      var users := if found.Some? then saved[found.value].users else [];
      assert users == Recipients(saved, alert);
      groups, order := Deliver(groups, order, users, alert);
      i := i + 1;
    }
    assert alerts[..|alerts|] == alerts;
  }

  // ----- dispatch -----

  /** `user.firstName || 'User'` */
  function DisplayName(p: Profile): (r: string)
    ensures r != ""
    ensures p.firstName.Some? && p.firstName.value != "" ==> r == p.firstName.value
    ensures p.firstName.None? || p.firstName.value == "" ==> r == "User"
  {
    if p.firstName.Some? && p.firstName.value != "" then p.firstName.value else "User"
  }

  /** `user.emailAddresses[0]?.emailAddress`, absent when there is none or it is empty. */
  function EmailAddress(p: Profile): (r: Option<string>)
    ensures r.Some? <==> p.emailAddresses != [] && p.emailAddresses[0] != ""
    ensures r.Some? ==> r.value == p.emailAddresses[0]
  {
    if p.emailAddresses != [] && p.emailAddresses[0] != "" then Some(p.emailAddresses[0]) else None
  }

  /** The user's alerts with the name and address filled in. */
  function Addressed(alerts: seq<UserAlert>, userName: string, userEmail: string): (r: seq<UserAlert>)
    ensures |r| == |alerts|
    ensures forall k :: 0 <= k < |r| ==> r[k] == alerts[k].(userName := userName, userEmail := userEmail)
  {
    seq(|alerts|, k requires 0 <= k < |alerts| => alerts[k].(userName := userName, userEmail := userEmail))
  }

  /** `sendAlertEmail`: nothing for an empty list, otherwise one e-mail to the name and address on the first alert. */
  function SendAlertEmail(userAlerts: seq<UserAlert>): (r: Option<Email>)
    ensures r.None? <==> userAlerts == []
    ensures r.Some? ==> r.value.to == userAlerts[0].userEmail && r.value.userName == userAlerts[0].userName
    ensures r.Some? ==> r.value.alerts == userAlerts
  {
    if userAlerts == [] then None
    else Some(Email(userAlerts[0].userEmail, userAlerts[0].userName, userAlerts))
  }

  /**
   * What the dispatch loop sends one user: nothing when the directory does
   * not know the user or has no address for the user, otherwise one e-mail
   * to that address carrying all of the user's alerts.
   */
  function Digest(userId: string, alerts: seq<UserAlert>, directory: map<string, Profile>): (r: Option<Email>)
    ensures r.Some? <==> userId in directory && EmailAddress(directory[userId]).Some? && alerts != []
    ensures r.Some? ==>
      && r.value.to == EmailAddress(directory[userId]).value
      && r.value.to != ""
      && r.value.userName == DisplayName(directory[userId])
      && r.value.alerts == Addressed(alerts, DisplayName(directory[userId]), r.value.to)
  {
    if userId !in directory then None
    else
      var user := directory[userId];
      match EmailAddress(user)
      case None => None
      case Some(address) => SendAlertEmail(Addressed(alerts, DisplayName(user), address))
  }

  /** The e-mails of the dispatch loop, in the order it visits the users. */
  function Outbox(order: seq<string>, groups: map<string, seq<UserAlert>>, directory: map<string, Profile>): seq<Email>
    requires forall u :: u in order ==> u in groups
  {
    if order == [] then []
    else
      var u := order[|order| - 1];
      Outbox(order[..|order| - 1], groups, directory)
        + match Digest(u, groups[u], directory) case None => [] case Some(e) => [e]
  }

  /** Every visited user's digest is sent. */
  lemma OutboxHasDigests(order: seq<string>, groups: map<string, seq<UserAlert>>, directory: map<string, Profile>)
    requires forall u :: u in order ==> u in groups
    ensures forall k :: 0 <= k < |order| && Digest(order[k], groups[order[k]], directory).Some? ==>
      Digest(order[k], groups[order[k]], directory).value in Outbox(order, groups, directory)
  {
    forall k | 0 <= k < |order| && Digest(order[k], groups[order[k]], directory).Some?
      ensures Digest(order[k], groups[order[k]], directory).value in Outbox(order, groups, directory)
    {
      OutboxHasDigest(order, groups, directory, k);
    }
  }

  lemma {:induction false} OutboxHasDigest(order: seq<string>, groups: map<string, seq<UserAlert>>, directory: map<string, Profile>, k: nat)
    requires forall u :: u in order ==> u in groups
    requires k < |order| && Digest(order[k], groups[order[k]], directory).Some?
    ensures Digest(order[k], groups[order[k]], directory).value in Outbox(order, groups, directory)
  {
    var init := order[..|order| - 1];
    if k < |init| {
      assert init[k] == order[k];
      OutboxHasDigest(init, groups, directory, k);
    }
  }

  /** Every e-mail is the digest of a visited user. */
  lemma {:induction false} OutboxOnlyDigests(order: seq<string>, groups: map<string, seq<UserAlert>>, directory: map<string, Profile>)
    requires forall u :: u in order ==> u in groups
    ensures forall e :: e in Outbox(order, groups, directory) ==>
      exists k :: 0 <= k < |order| && Digest(order[k], groups[order[k]], directory) == Some(e)
  {
    if order != [] {
      var init := order[..|order| - 1];
      OutboxOnlyDigests(init, groups, directory);
      forall e | e in Outbox(order, groups, directory)
        ensures exists k :: 0 <= k < |order| && Digest(order[k], groups[order[k]], directory) == Some(e)
      {
        if e in Outbox(init, groups, directory) {
          var k :| 0 <= k < |init| && Digest(init[k], groups[init[k]], directory) == Some(e);
          assert order[k] == init[k];
        } else {
          assert Digest(order[|order| - 1], groups[order[|order| - 1]], directory) == Some(e);
        }
      }
    }
  }

  /**
   * The dispatch loop: for each user in insertion order, look the user up,
   * skip the user when there is no address, otherwise send the digest.
   */
  method Dispatch(order: seq<string>, groups: map<string, seq<UserAlert>>, directory: map<string, Profile>)
    returns (outbox: seq<Email>)
    requires forall u :: u in order ==> u in groups
    ensures outbox == Outbox(order, groups, directory)
  {
    outbox := [];
    var k := 0;
    while k < |order|
      invariant 0 <= k <= |order|
      invariant outbox == Outbox(order[..k], groups, directory)
    {
      var userId := order[k];
      assert order[..k + 1][..k] == order[..k];
      ghost var next := match Digest(userId, groups[userId], directory) case None => [] case Some(e) => [e];
      assert Outbox(order[..k + 1], groups, directory) == outbox + next;
      if userId in directory {
        var user := directory[userId];
        var userName := DisplayName(user);
        var userEmail := EmailAddress(user);
        if userEmail.Some? {
          var sent := SendAlertEmail(Addressed(groups[userId], userName, userEmail.value));
          if sent.Some? {
            outbox := outbox + [sent.value];
          }
        }
      }
      k := k + 1;
    }
    assert order[..|order|] == order;
  }

  /**
   * `runAlertEmailScheduler` for one tick: the window, then (unless a stored
   * contract ID is malformed, which aborts the run) grouping and dispatch.
   */
  method RunAlertEmailScheduler(nowMs: int, saved: seq<WatchedContract>, alerts: seq<Alert>, directory: map<string, Profile>)
    returns (window: Window, outbox: seq<Email>)
    ensures window == AlertWindow(nowMs)
    ensures WatchedIds(saved).Err? ==> outbox == []
    ensures WatchedIds(saved).Ok? ==>
      outbox == Outbox(FirstSeen(saved, alerts), GroupsOf(saved, alerts), directory)
  {
    window := AlertWindow(nowMs);
    var contractIds := WatchedIds(saved);
    if contractIds.Err? {
      return window, [];
    }
    var groups, order := GroupByUser(saved, alerts);
    outbox := Dispatch(order, groups, directory);
  }

  /**
   * A user reached by at least one alert, known to the directory with an
   * address, receives one e-mail holding exactly the user's alerts in alert
   * order, each with the user's nickname for its contract.
   */
  lemma ReachedUserGetsDigest(saved: seq<WatchedContract>, alerts: seq<Alert>, directory: map<string, Profile>, userId: string)
    requires AlertsFor(saved, alerts, userId) != []
    requires userId in directory && EmailAddress(directory[userId]).Some?
    ensures var e := Digest(userId, AlertsFor(saved, alerts, userId), directory);
      e.Some? && e.value in Outbox(FirstSeen(saved, alerts), GroupsOf(saved, alerts), directory)
  {
    var order := FirstSeen(saved, alerts);
    var groups := GroupsOf(saved, alerts);
    FirstSeenMembers(saved, alerts);
    OutboxHasDigests(order, groups, directory);
    var k :| 0 <= k < |order| && order[k] == userId;
  }
}
