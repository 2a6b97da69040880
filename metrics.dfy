/**
 * The row-shaping half of the metrics service: each metric takes the rows the
 * warehouse returned for a time range (one per hourly or daily bucket, every
 * row also carrying the window totals) and shapes them into the response.
 * The fetch itself is not modelled; its rows are the input. Reading the
 * totals from `data[0]` fails on an empty result, which the service reports
 * as an internal error.
 */
module Metrics {
  import opened Common
  import opened Comparison
  import SavedContractTable

  // ----- transaction volume -----

  datatype VolumeRow = VolumeRow(date: string, transactionCount: nat, previousTransactionCount: nat)

  datatype IntervalVolume = IntervalVolume(date: string, transactionCount: nat)

  datatype TxVolume = TxVolume(
    intervalVolumes: seq<IntervalVolume>,
    totalVolume: nat,
    comparedTotalVolume: ComparedMetric)

  /** `data.reduce((sum, row) => sum + row.transaction_count, acc)` */
  function Reduce(acc: nat, rows: seq<VolumeRow>): nat
    decreases |rows|
  {
    if rows == [] then acc else Reduce(acc + rows[0].transactionCount, rows[1..])
  }

  /** The sum of the bucket counts, as a reference definition. */
  function SumCounts(rows: seq<VolumeRow>): nat {
    if rows == [] then 0 else SumCounts(rows[..|rows| - 1]) + rows[|rows| - 1].transactionCount
  }

  lemma {:induction false} SumCountsAppend(a: seq<VolumeRow>, b: seq<VolumeRow>)
    ensures SumCounts(a + b) == SumCounts(a) + SumCounts(b)
  {
    if b != [] {
      assert (a + b)[..|a + b| - 1] == a + b[..|b| - 1];
      SumCountsAppend(a, b[..|b| - 1]);
    } else {
      assert a + b == a;
    }
  }

  /** The left fold of the service adds up exactly the bucket counts. */
  lemma {:induction false} ReduceIsSum(acc: nat, rows: seq<VolumeRow>)
    ensures Reduce(acc, rows) == acc + SumCounts(rows)
    decreases |rows|
  {
    if rows != [] {
      ReduceIsSum(acc + rows[0].transactionCount, rows[1..]);
      assert rows == [rows[0]] + rows[1..];
      SumCountsAppend([rows[0]], rows[1..]);
      assert [rows[0]][..0] == [];
    }
  }

  /**
   * `getTxVolume`: one interval per row, in row order; the total is the sum
   * of all bucket counts and is compared with the previous window's total
   * taken from the first row.
   */
  function GetTxVolume(rows: seq<VolumeRow>): (r: Result<TxVolume>)
    ensures r.Err? <==> rows == []
    ensures r.Err? ==> r.status == InternalServerError
    ensures r.Ok? ==> |r.value.intervalVolumes| == |rows|
    ensures r.Ok? ==> forall i :: 0 <= i < |rows| ==>
      r.value.intervalVolumes[i] == IntervalVolume(rows[i].date, rows[i].transactionCount)
    ensures r.Ok? ==> r.value.totalVolume == SumCounts(rows)
    ensures r.Ok? ==>
      r.value.comparedTotalVolume
      == CalculateChanges(SumCounts(rows) as real, rows[0].previousTransactionCount as real)
  {
    if rows == [] then Err(InternalServerError)
    else
      var total := Reduce(0, rows);
      ReduceIsSum(0, rows);
      Ok(TxVolume(
        seq(|rows|, i requires 0 <= i < |rows| => IntervalVolume(rows[i].date, rows[i].transactionCount)),
        total,
        CalculateChanges(total as real, rows[0].previousTransactionCount as real)))
  }

  // ----- transaction success rate -----

  /**
   * `roundTo(part / total * 100, 2)`. A zero total divides by zero, and the
   * NaN that results is serialised as null: the rate is then absent.
   * Rates of a part of the total lie between 0 and 100.
   */
  function Rate(part: nat, total: nat): (r: Option<real>)
    ensures r.None? <==> total == 0
    ensures r.Some? ==> OnGrid(r.value, 2)
    ensures r.Some? ==>
      var exact := part as real / total as real * 100.0;
      exact * 100.0 - 0.5 < r.value * 100.0 <= exact * 100.0 + 0.5
    ensures r.Some? && part <= total ==> 0.0 <= r.value <= 100.0
  {
    if total == 0 then None
    else
      var exact := part as real / total as real * 100.0;
      RateBounds(part, total);
      Some(RoundTo(exact, 2))
  }

  lemma RateBounds(part: nat, total: nat)
    requires total > 0
    ensures Scale(2) == 100.0
    ensures part <= total ==>
      0.0 <= RoundTo(part as real / total as real * 100.0, 2) <= 100.0
  {
    assert Scale(2) == 100.0 by { assert Pow10(2) == 100; }
    var exact := part as real / total as real * 100.0;
    RoundedSign(exact, 2);
    if part <= total {
      assert exact <= 100.0;
      RoundToMonotone(exact, 100.0, 2);
      GridPoint(10000, 2);
      RoundToUnique(100.0, 2, 100.0);
    }
  }

  /**
   * The success and failure rates of a bucket whose outcomes add up to its
   * count are rounded independently, so they add up to 100 or, when both
   * round a half upwards, to 100.01.
   */
  lemma RatesComplement(successful: nat, failed: nat)
    requires successful + failed > 0
    ensures var total := successful + failed;
      Rate(successful, total).value + Rate(failed, total).value in {100.0, 100.01}
  {
    var total := successful + failed;
    Shares(successful, failed);
    GridSum(Rate(successful, total).value, Rate(failed, total).value,
      successful as real / total as real * 100.0, failed as real / total as real * 100.0);
  }

  lemma Shares(x: nat, y: nat)
    requires x + y > 0
    ensures x as real / (x + y) as real * 100.0 + y as real / (x + y) as real * 100.0 == 100.0
  {
    var t := (x + y) as real;
    assert x as real / t + y as real / t == (x as real + y as real) / t;
  }

  /** Two two-place values, each within half a hundredth of exact shares summing to 100. */
  lemma GridSum(s: real, f: real, es: real, ef: real)
    requires OnGrid(s, 2) && OnGrid(f, 2)
    requires es + ef == 100.0
    requires es * 100.0 - 0.5 < s * 100.0 <= es * 100.0 + 0.5
    requires ef * 100.0 - 0.5 < f * 100.0 <= ef * 100.0 + 0.5
    ensures s + f in {100.0, 100.01}
  {
    Cents(s);
    Cents(f);
    var a := (s * 100.0).Floor;
    var b := (f * 100.0).Floor;
    assert 9999 < a + b <= 10001;
    if a + b == 10000 {
      assert s + f == 100.0;
    } else {
      assert s + f == 100.01;
    }
  }

  /** A rate that rounds a half upwards on both sides: 1 in 800 succeeds. */
  lemma RatesOverlapExample()
    ensures Rate(1, 800) == Some(0.13) && Rate(799, 800) == Some(99.88)
  {
    assert Scale(2) == 100.0 by { assert Pow10(2) == 100; }
    assert ScaledRound(1.0 / 800.0 * 100.0, 2) == 13;
    assert ScaledRound(799.0 / 800.0 * 100.0, 2) == 9988;
  }

  /** Two rates compared: absent when either side is absent (a NaN spreads through the comparison). */
  function CompareRates(current: Option<real>, previous: Option<real>): (r: Option<ComparedMetric>)
    ensures r.Some? <==> current.Some? && previous.Some?
    ensures r.Some? ==> r.value == CalculateChanges(current.value, previous.value)
  {
    if current.Some? && previous.Some? then Some(CalculateChanges(current.value, previous.value))
    else None
  }

  datatype SuccessRow = SuccessRow(
    date: string,
    transactionCount: nat,
    successfulTransactions: nat,
    failedTransactions: nat,
    totalTransactions: nat,
    totalSuccessful: nat,
    totalFailed: nat,
    previousTotalTransactions: nat,
    previousTotalSuccessful: nat,
    previousTotalFailed: nat)

  datatype IntervalSuccessRate = IntervalSuccessRate(
    date: string,
    transactionCount: nat,
    successfulTransactions: nat,
    failedTransactions: nat,
    intervalSuccessRate: Option<real>,
    intervalFailureRate: Option<real>)

  datatype TxSuccessRate = TxSuccessRate(
    intervalSuccessRates: seq<IntervalSuccessRate>,
    totalTransactions: nat,
    totalSuccessful: nat,
    totalFailed: nat,
    overallSuccessRate: Option<real>,
    overallFailureRate: Option<real>,
    comparedTotalTransactions: ComparedMetric,
    comparedTotalSuccessful: ComparedMetric,
    comparedTotalFailed: ComparedMetric,
    comparedOverallSuccessRate: Option<ComparedMetric>,
    comparedOverallFailureRate: Option<ComparedMetric>)

  function IntervalRateOf(row: SuccessRow): IntervalSuccessRate {
    IntervalSuccessRate(row.date, row.transactionCount, row.successfulTransactions, row.failedTransactions,
      Rate(row.successfulTransactions, row.transactionCount),
      Rate(row.failedTransactions, row.transactionCount))
  }

  /**
   * `getTxSuccessRate`: per-bucket rates in row order; window totals from the
   * first row; the overall rates are compared after both the current and the
   * previous rate have been rounded.
   */
  function GetTxSuccessRate(rows: seq<SuccessRow>): (r: Result<TxSuccessRate>)
    ensures r.Err? <==> rows == []
    ensures r.Err? ==> r.status == InternalServerError
    ensures r.Ok? ==> |r.value.intervalSuccessRates| == |rows|
    ensures r.Ok? ==> forall i :: 0 <= i < |rows| ==>
      var v := r.value.intervalSuccessRates[i];
      && v.date == rows[i].date
      && v.transactionCount == rows[i].transactionCount
      && v.successfulTransactions == rows[i].successfulTransactions
      && v.failedTransactions == rows[i].failedTransactions
      && v.intervalSuccessRate == Rate(rows[i].successfulTransactions, rows[i].transactionCount)
      && v.intervalFailureRate == Rate(rows[i].failedTransactions, rows[i].transactionCount)
    ensures r.Ok? ==>
      var first := rows[0];
      && r.value.totalTransactions == first.totalTransactions
      && r.value.totalSuccessful == first.totalSuccessful
      && r.value.totalFailed == first.totalFailed
      && r.value.overallSuccessRate == Rate(first.totalSuccessful, first.totalTransactions)
      && r.value.overallFailureRate == Rate(first.totalFailed, first.totalTransactions)
      && r.value.comparedTotalTransactions
         == CalculateChanges(first.totalTransactions as real, first.previousTotalTransactions as real)
      && r.value.comparedTotalSuccessful
         == CalculateChanges(first.totalSuccessful as real, first.previousTotalSuccessful as real)
      && r.value.comparedTotalFailed
         == CalculateChanges(first.totalFailed as real, first.previousTotalFailed as real)
      && r.value.comparedOverallSuccessRate
         == CompareRates(r.value.overallSuccessRate,
                         Rate(first.previousTotalSuccessful, first.previousTotalTransactions))
      && r.value.comparedOverallFailureRate
         == CompareRates(r.value.overallFailureRate,
                         Rate(first.previousTotalFailed, first.previousTotalTransactions))
  {
    if rows == [] then Err(InternalServerError)
    else
      var first := rows[0];
      var overallSuccessRate := Rate(first.totalSuccessful, first.totalTransactions);
      var overallFailureRate := Rate(first.totalFailed, first.totalTransactions);
      Ok(TxSuccessRate(
        seq(|rows|, i requires 0 <= i < |rows| => IntervalRateOf(rows[i])),
        first.totalTransactions,
        first.totalSuccessful,
        first.totalFailed,
        overallSuccessRate,
        overallFailureRate,
        CalculateChanges(first.totalTransactions as real, first.previousTotalTransactions as real),
        CalculateChanges(first.totalSuccessful as real, first.previousTotalSuccessful as real),
        CalculateChanges(first.totalFailed as real, first.previousTotalFailed as real),
        CompareRates(overallSuccessRate, Rate(first.previousTotalSuccessful, first.previousTotalTransactions)),
        CompareRates(overallFailureRate, Rate(first.previousTotalFailed, first.previousTotalTransactions))))
  }

  // ----- unique users -----

  datatype UniqueUsersRow = UniqueUsersRow(
    date: string,
    uniqueUsers: nat,
    totalUniqueUsers: nat,
    previousTotalUniqueUsers: nat)

  datatype IntervalUniqueUsers = IntervalUniqueUsers(date: string, uniqueUsers: nat)

  datatype UniqueUsers = UniqueUsers(
    intervalUniqueUsers: seq<IntervalUniqueUsers>,
    totalUniqueUsers: nat,
    comparedTotalUniqueUsers: ComparedMetric)

  /**
   * `getUniqueUsers`: per-bucket counts in row order; the window total is
   * the distinct count the warehouse reports on the first row, not a sum of
   * the buckets (a user active in two buckets counts once).
   */
  function GetUniqueUsers(rows: seq<UniqueUsersRow>): (r: Result<UniqueUsers>)
    ensures r.Err? <==> rows == []
    ensures r.Err? ==> r.status == InternalServerError
    ensures r.Ok? ==> |r.value.intervalUniqueUsers| == |rows|
    ensures r.Ok? ==> forall i :: 0 <= i < |rows| ==>
      r.value.intervalUniqueUsers[i] == IntervalUniqueUsers(rows[i].date, rows[i].uniqueUsers)
    ensures r.Ok? ==> r.value.totalUniqueUsers == rows[0].totalUniqueUsers
    ensures r.Ok? ==>
      r.value.comparedTotalUniqueUsers
      == CalculateChanges(rows[0].totalUniqueUsers as real, rows[0].previousTotalUniqueUsers as real)
  {
    if rows == [] then Err(InternalServerError)
    else
      Ok(UniqueUsers(
        seq(|rows|, i requires 0 <= i < |rows| => IntervalUniqueUsers(rows[i].date, rows[i].uniqueUsers)),
        rows[0].totalUniqueUsers,
        CalculateChanges(rows[0].totalUniqueUsers as real, rows[0].previousTotalUniqueUsers as real)))
  }

  // ----- transaction fees -----

  datatype FeeRow = FeeRow(
    date: string,
    totalFees: real,
    avgFee: real,
    transactionCount: nat,
    overallTotalFees: real,
    overallAvgFee: real,
    overallTotalTransactions: nat,
    previousOverallTotalFees: real,
    previousOverallAvgFee: real,
    previousOverallTotalTransactions: nat)

  datatype IntervalFees = IntervalFees(date: string, totalFees: real, avgFee: real, transactionCount: nat)

  datatype TxFees = TxFees(
    intervalFees: seq<IntervalFees>,
    overallTotalFees: real,
    overallAvgFee: real,
    overallTotalTransactions: nat,
    comparedOverallTotalFees: ComparedMetric,
    comparedOverallAvgFee: ComparedMetric,
    comparedOverallTotalTransactions: ComparedMetric)

  /**
   * `getTxFees`: per-bucket fees in row order with only the average rounded
   * to two places; the overall average is rounded, and that same rounded
   * value is compared with the rounded previous average.
   */
  function GetTxFees(rows: seq<FeeRow>): (r: Result<TxFees>)
    ensures r.Err? <==> rows == []
    ensures r.Err? ==> r.status == InternalServerError
    ensures r.Ok? ==> |r.value.intervalFees| == |rows|
    ensures r.Ok? ==> forall i :: 0 <= i < |rows| ==>
      var v := r.value.intervalFees[i];
      && v.date == rows[i].date
      && v.totalFees == rows[i].totalFees
      && v.avgFee == RoundTo(rows[i].avgFee, 2)
      && v.transactionCount == rows[i].transactionCount
    ensures r.Ok? ==>
      var first := rows[0];
      && r.value.overallTotalFees == first.overallTotalFees
      && r.value.overallAvgFee == RoundTo(first.overallAvgFee, 2)
      && r.value.overallTotalTransactions == first.overallTotalTransactions
      && r.value.comparedOverallTotalFees
         == CalculateChanges(first.overallTotalFees, first.previousOverallTotalFees)
      && r.value.comparedOverallAvgFee
         == CalculateChanges(r.value.overallAvgFee, RoundTo(first.previousOverallAvgFee, 2))
      && r.value.comparedOverallTotalTransactions
         == CalculateChanges(first.overallTotalTransactions as real, first.previousOverallTotalTransactions as real)
  {
    if rows == [] then Err(InternalServerError)
    else
      var first := rows[0];
      var overallAvgFee := RoundTo(first.overallAvgFee, 2);
      Ok(TxFees(
        seq(|rows|, i requires 0 <= i < |rows| =>
          IntervalFees(rows[i].date, rows[i].totalFees, RoundTo(rows[i].avgFee, 2), rows[i].transactionCount)),
        first.overallTotalFees,
        overallAvgFee,
        first.overallTotalTransactions,
        CalculateChanges(first.overallTotalFees, first.previousOverallTotalFees),
        CalculateChanges(overallAvgFee, RoundTo(first.previousOverallAvgFee, 2)),
        CalculateChanges(first.overallTotalTransactions as real, first.previousOverallTotalTransactions as real)))
  }

  /**
   * Both sides of the average-fee comparison are two-place values, so the
   * absolute change is itself a whole number of hundredths.
   */
  lemma AvgFeeChangeOnGrid(rows: seq<FeeRow>)
    requires rows != []
    ensures OnGrid(GetTxFees(rows).value.comparedOverallAvgFee.absoluteChange, 2)
    ensures OnGrid(GetTxFees(rows).value.comparedOverallAvgFee.previousCount, 2)
  {
    var cur := RoundTo(rows[0].overallAvgFee, 2);
    var prev := RoundTo(rows[0].previousOverallAvgFee, 2);
    CentsDifference(cur, prev);
  }

  // ----- top events and top users -----

  /**
   * The nickname shown beside a contract: looked up in the requesting user's
   * saved contracts, and not looked up at all when there is no user. The
   * lookup validates the contract ID and fails on a malformed one.
   */
  function LookupNickname(saved: seq<SavedContractTable.Entry>, userId: string, contractId: string): (r: Result<Option<string>>)
    ensures userId == "" ==> r == Ok(None)
    ensures userId != "" ==> r == SavedContractTable.NicknameOf(saved, userId, contractId)
  {
    if userId == "" then Ok(None) else SavedContractTable.NicknameOf(saved, userId, contractId)
  }

  /**
   * The nickname lookups of a top list, run together (`Promise.all`): all
   * results in order, or the failure of the first lookup that fails.
   */
  function LookupAll(saved: seq<SavedContractTable.Entry>, userId: string, ids: seq<string>): (r: Result<seq<Option<string>>>)
    ensures r.Err? <==> exists i :: 0 <= i < |ids| && LookupNickname(saved, userId, ids[i]).Err?
    ensures r.Ok? ==> |r.value| == |ids|
    ensures r.Ok? ==> forall i :: 0 <= i < |ids| ==> r.value[i] == LookupNickname(saved, userId, ids[i]).value
  {
    if ids == [] then Ok([])
    else
      match LookupNickname(saved, userId, ids[0])
      case Err(s) => Err(s)
      case Ok(nickname) =>
        match LookupAll(saved, userId, ids[1..])
        case Err(s) => Err(s)
        case Ok(rest) => Ok([nickname] + rest)
  }

  datatype TopEventRow = TopEventRow(contractId: string, eventName: string, currentCount: nat, previousCount: nat)

  datatype TopEvent = TopEvent(
    contractId: string,
    contractNickname: Option<string>,
    eventName: string,
    eventCount: nat,
    compared: ComparedMetric)

  /**
   * `getTopEvents`: one entry per row, in row order (`Promise.all` keeps
   * order), each compared with its previous count; the whole result fails
   * when any nickname lookup fails.
   */
  function GetTopEvents(rows: seq<TopEventRow>, userId: string, saved: seq<SavedContractTable.Entry>): (r: Result<seq<TopEvent>>)
    ensures r.Err? <==> exists i :: 0 <= i < |rows| && LookupNickname(saved, userId, rows[i].contractId).Err?
    ensures r.Ok? ==> |r.value| == |rows|
    ensures r.Ok? ==> forall i :: 0 <= i < |rows| ==>
      && r.value[i].contractId == rows[i].contractId
      && r.value[i].eventName == rows[i].eventName
      && r.value[i].eventCount == rows[i].currentCount
      && r.value[i].compared == CalculateChanges(rows[i].currentCount as real, rows[i].previousCount as real)
      && r.value[i].contractNickname == LookupNickname(saved, userId, rows[i].contractId).value
  {
    var ids := seq(|rows|, i requires 0 <= i < |rows| => rows[i].contractId);
    assert forall i :: 0 <= i < |rows| ==> rows[i].contractId == ids[i];
    match LookupAll(saved, userId, ids)
    case Err(s) => Err(s)
    case Ok(nicknames) =>
      Ok(seq(|rows|, i requires 0 <= i < |rows| =>
        TopEvent(rows[i].contractId, nicknames[i], rows[i].eventName, rows[i].currentCount,
                 CalculateChanges(rows[i].currentCount as real, rows[i].previousCount as real))))
  }

  datatype TopUserRow = TopUserRow(contractId: string, user: string, currentCount: nat, previousCount: nat)

  datatype TopUser = TopUser(
    contractId: string,
    contractNickname: Option<string>,
    user: string,
    transactionCount: nat,
    compared: ComparedMetric)

  /** `getTopUsers`: the same shaping as the top events, over the most active callers. */
  function GetTopUsers(rows: seq<TopUserRow>, userId: string, saved: seq<SavedContractTable.Entry>): (r: Result<seq<TopUser>>)
    ensures r.Err? <==> exists i :: 0 <= i < |rows| && LookupNickname(saved, userId, rows[i].contractId).Err?
    ensures r.Ok? ==> |r.value| == |rows|
    ensures r.Ok? ==> forall i :: 0 <= i < |rows| ==>
      && r.value[i].contractId == rows[i].contractId
      && r.value[i].user == rows[i].user
      && r.value[i].transactionCount == rows[i].currentCount
      && r.value[i].compared == CalculateChanges(rows[i].currentCount as real, rows[i].previousCount as real)
      && r.value[i].contractNickname == LookupNickname(saved, userId, rows[i].contractId).value
  {
    var ids := seq(|rows|, i requires 0 <= i < |rows| => rows[i].contractId);
    assert forall i :: 0 <= i < |rows| ==> rows[i].contractId == ids[i];
    match LookupAll(saved, userId, ids)
    case Err(s) => Err(s)
    case Ok(nicknames) =>
      Ok(seq(|rows|, i requires 0 <= i < |rows| =>
        TopUser(rows[i].contractId, nicknames[i], rows[i].user, rows[i].currentCount,
                CalculateChanges(rows[i].currentCount as real, rows[i].previousCount as real))))
  }

  /** Without a requesting user no lookup happens, so the top lists cannot fail. */
  lemma {:induction false} AnonymousTopEventsSucceed(rows: seq<TopEventRow>, saved: seq<SavedContractTable.Entry>)
    ensures GetTopEvents(rows, "", saved).Ok?
    ensures forall i :: 0 <= i < |rows| ==> GetTopEvents(rows, "", saved).value[i].contractNickname.None?
  {
  }

  /** A list the warehouse ordered by current count stays ordered. */
  lemma TopEventsKeepOrder(rows: seq<TopEventRow>, userId: string, saved: seq<SavedContractTable.Entry>)
    requires forall i, j :: 0 <= i < j < |rows| ==> rows[i].currentCount >= rows[j].currentCount
    requires GetTopEvents(rows, userId, saved).Ok?
    ensures var events := GetTopEvents(rows, userId, saved).value;
      forall i, j :: 0 <= i < j < |events| ==> events[i].eventCount >= events[j].eventCount
  {
  }
}
