// The reseller billing ledger (app/db/crud/reseller_billing_snapshots.py): hourly charges fold into
// one row per account and clock hour, usage charges are rows of their own.
module BillingLedger {
  import opened Common

  /** A stored row; `minutes` is NULL on usage rows. */
  datatype Row = Row(account: int, amount: int, minutes: Option<int>, at: int, unitPrice: Option<real>)

  /** A charge as it happened, before any folding. */
  datatype Charge =
    | Hourly(account: int, amount: int, minutes: int, at: int, rate: Option<real>)
    | Usage(account: int, amount: int, at: int, rate: Option<real>)

  const HOUR := 3600

  function Bucket(at: int): int {
    at - at % HOUR
  }

  predicate IsHourlyOf(row: Row, account: int, bucket: int) {
    row.account == account && row.at == bucket && row.minutes.Some?
  }

  /** Index of the first hourly row of the account and hour, |rows| when there is none. */
  function FindHourly(rows: seq<Row>, account: int, bucket: int): (i: nat)
    ensures i <= |rows|
    ensures i < |rows| ==> IsHourlyOf(rows[i], account, bucket)
    ensures forall j :: 0 <= j < i ==> !IsHourlyOf(rows[j], account, bucket)
  {
    if rows == [] then 0
    else if IsHourlyOf(rows[0], account, bucket) then 0
    else 1 + FindHourly(rows[1..], account, bucket)
  }

  function FoldedRow(row: Row, c: Charge): Row
    requires c.Hourly? && row.minutes.Some?
  {
    row.(amount := row.amount + c.amount, minutes := Some(row.minutes.value + c.minutes),
         unitPrice := if c.rate.Some? then c.rate else row.unitPrice)
  }

  function AddHourly(rows: seq<Row>, c: Charge): seq<Row>
    requires c.Hourly?
  {
    var i := FindHourly(rows, c.account, Bucket(c.at));
    if i == |rows| then rows + [Row(c.account, c.amount, Some(c.minutes), Bucket(c.at), c.rate)]
    else rows[i := FoldedRow(rows[i], c)]
  }

  function AddUsage(rows: seq<Row>, c: Charge): seq<Row>
    requires c.Usage?
  {
    rows + [Row(c.account, c.amount, None, c.at, c.rate)]
  }

  function Add(rows: seq<Row>, c: Charge): seq<Row> {
    if c.Hourly? then AddHourly(rows, c) else AddUsage(rows, c)
  }

  function Fold(charges: seq<Charge>): seq<Row> {
    if charges == [] then [] else Add(Fold(charges[..|charges| - 1]), charges[|charges| - 1])
  }

  // ---- the table --------------------------------------------------------------------------

  /** The account's hourly row of the clock hour that starts at `hour`. */
  predicate IsRowOf(row: Row, account: int, hour: int) {
    row.account == account && row.at == hour && row.minutes != None
  }

  /** An hourly charge goes into the first row `i` of its account and clock hour, or becomes one. */
  lemma AddHourlyMeans(rows: seq<Row>, account: int, amount: int, minutes: int, at: int, rate: Option<real>)
    returns (i: nat)
    ensures i <= |rows| && forall k :: 0 <= k < i ==> !IsRowOf(rows[k], account, at - at % 3600)
    ensures i == |rows| ==>
      Add(rows, Hourly(account, amount, minutes, at, rate))
        == rows + [Row(account, amount, Some(minutes), at - at % 3600, rate)]
    ensures i < |rows| ==>
      && IsRowOf(rows[i], account, at - at % 3600)
      && Add(rows, Hourly(account, amount, minutes, at, rate))
           == rows[i := Row(account, rows[i].amount + amount, Some(rows[i].minutes.value + minutes), at - at % 3600,
                            if rate == None then rows[i].unitPrice else rate)]
  {
    var hour := at - at % 3600;
    i := FindHourly(rows, account, hour);
    forall k | 0 <= k < i ensures !IsRowOf(rows[k], account, hour) {
      assert !IsHourlyOf(rows[k], account, hour);
    }
  }

  class Ledger {
    var rows: seq<Row>

    constructor ()
      ensures rows == []
    {
      rows := [];
    }

    /** add_hourly_charge. */
    method AddHourlyCharge(account: int, amount: int, minutes: int, chargedAt: int, hourlyRate: Option<real>)
      modifies this
      ensures rows == Add(old(rows), Hourly(account, amount, minutes, chargedAt, hourlyRate))
    {
      var bucket := chargedAt - chargedAt % HOUR;
      var i := 0;
      while i < |rows| && !IsHourlyOf(rows[i], account, bucket)
        invariant i <= |rows| && rows == old(rows)
        invariant forall j :: 0 <= j < i ==> !IsHourlyOf(rows[j], account, bucket)
      {
        i := i + 1;
      }
      assert i == FindHourly(rows, account, bucket);
      if i == |rows| {
        rows := rows + [Row(account, amount, Some(minutes), bucket, hourlyRate)];
      } else {
        var row := rows[i];
        row := row.(amount := row.amount + amount, minutes := Some(row.minutes.value + minutes));
        if hourlyRate.Some? {
          row := row.(unitPrice := hourlyRate);
        }
        rows := rows[i := row];
      }
    }

    /** sum_billed_since, for one account. */
    method SumBilledSince(account: int, since: int) returns (total: int)
      ensures total == SumBy(rows, Billed(account, Some(since)))
      ensures total == SumBy(rows, (row: Row) => if row.account == account && row.at >= since then row.amount else 0)
    {
      total := 0;
      for i := 0 to |rows|
        invariant total == SumBy(rows[..i], Billed(account, Some(since)))
      {
        TakeNext(rows, i);
        SumAppend(rows[..i], rows[i], Billed(account, Some(since)));
        if rows[i].account == account && rows[i].at >= since {
          total := total + rows[i].amount;
        }
      }
      TakeAll(rows);
      SumCongruent(rows, Billed(account, Some(since)),
                   rows, (row: Row) => if row.account == account && row.at >= since then row.amount else 0);
    }
  }

  // ---- the fold refines the list of charges -------------------------------------------------

  /** What a row adds to the account's total since a moment, or ever. */
  function Billed(account: int, since: Option<int>): Row -> int {
    (row: Row) =>
      if row.account == account && (since.None? || row.at >= since.value) then row.amount else 0
  }

  function BilledMinutes(account: int): Row -> int {
    (row: Row) => if row.account == account && row.minutes.Some? then row.minutes.value else 0
  }

  /** The stamp under which a charge is stored. */
  function StoredAt(c: Charge): int {
    if c.Hourly? then Bucket(c.at) else c.at
  }

  function Stored(account: int, since: Option<int>): Charge -> int {
    (c: Charge) =>
      if c.account == account && (since.None? || StoredAt(c) >= since.value) then c.amount else 0
  }

  function Charged(account: int, since: Option<int>): Charge -> int {
    (c: Charge) =>
      if c.account == account && (since.None? || c.at >= since.value) then c.amount else 0
  }

  function ChargedMinutes(account: int): Charge -> int {
    (c: Charge) => if c.account == account && c.Hourly? then c.minutes else 0
  }

  /** Hourly charges of the account inside the first, partial hour of a window that starts mid-hour. */
  function PartialHour(account: int, since: int): Charge -> int {
    (c: Charge) =>
      if c.account == account && c.Hourly? && Bucket(c.at) == Bucket(since) && Bucket(since) < since <= c.at
      then c.amount else 0
  }

  /** Storing a charge either appends one row or folds into one hourly row of the same stamp. */
  lemma AddShape(rows: seq<Row>, c: Charge) returns (i: nat, row: Row)
    ensures i <= |rows| && row.account == c.account && row.at == StoredAt(c)
    ensures i == |rows| ==>
              Add(rows, c) == rows + [row] && row.amount == c.amount
              && row.minutes == if c.Hourly? then Some(c.minutes) else None
    ensures i < |rows| ==>
              && Add(rows, c) == rows[i := row] && rows[i].account == c.account && rows[i].at == StoredAt(c)
              && row.amount == rows[i].amount + c.amount
              && c.Hourly? && rows[i].minutes.Some? && row.minutes == Some(rows[i].minutes.value + c.minutes)
  {
    i := if c.Hourly? then FindHourly(rows, c.account, Bucket(c.at)) else |rows|;
    row := if i < |rows| then FoldedRow(rows[i], c) else Add(rows, c)[|rows|];
  }

  lemma AddKeepsSum(rows: seq<Row>, c: Charge, account: int, since: Option<int>)
    ensures SumBy(Add(rows, c), Billed(account, since))
         == SumBy(rows, Billed(account, since)) + Stored(account, since)(c)
  {
    var i, row := AddShape(rows, c);
    if i < |rows| {
      SumUpdate(rows, i, row, Billed(account, since));
    } else {
      SumAppend(rows, row, Billed(account, since));
    }
  }

  lemma AddKeepsMinutes(rows: seq<Row>, c: Charge, account: int)
    ensures SumBy(Add(rows, c), BilledMinutes(account))
         == SumBy(rows, BilledMinutes(account)) + ChargedMinutes(account)(c)
  {
    var i, row := AddShape(rows, c);
    if i < |rows| {
      SumUpdate(rows, i, row, BilledMinutes(account));
    } else {
      SumAppend(rows, row, BilledMinutes(account));
    }
  }

  /** Same amounts and minutes in total; since a moment, the charges whose stored stamp counts. */
  lemma {:induction false} FoldKeepsTotals(charges: seq<Charge>, account: int, since: Option<int>)
    ensures SumBy(Fold(charges), Billed(account, since)) == SumBy(charges, Stored(account, since))
    ensures SumBy(Fold(charges), BilledMinutes(account)) == SumBy(charges, ChargedMinutes(account))
  {
    if charges != [] {
      var before, last := charges[..|charges| - 1], charges[|charges| - 1];
      FoldKeepsTotals(before, account, since);
      AddKeepsSum(Fold(before), last, account, since);
      AddKeepsMinutes(Fold(before), last, account);
    }
  }

  lemma StoredPlusPartial(c: Charge, account: int, since: int)
    ensures Charged(account, Some(since))(c) == Stored(account, Some(since))(c) + PartialHour(account, since)(c)
  {
  }

  /** Main result: the ledger's sum since `since` is the charge-by-charge sum, short of exactly the
      hourly charges of the first partial hour. */
  lemma SumSinceIsExact(charges: seq<Charge>, account: int, since: int)
    ensures SumBy(Fold(charges), Billed(account, Some(since)))
         == SumBy(charges, Charged(account, Some(since))) - SumBy(charges, PartialHour(account, since))
    ensures since % HOUR == 0 ==> SumBy(charges, PartialHour(account, since)) == 0
  {
    FoldKeepsTotals(charges, account, Some(since));
    forall i | 0 <= i < |charges|
      ensures Charged(account, Some(since))(charges[i])
           == Stored(account, Some(since))(charges[i]) + PartialHour(account, since)(charges[i])
    {
      StoredPlusPartial(charges[i], account, since);
    }
    SumSplit(charges, Stored(account, Some(since)), PartialHour(account, since), Charged(account, Some(since)));
    if since % HOUR == 0 {
      NoPartialHour(charges, account, since);
    }
  }

  /** The same with every weight written out: an hourly charge counts from the start of its clock hour, and
      on the hour the ledger's sum is the sum of the charges made since. */
  lemma SumSinceMeans(charges: seq<Charge>, account: int, since: int)
    ensures SumBy(Fold(charges), (row: Row) => if row.account == account && row.at >= since then row.amount else 0)
         == SumBy(charges, (c: Charge) =>
              if c.account == account && (if c.Hourly? then c.at - c.at % 3600 else c.at) >= since then c.amount else 0)
    ensures since % 3600 == 0 ==>
      SumBy(Fold(charges), (row: Row) => if row.account == account && row.at >= since then row.amount else 0)
        == SumBy(charges, (c: Charge) => if c.account == account && c.at >= since then c.amount else 0)
  {
    FoldKeepsTotals(charges, account, Some(since));
    SumSinceIsExact(charges, account, since);
    SumCongruent(Fold(charges), Billed(account, Some(since)),
                 Fold(charges), (row: Row) => if row.account == account && row.at >= since then row.amount else 0);
    SumCongruent(charges, Stored(account, Some(since)), charges, (c: Charge) =>
      if c.account == account && (if c.Hourly? then c.at - c.at % 3600 else c.at) >= since then c.amount else 0);
    SumCongruent(charges, Charged(account, Some(since)),
                 charges, (c: Charge) => if c.account == account && c.at >= since then c.amount else 0);
  }

  /** All amounts and all hourly minutes of an account, with every weight written out. */
  lemma TotalsMeans(charges: seq<Charge>, account: int)
    ensures SumBy(Fold(charges), (row: Row) => if row.account == account then row.amount else 0)
         == SumBy(charges, (c: Charge) => if c.account == account then c.amount else 0)
    ensures SumBy(Fold(charges), (row: Row) => if row.account == account && row.minutes.Some? then row.minutes.value else 0)
         == SumBy(charges, (c: Charge) => if c.account == account && c.Hourly? then c.minutes else 0)
  {
    FoldKeepsTotals(charges, account, None);
    SumCongruent(Fold(charges), Billed(account, None),
                 Fold(charges), (row: Row) => if row.account == account then row.amount else 0);
    SumCongruent(charges, Stored(account, None),
                 charges, (c: Charge) => if c.account == account then c.amount else 0);
    SumCongruent(Fold(charges), BilledMinutes(account), Fold(charges), (row: Row) =>
      if row.account == account && row.minutes.Some? then row.minutes.value else 0);
    SumCongruent(charges, ChargedMinutes(account),
                 charges, (c: Charge) => if c.account == account && c.Hourly? then c.minutes else 0);
  }

  lemma {:induction false} NoPartialHour(charges: seq<Charge>, account: int, since: int)
    requires since % HOUR == 0
    ensures SumBy(charges, PartialHour(account, since)) == 0
  {
    if charges != [] {
      NoPartialHour(charges[..|charges| - 1], account, since);
    }
  }

  /** At most one hourly row per account and clock hour, always stamped on the hour. */
  ghost predicate OneRowPerHour(rows: seq<Row>) {
    && (forall i, j :: 0 <= i < j < |rows| && rows[i].minutes.Some? && rows[j].minutes.Some? ==>
          rows[i].account != rows[j].account || rows[i].at != rows[j].at)
    && (forall i :: 0 <= i < |rows| && rows[i].minutes.Some? ==> rows[i].at % 3600 == 0)
  }

  lemma AddKeepsOneRowPerHour(rows: seq<Row>, c: Charge)
    requires OneRowPerHour(rows)
    ensures OneRowPerHour(Add(rows, c))
  {
    if c.Hourly? {
      assert Bucket(c.at) % 3600 == 0;
    }
  }

  lemma {:induction false} FoldHasOneRowPerHour(charges: seq<Charge>)
    ensures OneRowPerHour(Fold(charges))
  {
    if charges != [] {
      var before, last := charges[..|charges| - 1], charges[|charges| - 1];
      FoldHasOneRowPerHour(before);
      AddKeepsOneRowPerHour(Fold(before), last);
    }
  }

  function UsageRows(rows: seq<Row>): seq<Row> {
    if rows == [] then []
    else
      var rest := UsageRows(rows[..|rows| - 1]);
      if rows[|rows| - 1].minutes.None? then rest + [rows[|rows| - 1]] else rest
  }

  function UsageCharges(charges: seq<Charge>): seq<Row> {
    if charges == [] then []
    else
      var rest, c := UsageCharges(charges[..|charges| - 1]), charges[|charges| - 1];
      if c.Usage? then rest + [Row(c.account, c.amount, None, c.at, c.rate)] else rest
  }

  lemma {:induction false} UpdateHourlyKeepsUsage(rows: seq<Row>, i: nat, row: Row)
    requires i < |rows| && rows[i].minutes.Some? && row.minutes.Some?
    ensures UsageRows(rows[i := row]) == UsageRows(rows)
  {
    var n := |rows| - 1;
    if i < n {
      UpdateHourlyKeepsUsage(rows[..n], i, row);
      assert rows[i := row][..n] == rows[..n][i := row];
    } else {
      assert rows[i := row][..n] == rows[..n];
    }
  }

  /** Hourly charges never touch a usage row: usage charges stay row by row, in order. */
  lemma {:induction false} FoldKeepsUsageRows(charges: seq<Charge>)
    ensures UsageRows(Fold(charges)) == UsageCharges(charges)
  {
    if charges != [] {
      var before, c := charges[..|charges| - 1], charges[|charges| - 1];
      FoldKeepsUsageRows(before);
      var rows := Fold(before);
      var i := FindHourly(rows, c.account, Bucket(c.at));
      if c.Hourly? && i < |rows| {
        UpdateHourlyKeepsUsage(rows, i, FoldedRow(rows[i], c));
      } else {
        assert Add(rows, c)[..|rows|] == rows;
      }
    }
  }
}
