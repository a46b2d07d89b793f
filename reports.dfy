// The reports page's headline numbers, computed from the rows the leads
// query returns (`estimated_value` and `status` of every lead).

module Reports {
  import opened Types
  import opened Rounding

  /** One row of the reports query. */
  datatype ReportRow = ReportRow(estimatedValue: int, status: LeadStatus)

  datatype ReportStats = ReportStats(
    totalRevenue: int,
    conversionRate: int,
    averageTicket: int,
    activeLeads: nat)

  /** The stats shown before any data arrives. */
  const InitialStats := ReportStats(0, 0, 0, 0)

  /** How many rows have status `s`. */
  function CountRows(rows: seq<ReportRow>, s: LeadStatus): (n: nat)
    ensures n <= |rows|
  {
    if rows == [] then 0
    else (if rows[0].status == s then 1 else 0) + CountRows(rows[1..], s)
  }

  /** How many rows are neither won nor lost. */
  function CountOpen(rows: seq<ReportRow>): (n: nat)
    ensures n <= |rows|
  {
    if rows == [] then 0
    else (if rows[0].status != Won && rows[0].status != Lost then 1 else 0) + CountOpen(rows[1..])
  }

  /** The total estimated value of the won rows. */
  function WonRevenue(rows: seq<ReportRow>): (r: int)
    ensures (forall i :: 0 <= i < |rows| ==> rows[i].estimatedValue >= 0) ==> r >= 0
  {
    if rows == [] then 0
    else (if rows[0].status == Won then rows[0].estimatedValue else 0) + WonRevenue(rows[1..])
  }

  /** The sum is a fold: the revenue of two result sets together is the sum of their revenues. */
  lemma {:induction false} WonRevenueConcat(a: seq<ReportRow>, b: seq<ReportRow>)
    ensures WonRevenue(a + b) == WonRevenue(a) + WonRevenue(b)
  {
    if a == [] {
      assert a + b == b;
    } else {
      assert (a + b)[0] == a[0] && (a + b)[1..] == a[1..] + b;
      WonRevenueConcat(a[1..], b);
    }
  }

  /** Every row is open, won or lost, so those three counts make up the whole. */
  lemma {:induction false} OpenWonLostPartition(rows: seq<ReportRow>)
    ensures CountOpen(rows) + CountRows(rows, Won) + CountRows(rows, Lost) == |rows|
  {
    if rows != [] {
      OpenWonLostPartition(rows[1..]);
    }
  }

  /** Open rows include the expired ones, which the dashboard counts as closed. */
  lemma {:induction false} OpenIncludesExpired(rows: seq<ReportRow>)
    ensures CountOpen(rows) == CountRows(rows, New) + CountRows(rows, Contacted)
      + CountRows(rows, Proposal) + CountRows(rows, Expired)
  {
    if rows != [] {
      OpenIncludesExpired(rows[1..]);
    }
  }

  /** Without won rows there is no won revenue. */
  lemma {:induction false} NoWonNoRevenue(rows: seq<ReportRow>)
    requires CountRows(rows, Won) == 0
    ensures WonRevenue(rows) == 0
  {
    if rows != [] {
      NoWonNoRevenue(rows[1..]);
    }
  }

  lemma ConversionBounds(won: nat, total: nat)
    requires won <= total
    ensures total > 0 ==> 0 <= RoundPercent(won, total) <= 100
  {
    if total > 0 {
      RoundPercentBounds(won, total);
    }
  }

  /** The stats block of `fetchData`: no data leaves the stats as they were. */
  function FetchStats(prev: ReportStats, data: Option<seq<ReportRow>>): (r: ReportStats)
    ensures data.None? ==> r == prev
    ensures data.Some? ==>
      var rows := data.value;
      var won := CountRows(rows, Won);
      && r.totalRevenue == WonRevenue(rows)
      && (|rows| == 0 ==> r.conversionRate == 0)
      && (|rows| > 0 ==> r.conversionRate == RoundPercent(won, |rows|) && 0 <= r.conversionRate <= 100)
      && (won == 0 ==> r.averageTicket == 0)
      && (won > 0 ==> r.averageTicket == RoundDiv(r.totalRevenue, won))
      && r.activeLeads + won + CountRows(rows, Lost) == |rows|
  {
    match data
    case None => prev
    case Some(rows) =>
      var total := |rows|;
      var revenue := WonRevenue(rows);
      var won := CountRows(rows, Won);
      OpenWonLostPartition(rows);
      ConversionBounds(won, total);
      ReportStats(
        revenue,
        if total > 0 then RoundPercent(won, total) else 0,
        if won > 0 then RoundDiv(revenue, won) else 0,
        CountOpen(rows))
  }

  /** With no leads at all every number is zero. */
  lemma EmptyReport(prev: ReportStats)
    ensures FetchStats(prev, Some([])) == InitialStats
  {
  }

  /** Average ticket of won leads worth the same amount each is that amount. */
  lemma {:induction false} UniformTicket(rows: seq<ReportRow>, v: int)
    requires forall i :: 0 <= i < |rows| ==> rows[i].status == Won && rows[i].estimatedValue == v
    requires rows != []
    ensures FetchStats(InitialStats, Some(rows)).averageTicket == v
    ensures FetchStats(InitialStats, Some(rows)).conversionRate == 100
  {
    AllWon(rows, v);
    RoundDivExact(v, |rows|);
    RoundPercentBounds(|rows|, |rows|);
  }

  lemma {:induction false} AllWon(rows: seq<ReportRow>, v: int)
    requires forall i :: 0 <= i < |rows| ==> rows[i].status == Won && rows[i].estimatedValue == v
    ensures CountRows(rows, Won) == |rows| && WonRevenue(rows) == v * |rows|
  {
    if rows != [] {
      var rest := rows[1..];
      assert forall i :: 0 <= i < |rest| ==> rest[i] == rows[i + 1];
      AllWon(rest, v);
      assert rows[0].status == Won && rows[0].estimatedValue == v;
      assert v * |rows| == v + v * |rest|;
    }
  }
}
