// The dashboard's summary of the lead list: totals per status bucket,
// per-status counts, the conversion rate and the status pie chart.

module Dashboard {
  import opened Types
  import opened Rounding

  datatype Stats = Stats(
    totalLeads: nat,
    predictedRevenue: int,
    active: nat,
    sold: nat,
    expired: nat,
    conversion: int)

  /** One slice of the status pie chart. */
  datatype Slice = Slice(name: string, value: int, color: string)

  /** What the dashboard shows: the stat cards and the pie chart. */
  datatype View = View(stats: Stats, pieData: seq<Slice>)

  /** The argument of `calculateStats`, which checks that it is an array at all. */
  datatype Input = NotAnArray | Rows(entries: seq<Entry>)

  /** The entries that are objects (`l && typeof l === 'object'`). */
  function ValidLeads(entries: seq<Entry>): (r: seq<Lead>)
    ensures forall l :: l in r <==> Rec(l) in entries
    ensures |r| <= |entries|
  {
    if entries == [] then []
    else (if entries[0].Rec? then [entries[0].lead] else []) + ValidLeads(entries[1..])
  }

  /** How many leads have status `s`. */
  function CountStatus(leads: seq<Lead>, s: LeadStatus): nat
  {
    if leads == [] then 0
    else (if leads[0].status == s then 1 else 0) + CountStatus(leads[1..], s)
  }

  /** How many leads have one of the statuses in `ss`. */
  function CountIn(leads: seq<Lead>, ss: set<LeadStatus>): nat
  {
    if leads == [] then 0
    else (if leads[0].status in ss then 1 else 0) + CountIn(leads[1..], ss)
  }

  function Revenue(leads: seq<Lead>): int
  {
    if leads == [] then 0 else leads[0].estimatedValue + Revenue(leads[1..])
  }

  /** A count over a set of statuses is the sum of the per-status counts. */
  lemma {:induction false} CountInSplits(leads: seq<Lead>, ss: set<LeadStatus>, s: LeadStatus)
    requires s in ss
    ensures CountIn(leads, ss) == CountStatus(leads, s) + CountIn(leads, ss - {s})
  {
    if leads != [] {
      CountInSplits(leads[1..], ss, s);
    }
  }

  /** Counting over every status counts every lead. */
  lemma {:induction false} CountInAll(leads: seq<Lead>)
    ensures CountIn(leads, {New, Contacted, Proposal, Won, Lost, Expired}) == |leads|
  {
    if leads != [] {
      CountInAll(leads[1..]);
      var st := leads[0].status;
      assert st in {New, Contacted, Proposal, Won, Lost, Expired} by {
        match st
        case New => case Contacted => case Proposal => case Won => case Lost => case Expired =>
      }
    }
  }

  lemma {:induction false} CountInEmpty(leads: seq<Lead>)
    ensures CountIn(leads, {}) == 0
  {
    if leads != [] { CountInEmpty(leads[1..]); }
  }

  /** The six per-status counts add up to the number of leads. */
  lemma StatusCountsSumToTotal(leads: seq<Lead>)
    ensures CountStatus(leads, New) + CountStatus(leads, Contacted) + CountStatus(leads, Proposal)
      + CountStatus(leads, Won) + CountStatus(leads, Lost) + CountStatus(leads, Expired) == |leads|
  {
    var all := {New, Contacted, Proposal, Won, Lost, Expired};
    CountInAll(leads);
    CountInSplits(leads, all, New);
    assert all - {New} == {Contacted, Proposal, Won, Lost, Expired};
    CountInSplits(leads, {Contacted, Proposal, Won, Lost, Expired}, Contacted);
    assert {Contacted, Proposal, Won, Lost, Expired} - {Contacted} == {Proposal, Won, Lost, Expired};
    CountInSplits(leads, {Proposal, Won, Lost, Expired}, Proposal);
    assert {Proposal, Won, Lost, Expired} - {Proposal} == {Won, Lost, Expired};
    CountInSplits(leads, {Won, Lost, Expired}, Won);
    assert {Won, Lost, Expired} - {Won} == {Lost, Expired};
    CountInSplits(leads, {Lost, Expired}, Lost);
    assert {Lost, Expired} - {Lost} == {Expired};
    CountInSplits(leads, {Expired}, Expired);
    assert {Expired} - {Expired} == {};
    CountInEmpty(leads);
  }

  const ActiveStatuses: set<LeadStatus> := {New, Contacted, Proposal}
  const ClosedStatuses: set<LeadStatus> := {Lost, Expired}

  /**
   * `Object.keys(statusCounts)`: the keys `seen` so far, followed by the
   * statuses of `leads` not among them, in the order they first occur.
   * Keys are only ever appended, so the keys already grouped stay first.
   */
  function StatusKeys(leads: seq<Lead>, seen: seq<LeadStatus>): (r: seq<LeadStatus>)
    ensures |seen| <= |r| <= |seen| + |leads|
    ensures r[..|seen|] == seen
    decreases |leads|
  {
    if leads == [] then seen
    else
      var next := if leads[0].status in seen then seen else seen + [leads[0].status];
      var r := StatusKeys(leads[1..], next);
      assert r[..|seen|] == r[..|next|][..|seen|];
      r
  }

  /** The position of the first lead with status `s`, or `|leads|` when there is none. */
  function FirstIndex(leads: seq<Lead>, s: LeadStatus): (k: nat)
    ensures k <= |leads|
    ensures k < |leads| ==> leads[k].status == s
    ensures forall j :: 0 <= j < k ==> leads[j].status != s
  {
    if leads == [] then 0
    else if leads[0].status == s then 0
    else 1 + FirstIndex(leads[1..], s)
  }

  predicate Distinct<T(==)>(s: seq<T>)
  {
    forall i, j :: 0 <= i < j < |s| ==> s[i] != s[j]
  }

  /** The statuses that occur in `leads`. */
  function StatusesIn(leads: seq<Lead>): (r: set<LeadStatus>)
    ensures forall s :: s in r <==> exists l :: l in leads && l.status == s
  {
    if leads == [] then {}
    else
      assert forall l :: l in leads <==> l == leads[0] || l in leads[1..];
      {leads[0].status} + StatusesIn(leads[1..])
  }

  /** The chart keys never repeat a status. */
  lemma {:induction false} StatusKeysDistinct(leads: seq<Lead>, seen: seq<LeadStatus>)
    requires Distinct(seen)
    ensures Distinct(StatusKeys(leads, seen))
    decreases |leads|
  {
    if leads != [] {
      var next := if leads[0].status in seen then seen else seen + [leads[0].status];
      assert Distinct(next);
      StatusKeysDistinct(leads[1..], next);
    }
  }

  /** The chart keys are the statuses already seen plus those present. */
  lemma {:induction false} StatusKeysMembers(leads: seq<Lead>, seen: seq<LeadStatus>)
    ensures forall s :: s in StatusKeys(leads, seen) <==> s in seen || s in StatusesIn(leads)
    decreases |leads|
  {
    if leads != [] {
      var next := if leads[0].status in seen then seen else seen + [leads[0].status];
      StatusKeysMembers(leads[1..], next);
      assert forall s :: s in next <==> s in seen || s == leads[0].status;
    }
  }

  /**
   * The keys added after `seen` come in the order their statuses first occur
   * in `leads`.
   */
  lemma StatusKeysOrder(leads: seq<Lead>, seen: seq<LeadStatus>)
    requires Distinct(seen)
    ensures var r := StatusKeys(leads, seen);
      forall i, j :: |seen| <= i < j < |r| ==> FirstIndex(leads, r[i]) < FirstIndex(leads, r[j])
  {
    var r := StatusKeys(leads, seen);
    forall i, j | |seen| <= i < j < |r| ensures FirstIndex(leads, r[i]) < FirstIndex(leads, r[j]) {
      StatusKeysOrderAt(leads, seen, i, j);
    }
  }

  /** One pair of new keys: the earlier one first occurs earlier. */
  lemma {:induction false} StatusKeysOrderAt(leads: seq<Lead>, seen: seq<LeadStatus>, i: nat, j: nat)
    requires Distinct(seen)
    requires |seen| <= i < j < |StatusKeys(leads, seen)|
    ensures FirstIndex(leads, StatusKeys(leads, seen)[i]) < FirstIndex(leads, StatusKeys(leads, seen)[j])
    decreases |leads|
  {
    if leads == [] {
      assert false;
    } else {
      var h := leads[0].status;
      var next := if h in seen then seen else seen + [h];
      var r := StatusKeys(leads[1..], next);
      assert r == StatusKeys(leads, seen);
      assert Distinct(next);
      StatusKeysDistinct(leads[1..], next);
      assert r[..|next|] == next;
      // `h` is among the keys before `|next|`
      var m: nat :| m < |next| && next[m] == h;
      assert r[m] == h;
      if i < |next| {
        // only a fresh head status lies between `seen` and `next`
        assert i == m;
        assert r[j] != h;
        FirstIndexCons(leads, r[i]);
        FirstIndexCons(leads, r[j]);
      } else {
        StatusKeysOrderAt(leads[1..], next, i, j);
        assert r[i] != h && r[j] != h;
        FirstIndexCons(leads, r[i]);
        FirstIndexCons(leads, r[j]);
      }
    }
  }

  /** Unfolding `FirstIndex` once. */
  lemma FirstIndexCons(leads: seq<Lead>, s: LeadStatus)
    requires leads != []
    ensures FirstIndex(leads, s) == if leads[0].status == s then 0 else 1 + FirstIndex(leads[1..], s)
  {
  }

  /**
   * The chart keys are the keys seen so far followed by the other statuses
   * present, each once, in the order they first occur.
   */
  lemma StatusKeysFacts(leads: seq<Lead>, seen: seq<LeadStatus>)
    requires Distinct(seen)
    ensures Distinct(StatusKeys(leads, seen))
    ensures forall s :: s in StatusKeys(leads, seen) <==> s in seen || exists l :: l in leads && l.status == s
    ensures StatusKeys(leads, seen)[..|seen|] == seen
    ensures var r := StatusKeys(leads, seen);
      forall i, j :: |seen| <= i < j < |r| ==> FirstIndex(leads, r[i]) < FirstIndex(leads, r[j])
  {
    StatusKeysDistinct(leads, seen);
    StatusKeysMembers(leads, seen);
    StatusKeysOrder(leads, seen);
  }

  /** The chart label of a status; never empty, so the fallback `|| status` never applies. */
  function StatusLabel(s: LeadStatus): (r: string)
    ensures r != ""
  {
    match s
    case New => "Novo"
    case Contacted => "Contato"
    case Proposal => "Proposta"
    case Won => "Ganho"
    case Lost => "Perdido"
    case Expired => "Expirado"
  }

  /** The chart colour of a status, a `#rrggbb` code; never empty, so the fallback never applies. */
  function StatusColor(s: LeadStatus): (r: string)
    ensures |r| == 7 && r[0] == '#'
  {
    match s
    case New => "#6366f1"
    case Contacted => "#f59e0b"
    case Proposal => "#8b5cf6"
    case Won => "#10b981"
    case Lost => "#f43f5e"
    case Expired => "#94a3b8"
  }

  /** The pie chart slices, one per key, each the rounded share of that status. */
  function Slices(keys: seq<LeadStatus>, leads: seq<Lead>): (r: seq<Slice>)
    requires |leads| > 0
    ensures |r| == |keys|
    ensures forall i :: 0 <= i < |r| ==>
      r[i] == Slice(StatusLabel(keys[i]), RoundPercent(CountStatus(leads, keys[i]), |leads|), StatusColor(keys[i]))
  {
    if keys == [] then []
    else
      var head := Slice(StatusLabel(keys[0]), RoundPercent(CountStatus(leads, keys[0]), |leads|), StatusColor(keys[0]));
      [head] + Slices(keys[1..], leads)
  }

  function ChartData(leads: seq<Lead>): (r: seq<Slice>)
    ensures |leads| == 0 ==> r == []
    ensures |leads| > 0 ==> |r| == |StatusKeys(leads, [])| <= |leads|
  {
    if |leads| > 0 then Slices(StatusKeys(leads, []), leads) else []
  }

  function SummaryStats(leads: seq<Lead>): Stats
  {
    var total := |leads|;
    var sold := CountStatus(leads, Won);
    Stats(total, Revenue(leads), CountIn(leads, ActiveStatuses), sold, CountIn(leads, ClosedStatuses),
          if total > 0 then RoundPercent(sold, total) else 0)
  }

  /** `calculateStats`: the new dashboard view for the argument it is given. */
  function CalculateStats(view: View, input: Input): (r: View)
    ensures input.NotAnArray? ==> r == view
    ensures input.Rows? ==> r.stats.totalLeads <= |input.entries| && |r.pieData| <= r.stats.totalLeads
  {
    match input
    case NotAnArray => view
    case Rows(entries) =>
      var valid := ValidLeads(entries);
      View(SummaryStats(valid), ChartData(valid))
  }

  lemma {:induction false} CountStatusBound(leads: seq<Lead>, s: LeadStatus)
    ensures CountStatus(leads, s) <= |leads|
  {
    if leads != [] { CountStatusBound(leads[1..], s); }
  }

  /**
   * The dashboard numbers: a non-array leaves the view as it was; otherwise
   * `total` counts the object entries, the three buckets (new, contacted and
   * proposal; won; lost and expired) add up to it, and the conversion is 0
   * without leads and a rounded percentage otherwise.
   */
  lemma CalculateStatsFacts(view: View, input: Input)
    ensures input.NotAnArray? ==> CalculateStats(view, input) == view
    ensures input.Rows? ==>
      var st := CalculateStats(view, input).stats;
      var valid := ValidLeads(input.entries);
      && st.totalLeads == |valid|
      && st.active == CountIn(valid, ActiveStatuses)
      && st.active == CountStatus(valid, New) + CountStatus(valid, Contacted) + CountStatus(valid, Proposal)
      && st.expired == CountIn(valid, ClosedStatuses)
      && st.expired == CountStatus(valid, Lost) + CountStatus(valid, Expired)
      && st.active + st.sold + st.expired == st.totalLeads
      && st.sold == CountStatus(valid, Won)
      && (st.totalLeads == 0 ==> st.conversion == 0)
      && (st.totalLeads > 0 ==> st.conversion == RoundPercent(st.sold, st.totalLeads))
      && 0 <= st.conversion <= 100
  {
    if input.Rows? {
      var valid := ValidLeads(input.entries);
      StatusCountsSumToTotal(valid);
      CountInSplits(valid, ActiveStatuses, New);
      assert ActiveStatuses - {New} == {Contacted, Proposal};
      CountInSplits(valid, {Contacted, Proposal}, Contacted);
      assert {Contacted, Proposal} - {Contacted} == {Proposal};
      CountInSplits(valid, {Proposal}, Proposal);
      assert {Proposal} - {Proposal} == {};
      CountInSplits(valid, ClosedStatuses, Lost);
      assert ClosedStatuses - {Lost} == {Expired};
      CountInSplits(valid, {Expired}, Expired);
      assert {Expired} - {Expired} == {};
      CountInEmpty(valid);
      if |valid| > 0 {
        CountStatusBound(valid, Won);
        RoundPercentBounds(CountStatus(valid, Won), |valid|);
      }
    }
  }

  /** One status's share of the chart is a percentage. */
  lemma ShareBounds(leads: seq<Lead>, s: LeadStatus)
    requires |leads| > 0
    ensures 0 <= RoundPercent(CountStatus(leads, s), |leads|) <= 100
  {
    CountStatusBound(leads, s);
    RoundPercentBounds(CountStatus(leads, s), |leads|);
  }

  /** Every slice carries its key's label and colour and a share in 0..100. */
  lemma SlicesFacts(keys: seq<LeadStatus>, leads: seq<Lead>)
    requires |leads| > 0
    ensures var r := Slices(keys, leads);
      && |r| == |keys|
      && forall i :: 0 <= i < |r| ==>
           r[i].name == StatusLabel(keys[i]) && r[i].color == StatusColor(keys[i]) && 0 <= r[i].value <= 100
  {
    var r := Slices(keys, leads);
    forall i | 0 <= i < |r| ensures 0 <= r[i].value <= 100 {
      ShareBounds(leads, keys[i]);
    }
  }

  /**
   * The pie chart is empty without leads; otherwise it has one slice per
   * status present, once each, carrying that status's label, colour and
   * rounded share.
   */
  lemma ChartDataFacts(leads: seq<Lead>)
    ensures |leads| == 0 ==> ChartData(leads) == []
    ensures |leads| > 0 ==>
      var keys := StatusKeys(leads, []);
      var chart := ChartData(leads);
      && Distinct(keys)
      && (forall s :: s in keys <==> exists l :: l in leads && l.status == s)
      && (forall i, j :: 0 <= i < j < |keys| ==> FirstIndex(leads, keys[i]) < FirstIndex(leads, keys[j]))
      && |chart| == |keys|
      && forall i :: 0 <= i < |keys| ==>
           chart[i].name == StatusLabel(keys[i]) && chart[i].color == StatusColor(keys[i]) && 0 <= chart[i].value <= 100
  {
    if |leads| > 0 {
      var keys := StatusKeys(leads, []);
      StatusKeysFacts(leads, []);
      SlicesFacts(keys, leads);
    }
  }
}
