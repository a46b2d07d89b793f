// The expiry monitor: which leads expire today or have expired, the badge
// each row shows, and the order the rows are listed in. A date is a
// timestamp in milliseconds; the page compares calendar days.

module Monitor {
  import opened Types

  const MsPerDay := 86400000

  /** The day a timestamp falls on: `setHours(0, 0, 0, 0)` then `getTime()`, in day units. */
  function Day(ts: int): (d: int)
    ensures MsPerDay * d <= ts < MsPerDay * (d + 1)
  {
    ts / MsPerDay
  }

  /**
   * `isExpiringToday`: the expiration date falls on today, that is between
   * today's midnight and the next one.
   */
  function IsExpiringToday(expiration: Option<int>, now: int): (r: bool)
    ensures r <==> expiration.Some? && MsPerDay * Day(now) <= expiration.value < MsPerDay * (Day(now) + 1)
  {
    expiration.Some? && Day(expiration.value) == Day(now)
  }

  /** `isExpired`: the expiration date falls on a day before today, that is before today's midnight. */
  function IsExpired(expiration: Option<int>, now: int): (r: bool)
    ensures r <==> expiration.Some? && expiration.value < MsPerDay * Day(now)
  {
    expiration.Some? && Day(expiration.value) < Day(now)
  }

  /** The status badge of a monitor row. */
  datatype Badge = ExpiredBadge | DueTodayBadge | ActiveBadge

  function BadgeText(b: Badge): string
  {
    match b
    case ExpiredBadge => "Expirado"
    case DueTodayBadge => "Vence Hoje"
    case ActiveBadge => "Ativo"
  }

  /** The row's badge: expired first, then due today, otherwise active. */
  function RowBadge(lead: Lead, now: int): (b: Badge)
    ensures b == ExpiredBadge <==> IsExpired(lead.expirationDate, now)
    ensures b == DueTodayBadge <==> IsExpiringToday(lead.expirationDate, now)
    ensures b == ActiveBadge <==>
      !IsExpired(lead.expirationDate, now) && !IsExpiringToday(lead.expirationDate, now)
  {
    if IsExpired(lead.expirationDate, now) then ExpiredBadge
    else if IsExpiringToday(lead.expirationDate, now) then DueTodayBadge
    else ActiveBadge
  }

  /** A lead without an expiration date is neither expired nor due, so it shows as active. */
  lemma UndatedIsActive(lead: Lead, now: int)
    requires lead.expirationDate.None?
    ensures !IsExpired(lead.expirationDate, now) && !IsExpiringToday(lead.expirationDate, now)
    ensures RowBadge(lead, now) == ActiveBadge
  {
  }

  /** Expired and due today never hold together. */
  lemma ExpiredExcludesDueToday(expiration: Option<int>, now: int)
    ensures !(IsExpired(expiration, now) && IsExpiringToday(expiration, now))
  {
  }

  /** A lead expiring at a given time of day: only the day counts, never the hour. */
  lemma BadgeByDay(a: Lead, b: Lead, now: int, later: int)
    requires a.expirationDate.Some? && b.expirationDate.Some?
    requires Day(a.expirationDate.value) == Day(b.expirationDate.value)
    requires Day(now) == Day(later)
    ensures RowBadge(a, now) == RowBadge(b, later)
  {
  }

  /** Leads dated exactly one day apart, seen on the later day: the first has expired, the second is due. */
  lemma ConsecutiveDays(d: int, now: int)
    requires Day(now) == d
    ensures IsExpired(Some((d - 1) * MsPerDay), now)
    ensures IsExpiringToday(Some(d * MsPerDay), now)
    ensures !IsExpired(Some(d * MsPerDay + MsPerDay - 1), now)
  {
    assert (d - 1) * MsPerDay / MsPerDay == d - 1;
    assert d * MsPerDay / MsPerDay == d;
    assert (d * MsPerDay + MsPerDay - 1) / MsPerDay == d;
  }

  // ---------------------------------------------------------------------
  // Ordering

  /**
   * The sort comparator as the page writes it: an undated `a` sorts after,
   * an undated `b` sorts before, two dated leads by timestamp.
   */
  function CompareAsWritten(a: Lead, b: Lead): (r: int)
    ensures r < 0 <==> (a.expirationDate.Some? &&
      (b.expirationDate.None? || a.expirationDate.value < b.expirationDate.value))
    ensures r > 0 <==> (a.expirationDate.None? ||
      (b.expirationDate.Some? && b.expirationDate.value < a.expirationDate.value))
  {
    if a.expirationDate.None? then 1
    else if b.expirationDate.None? then -1
    else a.expirationDate.value - b.expirationDate.value
  }

  /**
   * Two undated leads each compare greater than the other, so the comparator
   * is not consistent and `Array.prototype.sort` gives an
   * implementation-defined order for a list with two or more undated leads.
   */
  lemma CompareAsWrittenInconsistent(a: Lead, b: Lead)
    requires a.expirationDate.None? && b.expirationDate.None?
    ensures CompareAsWritten(a, b) > 0 && CompareAsWritten(b, a) > 0
  {
  }

  /** The comparator with the missing case added: two undated leads compare equal. */
  function CompareExpiry(a: Lead, b: Lead): (r: int)
    ensures r < 0 <==> (a.expirationDate.Some? &&
      (b.expirationDate.None? || a.expirationDate.value < b.expirationDate.value))
    ensures r == 0 <==> ((a.expirationDate.None? && b.expirationDate.None?) ||
      (a.expirationDate.Some? && b.expirationDate.Some? && a.expirationDate.value == b.expirationDate.value))
  {
    if a.expirationDate.None? && b.expirationDate.None? then 0
    else if a.expirationDate.None? then 1
    else if b.expirationDate.None? then -1
    else a.expirationDate.value - b.expirationDate.value
  }

  /** The corrected comparator is antisymmetric, and agrees with the page's except on two undated leads. */
  lemma CompareExpiryConsistent(a: Lead, b: Lead)
    ensures CompareExpiry(a, b) < 0 <==> CompareExpiry(b, a) > 0
    ensures CompareExpiry(a, b) == 0 <==> CompareExpiry(b, a) == 0
    ensures a.expirationDate.Some? || b.expirationDate.Some? ==> CompareExpiry(a, b) == CompareAsWritten(a, b)
  {
  }

  /** No dated lead after an undated one, and dated leads by non-decreasing expiration. */
  predicate ExpiryOrdered(s: seq<Lead>)
  {
    forall i, j :: 0 <= i < j < |s| && s[j].expirationDate.Some? ==>
      s[i].expirationDate.Some? && s[i].expirationDate.value <= s[j].expirationDate.value
  }

  function InsertByExpiry(x: Lead, s: seq<Lead>): seq<Lead>
  {
    if s == [] || CompareExpiry(x, s[0]) <= 0 then [x] + s
    else [s[0]] + InsertByExpiry(x, s[1..])
  }

  /** `[...leads].sort(compare)`: a stable sort of a copy, with the corrected comparator. */
  function MonitorOrder(leads: seq<Lead>): (r: seq<Lead>)
    ensures multiset(r) == multiset(leads)
    ensures ExpiryOrdered(r)
  {
    if leads == [] then []
    else
      var rest := MonitorOrder(leads[1..]);
      InsertByExpiryPerm(leads[0], rest);
      InsertByExpiryOrdered(leads[0], rest);
      assert leads == [leads[0]] + leads[1..];
      InsertByExpiry(leads[0], rest)
  }

  lemma {:induction false} InsertByExpiryPerm(x: Lead, s: seq<Lead>)
    ensures multiset(InsertByExpiry(x, s)) == multiset(s) + multiset{x}
    ensures forall l :: l in InsertByExpiry(x, s) <==> l in s || l == x
  {
    if !(s == [] || CompareExpiry(x, s[0]) <= 0) {
      assert s == [s[0]] + s[1..];
      InsertByExpiryPerm(x, s[1..]);
    }
    var r := InsertByExpiry(x, s);
    forall l ensures l in r <==> l in s || l == x {
      assert l in r <==> l in multiset(r);
      assert l in s <==> l in multiset(s);
    }
  }

  lemma ExpiryOrderedTail(s: seq<Lead>)
    requires s != [] && ExpiryOrdered(s)
    ensures ExpiryOrdered(s[1..])
  {
    forall i, j | 0 <= i < j < |s[1..]| && s[1..][j].expirationDate.Some?
      ensures s[1..][i].expirationDate.Some? && s[1..][i].expirationDate.value <= s[1..][j].expirationDate.value
    {
      assert s[1..][i] == s[i + 1] && s[1..][j] == s[j + 1];
    }
  }

  /** Inserting at the front is sound when the new lead compares no greater than the head. */
  lemma InsertFrontOrdered(x: Lead, s: seq<Lead>)
    requires ExpiryOrdered(s)
    requires s == [] || CompareExpiry(x, s[0]) <= 0
    ensures ExpiryOrdered([x] + s)
  {
    var r := [x] + s;
    forall i, j | 0 <= i < j < |r| && r[j].expirationDate.Some?
      ensures r[i].expirationDate.Some? && r[i].expirationDate.value <= r[j].expirationDate.value
    {
      if i == 0 {
        assert r[j] == s[j - 1];
        if j - 1 > 0 {
          assert s[0].expirationDate.Some? && s[0].expirationDate.value <= s[j - 1].expirationDate.value;
        }
      } else {
        assert r[i] == s[i - 1] && r[j] == s[j - 1];
      }
    }
  }

  lemma {:induction false} InsertByExpiryOrdered(x: Lead, s: seq<Lead>)
    requires ExpiryOrdered(s)
    ensures ExpiryOrdered(InsertByExpiry(x, s))
  {
    if s == [] || CompareExpiry(x, s[0]) <= 0 {
      InsertFrontOrdered(x, s);
    } else {
      var t := InsertByExpiry(x, s[1..]);
      ExpiryOrderedTail(s);
      InsertByExpiryOrdered(x, s[1..]);
      InsertByExpiryPerm(x, s[1..]);
      var r := [s[0]] + t;
      forall j | 0 < j < |r| && r[j].expirationDate.Some?
        ensures s[0].expirationDate.Some? && s[0].expirationDate.value <= r[j].expirationDate.value
      {
        assert r[j] == t[j - 1];
        assert r[j] in t;
        if r[j] != x {
          var k :| 0 <= k < |s[1..]| && s[1..][k] == r[j];
          assert s[k + 1] == r[j];
        }
      }
      forall i, j | 0 <= i < j < |r| && r[j].expirationDate.Some?
        ensures r[i].expirationDate.Some? && r[i].expirationDate.value <= r[j].expirationDate.value
      {
        if i > 0 {
          assert r[i] == t[i - 1] && r[j] == t[j - 1];
        }
      }
    }
  }

  /**
   * The monitor lists a rearrangement of the leads in which every dated lead
   * comes before every undated one and dated leads go by expiration.
   */
  lemma MonitorOrderFacts(leads: seq<Lead>)
    ensures multiset(MonitorOrder(leads)) == multiset(leads)
    ensures |MonitorOrder(leads)| == |leads|
    ensures ExpiryOrdered(MonitorOrder(leads))
    ensures forall i, j :: 0 <= i < j < |MonitorOrder(leads)| && MonitorOrder(leads)[i].expirationDate.None? ==>
      MonitorOrder(leads)[j].expirationDate.None?
  {
    assert |multiset(MonitorOrder(leads))| == |multiset(leads)|;
  }

  /** Undated leads keep their relative order: the sort of two undated leads leaves them as they were. */
  lemma UndatedKeepOrder(a: Lead, b: Lead)
    requires a.expirationDate.None? && b.expirationDate.None?
    ensures MonitorOrder([a, b]) == [a, b]
  {
    assert [a, b][1..] == [b];
    assert [b][1..] == [];
    assert MonitorOrder([b]) == [b];
  }
}
