// The reconciliation step of the lead cache: local and remote rows are
// written into an insertion-ordered map keyed by lead id (local first,
// remote second, tombstoned remote ids skipped) and the map's values are
// sorted newest first.

module LeadMerge {
  import opened Types

  /** The identifiers occurring in `s`. */
  function IdSet(s: seq<Lead>): set<string>
  {
    set l | l in s :: l.id
  }

  /** No two leads of `s` share an identifier. */
  predicate UniqueIds(s: seq<Lead>)
  {
    forall i, j :: 0 <= i < j < |s| ==> s[i].id != s[j].id
  }

  lemma IdSetCons(x: Lead, s: seq<Lead>)
    ensures IdSet([x] + s) == {x.id} + IdSet(s)
  {
    assert forall l :: l in [x] + s <==> l == x || l in s;
  }

  lemma UniqueIdsCons(x: Lead, s: seq<Lead>)
    ensures UniqueIds([x] + s) <==> x.id !in IdSet(s) && UniqueIds(s)
  {
    var t := [x] + s;
    if UniqueIds(t) {
      forall j | 0 <= j < |s| ensures s[j].id != x.id {
        assert t[0] == x && t[j + 1] == s[j];
      }
      forall i, j | 0 <= i < j < |s| ensures s[i].id != s[j].id {
        assert t[i + 1] == s[i] && t[j + 1] == s[j];
      }
    }
    if x.id !in IdSet(s) && UniqueIds(s) {
      forall i, j | 0 <= i < j < |t| ensures t[i].id != t[j].id {
        if i == 0 {
          assert t[j] in s;
        } else {
          assert t[i] == s[i - 1] && t[j] == s[j - 1];
        }
      }
    }
  }

  // ---------------------------------------------------------------------
  // The insertion-ordered map

  /**
   * `Map.prototype.set` on a map represented by its values in insertion
   * order: a value with the same key is replaced where it stands, a new
   * key goes to the end.
   */
  function MapSet(m: seq<Lead>, x: Lead): (r: seq<Lead>)
    ensures x in r
    ensures forall y :: y in r ==> y == x || y in m
    ensures |r| == |m| || |r| == |m| + 1
  {
    if m == [] then [x]
    else if m[0].id == x.id then [x] + m[1..]
    else [m[0]] + MapSet(m[1..], x)
  }

  /** A key not yet in the map is appended. */
  lemma {:induction false} MapSetAppends(m: seq<Lead>, x: Lead)
    requires x.id !in IdSet(m)
    ensures MapSet(m, x) == m + [x]
  {
    if m != [] {
      assert m == [m[0]] + m[1..];
      IdSetCons(m[0], m[1..]);
      MapSetAppends(m[1..], x);
    }
  }

  /** A key already in the map, first at position `k`, is replaced there. */
  lemma {:induction false} MapSetReplaces(m: seq<Lead>, x: Lead, k: nat)
    requires k < |m| && m[k].id == x.id
    requires forall j :: 0 <= j < k ==> m[j].id != x.id
    ensures MapSet(m, x) == m[k := x]
  {
    if k > 0 {
      assert m == [m[0]] + m[1..];
      MapSetReplaces(m[1..], x, k - 1);
    }
  }

  lemma MapSetNewKey(m: seq<Lead>, x: Lead)
    requires UniqueIds(m) && x.id !in IdSet(m)
    ensures UniqueIds(m + [x])
    ensures IdSet(m + [x]) == IdSet(m) + {x.id}
    ensures forall y :: y in m + [x] <==> y == x || (y in m && y.id != x.id)
  {
    var r := m + [x];
    forall i, j | 0 <= i < j < |r| ensures r[i].id != r[j].id {
      if j == |m| { assert r[i] in m; }
    }
    assert forall y :: y in r <==> y == x || y in m;
  }

  lemma MapSetOldKey(m: seq<Lead>, x: Lead, k: nat)
    requires UniqueIds(m) && k < |m| && m[k].id == x.id
    ensures UniqueIds(m[k := x])
    ensures IdSet(m[k := x]) == IdSet(m) + {x.id}
    ensures forall y :: y in m[k := x] <==> y == x || (y in m && y.id != x.id)
    ensures forall i :: 0 <= i < |m| ==> m[k := x][i] == if m[i].id == x.id then x else m[i]
  {
    var r := m[k := x];
    forall i | 0 <= i < |m| ensures r[i] == if m[i].id == x.id then x else m[i] {
      if i < k { assert m[i].id != m[k].id; } else if i > k { assert m[k].id != m[i].id; }
    }
    forall y ensures y in r <==> y == x || (y in m && y.id != x.id) {
      if y in m && y.id != x.id {
        var j :| 0 <= j < |m| && m[j] == y;
        assert r[j] == y;
      }
      if y in r && y != x {
        var j :| 0 <= j < |r| && r[j] == y;
        assert j != k && m[j] == y;
        if j < k { assert m[j].id != m[k].id; } else { assert m[k].id != m[j].id; }
      }
      if y == x { assert r[k] == x; }
    }
    forall z | z in IdSet(m) ensures z in IdSet(r) {
      var l :| l in m && l.id == z;
      var j :| 0 <= j < |m| && m[j] == l;
      assert r[j].id == z;
    }
    assert x in r;
  }

  /** The position of a key in a map with unique keys; no earlier entry has it. */
  lemma KeyAt(m: seq<Lead>, id: string) returns (k: nat)
    requires UniqueIds(m) && id in IdSet(m)
    ensures k < |m| && m[k].id == id
    ensures forall j :: 0 <= j < k ==> m[j].id != id
  {
    var l :| l in m && l.id == id;
    k :| k < |m| && m[k] == l;
  }

  lemma MapSetFacts(m: seq<Lead>, x: Lead)
    requires UniqueIds(m)
    ensures UniqueIds(MapSet(m, x))
    ensures IdSet(MapSet(m, x)) == IdSet(m) + {x.id}
    ensures forall y :: y in MapSet(m, x) <==> y == x || (y in m && y.id != x.id)
    ensures x.id !in IdSet(m) ==> MapSet(m, x) == m + [x]
    ensures x.id in IdSet(m) ==> |MapSet(m, x)| == |m|
    ensures x.id in IdSet(m) ==>
      forall i :: 0 <= i < |m| ==> MapSet(m, x)[i] == if m[i].id == x.id then x else m[i]
  {
    if x.id !in IdSet(m) {
      MapSetAppends(m, x);
      MapSetNewKey(m, x);
    } else {
      var k := KeyAt(m, x.id);
      MapSetReplaces(m, x, k);
      MapSetOldKey(m, x, k);
    }
  }

  /** Writes every lead of `s`, in order, into the map `m`. */
  function Absorb(m: seq<Lead>, s: seq<Lead>): seq<Lead>
    decreases |s|
  {
    if s == [] then m else Absorb(MapSet(m, s[0]), s[1..])
  }

  /** The last lead of `s` that carries identifier `id`. */
  function LastWith(s: seq<Lead>, id: string): (l: Lead)
    requires id in IdSet(s)
    ensures l in s && l.id == id
  {
    assert s == [s[0]] + s[1..];
    IdSetCons(s[0], s[1..]);
    if s[0].id == id && id !in IdSet(s[1..]) then s[0] else LastWith(s[1..], id)
  }

  /** The last lead with an identifier is in the tail unless only the head carries it. */
  lemma LastWithCons(s: seq<Lead>, id: string)
    requires s != [] && id in IdSet(s)
    ensures id in IdSet(s[1..]) ==> LastWith(s, id) == LastWith(s[1..], id)
    ensures id !in IdSet(s[1..]) ==> s[0].id == id && LastWith(s, id) == s[0]
  {
    assert s == [s[0]] + s[1..];
    IdSetCons(s[0], s[1..]);
  }

  /**
   * Absorbing `s` into a map with unique keys gives a map with unique keys
   * over both key sets, whose value for a key of `s` is the last lead of
   * `s` with that key and whose other values are those of `m`.
   */
  lemma {:induction false} AbsorbFacts(m: seq<Lead>, s: seq<Lead>)
    requires UniqueIds(m)
    ensures UniqueIds(Absorb(m, s))
    ensures IdSet(Absorb(m, s)) == IdSet(m) + IdSet(s)
    ensures forall y :: y in Absorb(m, s) <==>
      (y.id in IdSet(s) && y == LastWith(s, y.id)) || (y.id !in IdSet(s) && y in m)
    decreases |s|
  {
    if s == [] {
    } else {
      var m1 := MapSet(m, s[0]);
      var rest := s[1..];
      assert s == [s[0]] + rest;
      IdSetCons(s[0], rest);
      MapSetFacts(m, s[0]);
      AbsorbFacts(m1, rest);
      assert Absorb(m, s) == Absorb(m1, rest);
      forall id | id in IdSet(s) {
        LastWithCons(s, id);
      }
    }
  }

  /**
   * When every key of `s` is already in `m`, absorbing `s` changes values
   * in place: the position of each key is kept.
   */
  lemma {:induction false} AbsorbInPlace(m: seq<Lead>, s: seq<Lead>)
    requires UniqueIds(m)
    requires IdSet(s) <= IdSet(m)
    ensures |Absorb(m, s)| == |m|
    ensures forall i :: 0 <= i < |m| ==>
      Absorb(m, s)[i] == if m[i].id in IdSet(s) then LastWith(s, m[i].id) else m[i]
    decreases |s|
  {
    if s != [] {
      var m1 := MapSet(m, s[0]);
      var rest := s[1..];
      assert s == [s[0]] + rest;
      IdSetCons(s[0], rest);
      MapSetFacts(m, s[0]);
      assert forall i :: 0 <= i < |m| ==> m1[i].id == m[i].id;
      assert IdSet(m1) == IdSet(m);
      AbsorbInPlace(m1, rest);
      forall i | 0 <= i < |m|
        ensures Absorb(m, s)[i] == if m[i].id in IdSet(s) then LastWith(s, m[i].id) else m[i]
      {
        if m[i].id in IdSet(s) {
          LastWithCons(s, m[i].id);
        }
      }
    }
  }

  /** Absorbing a list with unique keys into an empty map gives the list back. */
  lemma {:induction false} AbsorbUniqueIntoEmpty(m: seq<Lead>, s: seq<Lead>)
    requires UniqueIds(m + s)
    ensures Absorb(m, s) == m + s
    decreases |s|
  {
    if s != [] {
      assert s == [s[0]] + s[1..];
      assert UniqueIds(m) by {
        forall i, j | 0 <= i < j < |m| ensures m[i].id != m[j].id {
          assert (m + s)[i] == m[i] && (m + s)[j] == m[j];
        }
      }
      assert s[0].id !in IdSet(m) by {
        forall l | l in m ensures l.id != s[0].id {
          var k :| 0 <= k < |m| && m[k] == l;
          assert (m + s)[k] == l && (m + s)[|m|] == s[0];
        }
      }
      MapSetFacts(m, s[0]);
      assert m + s == (m + [s[0]]) + s[1..];
      AbsorbUniqueIntoEmpty(m + [s[0]], s[1..]);
    }
  }

  // ---------------------------------------------------------------------
  // Newest-first ordering (a stable sort on `created_at`, descending)

  predicate NewestFirst(s: seq<Lead>)
  {
    forall i, j :: 0 <= i < j < |s| ==> s[i].createdAt >= s[j].createdAt
  }

  function InsertNewest(x: Lead, s: seq<Lead>): seq<Lead>
  {
    if s == [] || s[0].createdAt <= x.createdAt then [x] + s
    else [s[0]] + InsertNewest(x, s[1..])
  }

  /**
   * `Array.prototype.sort` with the comparator `b.created_at - a.created_at`:
   * the sort is stable, so leads with equal timestamps keep their order.
   */
  function SortNewestFirst(s: seq<Lead>): (r: seq<Lead>)
    ensures multiset(r) == multiset(s)
    ensures NewestFirst(r)
  {
    if s == [] then []
    else
      var rest := SortNewestFirst(s[1..]);
      InsertNewestPerm(s[0], rest);
      InsertNewestSorted(s[0], rest);
      assert s == [s[0]] + s[1..];
      InsertNewest(s[0], rest)
  }

  lemma {:induction false} InsertNewestPerm(x: Lead, s: seq<Lead>)
    ensures multiset(InsertNewest(x, s)) == multiset(s) + multiset{x}
    ensures forall l :: l in InsertNewest(x, s) <==> l in s || l == x
  {
    if !(s == [] || s[0].createdAt <= x.createdAt) {
      assert s == [s[0]] + s[1..];
      InsertNewestPerm(x, s[1..]);
    }
    var r := InsertNewest(x, s);
    forall l ensures l in r <==> l in s || l == x {
      assert l in r <==> l in multiset(r);
      assert l in s <==> l in multiset(s);
    }
  }

  lemma NewestFirstTail(s: seq<Lead>)
    requires s != [] && NewestFirst(s)
    ensures NewestFirst(s[1..])
  {
    forall i, j | 0 <= i < j < |s[1..]| ensures s[1..][i].createdAt >= s[1..][j].createdAt {
      assert s[1..][i] == s[i + 1] && s[1..][j] == s[j + 1];
    }
  }

  lemma NewestFirstCons(y: Lead, t: seq<Lead>)
    requires NewestFirst(t)
    requires forall k :: 0 <= k < |t| ==> y.createdAt >= t[k].createdAt
    ensures NewestFirst([y] + t)
  {
    var r := [y] + t;
    forall i, j | 0 <= i < j < |r| ensures r[i].createdAt >= r[j].createdAt {
      assert r[j] == t[j - 1];
      if i > 0 {
        assert r[i] == t[i - 1];
      }
    }
  }

  lemma {:induction false} InsertNewestSorted(x: Lead, s: seq<Lead>)
    requires NewestFirst(s)
    ensures NewestFirst(InsertNewest(x, s))
  {
    if !(s == [] || s[0].createdAt <= x.createdAt) {
      var rest := s[1..];
      var t := InsertNewest(x, rest);
      NewestFirstTail(s);
      InsertNewestSorted(x, rest);
      InsertNewestPerm(x, rest);
      forall k | 0 <= k < |t| ensures s[0].createdAt >= t[k].createdAt {
        assert t[k] in t;
        if t[k] != x {
          var n :| 0 <= n < |rest| && rest[n] == t[k];
          assert s[n + 1] == t[k];
        }
      }
      NewestFirstCons(s[0], t);
    }
  }

  lemma {:induction false} InsertNewestIds(x: Lead, s: seq<Lead>)
    ensures IdSet(InsertNewest(x, s)) == IdSet(s) + {x.id}
    ensures UniqueIds(s) && x.id !in IdSet(s) ==> UniqueIds(InsertNewest(x, s))
  {
    InsertNewestPerm(x, s);
    if s == [] || s[0].createdAt <= x.createdAt {
      UniqueIdsCons(x, s);
    } else {
      assert s == [s[0]] + s[1..];
      var t := InsertNewest(x, s[1..]);
      InsertNewestIds(x, s[1..]);
      IdSetCons(s[0], s[1..]);
      UniqueIdsCons(s[0], s[1..]);
      UniqueIdsCons(s[0], t);
    }
  }

  /** The sort keeps exactly the leads it is given. */
  lemma SortNewestFirstPerm(s: seq<Lead>)
    ensures forall l :: l in SortNewestFirst(s) <==> l in s
  {
    var r := SortNewestFirst(s);
    forall l ensures l in r <==> l in s {
      assert l in r <==> l in multiset(r);
      assert l in s <==> l in multiset(s);
    }
  }

  lemma {:induction false} SortNewestFirstIds(s: seq<Lead>)
    ensures IdSet(SortNewestFirst(s)) == IdSet(s)
    ensures UniqueIds(s) ==> UniqueIds(SortNewestFirst(s))
  {
    SortNewestFirstPerm(s);
    if s != [] {
      assert s == [s[0]] + s[1..];
      SortNewestFirstIds(s[1..]);
      InsertNewestIds(s[0], SortNewestFirst(s[1..]));
      IdSetCons(s[0], s[1..]);
      UniqueIdsCons(s[0], s[1..]);
    }
  }

  /** The sort returns a newest-first permutation of its input. */
  lemma SortNewestFirstFacts(s: seq<Lead>)
    ensures NewestFirst(SortNewestFirst(s))
    ensures multiset(SortNewestFirst(s)) == multiset(s)
    ensures IdSet(SortNewestFirst(s)) == IdSet(s)
    ensures UniqueIds(s) ==> UniqueIds(SortNewestFirst(s))
  {
    SortNewestFirstIds(s);
  }

  /** Sorting a list that is already newest-first changes nothing. */
  lemma {:induction false} SortNewestFirstSorted(s: seq<Lead>)
    requires NewestFirst(s)
    ensures SortNewestFirst(s) == s
  {
    if s != [] {
      NewestFirstTail(s);
      SortNewestFirstSorted(s[1..]);
      assert s == [s[0]] + s[1..];
    }
  }

  // ---------------------------------------------------------------------
  // The merge

  /** The leads with a non-empty identifier (`l && l.id`). */
  function Keyed(s: seq<Lead>): (r: seq<Lead>)
    ensures forall l :: l in r <==> l in s && l.id != ""
  {
    if s == [] then []
    else (if s[0].id != "" then [s[0]] else []) + Keyed(s[1..])
  }

  /** The leads with a non-empty identifier that is not tombstoned. */
  function Live(s: seq<Lead>, deleted: seq<string>): (r: seq<Lead>)
    ensures forall l :: l in r <==> l in s && l.id != "" && l.id !in deleted
  {
    if s == [] then []
    else (if s[0].id != "" && s[0].id !in deleted then [s[0]] else []) + Live(s[1..], deleted)
  }

  /** The map after both passes, before sorting. */
  function MergeMap(local: seq<Lead>, remote: seq<Lead>, deleted: seq<string>): seq<Lead>
  {
    Absorb(Absorb([], Keyed(local)), Live(remote, deleted))
  }

  /** What `mergeLeads` returns for the visible local leads `local`. */
  function MergedLeads(local: seq<Lead>, remote: seq<Lead>, deleted: seq<string>): (r: seq<Lead>)
    ensures multiset(r) == multiset(MergeMap(local, remote, deleted))
    ensures NewestFirst(r)
  {
    SortNewestFirst(MergeMap(local, remote, deleted))
  }

  /** No keyed or live lead has the empty identifier. */
  lemma KeyedIdsNonEmpty(local: seq<Lead>, remote: seq<Lead>, deleted: seq<string>)
    ensures "" !in IdSet(Keyed(local)) && "" !in IdSet(Live(remote, deleted))
  {
  }

  /**
   * The merge result has unique, non-empty identifiers; they are exactly the
   * keyed local identifiers plus the live remote identifiers; the record for
   * an identifier sent by the remote side is the last remote record with it
   * (remote wins), any other record is the last local record with it; and
   * the result is newest first. No tombstoned remote identifier comes in.
   */
  lemma MergedLeadsFacts(local: seq<Lead>, remote: seq<Lead>, deleted: seq<string>)
    ensures UniqueIds(MergedLeads(local, remote, deleted))
    ensures NewestFirst(MergedLeads(local, remote, deleted))
    ensures IdSet(MergedLeads(local, remote, deleted))
      == IdSet(Keyed(local)) + IdSet(Live(remote, deleted))
    ensures forall l :: l in MergedLeads(local, remote, deleted) <==>
      if l.id in IdSet(Live(remote, deleted)) then l == LastWith(Live(remote, deleted), l.id)
      else l.id in IdSet(Keyed(local)) && l == LastWith(Keyed(local), l.id)
    ensures forall l :: l in MergedLeads(local, remote, deleted) ==> l.id != ""
    ensures forall l :: l in MergedLeads(local, remote, deleted) && l.id in deleted ==>
      l in local
  {
    var r := MergedLeads(local, remote, deleted);
    var m0 := Absorb([], Keyed(local));
    var m := MergeMap(local, remote, deleted);
    AbsorbFacts([], Keyed(local));
    AbsorbFacts(m0, Live(remote, deleted));
    SortNewestFirstPerm(m);
    SortNewestFirstIds(m);
    KeyedIdsNonEmpty(local, remote, deleted);
    forall l | l in r ensures l.id != "" {
      assert l.id in IdSet(r);
    }
  }

  /**
   * Tombstone supremacy: when the local leads already exclude tombstoned
   * identifiers (as `getLeads` guarantees), no merge result carries one,
   * whatever the remote side sends.
   */
  lemma TombstoneSupremacy(local: seq<Lead>, remote: seq<Lead>, deleted: seq<string>)
    requires forall l :: l in local ==> l.id !in deleted
    ensures forall l :: l in MergedLeads(local, remote, deleted) ==> l.id !in deleted
  {
    MergedLeadsFacts(local, remote, deleted);
  }

  /** A live remote record is the one the merge keeps when it is the last with its id. */
  lemma RemoteWins(local: seq<Lead>, remote: seq<Lead>, deleted: seq<string>, x: Lead)
    requires x in remote && x.id != "" && x.id !in deleted
    ensures x.id in IdSet(Live(remote, deleted))
    ensures LastWith(Live(remote, deleted), x.id) in MergedLeads(local, remote, deleted)
    ensures forall l :: l in MergedLeads(local, remote, deleted) && l.id == x.id ==>
      l in remote
  {
    assert x in Live(remote, deleted);
    MergedLeadsFacts(local, remote, deleted);
  }

  /** A local record whose id the remote side does not send survives unchanged. */
  lemma LocalOnlyKept(local: seq<Lead>, remote: seq<Lead>, deleted: seq<string>, x: Lead)
    requires x in local && x.id != ""
    requires x.id !in IdSet(Live(remote, deleted))
    requires forall l :: l in local && l.id == x.id ==> l == x
    ensures x in MergedLeads(local, remote, deleted)
  {
    assert x in Keyed(local);
    assert x.id in IdSet(Keyed(local));
    MergedLeadsFacts(local, remote, deleted);
  }

  /**
   * Merging the remote rows into a result of the same merge gives that
   * result back: `syncLeads(R)` twice in a row returns the same list.
   */
  lemma {:induction false} MergeIdempotent(local: seq<Lead>, remote: seq<Lead>, deleted: seq<string>)
    ensures MergedLeads(MergedLeads(local, remote, deleted), remote, deleted)
      == MergedLeads(local, remote, deleted)
  {
    var r := MergedLeads(local, remote, deleted);
    var live := Live(remote, deleted);
    MergedLeadsFacts(local, remote, deleted);
    assert Keyed(r) == r by { KeyedAllKeyed(r); }
    AbsorbUniqueIntoEmpty([], r);
    assert [] + r == r;
    AbsorbInPlace(r, live);
    var m := Absorb(r, live);
    forall i | 0 <= i < |r| ensures m[i] == r[i] {
      assert r[i] in r;
    }
    assert m == r;
    SortNewestFirstSorted(r);
  }

  lemma {:induction false} KeyedAllKeyed(s: seq<Lead>)
    requires forall l :: l in s ==> l.id != ""
    ensures Keyed(s) == s
  {
    if s != [] {
      assert s[0] in s;
      assert forall l :: l in s[1..] ==> l in s;
      KeyedAllKeyed(s[1..]);
      assert s == [s[0]] + s[1..];
    }
  }

  /**
   * With nothing local, an older row x and a newer row y sent in that
   * order come back as [y, x].
   */
  lemma NewerFirstExample(x: Lead, y: Lead)
    requires x.id == "x" && y.id == "y" && x.createdAt < y.createdAt
    ensures MergedLeads([], [x, y], []) == [y, x]
  {
    assert [x, y][1..] == [y] && [y][1..] == [];
    assert Live([y], []) == [y];
    assert Live([x, y], []) == [x, y];
    assert Keyed([]) == [];
    assert MapSet([], x) == [x];
    assert MapSet([x], y) == [x] + MapSet([], y) == [x, y];
    assert Absorb([x, y], []) == [x, y];
    assert Absorb([x], [y]) == [x, y];
    assert Absorb([], [x, y]) == [x, y];
    assert InsertNewest(y, []) == [y];
    assert SortNewestFirst([y]) == [y];
    assert InsertNewest(x, [y]) == [y] + InsertNewest(x, []) == [y, x];
  }

  /** A lead deleted locally stays out even when the remote side still sends it. */
  lemma DeletedStaysOutExample(l: Lead)
    requires l.id != ""
    ensures MergedLeads([], [l], [l.id]) == []
  {
    assert Live([l], [l.id]) == [];
  }

  /** On a shared id the remote row's fields are the ones returned. */
  lemma RemoteRecordReplacesLocal(a: Lead, b: Lead)
    requires a.id == b.id && a.id != "" && a.name == "A" && b.name == "B"
    ensures MergedLeads([a], [b], []) == [b]
  {
    assert [a][1..] == [] && [b][1..] == [];
    assert Keyed([a]) == [a];
    assert Live([b], []) == [b];
    assert MapSet([], a) == [a];
    assert MapSet([a], b) == [b] + [a][1..] == [b];
    assert Absorb([a], []) == [a];
    assert Absorb([], [a]) == [a];
    assert Absorb([b], []) == [b];
    assert Absorb([a], [b]) == [b];
    assert SortNewestFirst([b]) == InsertNewest(b, []) == [b];
  }
}
