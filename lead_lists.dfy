// The updates the pages apply to their own copy of the lead list after a
// store write: a status change, a removal and an upsert at the front. Each
// is shown to keep the page's list in step with what the store writes.

module LeadLists {
  import opened Types
  import opened Storage

  /** `prev.map(l => l.id === id ? { ...l, status } : l)`. */
  function SetStatus(leads: seq<Lead>, id: string, status: LeadStatus): (r: seq<Lead>)
    ensures |r| == |leads|
    ensures forall i :: 0 <= i < |r| ==> r[i].id == leads[i].id
  {
    if leads == [] then []
    else [if leads[0].id == id then leads[0].(status := status) else leads[0]] + SetStatus(leads[1..], id, status)
  }

  /**
   * The status change touches only the leads with that id, and of those only
   * the status: every other field, and every other lead, is unchanged.
   */
  lemma {:induction false} SetStatusOnlyStatus(leads: seq<Lead>, id: string, status: LeadStatus)
    ensures forall i :: 0 <= i < |leads| ==>
      SetStatus(leads, id, status)[i] == (if leads[i].id == id then leads[i].(status := status) else leads[i])
  {
    if leads != [] {
      var rest := SetStatus(leads[1..], id, status);
      SetStatusOnlyStatus(leads[1..], id, status);
      assert SetStatus(leads, id, status)[1..] == rest;
    }
  }

  /** The page's status change is the store's `updateLead(id, { status })` on the same records. */
  lemma {:induction false} SetStatusMirrorsStore(leads: seq<Lead>, id: string, status: LeadStatus)
    ensures Entries(SetStatus(leads, id, status)) == Patched(Entries(leads), id, StatusPatch(status))
  {
    SetStatusOnlyStatus(leads, id, status);
    var a := Entries(SetStatus(leads, id, status));
    var b := Patched(Entries(leads), id, StatusPatch(status));
    forall i | 0 <= i < |a| ensures a[i] == b[i] {
      SpreadStatusOnly(leads[i], status);
    }
  }

  /** `prev.filter(l => l.id !== id)`. */
  function DropId(leads: seq<Lead>, id: string): (r: seq<Lead>)
    ensures forall l :: l in r <==> l in leads && l.id != id
    ensures |r| <= |leads|
  {
    if leads == [] then []
    else (if leads[0].id != id then [leads[0]] else []) + DropId(leads[1..], id)
  }

  /** The page's removal drops the same records as the store's `deleteLead`, in the same order. */
  lemma {:induction false} DropIdMirrorsStore(leads: seq<Lead>, id: string)
    ensures Entries(DropId(leads, id)) == Without(Entries(leads), id)
  {
    if leads != [] {
      DropIdMirrorsStore(leads[1..], id);
      var e := Entries(leads);
      assert e[1..] == Entries(leads[1..]);
      assert e == [e[0]] + e[1..];
      var head := if leads[0].id != id then [leads[0]] else [];
      assert Entries(head + DropId(leads[1..], id)) == Entries(head) + Entries(DropId(leads[1..], id)) by {
        EntriesConcat(head, DropId(leads[1..], id));
      }
    }
  }

  lemma EntriesConcat(a: seq<Lead>, b: seq<Lead>)
    ensures Entries(a + b) == Entries(a) + Entries(b)
  {
    var l := Entries(a + b);
    var r := Entries(a) + Entries(b);
    forall i | 0 <= i < |l| ensures l[i] == r[i] {
      if i < |a| { assert (a + b)[i] == a[i]; } else { assert (a + b)[i] == b[i - |a|]; }
    }
  }

  /** `[x, ...prev.filter(l => l.id !== x.id)]`. */
  function PutFirst(leads: seq<Lead>, x: Lead): (r: seq<Lead>)
    ensures |r| >= 1 && r[0] == x
    ensures forall k :: 1 <= k < |r| ==> r[k].id != x.id
    ensures forall l :: l in r[1..] <==> l in leads && l.id != x.id
  {
    var rest := DropId(leads, x.id);
    assert ([x] + rest)[1..] == rest;
    assert forall k :: 1 <= k < |rest| + 1 ==> ([x] + rest)[k] == rest[k - 1];
    [x] + rest
  }

  /** The page's upsert is the store's `saveLead` on the same records. */
  lemma PutFirstMirrorsStore(leads: seq<Lead>, x: Lead)
    ensures Entries(PutFirst(leads, x)) == Upserted(Entries(leads), x)
  {
    DropIdMirrorsStore(leads, x.id);
    EntriesConcat([x], DropId(leads, x.id));
  }

  /** Removing an id twice is removing it once. */
  lemma {:induction false} DropIdIdempotent(leads: seq<Lead>, id: string)
    ensures DropId(DropId(leads, id), id) == DropId(leads, id)
  {
    if leads != [] {
      DropIdIdempotent(leads[1..], id);
      var head := if leads[0].id != id then [leads[0]] else [];
      DropIdConcat(head, DropId(leads[1..], id), id);
    }
  }

  lemma {:induction false} DropIdConcat(a: seq<Lead>, b: seq<Lead>, id: string)
    ensures DropId(a + b, id) == DropId(a, id) + DropId(b, id)
  {
    if a == [] {
      assert a + b == b;
    } else {
      assert (a + b)[0] == a[0];
      assert (a + b)[1..] == a[1..] + b;
      DropIdConcat(a[1..], b, id);
    }
  }
}
