// The local-first lead cache: a string-keyed browser store holding the
// lead list, the tombstone list of deleted lead ids and the category list,
// and the operations that read and rewrite those three keys.

module Storage {
  import opened Types
  import opened LeadMerge

  /**
   * What one key of the browser store holds: nothing, text that does not
   * parse as a list, or a list.
   */
  datatype Stored<T> = Missing | Unparsable | Parsed(items: seq<T>)

  /** `getLocal`: a missing key or unreadable data reads as the empty list. */
  function GetLocal<T>(s: Stored<T>): (r: seq<T>)
    ensures s.Parsed? ==> r == s.items
    ensures !s.Parsed? ==> r == []
  {
    if s.Parsed? then s.items else []
  }

  // ---------------------------------------------------------------------
  // The list rewrites the operations perform

  /** The `getLeads` filter: an entry is kept when it is a record with a non-empty, non-tombstoned id. */
  function Visible(entries: seq<Entry>, deleted: seq<string>): (r: seq<Lead>)
    ensures forall l :: l in r <==> Rec(l) in entries && l.id != "" && l.id !in deleted
    ensures |r| <= |entries|
  {
    if entries == [] then []
    else
      (if entries[0].Rec? && entries[0].lead.id != "" && entries[0].lead.id !in deleted
       then [entries[0].lead] else [])
      + Visible(entries[1..], deleted)
  }

  /** The stored form of a list of leads. */
  function Entries(leads: seq<Lead>): (r: seq<Entry>)
    ensures |r| == |leads|
    ensures forall i :: 0 <= i < |r| ==> r[i] == Rec(leads[i])
  {
    if leads == [] then [] else [Rec(leads[0])] + Entries(leads[1..])
  }

  /** Reading back a stored list whose ids are all non-empty and live gives the list itself. */
  lemma {:induction false} VisibleEntries(leads: seq<Lead>, deleted: seq<string>)
    requires forall i :: 0 <= i < |leads| ==> leads[i].id != "" && leads[i].id !in deleted
    ensures Visible(Entries(leads), deleted) == leads
  {
    if leads != [] {
      var tail := leads[1..];
      assert forall i :: 0 <= i < |tail| ==> tail[i] == leads[i + 1];
      VisibleEntries(tail, deleted);
      var e := Entries(leads);
      assert e == [Rec(leads[0])] + Entries(tail);
      assert e[1..] == Entries(tail);
      assert Visible(e, deleted) == [leads[0]] + Visible(e[1..], deleted);
      assert leads == [leads[0]] + tail;
    }
  }

  /**
   * `filter(l => l && l.id !== id)`: drops `null` entries and the records
   * with identifier `id`.
   */
  function Without(entries: seq<Entry>, id: string): (r: seq<Entry>)
    ensures forall e :: e in r <==> e in entries && e.Rec? && e.lead.id != id
    ensures |r| <= |entries|
  {
    if entries == [] then []
    else
      (if entries[0].Rec? && entries[0].lead.id != id then [entries[0]] else [])
      + Without(entries[1..], id)
  }

  /** The filter distributes over concatenation, so the kept entries keep their relative order. */
  lemma {:induction false} WithoutConcat(a: seq<Entry>, b: seq<Entry>, id: string)
    ensures Without(a + b, id) == Without(a, id) + Without(b, id)
  {
    if a == [] {
      assert a + b == b;
    } else {
      assert (a + b)[0] == a[0];
      assert (a + b)[1..] == a[1..] + b;
      WithoutConcat(a[1..], b, id);
    }
  }

  /** The filter drops nothing but `null` entries and records with that id. */
  lemma {:induction false} WithoutKeepsOthers(entries: seq<Entry>, id: string)
    requires forall e :: e in entries ==> e.Rec? && e.lead.id != id
    ensures Without(entries, id) == entries
  {
    if entries != [] {
      assert entries[0] in entries;
      assert forall e :: e in entries[1..] ==> e in entries;
      WithoutKeepsOthers(entries[1..], id);
      assert entries == [entries[0]] + entries[1..];
    }
  }

  /** The list `saveLead` writes: the lead first, then every other record. */
  function Upserted(entries: seq<Entry>, lead: Lead): (r: seq<Entry>)
    ensures |r| >= 1 && r[0] == Rec(lead)
    ensures forall k :: 1 <= k < |r| ==> r[k].Rec? && r[k].lead.id != lead.id
    ensures forall e :: e in r[1..] <==> e in entries && e.Rec? && e.lead.id != lead.id
  {
    var rest := Without(entries, lead.id);
    assert ([Rec(lead)] + rest)[1..] == rest;
    assert forall k :: 1 <= k < |rest| + 1 ==> ([Rec(lead)] + rest)[k] == rest[k - 1];
    [Rec(lead)] + rest
  }

  /** `map(l => l && l.id === id ? { ...l, ...u } : l)`. */
  function Patched(entries: seq<Entry>, id: string, u: LeadPatch): (r: seq<Entry>)
    ensures |r| == |entries|
    ensures forall i :: 0 <= i < |r| ==>
      r[i] == if entries[i].Rec? && entries[i].lead.id == id
              then Rec(Spread(entries[i].lead, u)) else entries[i]
  {
    if entries == [] then []
    else
      var head := if entries[0].Rec? && entries[0].lead.id == id then Rec(Spread(entries[0].lead, u)) else entries[0];
      var rest := Patched(entries[1..], id, u);
      assert forall i :: 1 <= i < |entries| ==> ([head] + rest)[i] == rest[i - 1];
      [head] + rest
  }

  /** No record carries the id: the patch leaves the list as it was. */
  lemma PatchedAbsent(entries: seq<Entry>, id: string, u: LeadPatch)
    requires forall e :: e in entries && e.Rec? ==> e.lead.id != id
    ensures Patched(entries, id, u) == entries
  {
    var r := Patched(entries, id, u);
    forall i | 0 <= i < |r| ensures r[i] == entries[i] {
      assert entries[i] in entries;
    }
  }

  /** `filter(x => x !== id)` on the tombstone list. */
  function Erase(ids: seq<string>, id: string): (r: seq<string>)
    ensures id !in r
    ensures forall x :: x != id ==> multiset(r)[x] == multiset(ids)[x]
  {
    if ids == [] then []
    else
      assert ids == [ids[0]] + ids[1..];
      (if ids[0] != id then [ids[0]] else []) + Erase(ids[1..], id)
  }

  /** The tombstone list after `deleteLead(id)`: the id is appended unless it is already there. */
  function WithTombstone(ids: seq<string>, id: string): (r: seq<string>)
    ensures multiset(r)[id] == if multiset(ids)[id] == 0 then 1 else multiset(ids)[id]
    ensures forall x :: x != id ==> multiset(r)[x] == multiset(ids)[x]
  {
    if id in ids then ids else ids + [id]
  }

  /** A tombstone list in which every id occurs at most once. */
  ghost predicate NoDuplicates(ids: seq<string>)
  {
    forall x :: multiset(ids)[x] <= 1
  }

  /**
   * Deleting and saving keep the tombstone list free of duplicates; after a
   * delete the id is in it exactly once.
   */
  lemma TombstonesStayDistinct(ids: seq<string>, id: string)
    requires NoDuplicates(ids)
    ensures NoDuplicates(WithTombstone(ids, id))
    ensures multiset(WithTombstone(ids, id))[id] == 1
    ensures NoDuplicates(Erase(ids, id))
  {
    assert forall x :: multiset(Erase(ids, id))[x] <= multiset(ids)[x] by {
      forall x ensures multiset(Erase(ids, id))[x] <= multiset(ids)[x] {
        if x == id { assert x !in Erase(ids, id); }
      }
    }
  }

  /** A second delete of the same id leaves the tombstone list unchanged. */
  lemma WithTombstoneIdempotent(ids: seq<string>, id: string)
    ensures WithTombstone(WithTombstone(ids, id), id) == WithTombstone(ids, id)
  {
    assert id in WithTombstone(ids, id) by {
      assert multiset(WithTombstone(ids, id))[id] >= 1;
    }
  }

  /** One step of the first `forEach` of `mergeLeads`. */
  lemma KeyedStep(m: seq<Lead>, s: seq<Lead>, i: nat)
    requires i < |s|
    ensures Absorb(m, Keyed(s[i..]))
      == Absorb(if s[i].id != "" then MapSet(m, s[i]) else m, Keyed(s[i + 1..]))
  {
    assert s[i..][0] == s[i] && s[i..][1..] == s[i + 1..];
    if s[i].id != "" {
      assert Keyed(s[i..]) == [s[i]] + Keyed(s[i + 1..]);
      assert ([s[i]] + Keyed(s[i + 1..]))[1..] == Keyed(s[i + 1..]);
    } else {
      assert Keyed(s[i..]) == Keyed(s[i + 1..]);
    }
  }

  /** One step of the second `forEach` of `mergeLeads`. */
  lemma LiveStep(m: seq<Lead>, s: seq<Lead>, deleted: seq<string>, j: nat)
    requires j < |s|
    ensures Absorb(m, Live(s[j..], deleted))
      == Absorb(if s[j].id != "" && s[j].id !in deleted then MapSet(m, s[j]) else m, Live(s[j + 1..], deleted))
  {
    assert s[j..][0] == s[j] && s[j..][1..] == s[j + 1..];
    if s[j].id != "" && s[j].id !in deleted {
      assert Live(s[j..], deleted) == [s[j]] + Live(s[j + 1..], deleted);
      assert ([s[j]] + Live(s[j + 1..], deleted))[1..] == Live(s[j + 1..], deleted);
    } else {
      assert Live(s[j..], deleted) == Live(s[j + 1..], deleted);
    }
  }

  // ---------------------------------------------------------------------
  // Categories

  const DefaultCategories: seq<Category> := [
    Category("1", "VIP", "#f59e0b"),
    Category("2", "Recorrente", "#10b981"),
    Category("3", "Projeto", "#8b5cf6")
  ]

  /** The list `getCategories` returns for the stored list `stored`. */
  function CategoriesView(stored: seq<Category>): (r: seq<Category>)
    ensures |r| > 0
    ensures stored != [] ==> r == stored
  {
    if stored == [] then DefaultCategories else stored
  }

  /** `filter(c => c.id !== id)` on the categories. */
  function DropCategory(cats: seq<Category>, id: string): (r: seq<Category>)
    ensures forall c :: c in r <==> c in cats && c.id != id
  {
    if cats == [] then []
    else (if cats[0].id != id then [cats[0]] else []) + DropCategory(cats[1..], id)
  }

  /** On a store without categories the three defaults appear, with ids '1', '2' and '3'. */
  lemma DefaultsOnEmptyStore()
    ensures |CategoriesView([])| == 3
    ensures CategoriesView([])[0].id == "1" && CategoriesView([])[1].id == "2"
      && CategoriesView([])[2].id == "3"
  {
  }

  // ---------------------------------------------------------------------
  // The engine

  class StorageEngine {
    var leadsData: Stored<Entry>         // nexus_leads_data
    var deletedData: Stored<string>      // nexus_deleted_leads_ids
    var categoriesData: Stored<Category> // nexus_categories_data
    /** False when the store throws on every write (quota exceeded); the write is then dropped. */
    var writable: bool

    constructor (leads: Stored<Entry>, deleted: Stored<string>, categories: Stored<Category>, canWrite: bool)
      ensures leadsData == leads && deletedData == deleted
      ensures categoriesData == categories && writable == canWrite
    {
      leadsData, deletedData, categoriesData, writable := leads, deleted, categories, canWrite;
    }

    function StoredLeads(): seq<Entry>
      reads this
    {
      GetLocal(leadsData)
    }

    function Tombstones(): seq<string>
      reads this
    {
      GetLocal(deletedData)
    }

    function StoredCategories(): seq<Category>
      reads this
    {
      GetLocal(categoriesData)
    }

    /** `getLeads`: the stored records with a non-empty, non-tombstoned id. */
    function GetLeads(): (r: seq<Lead>)
      reads this
      ensures forall l :: l in r ==> l.id != "" && l.id !in Tombstones()
      ensures forall l :: Rec(l) in StoredLeads() && l.id != "" && l.id !in Tombstones() ==> l in r
      ensures !leadsData.Parsed? ==> r == []
    {
      Visible(StoredLeads(), Tombstones())
    }

    /**
     * `mergeLeads`: the visible local leads, then the remote rows, are set
     * into a map keyed by id (remote rows with a tombstoned id skipped) and
     * the map's values are returned newest first.
     */
    method MergeLeads(remote: seq<Lead>) returns (merged: seq<Lead>)
      ensures merged == MergedLeads(GetLeads(), remote, Tombstones())
      ensures UniqueIds(merged) && NewestFirst(merged)
      ensures forall l :: l in merged ==> l.id != "" && l.id !in Tombstones()
      ensures IdSet(merged) == IdSet(GetLeads()) + IdSet(Live(remote, Tombstones()))
    {
      var local := GetLeads();
      var deleted := Tombstones();
      var leadsMap: seq<Lead> := [];
      var i := 0;
      while i < |local|
        invariant 0 <= i <= |local|
        invariant Absorb(leadsMap, Keyed(local[i..])) == Absorb([], Keyed(local))
      {
        KeyedStep(leadsMap, local, i);
        if local[i].id != "" {
          leadsMap := MapSet(leadsMap, local[i]);
        }
        i := i + 1;
      }
      assert local[i..] == [];
      ghost var afterLocal := leadsMap;
      var j := 0;
      while j < |remote|
        invariant 0 <= j <= |remote|
        invariant Absorb(leadsMap, Live(remote[j..], deleted)) == Absorb(afterLocal, Live(remote, deleted))
      {
        LiveStep(leadsMap, remote, deleted, j);
        if remote[j].id != "" && remote[j].id !in deleted {
          leadsMap := MapSet(leadsMap, remote[j]);
        }
        j := j + 1;
      }
      assert remote[j..] == [];
      merged := SortNewestFirst(leadsMap);
      MergedLeadsFacts(local, remote, deleted);
      KeyedAllKeyed(local);
    }

    /** `syncLeads`: merges, writes the merge result as the new lead list and returns it. */
    method SyncLeads(remote: seq<Lead>) returns (merged: seq<Lead>)
      modifies this`leadsData
      ensures merged == MergedLeads(old(GetLeads()), remote, Tombstones())
      ensures leadsData == if writable then Parsed(Entries(merged)) else old(leadsData)
      ensures writable ==> GetLeads() == merged
    {
      merged := MergeLeads(remote);
      if writable {
        leadsData := Parsed(Entries(merged));
        VisibleEntries(merged, Tombstones());
      }
    }

    /** `saveLead`: upserts the lead at the front and lifts its tombstone. */
    method SaveLead(lead: Lead) returns (saved: Lead)
      modifies this`leadsData, this`deletedData
      ensures saved == lead
      ensures leadsData == if writable then Parsed(Upserted(old(StoredLeads()), lead)) else old(leadsData)
      ensures deletedData == if writable then Parsed(Erase(old(Tombstones()), lead.id)) else old(deletedData)
      ensures writable ==> lead.id !in Tombstones()
    {
      var updated := Upserted(StoredLeads(), lead);
      if writable { leadsData := Parsed(updated); }
      var deletedIds := Erase(Tombstones(), lead.id);
      if writable { deletedData := Parsed(deletedIds); }
      saved := lead;
    }

    /** `updateLead`: spreads `u` over every record with identifier `id`. */
    method UpdateLead(id: string, u: LeadPatch)
      modifies this`leadsData
      ensures leadsData == if writable then Parsed(Patched(old(StoredLeads()), id, u)) else old(leadsData)
      ensures writable ==> |StoredLeads()| == |old(StoredLeads())|
    {
      var updated := Patched(StoredLeads(), id, u);
      if writable { leadsData := Parsed(updated); }
    }

    /** `deleteLead`: drops the records with that id and tombstones it once. */
    method DeleteLead(id: string)
      modifies this`leadsData, this`deletedData
      ensures leadsData == if writable then Parsed(Without(old(StoredLeads()), id)) else old(leadsData)
      ensures deletedData ==
        if writable && id !in old(Tombstones()) then Parsed(old(Tombstones()) + [id]) else old(deletedData)
      ensures writable ==> Tombstones() == WithTombstone(old(Tombstones()), id)
      ensures writable ==> forall l :: l in GetLeads() ==> l.id != id
    {
      var leads := Without(StoredLeads(), id);
      if writable { leadsData := Parsed(leads); }
      var deletedIds := Tombstones();
      if id !in deletedIds {
        if writable { deletedData := Parsed(deletedIds + [id]); }
      }
    }

    /** `getCategories`: an empty category list is replaced by the defaults, which are written back. */
    method GetCategories() returns (cats: seq<Category>)
      modifies this`categoriesData
      ensures cats == CategoriesView(old(StoredCategories()))
      ensures categoriesData ==
        if writable && old(StoredCategories()) == [] then Parsed(DefaultCategories) else old(categoriesData)
    {
      cats := StoredCategories();
      if |cats| == 0 {
        if writable { categoriesData := Parsed(DefaultCategories); }
        cats := DefaultCategories;
      }
    }

    /** `saveCategory`: appends the category to the (possibly seeded) list, without de-duplicating. */
    method SaveCategory(cat: Category) returns (saved: Category)
      modifies this`categoriesData
      ensures saved == cat
      ensures categoriesData ==
        if writable then Parsed(CategoriesView(old(StoredCategories())) + [cat]) else old(categoriesData)
    {
      var cats := GetCategories();
      var updated := cats + [cat];
      if writable { categoriesData := Parsed(updated); }
      saved := cat;
    }

    /** `deleteCategory`: removes every category with that id from the (possibly seeded) list. */
    method DeleteCategory(id: string)
      modifies this`categoriesData
      ensures categoriesData ==
        if writable then Parsed(DropCategory(CategoriesView(old(StoredCategories())), id)) else old(categoriesData)
      ensures writable ==> forall c :: c in StoredCategories() ==> c.id != id
    {
      var cats := GetCategories();
      var kept := DropCategory(cats, id);
      if writable { categoriesData := Parsed(kept); }
    }
  }

  /** Two `syncLeads` calls with the same remote rows and nothing in between return the same list. */
  method SyncLeadsTwice(engine: StorageEngine, remote: seq<Lead>) returns (first: seq<Lead>, second: seq<Lead>)
    modifies engine`leadsData
    ensures first == second
  {
    first := engine.SyncLeads(remote);
    ghost var local := old(engine.GetLeads());
    second := engine.SyncLeads(remote);
    if engine.writable {
      MergeIdempotent(local, remote, engine.Tombstones());
    }
  }

  /**
   * Save, delete and save again: the lead is live with its new fields and
   * its id is no longer tombstoned.
   */
  method RecreateAfterDelete(engine: StorageEngine, first: Lead, again: Lead)
    requires engine.writable
    requires first.id == again.id && again.id != ""
    modifies engine`leadsData, engine`deletedData
    ensures again.id !in engine.Tombstones()
    ensures engine.GetLeads() != [] && engine.GetLeads()[0] == again
  {
    var _ := engine.SaveLead(first);
    engine.DeleteLead(first.id);
    var _ := engine.SaveLead(again);
    var e := engine.StoredLeads();
    assert e[0] == Rec(again);
    assert e == [e[0]] + e[1..];
  }
}
