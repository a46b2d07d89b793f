// The leads page: the search and category filter over the list, the record
// the create/edit form submits, and the store and list updates after a
// submit or a delete.

module Leads {
  import opened Types
  import opened Text
  import opened Storage
  import opened LeadLists

  /** `filteredLeads`: a named lead matching the search and the category filter. */
  function MatchesFilter(l: Lead, search: string, category: string): (r: bool)
    ensures r ==> l.name != ""
    ensures r ==> category == "" || l.categoryId == Some(category)
  {
    var matchesSearch := l.name != "" &&
      (Contains(Lower(l.name), Lower(search))
       || (l.phone.Some? && l.phone.value != "" && Contains(l.phone.value, search)));
    var matchesCategory := category == "" || l.categoryId == Some(category);
    matchesSearch && matchesCategory
  }

  function FilterLeads(leads: seq<Lead>, search: string, category: string): (r: seq<Lead>)
    ensures forall l :: l in r <==> l in leads && MatchesFilter(l, search, category)
    ensures |r| <= |leads|
  {
    if leads == [] then []
    else
      var head := if MatchesFilter(leads[0], search, category) then [leads[0]] else [];
      head + FilterLeads(leads[1..], search, category)
  }

  /** An empty search with no category filter keeps exactly the leads with a name. */
  lemma EmptyFilterKeepsNamed(leads: seq<Lead>)
    ensures forall l :: l in FilterLeads(leads, "", "") <==> l in leads && l.name != ""
  {
    forall l | l in leads && l.name != "" ensures MatchesFilter(l, "", "") {
      ContainsEmpty(Lower(l.name));
    }
  }

  /** The search on the name ignores case: a term and its lower-case form select the same leads. */
  lemma SearchIgnoresNameCase(l: Lead, search: string, category: string)
    requires l.phone.None?
    ensures MatchesFilter(l, search, category) == MatchesFilter(l, Lower(search), category)
  {
    LowerIdempotent(search);
  }

  /** A lead whose name is the search term passes the search, whatever its phone. */
  lemma NameMatchesItself(l: Lead)
    requires l.name != ""
    ensures MatchesFilter(l, l.name, "")
  {
    ContainsSelf(Lower(l.name));
  }

  /** The fields of the create/edit form, already parsed. */
  datatype LeadForm = LeadForm(
    id: string,
    name: string,
    email: string,
    phone: string,
    value: Option<int>,            // `parseFloat(value)`, `None` when it is not a number
    categoryId: string,
    expirationDate: Option<int>)

  /** `categories.find(c => c.id === id)`. */
  function FindCategory(categories: seq<Category>, id: string): (r: Option<Category>)
    ensures r.None? <==> forall c :: c in categories ==> c.id != id
    ensures r.Some? ==> r.value in categories && r.value.id == id
    ensures r.Some? ==>
      exists k :: 0 <= k < |categories| && categories[k] == r.value && forall j :: 0 <= j < k ==> categories[j].id != id
  {
    if categories == [] then None
    else if categories[0].id == id then Some(categories[0])
    else FindCategory(categories[1..], id)
  }

  /**
   * `leadPayload`: the record a submit saves. A new lead gets the fresh id,
   * status `new` and the current time; an edit keeps the form's id and takes
   * status and creation time from the selected lead when there is one.
   */
  function LeadPayload(isEdit: bool, form: LeadForm, selected: Option<Lead>, userId: string,
                       freshId: string, now: int, categories: seq<Category>): (r: Lead)
    ensures r.id == (if isEdit then form.id else freshId)
    ensures r.status == (if isEdit && selected.Some? then selected.value.status else New)
    ensures r.createdAt == (if isEdit && selected.Some? then selected.value.createdAt else now)
    ensures r.estimatedValue == (if form.value.Some? then form.value.value else 0)
    ensures r.email == Some(form.email) && r.phone == Some(form.phone)
    ensures r.categoryId.None? <==> form.categoryId == ""
    ensures r.categoryId.Some? ==> r.categoryId.value == form.categoryId
    ensures r.categories == FindCategory(categories, form.categoryId)
    ensures r.sellerId == userId && r.name == form.name && r.expirationDate == form.expirationDate
  {
    var useSelected := isEdit && selected.Some?;
    Lead(
      if isEdit then form.id else freshId,
      form.name,
      Some(form.email),
      Some(form.phone),
      None,
      if useSelected then selected.value.status else New,
      Or(form.value, 0),
      userId,
      None,
      if form.categoryId == "" then None else Some(form.categoryId),
      form.expirationDate,
      FindCategory(categories, form.categoryId),
      if useSelected then selected.value.createdAt else now)
  }

  /** A new lead always starts in the first pipeline stage. */
  lemma CreatedLeadIsNew(form: LeadForm, selected: Option<Lead>, userId: string,
                         freshId: string, now: int, categories: seq<Category>)
    ensures LeadPayload(false, form, selected, userId, freshId, now, categories).status == New
    ensures LeadPayload(false, form, selected, userId, freshId, now, categories).id == freshId
  {
  }

  /**
   * Editing the selected lead under its own id keeps its identity, stage and
   * creation time, so the submit replaces that lead rather than adding one.
   */
  lemma EditKeepsIdentity(form: LeadForm, sel: Lead, userId: string, freshId: string, now: int,
                          categories: seq<Category>, leads: seq<Lead>)
    requires form.id == sel.id
    ensures var p := LeadPayload(true, form, Some(sel), userId, freshId, now, categories);
      && p.id == sel.id && p.status == sel.status && p.createdAt == sel.createdAt
      && forall l :: l in PutFirst(leads, p) ==> l == p || (l in leads && l.id != sel.id)
  {
    var p := LeadPayload(true, form, Some(sel), userId, freshId, now, categories);
    var r := PutFirst(leads, p);
    forall l | l in r ensures l == p || (l in leads && l.id != sel.id) {
      var k :| 0 <= k < |r| && r[k] == l;
      if k > 0 { assert l in r[1..]; }
    }
  }

  /** The page's state: its lead list, the selected lead and the store. */
  class LeadsPage {
    var leads: seq<Lead>
    var selected: Option<Lead>
    const store: StorageEngine

    constructor (store: StorageEngine)
      ensures this.store == store && leads == [] && selected == None
    {
      this.store := store;
      leads := [];
      selected := None;
    }

    /**
     * `handleSubmit`: without a signed-in user, or when the backend write
     * fails, nothing changes. Otherwise the payload is saved to the store,
     * put first in the list in place of any lead with its id, and selected.
     */
    method HandleSubmit(user: Option<string>, isEdit: bool, form: LeadForm, freshId: string, now: int,
                        categories: seq<Category>, remoteFailed: bool)
        returns (saved: Option<Lead>)
      modifies this`leads, this`selected, store`leadsData, store`deletedData
      ensures user.None? || remoteFailed ==>
        saved.None? && leads == old(leads) && selected == old(selected) && unchanged(store)
      ensures user.Some? && !remoteFailed ==>
        && saved == Some(LeadPayload(isEdit, form, old(selected), user.value, freshId, now, categories))
        && leads == PutFirst(old(leads), saved.value)
        && selected == saved
        && store.leadsData == (if store.writable then Parsed(Upserted(old(store.StoredLeads()), saved.value))
                               else old(store.leadsData))
        && store.deletedData == (if store.writable then Parsed(Erase(old(store.Tombstones()), saved.value.id))
                                 else old(store.deletedData))
        && (store.writable ==> saved.value.id !in store.Tombstones())
    {
      if user.None? || remoteFailed {
        return None;
      }
      var payload := LeadPayload(isEdit, form, selected, user.value, freshId, now, categories);
      var _ := store.SaveLead(payload);
      leads := PutFirst(leads, payload);
      selected := Some(payload);
      saved := Some(payload);
    }

    /**
     * `handleDeleteLead`: on a confirmed delete the backend accepted, the
     * lead is tombstoned in the store and dropped from the list, and the
     * selection is cleared when it was that lead.
     */
    method HandleDeleteLead(id: string, confirmed: bool, remoteFailed: bool)
      modifies this`leads, this`selected, store`leadsData, store`deletedData
      ensures !confirmed || remoteFailed ==>
        leads == old(leads) && selected == old(selected) && unchanged(store)
      ensures confirmed && !remoteFailed ==>
        && leads == DropId(old(leads), id)
        && selected == (if old(selected).Some? && old(selected).value.id == id then None else old(selected))
        && store.leadsData == (if store.writable then Parsed(Without(old(store.StoredLeads()), id))
                               else old(store.leadsData))
      ensures confirmed && !remoteFailed ==>
        store.deletedData == (if store.writable && id !in old(store.Tombstones())
                              then Parsed(old(store.Tombstones()) + [id]) else old(store.deletedData))
      ensures confirmed && !remoteFailed && store.writable ==>
        store.Tombstones() == WithTombstone(old(store.Tombstones()), id)
      ensures confirmed && !remoteFailed ==> forall l :: l in leads ==> l.id != id
      ensures confirmed && !remoteFailed ==> selected.None? || selected.value.id != id
    {
      if !confirmed || remoteFailed {
        return;
      }
      store.DeleteLead(id);
      leads := DropId(leads, id);
      if selected.Some? && selected.value.id == id {
        selected := None;
      }
    }
  }

  /**
   * When the page shows exactly the store's records, a successful submit
   * keeps it so, with the saved lead first and its id out of the tombstones.
   */
  method SubmitKeepsListInStep(page: LeadsPage, userId: string, isEdit: bool, form: LeadForm,
                               freshId: string, now: int, categories: seq<Category>)
    requires page.store.writable && page.store.leadsData == Parsed(Entries(page.leads))
    modifies page`leads, page`selected, page.store`leadsData, page.store`deletedData
    ensures page.store.leadsData == Parsed(Entries(page.leads))
    ensures page.leads != [] && page.selected == Some(page.leads[0])
  {
    var saved := page.HandleSubmit(Some(userId), isEdit, form, freshId, now, categories, false);
    PutFirstMirrorsStore(old(page.leads), saved.value);
  }
}
