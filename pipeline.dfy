// The sales pipeline board: five stage columns, each holding the leads of
// that status, a per-card menu that moves a lead to another stage, and a
// delete that goes to the backend first and then to the local store.

module Pipeline {
  import opened Types
  import opened LeadMerge
  import opened Storage
  import opened LeadLists

  datatype Stage = Stage(id: LeadStatus, name: string, color: string)

  /** The board's columns, in display order. There is no column for expired leads. */
  const Stages: seq<Stage> := [
    Stage(New, "Prospecção", "#6366f1"),
    Stage(Contacted, "Atendimento", "#f59e0b"),
    Stage(Proposal, "Negociação", "#8b5cf6"),
    Stage(Won, "Contratado", "#10b981"),
    Stage(Lost, "Perdido", "#f43f5e")
  ]

  /** The cards of one column: `leads.filter(l => l && l.status === stage.id)`. */
  function StageLeads(leads: seq<Lead>, stage: Stage): (r: seq<Lead>)
    ensures forall l :: l in r <==> l in leads && l.status == stage.id
    ensures |r| <= |leads|
  {
    if leads == [] then []
    else (if leads[0].status == stage.id then [leads[0]] else []) + StageLeads(leads[1..], stage)
  }

  /** The move menu of a card: `STAGES.filter(s => s.id !== status)`. */
  function MoveTargets(status: LeadStatus): (r: seq<Stage>)
    ensures forall s :: s in r <==> s in Stages && s.id != status
  {
    Others(Stages, status)
  }

  function Others(stages: seq<Stage>, status: LeadStatus): (r: seq<Stage>)
    ensures forall s :: s in r <==> s in stages && s.id != status
    ensures |r| <= |stages|
  {
    if stages == [] then []
    else (if stages[0].id != status then [stages[0]] else []) + Others(stages[1..], status)
  }

  /** No two columns share a status. */
  lemma StageIdsDistinct()
    ensures forall i, j :: 0 <= i < j < |Stages| ==> Stages[i].id != Stages[j].id
  {
  }

  /**
   * A lead sits in exactly the column of its status when there is one, and
   * in no column when its status is `expired`.
   */
  lemma ColumnOfLead(leads: seq<Lead>, l: Lead)
    requires l in leads
    ensures forall i :: 0 <= i < |Stages| ==> (l in StageLeads(leads, Stages[i]) <==> Stages[i].id == l.status)
    ensures l.status == Expired <==> forall i :: 0 <= i < |Stages| ==> l !in StageLeads(leads, Stages[i])
  {
    if l.status != Expired {
      var k := match l.status
        case New => 0 case Contacted => 1 case Proposal => 2 case Won => 3 case Lost => 4;
      assert l in StageLeads(leads, Stages[k]);
    }
  }

  /** A lead is shown in at most one column. */
  lemma AtMostOneColumn(leads: seq<Lead>, l: Lead, i: int, j: int)
    requires 0 <= i < |Stages| && 0 <= j < |Stages|
    requires l in StageLeads(leads, Stages[i]) && l in StageLeads(leads, Stages[j])
    ensures i == j
  {
    StageIdsDistinct();
  }

  /** A filter that matches no stage keeps them all. */
  lemma {:induction false} OthersNone(stages: seq<Stage>, status: LeadStatus)
    requires forall k :: 0 <= k < |stages| ==> stages[k].id != status
    ensures Others(stages, status) == stages
  {
    if stages != [] {
      OthersNone(stages[1..], status);
    }
  }

  /** Among stages with distinct ids, a filter that matches one stage drops exactly that one. */
  lemma {:induction false} OthersOne(stages: seq<Stage>, status: LeadStatus, k: int)
    requires forall i, j :: 0 <= i < j < |stages| ==> stages[i].id != stages[j].id
    requires 0 <= k < |stages| && stages[k].id == status
    ensures |Others(stages, status)| == |stages| - 1
  {
    if k == 0 {
      OthersNone(stages[1..], status);
    } else {
      OthersOne(stages[1..], status, k - 1);
    }
  }

  /** The move menu lists every column except the current one: four, or all five for an expired lead. */
  lemma MoveTargetsFacts(status: LeadStatus)
    ensures status != Expired ==> |MoveTargets(status)| == 4
    ensures status == Expired ==> MoveTargets(status) == Stages
  {
    StageIdsDistinct();
    if status == Expired {
      OthersNone(Stages, status);
    } else {
      var k := match status
        case New => 0 case Contacted => 1 case Proposal => 2 case Won => 3 case Lost => 4;
      OthersOne(Stages, status, k);
    }
  }

  /** The board's state: the lead list it shows and the store it writes through. */
  class PipelinePage {
    var leads: seq<Lead>
    const store: StorageEngine

    constructor (store: StorageEngine)
      ensures this.store == store && leads == []
    {
      this.store := store;
      leads := [];
    }

    /**
     * `fetchLeads`: the board first shows the stored leads, then, when the
     * backend answered with rows, the merged list `syncLeads` returns.
     */
    method FetchLeads(remote: Option<seq<Lead>>)
      modifies this`leads, store`leadsData
      ensures remote.None? ==> leads == store.GetLeads() && unchanged(store)
      ensures remote.Some? ==> leads == MergedLeads(old(store.GetLeads()), remote.value, store.Tombstones())
      ensures remote.Some? ==>
        store.leadsData == (if store.writable then Parsed(Entries(leads)) else old(store.leadsData))
    {
      leads := store.GetLeads();
      if remote.Some? {
        leads := store.SyncLeads(remote.value);
      }
    }

    /**
     * `updateLeadStatus`: the store record and the board's card get the new
     * status before the backend is told; the backend's answer is not looked at.
     */
    method UpdateLeadStatus(leadId: string, newStatus: LeadStatus)
      modifies this`leads, store`leadsData
      ensures leads == SetStatus(old(leads), leadId, newStatus)
      ensures store.leadsData ==
        if store.writable then Parsed(Patched(old(store.StoredLeads()), leadId, StatusPatch(newStatus)))
        else old(store.leadsData)
    {
      store.UpdateLead(leadId, StatusPatch(newStatus));
      leads := SetStatus(leads, leadId, newStatus);
    }

    /**
     * `handleDelete`: nothing happens unless the user confirms and the
     * backend delete succeeds; then the store tombstones the lead and the
     * board drops its card.
     */
    method HandleDelete(id: string, confirmed: bool, remoteFailed: bool)
      modifies this`leads, store`leadsData, store`deletedData
      ensures !confirmed || remoteFailed ==> leads == old(leads) && unchanged(store)
      ensures confirmed && !remoteFailed ==> leads == DropId(old(leads), id)
      ensures confirmed && !remoteFailed ==>
        store.leadsData == (if store.writable then Parsed(Without(old(store.StoredLeads()), id)) else old(store.leadsData))
      ensures confirmed && !remoteFailed ==>
        store.deletedData == (if store.writable && id !in old(store.Tombstones())
                              then Parsed(old(store.Tombstones()) + [id]) else old(store.deletedData))
      ensures confirmed && !remoteFailed && store.writable ==>
        store.Tombstones() == WithTombstone(old(store.Tombstones()), id)
      ensures forall l :: l in leads ==> l in old(leads)
    {
      if !confirmed || remoteFailed {
        return;
      }
      store.DeleteLead(id);
      leads := DropId(leads, id);
    }
  }

  /**
   * When the board shows exactly the store's records, a status move keeps
   * it so: the board's list and the store's list agree afterwards.
   */
  method MoveKeepsBoardInStep(page: PipelinePage, leadId: string, newStatus: LeadStatus)
    requires page.store.writable && page.store.leadsData == Parsed(Entries(page.leads))
    modifies page`leads, page.store`leadsData
    ensures page.store.leadsData == Parsed(Entries(page.leads))
  {
    page.UpdateLeadStatus(leadId, newStatus);
    SetStatusMirrorsStore(old(page.leads), leadId, newStatus);
  }

  /** The same holds for a confirmed, successful delete. */
  method DeleteKeepsBoardInStep(page: PipelinePage, id: string)
    requires page.store.writable && page.store.leadsData == Parsed(Entries(page.leads))
    modifies page`leads, page.store`leadsData, page.store`deletedData
    ensures page.store.leadsData == Parsed(Entries(page.leads))
    ensures forall l :: l in page.leads ==> l.id != id
  {
    page.HandleDelete(id, true, false);
    DropIdMirrorsStore(old(page.leads), id);
  }
}
