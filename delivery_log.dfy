/**
 * The delivery desk: this society's delivery arrivals, newest first, split
 * into active packages and a historical log, with a RECEIVED action that
 * marks a package as handed over.
 */
module DeliveryLog {
  import opened Types
  import opened Lists
  import opened Store

  datatype Tab = PendingTab | DeliveredTab

  /** Waiting at the gate: not yet handed over. */
  predicate IsPending(e: VisitorEntry) {
    e.status == PENDING || e.status == APPROVED
  }

  /** Handed over. */
  predicate IsCompleted(e: VisitorEntry) {
    e.status == CHECKED_IN || e.status == CHECKED_OUT
  }

  predicate IsRejected(e: VisitorEntry) {
    e.status == REJECTED
  }

  /** The query `fetchDeliveries` issues: this society's Delivery entries, newest first. */
  function DeliveriesOf(t: Tables, sid: SocietyId): (r: seq<VisitorEntry>)
    ensures forall e :: e in r <==> e in t.visitors && e.society_id == sid && IsDelivery(e)
    ensures WellFormed(t) ==> Descending(r, VisitorTime)
  {
    var mine := Scoped(t.visitors, VisitorSociety, sid);
    var r := Reverse(Filter(mine, IsDelivery));
    if WellFormed(t) then
      FilterAscending(t.visitors, InSociety(VisitorSociety, sid), VisitorTime);
      FilterAscending(mine, IsDelivery, VisitorTime);
      ReverseAscending(Filter(mine, IsDelivery), VisitorTime);
      r
    else
      r
  }

  /** The Active Packages tab. */
  function Pending(list: seq<VisitorEntry>): (r: seq<VisitorEntry>)
    ensures forall e :: e in r <==> e in list && (e.status == PENDING || e.status == APPROVED)
  {
    Filter(list, IsPending)
  }

  /** The Historical Log tab. */
  function Completed(list: seq<VisitorEntry>): (r: seq<VisitorEntry>)
    ensures forall e :: e in r <==> e in list && (e.status == CHECKED_IN || e.status == CHECKED_OUT)
  {
    Filter(list, IsCompleted)
  }

  /** No delivery is on both tabs, and a rejected one is on neither. */
  lemma TabsDisjoint(list: seq<VisitorEntry>, e: VisitorEntry)
    ensures !(e in Pending(list) && e in Completed(list))
    ensures e.status == REJECTED ==> e !in Pending(list) && e !in Completed(list)
  {
  }

  /** Every loaded delivery is counted on exactly one tab, unless it was rejected. */
  lemma {:induction false} TabsPartition(list: seq<VisitorEntry>)
    ensures |Pending(list)| + |Completed(list)| + |Filter(list, IsRejected)| == |list|
  {
    if list != [] {
      TabsPartition(list[1..]);
    }
  }

  /** RECEIVED is offered on every card whose status is not CHECKED_IN. */
  predicate OffersReceived(e: VisitorEntry)
    ensures OffersReceived(e) <==> e.status in {PENDING, APPROVED, REJECTED, CHECKED_OUT}
  {
    e.status != CHECKED_IN
  }

  /** Every active package offers RECEIVED; in the log only CHECKED_OUT ones do. */
  lemma ReceivedOffers(list: seq<VisitorEntry>, e: VisitorEntry)
    ensures e in Pending(list) ==> OffersReceived(e)
    ensures e in Completed(list) ==> (OffersReceived(e) <==> e.status == CHECKED_OUT)
  {
  }

  /** The table after `markDelivered(id)`. */
  function MarkedDelivered(t: Tables, id: Id): (r: Tables)
    ensures |r.visitors| == |t.visitors|
    ensures forall i :: 0 <= i < |t.visitors| ==>
              r.visitors[i] == (if t.visitors[i].id == id then t.visitors[i].(status := CHECKED_IN) else t.visitors[i])
    ensures r == t.(visitors := r.visitors)
  {
    t.(visitors := SetVisitorStatus(t.visitors, id, CHECKED_IN))
  }

  /** After RECEIVED, an active package leaves the active tab and appears,
      checked in, in the log. */
  lemma MarkMovesToLog(t: Tables, sid: SocietyId, e: VisitorEntry)
    requires e in Pending(DeliveriesOf(t, sid))
    ensures e !in Pending(DeliveriesOf(MarkedDelivered(t, e.id), sid))
    ensures e.(status := CHECKED_IN) in Completed(DeliveriesOf(MarkedDelivered(t, e.id), sid))
  {
    var u := MarkedDelivered(t, e.id);
    assert e in DeliveriesOf(t, sid);
    assert e in t.visitors && IsPending(e);
    var i :| 0 <= i < |t.visitors| && t.visitors[i] == e;
    var done := e.(status := CHECKED_IN);
    assert u.visitors[i] == done;
    assert done in u.visitors;
    assert done in DeliveriesOf(u, sid);
    NotInUpdated(t, e);
  }

  /** No row keeps a pending status once its id is marked. */
  lemma NotInUpdated(t: Tables, e: VisitorEntry)
    requires IsPending(e)
    ensures e !in MarkedDelivered(t, e.id).visitors
  {
    var u := MarkedDelivered(t, e.id);
    forall k | 0 <= k < |u.visitors|
      ensures u.visitors[k] != e
    {
    }
  }

  /** The delivery desk screen. */
  class Desk {
    const db: Db
    const societyId: SocietyId
    var deliveries: seq<VisitorEntry>
    var activeTab: Tab
    var loading: bool

    ghost predicate Valid()
      reads this, db
    {
      db.Valid()
    }

    /** The cards on the selected tab. */
    function Shown(): (r: seq<VisitorEntry>)
      reads this
      ensures forall e :: e in r ==> e in deliveries
    {
      if activeTab == PendingTab then Pending(deliveries) else Completed(deliveries)
    }

    constructor (db: Db, societyId: SocietyId)
      requires db.Valid()
      ensures Valid()
      ensures this.db == db && this.societyId == societyId
      ensures activeTab == PendingTab
      ensures deliveries == (if societyId != "" then DeliveriesOf(db.t, societyId) else [])
      ensures loading == (societyId == "")
    {
      this.db := db;
      this.societyId := societyId;
      activeTab := PendingTab;
      deliveries := [];
      loading := true;
      if societyId != "" {
        deliveries := DeliveriesOf(db.t, societyId);
        loading := false;
      }
    }

    /** `fetchDeliveries`. */
    method FetchDeliveries()
      requires Valid()
      modifies this
      ensures Valid()
      ensures deliveries == DeliveriesOf(db.t, societyId) && !loading
      ensures activeTab == old(activeTab)
    {
      deliveries := DeliveriesOf(db.t, societyId);
      loading := false;
    }

    method SetActiveTab(tab: Tab)
      requires Valid()
      modifies this
      ensures Valid()
      ensures activeTab == tab && deliveries == old(deliveries) && loading == old(loading)
    {
      activeTab := tab;
    }

    /** RECEIVED on a shown card: that entry becomes CHECKED_IN whatever it
        was, no other row changes, and the list is reloaded. */
    method MarkDelivered(item: VisitorEntry)
      requires Valid()
      requires item in Shown() && OffersReceived(item)
      modifies this, db
      ensures Valid()
      ensures db.t == MarkedDelivered(old(db.t), item.id)
      ensures deliveries == DeliveriesOf(db.t, societyId) && !loading
      ensures activeTab == old(activeTab)
    {
      db.UpdateVisitorStatus(item.id, CHECKED_IN);
      FetchDeliveries();
    }
  }
}
