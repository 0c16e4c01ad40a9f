/**
 * Building activity by weekday: for each day of the week, how many visitors
 * and how many deliveries this society has recorded. The calendar is a
 * parameter: `dayOf` maps a creation time to its weekday, 0 for Sunday.
 */
module Reports {
  import opened Wrappers
  import opened Types
  import opened Lists
  import opened Store

  type Weekday = d: int | 0 <= d < 7

  const Days: seq<string> := ["Sun", "Mon", "Tue", "Wed", "Thu", "Fri", "Sat"]

  /** One bar of the chart. */
  datatype DayRow = DayRow(name: string, visitors: nat, deliveries: nat)

  /** `days[new Date(e.created_at).getDay()] === day`. */
  function OnDay(dayOf: Timestamp -> Weekday, day: string): VisitorEntry -> bool {
    (e: VisitorEntry) => Days[dayOf(e.created_at)] == day
  }

  /** The entries that fall on `day`; none without data. */
  function DayEntries(entries: Option<seq<VisitorEntry>>, dayOf: Timestamp -> Weekday, day: string): (r: seq<VisitorEntry>)
    ensures entries.None? ==> r == []
    ensures entries.Some? ==> forall e :: e in r <==> e in entries.value && Days[dayOf(e.created_at)] == day
  {
    match entries
    case None => []
    case Some(es) => Filter(es, OnDay(dayOf, day))
  }

  /** The bar for `day`: its non-Delivery and its Delivery entries. */
  function RowFor(entries: Option<seq<VisitorEntry>>, dayOf: Timestamp -> Weekday, day: string): (r: DayRow)
    ensures r.name == day
    ensures r.visitors + r.deliveries == |DayEntries(entries, dayOf, day)|
  {
    var de := DayEntries(entries, dayOf, day);
    FilterRejectLength(de, IsDelivery);
    DayRow(day, |Reject(de, IsDelivery)|, |Filter(de, IsDelivery)|)
  }

  /** `fetchAggregates`: one row per weekday, Sunday first. */
  function Aggregate(entries: Option<seq<VisitorEntry>>, dayOf: Timestamp -> Weekday): (r: seq<DayRow>)
    ensures |r| == 7
    ensures forall i :: 0 <= i < 7 ==> r[i].name == Days[i]
  {
    Map(Days, day => RowFor(entries, dayOf, day))
  }

  /** Visitors plus deliveries over all rows. */
  function Total(rows: seq<DayRow>): nat {
    if rows == [] then 0 else rows[0].visitors + rows[0].deliveries + Total(rows[1..])
  }

  function DayCount(es: seq<VisitorEntry>, dayOf: Timestamp -> Weekday, i: Weekday): nat {
    |Filter(es, OnDay(dayOf, Days[i]))|
  }

  function Tag(name: string): int
    requires |name| >= 2
  {
    (name[0] as int) * 256 + name[1] as int
  }

  /** The seven day names are distinct. */
  lemma DaysDistinct(i: Weekday, j: Weekday)
    ensures Days[i] == Days[j] <==> i == j
  {
    var tags := [Tag(Days[0]), Tag(Days[1]), Tag(Days[2]), Tag(Days[3]), Tag(Days[4]), Tag(Days[5]), Tag(Days[6])];
    assert forall a, b :: 0 <= a < b < 7 ==> tags[a] != tags[b];
    assert tags[i] == Tag(Days[i]);
    assert tags[j] == Tag(Days[j]);
  }

  /** The count for a day, one entry at a time. */
  lemma DayCountCons(es: seq<VisitorEntry>, dayOf: Timestamp -> Weekday, i: Weekday)
    requires es != []
    ensures DayCount(es, dayOf, i) == (if dayOf(es[0].created_at) == i then 1 else 0) + DayCount(es[1..], dayOf, i)
  {
    DaysDistinct(dayOf(es[0].created_at), i);
  }

  /** Every entry falls on exactly one of the seven days. */
  lemma {:induction false} SevenDays(es: seq<VisitorEntry>, dayOf: Timestamp -> Weekday)
    ensures DayCount(es, dayOf, 0) + DayCount(es, dayOf, 1) + DayCount(es, dayOf, 2) + DayCount(es, dayOf, 3)
          + DayCount(es, dayOf, 4) + DayCount(es, dayOf, 5) + DayCount(es, dayOf, 6) == |es|
  {
    if es != [] {
      SevenDays(es[1..], dayOf);
      DayCountCons(es, dayOf, 0);
      DayCountCons(es, dayOf, 1);
      DayCountCons(es, dayOf, 2);
      DayCountCons(es, dayOf, 3);
      DayCountCons(es, dayOf, 4);
      DayCountCons(es, dayOf, 5);
      DayCountCons(es, dayOf, 6);
    }
  }

  /** The total of a week of rows, bar by bar. */
  lemma TotalOfWeek(r: seq<DayRow>)
    requires |r| == 7
    ensures Total(r) == r[0].visitors + r[0].deliveries + r[1].visitors + r[1].deliveries
                      + r[2].visitors + r[2].deliveries + r[3].visitors + r[3].deliveries
                      + r[4].visitors + r[4].deliveries + r[5].visitors + r[5].deliveries
                      + r[6].visitors + r[6].deliveries
  {
    assert Total(r[6..]) == r[6].visitors + r[6].deliveries + Total(r[7..]);
    assert Total(r[5..]) == r[5].visitors + r[5].deliveries + Total(r[6..]);
    assert Total(r[4..]) == r[4].visitors + r[4].deliveries + Total(r[5..]);
    assert Total(r[3..]) == r[3].visitors + r[3].deliveries + Total(r[4..]);
    assert Total(r[2..]) == r[2].visitors + r[2].deliveries + Total(r[3..]);
    assert Total(r[1..]) == r[1].visitors + r[1].deliveries + Total(r[2..]);
  }

  /** A bar's two counts together are the entries on its day. */
  lemma RowIsDayCount(entries: Option<seq<VisitorEntry>>, dayOf: Timestamp -> Weekday, i: Weekday)
    ensures Aggregate(entries, dayOf)[i].visitors + Aggregate(entries, dayOf)[i].deliveries
            == DayCount(entries.GetOr([]), dayOf, i)
  {
    assert Aggregate(entries, dayOf)[i] == RowFor(entries, dayOf, Days[i]);
  }

  /** The chart accounts for every entry exactly once. */
  lemma AggregateTotal(entries: Option<seq<VisitorEntry>>, dayOf: Timestamp -> Weekday)
    ensures Total(Aggregate(entries, dayOf)) == |entries.GetOr([])|
  {
    TotalOfWeek(Aggregate(entries, dayOf));
    RowIsDayCount(entries, dayOf, 0);
    RowIsDayCount(entries, dayOf, 1);
    RowIsDayCount(entries, dayOf, 2);
    RowIsDayCount(entries, dayOf, 3);
    RowIsDayCount(entries, dayOf, 4);
    RowIsDayCount(entries, dayOf, 5);
    RowIsDayCount(entries, dayOf, 6);
    SevenDays(entries.GetOr([]), dayOf);
  }

  /** Without data, or with no entries, every bar is zero. */
  lemma NoDataAllZero(dayOf: Timestamp -> Weekday)
    ensures forall i :: 0 <= i < 7 ==> Aggregate(None, dayOf)[i] == DayRow(Days[i], 0, 0)
    ensures forall i :: 0 <= i < 7 ==> Aggregate(Some([]), dayOf)[i] == DayRow(Days[i], 0, 0)
  {
  }

  /** One more entry adds one to its own weekday's bar, as a visitor or as a
      delivery according to its type, and leaves the other bars as they were. */
  lemma RowCounts(e: VisitorEntry, es: seq<VisitorEntry>, dayOf: Timestamp -> Weekday, i: Weekday)
    ensures Aggregate(Some([e] + es), dayOf)[i].visitors
            == (if dayOf(e.created_at) == i && !IsDelivery(e) then 1 else 0) + Aggregate(Some(es), dayOf)[i].visitors
    ensures Aggregate(Some([e] + es), dayOf)[i].deliveries
            == (if dayOf(e.created_at) == i && IsDelivery(e) then 1 else 0) + Aggregate(Some(es), dayOf)[i].deliveries
  {
    var day := Days[i];
    assert Aggregate(Some([e] + es), dayOf)[i] == RowFor(Some([e] + es), dayOf, day);
    assert Aggregate(Some(es), dayOf)[i] == RowFor(Some(es), dayOf, day);
    assert ([e] + es)[0] == e && ([e] + es)[1..] == es;
    DaysDistinct(dayOf(e.created_at), i);
    var head := if dayOf(e.created_at) == i then [e] else [];
    assert DayEntries(Some([e] + es), dayOf, day) == head + DayEntries(Some(es), dayOf, day);
    FilterAppend(head, DayEntries(Some(es), dayOf, day), IsDelivery);
    RejectAppend(head, DayEntries(Some(es), dayOf, day), IsDelivery);
  }

  class ReportsScreen {
    const db: Db
    const societyId: SocietyId
    var data: seq<DayRow>
    var loading: bool

    ghost predicate Valid()
      reads this, db
    {
      db.Valid()
    }

    constructor (db: Db, societyId: SocietyId, dayOf: Timestamp -> Weekday)
      requires db.Valid()
      ensures Valid()
      ensures this.db == db && this.societyId == societyId
      ensures data == (if societyId != "" then Aggregate(Some(Scoped(db.t.visitors, VisitorSociety, societyId)), dayOf) else [])
      ensures loading == (societyId == "")
    {
      this.db := db;
      this.societyId := societyId;
      data := [];
      loading := true;
      if societyId != "" {
        data := Aggregate(Some(Scoped(db.t.visitors, VisitorSociety, societyId)), dayOf);
        loading := false;
      }
    }

    /** `fetchAggregates` over this society's entries. */
    method FetchAggregates(dayOf: Timestamp -> Weekday)
      requires Valid()
      modifies this
      ensures Valid()
      ensures data == Aggregate(Some(Scoped(db.t.visitors, VisitorSociety, societyId)), dayOf)
      ensures !loading
    {
      data := Aggregate(Some(Scoped(db.t.visitors, VisitorSociety, societyId)), dayOf);
      loading := false;
    }
  }
}
