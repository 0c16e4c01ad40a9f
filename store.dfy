/**
 * The hosted database, modelled as an in-memory store: one table per entity,
 * every child row carrying its society's id, and the four operations the
 * screens issue (insert, update by id, delete by society, select by society).
 *
 * The store assigns ids and creation times from one increasing counter
 * (`serial`), so each table lists its rows in creation order and ordering a
 * query by `created_at` descending is reversing that order.
 */
module Store {
  import opened Wrappers
  import opened Types
  import opened Lists

  datatype Tables = Tables(
    societies: seq<Society>,
    residents: seq<Resident>,
    staff: seq<Staff>,
    visitors: seq<VisitorEntry>,
    notices: seq<Notice>,
    emergencies: seq<Emergency>,
    serial: nat)

  /** The tables a delete can name. */
  datatype TableName =
    | SocietiesTable | ResidentsTable | StaffTable
    | VisitorEntriesTable | NoticesTable | EmergenciesTable

  // Column accessors, passed to the generic list operations.
  function ResidentKey(r: Resident): int { r.id }
  function StaffKey(s: Staff): int { s.id }
  function VisitorKey(e: VisitorEntry): int { e.id }
  function VisitorTime(e: VisitorEntry): int { e.created_at }
  function NoticeKey(n: Notice): int { n.id }
  function NoticeTime(n: Notice): int { n.created_at }
  function EmergencyKey(e: Emergency): int { e.id }
  function EmergencyTime(e: Emergency): int { e.created_at }

  /** The column a table is scoped by: a society row's own id, the `society_id` of every other row. */
  function SocietyOwnId(s: Society): SocietyId { s.id }
  function ResidentSociety(r: Resident): SocietyId { r.society_id }
  function StaffSociety(s: Staff): SocietyId { s.society_id }
  function VisitorSociety(e: VisitorEntry): SocietyId { e.society_id }
  function NoticeSociety(n: Notice): SocietyId { n.society_id }
  function EmergencySociety(e: Emergency): SocietyId { e.society_id }

  /** Rows in creation order, every key issued before `bound`. */
  predicate Ordered<T(==)>(s: seq<T>, key: T -> int, bound: int) {
    Ascending(s, key) && Below(s, key, bound)
  }

  /** The store's invariant: every table is in creation order by id (so ids are
      unique) and, where the row has one, by `created_at`; the counter is past them all. */
  predicate WellFormed(t: Tables) {
    && Ordered(t.residents, ResidentKey, t.serial)
    && Ordered(t.staff, StaffKey, t.serial)
    && Ordered(t.visitors, VisitorKey, t.serial)
    && Ordered(t.visitors, VisitorTime, t.serial)
    && Ordered(t.notices, NoticeKey, t.serial)
    && Ordered(t.notices, NoticeTime, t.serial)
    && Ordered(t.emergencies, EmergencyKey, t.serial)
    && Ordered(t.emergencies, EmergencyTime, t.serial)
  }

  /** The `.eq(column, sid)` test. */
  function InSociety<T>(soc: T -> SocietyId, sid: SocietyId): T -> bool {
    x => soc(x) == sid
  }

  /** The rows a `.delete().eq(column, sid)` leaves behind. */
  function NotInSociety<T>(soc: T -> SocietyId, sid: SocietyId): T -> bool {
    x => soc(x) != sid
  }

  /** `.select('*').eq(column, sid)`: exactly this society's rows, in table order. */
  function Scoped<T(==,!new)>(t: seq<T>, soc: T -> SocietyId, sid: SocietyId): (r: seq<T>)
    ensures forall x :: x in r <==> x in t && soc(x) == sid
  {
    Filter(t, InSociety(soc, sid))
  }

  /** The table after `.delete().eq(column, sid)`: exactly the other societies' rows, in table order. */
  function Unscoped<T(==,!new)>(t: seq<T>, soc: T -> SocietyId, sid: SocietyId): (r: seq<T>)
    ensures forall x :: x in r <==> x in t && soc(x) != sid
  {
    Filter(t, NotInSociety(soc, sid))
  }

  /** Deleting one society's rows changes nothing another society can select. */
  lemma {:induction false} UnscopedKeepsOthers<T(!new)>(t: seq<T>, soc: T -> SocietyId, sid: SocietyId, other: SocietyId)
    requires other != sid
    ensures Scoped(Unscoped(t, soc, sid), soc, other) == Scoped(t, soc, other)
  {
    if t != [] {
      UnscopedKeepsOthers(t[1..], soc, sid, other);
      var head := if soc(t[0]) != sid then [t[0]] else [];
      FilterAppend(head, Unscoped(t[1..], soc, sid), InSociety(soc, other));
    }
  }

  /** After deleting one society's rows, a select for that society finds none. */
  lemma {:induction false} UnscopedClears<T(!new)>(t: seq<T>, soc: T -> SocietyId, sid: SocietyId)
    ensures Scoped(Unscoped(t, soc, sid), soc, sid) == []
  {
    if t != [] {
      UnscopedClears(t[1..], soc, sid);
      var head := if soc(t[0]) != sid then [t[0]] else [];
      FilterAppend(head, Unscoped(t[1..], soc, sid), InSociety(soc, sid));
    }
  }

  /** Selecting after an append is selecting before it, plus the new row if it is in scope. */
  lemma ScopedAppend<T(!new)>(t: seq<T>, x: T, soc: T -> SocietyId, sid: SocietyId)
    ensures Scoped(t + [x], soc, sid) == Scoped(t, soc, sid) + (if soc(x) == sid then [x] else [])
  {
    FilterAppend(t, [x], InSociety(soc, sid));
  }

  /** `.eq(column, sid).order('created_at', { ascending: false })`: this
      society's rows, newest first. */
  function NewestFirst<T(==,!new)>(rows: seq<T>, soc: T -> SocietyId, sid: SocietyId): (r: seq<T>)
    ensures |r| == |Scoped(rows, soc, sid)|
    ensures forall x :: x in r <==> x in rows && soc(x) == sid
  {
    Reverse(Scoped(rows, soc, sid))
  }

  /** On a table in creation order, newest first really is descending by creation time. */
  lemma NewestFirstDescending<T(!new)>(rows: seq<T>, soc: T -> SocietyId, sid: SocietyId, key: T -> int)
    requires Ascending(rows, key)
    ensures Descending(NewestFirst(rows, soc, sid), key)
  {
    FilterAscending(rows, InSociety(soc, sid), key);
    ReverseAscending(Scoped(rows, soc, sid), key);
  }

  /** A row just appended for this society heads its newest-first listing,
      followed by what was listed before. */
  lemma NewestFirstAppend<T(!new)>(rows: seq<T>, x: T, soc: T -> SocietyId, sid: SocietyId)
    requires soc(x) == sid
    ensures NewestFirst(rows + [x], soc, sid) == [x] + NewestFirst(rows, soc, sid)
  {
    ScopedAppend(rows, x, soc, sid);
  }

  /** `.order(.., { ascending: false }).limit(n)` returns rows of the society
      and, on a table in creation order, its `n` newest rows, newest first: a
      row of the society left out means the limit was reached, and the row is
      older than the last one returned. */
  lemma NewestFirstTake<T(!new)>(rows: seq<T>, soc: T -> SocietyId, sid: SocietyId, key: T -> int, n: nat)
    requires n > 0
    ensures forall x :: x in Take(NewestFirst(rows, soc, sid), n) ==> x in rows && soc(x) == sid
    ensures Ascending(rows, key) ==> Descending(Take(NewestFirst(rows, soc, sid), n), key)
    ensures Ascending(rows, key) ==>
              forall x :: x in rows && soc(x) == sid && x !in Take(NewestFirst(rows, soc, sid), n) ==>
                n < |Scoped(rows, soc, sid)| && key(x) < key(Take(NewestFirst(rows, soc, sid), n)[n - 1])
  {
    var all := NewestFirst(rows, soc, sid);
    var r := Take(all, n);
    assert forall i :: 0 <= i < |r| ==> r[i] in r && all[i] in all;
    if Ascending(rows, key) {
      NewestFirstDescending(rows, soc, sid, key);
      forall x | x in rows && soc(x) == sid && x !in r
        ensures n < |all| && key(x) < key(r[n - 1])
      {
        var k :| 0 <= k < |all| && all[k] == x;
      }
    }
  }

  /** Everything one society can select: its own society row and its rows in each child table. */
  function View(t: Tables, sid: SocietyId): Tables {
    Tables(
      Scoped(t.societies, SocietyOwnId, sid),
      Scoped(t.residents, ResidentSociety, sid),
      Scoped(t.staff, StaffSociety, sid),
      Scoped(t.visitors, VisitorSociety, sid),
      Scoped(t.notices, NoticeSociety, sid),
      Scoped(t.emergencies, EmergencySociety, sid),
      t.serial)
  }

  /** `supabase.from(table).delete().eq(column, sid)`; the societies table is filtered on `id`. */
  function Delete(t: Tables, table: TableName, sid: SocietyId): (r: Tables)
    ensures r.serial == t.serial
    ensures forall x :: x in r.societies ==> x in t.societies && (table == SocietiesTable ==> x.id != sid)
    ensures forall x :: x in r.residents ==> x in t.residents && (table == ResidentsTable ==> x.society_id != sid)
    ensures forall x :: x in r.staff ==> x in t.staff && (table == StaffTable ==> x.society_id != sid)
    ensures forall x :: x in r.visitors ==> x in t.visitors && (table == VisitorEntriesTable ==> x.society_id != sid)
    ensures forall x :: x in r.notices ==> x in t.notices && (table == NoticesTable ==> x.society_id != sid)
    ensures forall x :: x in r.emergencies ==> x in t.emergencies && (table == EmergenciesTable ==> x.society_id != sid)
  {
    match table
    case SocietiesTable => t.(societies := Unscoped(t.societies, SocietyOwnId, sid))
    case ResidentsTable => t.(residents := Unscoped(t.residents, ResidentSociety, sid))
    case StaffTable => t.(staff := Unscoped(t.staff, StaffSociety, sid))
    case VisitorEntriesTable => t.(visitors := Unscoped(t.visitors, VisitorSociety, sid))
    case NoticesTable => t.(notices := Unscoped(t.notices, NoticeSociety, sid))
    case EmergenciesTable => t.(emergencies := Unscoped(t.emergencies, EmergencySociety, sid))
  }

  /** A view with one table emptied. */
  function Emptied(v: Tables, table: TableName): Tables {
    match table
    case SocietiesTable => v.(societies := [])
    case ResidentsTable => v.(residents := [])
    case StaffTable => v.(staff := [])
    case VisitorEntriesTable => v.(visitors := [])
    case NoticesTable => v.(notices := [])
    case EmergenciesTable => v.(emergencies := [])
  }

  /** A scoped delete empties that table for its society and nothing else, and
      no other society sees any change. */
  lemma DeleteScoped(t: Tables, table: TableName, sid: SocietyId, other: SocietyId)
    ensures View(Delete(t, table, sid), sid) == Emptied(View(t, sid), table)
    ensures other != sid ==> View(Delete(t, table, sid), other) == View(t, other)
  {
    match table
    case SocietiesTable =>
      UnscopedClears(t.societies, SocietyOwnId, sid);
      if other != sid { UnscopedKeepsOthers(t.societies, SocietyOwnId, sid, other); }
    case ResidentsTable =>
      UnscopedClears(t.residents, ResidentSociety, sid);
      if other != sid { UnscopedKeepsOthers(t.residents, ResidentSociety, sid, other); }
    case StaffTable =>
      UnscopedClears(t.staff, StaffSociety, sid);
      if other != sid { UnscopedKeepsOthers(t.staff, StaffSociety, sid, other); }
    case VisitorEntriesTable =>
      UnscopedClears(t.visitors, VisitorSociety, sid);
      if other != sid { UnscopedKeepsOthers(t.visitors, VisitorSociety, sid, other); }
    case NoticesTable =>
      UnscopedClears(t.notices, NoticeSociety, sid);
      if other != sid { UnscopedKeepsOthers(t.notices, NoticeSociety, sid, other); }
    case EmergenciesTable =>
      UnscopedClears(t.emergencies, EmergencySociety, sid);
      if other != sid { UnscopedKeepsOthers(t.emergencies, EmergencySociety, sid, other); }
  }

  /** A scoped delete keeps the store well formed. */
  lemma DeleteWellFormed(t: Tables, table: TableName, sid: SocietyId)
    requires WellFormed(t)
    ensures WellFormed(Delete(t, table, sid))
  {
    match table
    case SocietiesTable =>
    case ResidentsTable =>
      FilterAscending(t.residents, NotInSociety(ResidentSociety, sid), ResidentKey);
    case StaffTable =>
      FilterAscending(t.staff, NotInSociety(StaffSociety, sid), StaffKey);
    case VisitorEntriesTable =>
      FilterAscending(t.visitors, NotInSociety(VisitorSociety, sid), VisitorKey);
      FilterAscending(t.visitors, NotInSociety(VisitorSociety, sid), VisitorTime);
    case NoticesTable =>
      FilterAscending(t.notices, NotInSociety(NoticeSociety, sid), NoticeKey);
      FilterAscending(t.notices, NotInSociety(NoticeSociety, sid), NoticeTime);
    case EmergenciesTable =>
      FilterAscending(t.emergencies, NotInSociety(EmergencySociety, sid), EmergencyKey);
      FilterAscending(t.emergencies, NotInSociety(EmergencySociety, sid), EmergencyTime);
  }

  /** A table rewritten row by row without touching the key stays in order. */
  lemma OrderedPointwise<T(!new)>(s: seq<T>, r: seq<T>, key: T -> int, bound: int)
    requires Ordered(s, key, bound) && |r| == |s|
    requires forall i :: 0 <= i < |s| ==> key(r[i]) == key(s[i])
    ensures Ordered(r, key, bound)
  {
    forall x | x in r
      ensures key(x) < bound
    {
      var i :| 0 <= i < |r| && r[i] == x;
      assert s[i] in s;
    }
  }

  /** `.update({ status }).eq('id', id)` on visitor entries. */
  function SetVisitorStatus(rows: seq<VisitorEntry>, id: Id, status: VisitorStatus): (r: seq<VisitorEntry>)
    ensures |r| == |rows|
    ensures forall i :: 0 <= i < |rows| && rows[i].id != id ==> r[i] == rows[i]
    ensures forall i :: 0 <= i < |rows| && rows[i].id == id ==> r[i] == rows[i].(status := status)
  {
    Map(rows, (e: VisitorEntry) => if e.id == id then e.(status := status) else e)
  }

  /** `.update({ status }).eq('id', id)` on staff (the gate terminal's write). */
  function SetStaffStatus(rows: seq<Staff>, id: Id, status: StaffStatus): (r: seq<Staff>)
    ensures |r| == |rows|
    ensures forall i :: 0 <= i < |rows| && rows[i].id != id ==> r[i] == rows[i]
    ensures forall i :: 0 <= i < |rows| && rows[i].id == id ==> r[i] == rows[i].(status := status)
  {
    Map(rows, (s: Staff) => if s.id == id then s.(status := status) else s)
  }

  /** `.update({ status, last_check_in }).eq('id', id)` on staff (the admin register's write). */
  function SetStaffAttendance(rows: seq<Staff>, id: Id, status: StaffStatus, lastCheckIn: Option<Timestamp>): (r: seq<Staff>)
    ensures |r| == |rows|
    ensures forall i :: 0 <= i < |rows| && rows[i].id != id ==> r[i] == rows[i]
    ensures forall i :: 0 <= i < |rows| && rows[i].id == id ==>
              r[i] == rows[i].(status := status, last_check_in := lastCheckIn)
  {
    Map(rows, (s: Staff) => if s.id == id then s.(status := status, last_check_in := lastCheckIn) else s)
  }

  /** `.update({ name, flat_number, whatsapp_number }).eq('id', id)` on residents. */
  function UpdateResidentRow(rows: seq<Resident>, id: Id, name: string, flat: string, whatsapp: string): (r: seq<Resident>)
    ensures |r| == |rows|
    ensures forall i :: 0 <= i < |rows| && rows[i].id != id ==> r[i] == rows[i]
    ensures forall i :: 0 <= i < |rows| && rows[i].id == id ==>
              r[i] == rows[i].(name := name, flat_number := flat, whatsapp_number := whatsapp)
  {
    Map(rows, (x: Resident) => if x.id == id then x.(name := name, flat_number := flat, whatsapp_number := whatsapp) else x)
  }

  function StaffName(s: Staff): string { s.name }

  /** `.from('staff').select('*').eq('society_id', sid).order('name')`: this
      society's staff, and only them, ordered by name. */
  function StaffRoster(t: Tables, sid: SocietyId): (r: seq<Staff>)
    ensures SortedBy(r, StaffName)
    ensures multiset(r) == multiset(Scoped(t.staff, StaffSociety, sid))
  {
    SortBy(Scoped(t.staff, StaffSociety, sid), StaffName)
  }

  /** Every staff row of the society appears on its roster. */
  lemma OnRoster(t: Tables, row: Staff, sid: SocietyId)
    requires row in t.staff && row.society_id == sid
    ensures row in StaffRoster(t, sid)
  {
    assert row in multiset(Scoped(t.staff, StaffSociety, sid));
    assert row in multiset(StaffRoster(t, sid));
  }

  /** Updating the status of a just-inserted row touches that row only, because its id is fresh. */
  lemma SetStatusOfNewest(rows: seq<VisitorEntry>, row: VisitorEntry, status: VisitorStatus)
    requires Below(rows, VisitorKey, row.id)
    ensures SetVisitorStatus(rows + [row], row.id, status) == rows + [row.(status := status)]
  {
    var r := SetVisitorStatus(rows + [row], row.id, status);
    forall i | 0 <= i < |rows|
      ensures r[i] == rows[i]
    {
      assert (rows + [row])[i] == rows[i];
      assert rows[i] in rows;
    }
  }

  /** The shared database every screen and terminal talks to. */
  class Db {
    var t: Tables

    ghost predicate Valid()
      reads this
    {
      WellFormed(t)
    }

    constructor ()
      ensures Valid()
      ensures t == Tables([], [], [], [], [], [], 0)
    {
      t := Tables([], [], [], [], [], [], 0);
    }

    /** Inserts a visitor entry with status PENDING and returns the stored row. */
    method InsertVisitor(sid: SocietyId, flat: string, name: string, purpose: string, kind: VisitorType)
      returns (row: VisitorEntry)
      requires Valid()
      modifies this
      ensures Valid()
      ensures row == VisitorEntry(old(t.serial), sid, None, flat, name, purpose, PENDING, kind, old(t.serial))
      ensures t == old(t).(visitors := old(t.visitors) + [row], serial := old(t.serial) + 1)
    {
      row := VisitorEntry(t.serial, sid, None, flat, name, purpose, PENDING, kind, t.serial);
      AscendingAppend(t.visitors, row, VisitorKey);
      AscendingAppend(t.visitors, row, VisitorTime);
      t := t.(visitors := t.visitors + [row], serial := t.serial + 1);
    }

    /** Inserts a staff row. */
    method InsertStaff(sid: SocietyId, name: string, role: string, phone: string, flats: seq<string>, status: StaffStatus)
      returns (row: Staff)
      requires Valid()
      modifies this
      ensures Valid()
      ensures row == Staff(old(t.serial), sid, name, role, phone, flats, None, status, None)
      ensures t == old(t).(staff := old(t.staff) + [row], serial := old(t.serial) + 1)
    {
      row := Staff(t.serial, sid, name, role, phone, flats, None, status, None);
      AscendingAppend(t.staff, row, StaffKey);
      t := t.(staff := t.staff + [row], serial := t.serial + 1);
    }

    /** Inserts a resident row. */
    method InsertResident(sid: SocietyId, name: string, flat: string, whatsapp: string)
      returns (row: Resident)
      requires Valid()
      modifies this
      ensures Valid()
      ensures row == Resident(old(t.serial), sid, flat, name, whatsapp)
      ensures t == old(t).(residents := old(t.residents) + [row], serial := old(t.serial) + 1)
    {
      row := Resident(t.serial, sid, flat, name, whatsapp);
      AscendingAppend(t.residents, row, ResidentKey);
      t := t.(residents := t.residents + [row], serial := t.serial + 1);
    }

    /** Inserts a notice row. */
    method InsertNotice(sid: SocietyId, title: string, content: string, author: string)
      returns (row: Notice)
      requires Valid()
      modifies this
      ensures Valid()
      ensures row == Notice(old(t.serial), sid, title, content, author, old(t.serial))
      ensures t == old(t).(notices := old(t.notices) + [row], serial := old(t.serial) + 1)
    {
      row := Notice(t.serial, sid, title, content, author, t.serial);
      AscendingAppend(t.notices, row, NoticeKey);
      AscendingAppend(t.notices, row, NoticeTime);
      t := t.(notices := t.notices + [row], serial := t.serial + 1);
    }

    /** Inserts an emergency row. */
    method InsertEmergency(sid: SocietyId, kind: EmergencyKind, description: string)
      returns (row: Emergency)
      requires Valid()
      modifies this
      ensures Valid()
      ensures row == Emergency(old(t.serial), sid, kind, description, old(t.serial))
      ensures t == old(t).(emergencies := old(t.emergencies) + [row], serial := old(t.serial) + 1)
    {
      row := Emergency(t.serial, sid, kind, description, t.serial);
      AscendingAppend(t.emergencies, row, EmergencyKey);
      AscendingAppend(t.emergencies, row, EmergencyTime);
      t := t.(emergencies := t.emergencies + [row], serial := t.serial + 1);
    }

    method UpdateVisitorStatus(id: Id, status: VisitorStatus)
      requires Valid()
      modifies this
      ensures Valid()
      ensures t == old(t).(visitors := SetVisitorStatus(old(t.visitors), id, status))
    {
      var rows := SetVisitorStatus(t.visitors, id, status);
      OrderedPointwise(t.visitors, rows, VisitorKey, t.serial);
      OrderedPointwise(t.visitors, rows, VisitorTime, t.serial);
      t := t.(visitors := rows);
    }

    method UpdateStaffStatus(id: Id, status: StaffStatus)
      requires Valid()
      modifies this
      ensures Valid()
      ensures t == old(t).(staff := SetStaffStatus(old(t.staff), id, status))
    {
      t := t.(staff := SetStaffStatus(t.staff, id, status));
    }

    method UpdateStaffAttendance(id: Id, status: StaffStatus, lastCheckIn: Option<Timestamp>)
      requires Valid()
      modifies this
      ensures Valid()
      ensures t == old(t).(staff := SetStaffAttendance(old(t.staff), id, status, lastCheckIn))
    {
      t := t.(staff := SetStaffAttendance(t.staff, id, status, lastCheckIn));
    }

    method UpdateResident(id: Id, name: string, flat: string, whatsapp: string)
      requires Valid()
      modifies this
      ensures Valid()
      ensures t == old(t).(residents := UpdateResidentRow(old(t.residents), id, name, flat, whatsapp))
    {
      t := t.(residents := UpdateResidentRow(t.residents, id, name, flat, whatsapp));
    }

    method DeleteWhere(table: TableName, sid: SocietyId)
      requires Valid()
      modifies this
      ensures Valid()
      ensures t == Delete(old(t), table, sid)
    {
      DeleteWellFormed(t, table, sid);
      t := Delete(t, table, sid);
    }
  }
}
