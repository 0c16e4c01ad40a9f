/**
 * The danger zone of the admin settings: clearing the logs, resetting all of
 * a society's data, and deleting the society itself. Every delete is filtered
 * on this society's id.
 */
module Settings {
  import opened Types
  import opened Store

  /** Visitor history, deliveries, notices and alerts. */
  const LogTables: seq<TableName> := [VisitorEntriesTable, NoticesTable, EmergenciesTable]
  /** The logs plus the residents and staff registers. */
  const DataTables: seq<TableName> := LogTables + [ResidentsTable, StaffTable]
  /** Everything, the society's own row last. */
  const ProfileTables: seq<TableName> := DataTables + [SocietiesTable]

  /** Deleting this society's rows from each table in turn. */
  function DeleteAll(t: Tables, tables: seq<TableName>, sid: SocietyId): (r: Tables)
    ensures r.serial == t.serial
    ensures forall x :: x in r.societies ==> x in t.societies
    ensures forall x :: x in r.residents ==> x in t.residents
    ensures forall x :: x in r.staff ==> x in t.staff
    ensures forall x :: x in r.visitors ==> x in t.visitors
    ensures forall x :: x in r.notices ==> x in t.notices
    ensures forall x :: x in r.emergencies ==> x in t.emergencies
    decreases |tables|
  {
    if tables == [] then t else DeleteAll(Delete(t, tables[0], sid), tables[1..], sid)
  }

  /** A view with each of the named tables emptied. */
  function EmptiedAll(v: Tables, tables: seq<TableName>): Tables {
    Tables(
      if SocietiesTable in tables then [] else v.societies,
      if ResidentsTable in tables then [] else v.residents,
      if StaffTable in tables then [] else v.staff,
      if VisitorEntriesTable in tables then [] else v.visitors,
      if NoticesTable in tables then [] else v.notices,
      if EmergenciesTable in tables then [] else v.emergencies,
      v.serial)
  }

  /** Emptying one table and then several is emptying all of them. */
  lemma EmptiedStep(v: Tables, tables: seq<TableName>)
    requires tables != []
    ensures EmptiedAll(Emptied(v, tables[0]), tables[1..]) == EmptiedAll(v, tables)
  {
    var tb, rest := tables[0], tables[1..];
    assert tables == [tb] + rest;
    forall x: TableName
      ensures x in tables <==> x == tb || x in rest
    {
    }
    match tb
    case SocietiesTable =>
    case ResidentsTable =>
    case StaffTable =>
    case VisitorEntriesTable =>
    case NoticesTable =>
    case EmergenciesTable =>
  }

  /** Deleting from several tables empties exactly those tables for this society. */
  lemma {:induction false} DeleteAllEmpties(t: Tables, tables: seq<TableName>, sid: SocietyId)
    ensures View(DeleteAll(t, tables, sid), sid) == EmptiedAll(View(t, sid), tables)
    decreases |tables|
  {
    if tables != [] {
      DeleteScoped(t, tables[0], sid, sid);
      DeleteAllEmpties(Delete(t, tables[0], sid), tables[1..], sid);
      EmptiedStep(View(t, sid), tables);
    }
  }

  /** Deleting from several tables changes nothing another society can see. */
  lemma {:induction false} DeleteAllIsolated(t: Tables, tables: seq<TableName>, sid: SocietyId, other: SocietyId)
    requires other != sid
    ensures View(DeleteAll(t, tables, sid), other) == View(t, other)
    decreases |tables|
  {
    if tables != [] {
      DeleteScoped(t, tables[0], sid, other);
      DeleteAllIsolated(Delete(t, tables[0], sid), tables[1..], sid, other);
    }
  }

  /** Two stores agree on one table. */
  predicate SameTable(a: Tables, b: Tables, table: TableName) {
    match table
    case SocietiesTable => a.societies == b.societies
    case ResidentsTable => a.residents == b.residents
    case StaffTable => a.staff == b.staff
    case VisitorEntriesTable => a.visitors == b.visitors
    case NoticesTable => a.notices == b.notices
    case EmergenciesTable => a.emergencies == b.emergencies
  }

  /** Deleting from one table leaves every other table as it was. */
  lemma DeleteKeeps(t: Tables, table: TableName, sid: SocietyId, other: TableName)
    requires other != table
    ensures SameTable(Delete(t, table, sid), t, other)
    ensures Delete(t, table, sid).serial == t.serial
  {
  }

  /** Deleting touches only the named tables. */
  lemma {:induction false} DeleteAllKeeps(t: Tables, tables: seq<TableName>, sid: SocietyId, table: TableName)
    requires table !in tables
    ensures SameTable(DeleteAll(t, tables, sid), t, table)
    ensures DeleteAll(t, tables, sid).serial == t.serial
    decreases |tables|
  {
    if tables != [] {
      assert tables == [tables[0]] + tables[1..];
      DeleteKeeps(t, tables[0], sid, table);
      DeleteAllKeeps(Delete(t, tables[0], sid), tables[1..], sid, table);
    }
  }

  /** Clearing the logs empties this society's visitor entries, notices and
      emergencies and keeps its society row, residents and staff. */
  lemma ClearLogsEffect(t: Tables, sid: SocietyId)
    ensures View(DeleteAll(t, LogTables, sid), sid) == View(t, sid).(visitors := [], notices := [], emergencies := [])
    ensures DeleteAll(t, LogTables, sid).societies == t.societies
    ensures DeleteAll(t, LogTables, sid).residents == t.residents
    ensures DeleteAll(t, LogTables, sid).staff == t.staff
  {
    DeleteAllEmpties(t, LogTables, sid);
    DeleteAllKeeps(t, LogTables, sid, SocietiesTable);
    DeleteAllKeeps(t, LogTables, sid, ResidentsTable);
    DeleteAllKeeps(t, LogTables, sid, StaffTable);
  }

  /** Resetting also empties the residents and staff, and keeps the society row. */
  lemma ResetAllEffect(t: Tables, sid: SocietyId)
    ensures View(DeleteAll(t, DataTables, sid), sid)
            == View(t, sid).(visitors := [], notices := [], emergencies := [], residents := [], staff := [])
    ensures DeleteAll(t, DataTables, sid).societies == t.societies
  {
    var v := View(t, sid);
    assert DataTables == [VisitorEntriesTable, NoticesTable, EmergenciesTable, ResidentsTable, StaffTable];
    assert SocietiesTable !in DataTables;
    assert EmptiedAll(v, DataTables) == v.(visitors := [], notices := [], emergencies := [], residents := [], staff := []);
    DeleteAllEmpties(t, DataTables, sid);
    DeleteAllKeeps(t, DataTables, sid, SocietiesTable);
  }

  /** Deleting the society leaves it nothing at all. */
  lemma DeleteSocietyEffect(t: Tables, sid: SocietyId)
    ensures View(DeleteAll(t, ProfileTables, sid), sid) == Tables([], [], [], [], [], [], t.serial)
  {
    DeleteAllEmpties(t, ProfileTables, sid);
  }

  /** Other societies see no change from any of the three actions. */
  lemma OthersUntouched(t: Tables, sid: SocietyId, other: SocietyId, tables: seq<TableName>)
    requires other != sid
    requires tables == LogTables || tables == DataTables || tables == ProfileTables
    ensures View(DeleteAll(t, tables, sid), other) == View(t, other)
  {
    DeleteAllIsolated(t, tables, sid, other);
  }

  class SettingsScreen {
    const db: Db
    const societyId: SocietyId
    var loading: bool
    var signedIn: bool
    /** Every value `loading` has taken, oldest first. */
    ghost var loadingHistory: seq<bool>

    ghost predicate Valid()
      reads this, db
    {
      db.Valid() && |loadingHistory| > 0 && loadingHistory[|loadingHistory| - 1] == loading
    }

    constructor (db: Db, societyId: SocietyId)
      requires db.Valid()
      ensures Valid()
      ensures this.db == db && this.societyId == societyId
      ensures !loading && signedIn && loadingHistory == [false]
    {
      this.db := db;
      this.societyId := societyId;
      loading := false;
      signedIn := true;
      loadingHistory := [false];
    }

    /** Runs the deletes of one action with the busy flag raised. */
    method DeleteTables(tables: seq<TableName>)
      requires Valid()
      modifies this, db
      ensures Valid()
      ensures db.t == DeleteAll(old(db.t), tables, societyId)
      ensures !loading && loadingHistory == old(loadingHistory) + [true, false]
      ensures signedIn == old(signedIn)
    {
      loading := true;
      loadingHistory := loadingHistory + [true];
      var i := 0;
      while i < |tables|
        invariant 0 <= i <= |tables|
        invariant db.Valid()
        invariant DeleteAll(old(db.t), tables, societyId) == DeleteAll(db.t, tables[i..], societyId)
        invariant loading && loadingHistory == old(loadingHistory) + [true] && signedIn == old(signedIn)
      {
        assert tables[i..][1..] == tables[i + 1..];
        db.DeleteWhere(tables[i], societyId);
        i := i + 1;
      }
      loading := false;
      loadingHistory := loadingHistory + [false];
    }

    /** `clearLogs`; `confirmed` is the answer to the confirmation dialog. */
    method ClearLogs(confirmed: bool)
      requires Valid()
      modifies this, db
      ensures Valid()
      ensures !confirmed ==> db.t == old(db.t) && loadingHistory == old(loadingHistory)
      ensures confirmed ==> db.t == DeleteAll(old(db.t), LogTables, societyId)
      ensures confirmed ==> loadingHistory == old(loadingHistory) + [true, false]
      ensures !confirmed ==> loading == old(loading)
      ensures signedIn == old(signedIn)
    {
      if !confirmed {
        return;
      }
      DeleteTables(LogTables);
    }

    /** `resetAllData`. */
    method ResetAllData(confirmed: bool)
      requires Valid()
      modifies this, db
      ensures Valid()
      ensures !confirmed ==> db.t == old(db.t) && loadingHistory == old(loadingHistory)
      ensures confirmed ==> db.t == DeleteAll(old(db.t), DataTables, societyId)
      ensures confirmed ==> loadingHistory == old(loadingHistory) + [true, false]
      ensures signedIn == old(signedIn)
    {
      if !confirmed {
        return;
      }
      DeleteTables(DataTables);
    }

    /** `deleteSociety`: the five child tables, then the society row, then sign-out. */
    method DeleteSociety(confirmed: bool)
      requires Valid()
      modifies this, db
      ensures Valid()
      ensures !confirmed ==> db.t == old(db.t) && loadingHistory == old(loadingHistory) && signedIn == old(signedIn)
      ensures confirmed ==> db.t == DeleteAll(old(db.t), ProfileTables, societyId)
      ensures confirmed ==> loadingHistory == old(loadingHistory) + [true, false] && !signedIn
    {
      if !confirmed {
        return;
      }
      DeleteTables(ProfileTables);
      signedIn := false;
    }
  }
}
