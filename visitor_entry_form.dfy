/**
 * The security-gate terminal: a kiosk opened from a link carrying the
 * society's id. A guard picks Guest, Delivery or Staff; visitors are
 * recorded as PENDING entries and decided by the resident's answer, staff are
 * toggled In or Out. Without a society id the terminal refuses to operate.
 */
module VisitorEntryForm {
  import opened Wrappers
  import opened Types
  import opened Text
  import opened Lists
  import opened Store

  datatype Mode = SELECT | FORM | STAFF | LOADING | RESULT | ERROR

  /** The resident's answer to an arrival. */
  datatype Decision = Decision(approved: bool, message: string)

  datatype Form = Form(name: string, flat: string, purpose: string)

  const EmptyForm := Form("", "", "")
  const DefaultSocietyName := "GateBuddy Terminal"

  /** The `sid` query parameter is present and non-empty (a truthy string). */
  predicate Linked(sid: Option<string>) {
    sid.Some? && sid.value != ""
  }

  /** The mode changes the terminal's handlers can make, one step at a time.
      No handler is reachable from ERROR, and reset is not offered in SELECT. */
  predicate Step(from: Mode, to: Mode)
    ensures Step(from, to) ==> from != to && from != ERROR && to != ERROR
    ensures Step(from, to) && to == SELECT ==> from != LOADING
  {
    match from
    case SELECT => to == FORM || to == STAFF
    case FORM => to == LOADING || to == SELECT
    case LOADING => to == RESULT || to == FORM
    case STAFF => to == SELECT
    case RESULT => to == SELECT
    case ERROR => false
  }

  /** A history of modes in which every change is a step. */
  predicate ValidTrace(modes: seq<Mode>) {
    forall i :: 0 < i < |modes| ==> Step(modes[i - 1], modes[i])
  }

  /** Once a valid history reaches ERROR it stays there: ERROR is its last mode. */
  lemma ErrorAbsorbing(modes: seq<Mode>, i: nat)
    requires ValidTrace(modes)
    requires i < |modes| && modes[i] == ERROR
    ensures i == |modes| - 1
    ensures forall j :: i <= j < |modes| ==> modes[j] == ERROR
  {
    assert i + 1 < |modes| ==> Step(modes[i], modes[i + 1]);
  }

  /** A valid history that starts in ERROR is just that one mode. */
  lemma ErrorOnlyAtMount(modes: seq<Mode>)
    requires ValidTrace(modes) && |modes| > 0 && modes[0] == ERROR
    ensures modes == [ERROR]
  {
    ErrorAbsorbing(modes, 0);
  }

  /** The heading shown on the terminal: the society's name when exactly one
      society row has this id (`.single()`), otherwise the default. */
  function SocietyName(t: Tables, sid: SocietyId): (name: string)
    ensures name == DefaultSocietyName || exists s :: s in t.societies && s.id == sid && s.name == name
    ensures (forall s :: s in t.societies ==> s.id != sid) ==> name == DefaultSocietyName
    ensures |Scoped(t.societies, SocietyOwnId, sid)| == 1 ==> name == Scoped(t.societies, SocietyOwnId, sid)[0].name
    ensures |Scoped(t.societies, SocietyOwnId, sid)| != 1 ==> name == DefaultSocietyName
  {
    var rows := Scoped(t.societies, SocietyOwnId, sid);
    if |rows| == 1 then
      assert rows[0] in rows;
      rows[0].name
    else
      DefaultSocietyName
  }

  /** A society whose id is held by exactly one row is shown by its own name. */
  lemma SocietyNameUnique(t: Tables, k: nat)
    requires k < |t.societies|
    requires forall i :: 0 <= i < |t.societies| && t.societies[i].id == t.societies[k].id ==> i == k
    ensures SocietyName(t, t.societies[k].id) == t.societies[k].name
  {
    var s, p := t.societies, InSociety(SocietyOwnId, t.societies[k].id);
    assert forall i :: 0 <= i < |s| ==> (p(s[i]) <==> s[i].id == s[k].id);
    FilterSingle(s, p, k);
  }

  /** Two rows with the same id make `.single()` fail, and the default heading stays. */
  lemma SocietyNameAmbiguous(t: Tables, i: nat, j: nat)
    requires i < j < |t.societies| && t.societies[i].id == t.societies[j].id
    ensures SocietyName(t, t.societies[i].id) == DefaultSocietyName
  {
    var s, p := t.societies, InSociety(SocietyOwnId, t.societies[i].id);
    assert p(s[i]) && p(s[j]);
    FilterTwo(s, p, i, j);
  }

  /** The entry the terminal inserts for a visitor, before the decision. */
  function PendingEntry(id: Id, sid: SocietyId, form: Form, kind: VisitorType): (e: VisitorEntry)
    ensures e.status == PENDING && e.society_id == sid && e.visitor_type == kind && e.resident_id.None?
    ensures e.flat_number == form.flat && e.visitor_name == form.name && e.purpose == form.purpose
    ensures e.id == id && e.created_at == id
  {
    VisitorEntry(id, sid, None, form.flat, form.name, form.purpose, PENDING, kind, id)
  }

  /** The status written back once the resident has answered. */
  function Verdict(d: Decision): (s: VisitorStatus)
    ensures s == APPROVED <==> d.approved
    ensures s == REJECTED <==> !d.approved
  {
    if d.approved then APPROVED else REJECTED
  }

  /** The search test: the lower-cased query occurs in the lower-cased name or role. */
  predicate Matches(s: Staff, query: string) {
    Includes(Lower(s.name), Lower(query)) || Includes(Lower(s.role), Lower(query))
  }

  function MatchesQuery(query: string): Staff -> bool {
    s => Matches(s, query)
  }

  /** The staff rows shown under the search box. */
  function Listed(list: seq<Staff>, query: string): (r: seq<Staff>)
    ensures forall s :: s in r <==> s in list && Matches(s, query)
  {
    Filter(list, MatchesQuery(query))
  }

  /** A member is listed exactly when the query occurs, ignoring ASCII case, in the name or the role. */
  lemma ListedMeans(list: seq<Staff>, query: string, s: Staff)
    ensures s in Listed(list, query) <==>
              s in list && (OccursIn(Lower(query), Lower(s.name)) || OccursIn(Lower(query), Lower(s.role)))
  {
  }

  /** An empty search lists everyone, in loaded order. */
  lemma EmptySearchListsAll(list: seq<Staff>)
    ensures Listed(list, "") == list
  {
    forall s | s in list
      ensures MatchesQuery("")(s)
    {
      IncludesEmpty(Lower(s.name));
    }
    FilterAll(list, MatchesQuery(""));
  }

  class Terminal {
    const db: Db
    const sid: Option<string>
    /** The header, looked up once when the terminal mounts. */
    const societyName: string
    var mode: Mode
    var visitorType: VisitorType
    var formData: Form
    var staffList: seq<Staff>
    var searchStaff: string
    var result: Option<Decision>
    /** Every mode the terminal has been in, oldest first. */
    ghost var modes: seq<Mode>

    ghost predicate Valid()
      reads this, db
    {
      && db.Valid()
      && (mode == ERROR <==> !Linked(sid))
      && mode != LOADING
      && (mode == RESULT <==> result.Some?)
      && formData.purpose == ""
      && (visitorType == Guest || visitorType == Delivery)
      && |modes| > 0 && modes[|modes| - 1] == mode && ValidTrace(modes)
    }

    /** Mounting the terminal: ERROR without a society id, otherwise SELECT
        with the society's name looked up. */
    constructor (db: Db, sid: Option<string>)
      requires db.Valid()
      ensures Valid()
      ensures this.db == db && this.sid == sid
      ensures mode == (if Linked(sid) then SELECT else ERROR)
      ensures societyName == (if Linked(sid) then SocietyName(db.t, sid.value) else DefaultSocietyName)
      ensures visitorType == Guest && formData == EmptyForm && result == None
      ensures staffList == [] && searchStaff == ""
      ensures modes == [mode]
    {
      this.db := db;
      this.sid := sid;
      visitorType := Guest;
      formData := EmptyForm;
      staffList := [];
      searchStaff := "";
      result := None;
      if !Linked(sid) {
        mode := ERROR;
        societyName := DefaultSocietyName;
      } else {
        mode := SELECT;
        societyName := SocietyName(db.t, sid.value);
      }
      modes := [mode];
    }

    /** The GUEST and DELIVERY buttons. */
    method ChooseVisitorType(kind: VisitorType)
      requires Valid() && mode == SELECT
      requires kind == Guest || kind == Delivery
      modifies this
      ensures Valid()
      ensures mode == FORM && visitorType == kind
      ensures formData == old(formData) && result == old(result)
      ensures staffList == old(staffList) && searchStaff == old(searchStaff)
      ensures modes == old(modes) + [FORM]
    {
      visitorType := kind;
      mode := FORM;
      modes := modes + [FORM];
    }

    /** The STAFF button; entering STAFF loads the roster. */
    method ChooseStaff()
      requires Valid() && mode == SELECT
      modifies this
      ensures Valid()
      ensures mode == STAFF && staffList == StaffRoster(db.t, sid.value)
      ensures visitorType == old(visitorType) && formData == old(formData)
      ensures result == old(result) && searchStaff == old(searchStaff)
      ensures modes == old(modes) + [STAFF]
    {
      mode := STAFF;
      staffList := StaffRoster(db.t, sid.value);
      modes := modes + [STAFF];
    }

    /** The flat-number input. */
    method SetFlat(flat: string)
      requires Valid() && mode == FORM
      modifies this
      ensures Valid()
      ensures formData == old(formData).(flat := flat)
      ensures mode == old(mode) && visitorType == old(visitorType) && result == old(result)
      ensures staffList == old(staffList) && searchStaff == old(searchStaff) && modes == old(modes)
    {
      formData := formData.(flat := flat);
    }

    /** The visitor-name input. */
    method SetName(name: string)
      requires Valid() && mode == FORM
      modifies this
      ensures Valid()
      ensures formData == old(formData).(name := name)
      ensures mode == old(mode) && visitorType == old(visitorType) && result == old(result)
      ensures staffList == old(staffList) && searchStaff == old(searchStaff) && modes == old(modes)
    {
      formData := formData.(name := name);
    }

    /** The staff search box. */
    method SetSearch(query: string)
      requires Valid() && mode == STAFF
      modifies this
      ensures Valid()
      ensures searchStaff == query
      ensures mode == old(mode) && visitorType == old(visitorType) && formData == old(formData)
      ensures result == old(result) && staffList == old(staffList) && modes == old(modes)
    {
      searchStaff := query;
    }

    /** CHECK PERMISSION. The form's required inputs must be filled. `insertOk`
        is whether the database accepted the insert; `decision` is the resident's answer. */
    method Submit(insertOk: bool, decision: Decision)
      requires Valid() && mode == FORM
      requires formData.flat != "" && formData.name != ""
      modifies this, db
      ensures Valid()
      ensures formData == old(formData) && visitorType == old(visitorType)
      ensures staffList == old(staffList) && searchStaff == old(searchStaff)
      ensures !insertOk ==> mode == FORM && result == None && db.t == old(db.t)
      ensures insertOk ==> mode == RESULT && result == Some(decision)
      ensures insertOk ==>
                var entry := PendingEntry(old(db.t.serial), sid.value, formData, visitorType);
                db.t == old(db.t).(visitors := old(db.t.visitors) + [entry.(status := Verdict(decision))],
                                   serial := old(db.t.serial) + 1)
      ensures modes == old(modes) + [LOADING, mode]
    {
      mode := LOADING;
      modes := modes + [LOADING];
      if !insertOk {
        mode := FORM;
        modes := modes + [FORM];
        return;
      }
      var entry := db.InsertVisitor(sid.value, formData.flat, formData.name, formData.purpose, visitorType);
      SetStatusOfNewest(old(db.t.visitors), entry, Verdict(decision));
      db.UpdateVisitorStatus(entry.id, Verdict(decision));
      result := Some(decision);
      mode := RESULT;
      modes := modes + [RESULT];
    }

    /** The close button and NEXT VISITOR: back to SELECT with an empty form. */
    method Reset()
      requires Valid() && mode != SELECT && mode != ERROR
      modifies this
      ensures Valid()
      ensures mode == SELECT && formData == EmptyForm && result == None && searchStaff == ""
      ensures visitorType == old(visitorType) && staffList == old(staffList)
      ensures modes == old(modes) + [SELECT]
    {
      mode := SELECT;
      formData := EmptyForm;
      result := None;
      searchStaff := "";
      modes := modes + [SELECT];
    }

    /** ENTER / EXIT on a listed staff member: flips that row's status, writing
        nothing else (no `last_check_in` stamp), then resets. */
    method ToggleStaff(staff: Staff)
      requires Valid() && mode == STAFF
      requires staff in Listed(staffList, searchStaff)
      modifies this, db
      ensures Valid()
      ensures db.t == old(db.t).(staff := SetStaffStatus(old(db.t.staff), staff.id, Flip(staff.status)))
      ensures mode == SELECT && formData == EmptyForm && result == None && searchStaff == ""
      ensures visitorType == old(visitorType) && staffList == old(staffList)
      ensures modes == old(modes) + [SELECT]
    {
      db.UpdateStaffStatus(staff.id, Flip(staff.status));
      Reset();
    }
  }
}
