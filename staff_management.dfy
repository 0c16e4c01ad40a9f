/**
 * The admin's register of regular staff (maids, drivers, cooks): adding a
 * member with the flats they serve, and marking them In or Out with the time
 * of their last check-in.
 */
module StaffManagement {
  import opened Wrappers
  import opened Types
  import opened Text
  import opened Lists
  import opened Store

  /** The add-staff form; `flats` is the free-text "101, 202..." field. */
  datatype NewStaffForm = NewStaffForm(name: string, role: string, phone: string, flats: string)

  const EmptyNewStaff := NewStaffForm("", "", "", "")

  predicate NonBlank(f: string) {
    f != ""
  }

  /** `pieces.map(f => f.trim()).filter(f => f !== '')`. */
  function Clean(pieces: seq<string>): (r: seq<string>)
    ensures forall f :: f in r ==> f != "" && IsTrimmed(f)
    ensures forall f :: f in r ==> exists p :: p in pieces && f == Trim(p)
  {
    var trimmed := Map(pieces, Trim);
    var r := Filter(trimmed, NonBlank);
    assert forall f :: f in trimmed ==> exists i :: 0 <= i < |pieces| && f == Trim(pieces[i]);
    r
  }

  /** The assigned-flats field as stored: split at commas, each piece
      trimmed, empty pieces dropped. */
  function ParseFlats(text: string): (r: seq<string>)
    ensures forall f :: f in r ==> f != "" && IsTrimmed(f) && ',' !in f
  {
    var pieces := Split(text, ',');
    var r := Clean(pieces);
    assert forall f :: f in r ==> ',' !in f by {
      forall f | f in r
        ensures ',' !in f
      {
        var p :| p in pieces && f == Trim(p);
      }
    }
    r
  }

  /** Cleaning a piece in front of others. */
  lemma CleanCons(p: string, ps: seq<string>)
    ensures Clean([p] + ps) == (if Trim(p) != "" then [Trim(p)] else []) + Clean(ps)
  {
    assert ([p] + ps)[1..] == ps;
    assert Map([p] + ps, Trim) == [Trim(p)] + Map(ps, Trim);
    assert (Map([p] + ps, Trim))[1..] == Map(ps, Trim);
  }

  /** A single space in front of a trimmed flat is dropped by `trim`. */
  lemma TrimPadded(pad: string, f: string)
    requires pad == "" || pad == " "
    requires IsTrimmed(f)
    ensures Trim(pad + f) == f
  {
    TrimTrimmed(f);
    if pad == " " {
      TrimSkipsSpace(' ', f);
      assert [' '] + f == pad + f;
    }
  }

  /** The text after the last flat. */
  lemma ParseJoinedLast(pad: string, f: string)
    requires pad == "" || pad == " "
    requires f != "" && IsTrimmed(f) && ',' !in f
    ensures Clean(Split(pad + f, ',')) == [f]
  {
    TrimPadded(pad, f);
    SplitNoSeparator(pad + f, ',');
    CleanCons(pad + f, []);
  }

  /** One flat followed by a comma and the rest. */
  lemma ParseJoinedStep(pad: string, f: string, tail: string)
    requires pad == "" || pad == " "
    requires f != "" && IsTrimmed(f) && ',' !in f
    ensures Clean(Split(pad + f + [','] + tail, ',')) == [f] + Clean(Split(tail, ','))
  {
    TrimPadded(pad, f);
    SplitAtSeparator(pad + f, ',', tail);
    CleanCons(pad + f, Split(tail, ','));
  }

  /** Moving the ", " separator between two strings: a comma ends the first, a space starts the second. */
  lemma Regroup(pad: string, a: string, j: string)
    ensures pad + ((a + ", ") + j) == ((pad + a) + [',']) + (" " + j)
  {
    assert ", " == [','] + " ";
    calc {
      pad + ((a + ", ") + j);
      { assert (a + ", ") + j == a + (", " + j); }
      pad + (a + (", " + j));
      { assert ([','] + " ") + j == [','] + (" " + j); }
      pad + (a + ([','] + (" " + j)));
      { assert (a + [',']) + (" " + j) == a + ([','] + (" " + j)); }
      pad + ((a + [',']) + (" " + j));
      { assert (pad + (a + [','])) + (" " + j) == pad + ((a + [',']) + (" " + j)); }
      (pad + (a + [','])) + (" " + j);
      { assert (pad + a) + [','] == pad + (a + [',']); }
      ((pad + a) + [',']) + (" " + j);
    }
  }

  /** Joining with ", " is the first flat, a comma, and a space before the rest. */
  lemma JoinRegroup(pad: string, flats: seq<string>)
    requires |flats| >= 2
    ensures pad + Join(flats, ", ") == pad + flats[0] + [','] + (" " + Join(flats[1..], ", "))
  {
    Regroup(pad, flats[0], Join(flats[1..], ", "));
  }

  /** Flats joined with ", ", possibly after one space, parse back to the flats. */
  lemma {:induction false} ParseJoined(pad: string, flats: seq<string>)
    requires pad == "" || pad == " "
    requires forall f :: f in flats ==> f != "" && IsTrimmed(f) && ',' !in f
    ensures Clean(Split(pad + Join(flats, ", "), ',')) == flats
    decreases flats
  {
    if flats == [] {
      ParseJoinedEmpty(pad);
    } else if |flats| == 1 {
      assert flats[0] in flats;
      ParseJoinedLast(pad, flats[0]);
    } else {
      var f, rest := flats[0], flats[1..];
      assert f in flats;
      var tail := " " + Join(rest, ", ");
      assert forall x :: x in rest ==> x in flats;
      calc {
        Clean(Split(pad + Join(flats, ", "), ','));
        { JoinRegroup(pad, flats); }
        Clean(Split(pad + f + [','] + tail, ','));
        { ParseJoinedStep(pad, f, tail); }
        [f] + Clean(Split(tail, ','));
        { ParseJoined(" ", rest); }
        [f] + rest;
      }
    }
  }

  /** Nothing but padding parses to no flats. */
  lemma ParseJoinedEmpty(pad: string)
    requires pad == "" || pad == " "
    ensures Clean(Split(pad + Join([], ", "), ',')) == []
  {
    assert pad + Join([], ", ") == pad;
    SplitNoSeparator(pad, ',');
    TrimPadded(pad, "");
    CleanCons(pad, []);
  }

  /** Flats shown joined with ", " parse back to the same list. */
  lemma ParseFlatsRoundTrip(flats: seq<string>)
    requires forall f :: f in flats ==> f != "" && IsTrimmed(f) && ',' !in f
    ensures ParseFlats(Join(flats, ", ")) == flats
  {
    ParseJoined("", flats);
    assert "" + Join(flats, ", ") == Join(flats, ", ");
  }

  /** Toggling twice restores the status. */
  lemma FlipInvolutive(s: StaffStatus)
    ensures Flip(Flip(s)) == s
  {
  }

  /** The `last_check_in` written with a new status: now when checking in,
      the previous stamp when checking out. */
  function CheckInStamp(newStatus: StaffStatus, now: Timestamp, previous: Option<Timestamp>): (r: Option<Timestamp>)
    ensures newStatus == In ==> r == Some(now)
    ensures newStatus == Out ==> r == previous
  {
    if newStatus == In then Some(now) else previous
  }

  /** The row a toggle leaves behind: the status flipped, the stamp taken when
      checking in, every other column as it was. */
  lemma ToggledRow(rows: seq<Staff>, staff: Staff, now: Timestamp, i: nat)
    requires i < |rows| && rows[i].id == staff.id
    ensures var r := SetStaffAttendance(rows, staff.id, Flip(staff.status),
                                        CheckInStamp(Flip(staff.status), now, staff.last_check_in))[i];
            && r.status != staff.status
            && (staff.status == Out ==> r.last_check_in == Some(now))
            && (staff.status == In ==> r.last_check_in == staff.last_check_in)
            && r.id == rows[i].id && r.name == rows[i].name && r.flats == rows[i].flats
  {
  }

  /** The staff row `handleAddStaff` inserts: status Out and the parsed flats. */
  function NewStaffRow(id: Id, sid: SocietyId, form: NewStaffForm): (r: Staff)
    ensures r.status == Out && r.last_check_in == None && r.society_id == sid
    ensures forall f :: f in r.flats ==> f != "" && IsTrimmed(f) && ',' !in f
  {
    Staff(id, sid, form.name, form.role, form.phone, ParseFlats(form.flats), None, Out, None)
  }

  class StaffRegister {
    const db: Db
    const societyId: SocietyId
    var staffList: seq<Staff>
    var loading: bool
    var showAddForm: bool
    var newStaff: NewStaffForm

    ghost predicate Valid()
      reads this, db
    {
      db.Valid()
    }

    /** Mounting the register: the list is loaded only for a non-empty society id. */
    constructor (db: Db, societyId: SocietyId)
      requires db.Valid()
      ensures Valid()
      ensures this.db == db && this.societyId == societyId
      ensures staffList == (if societyId != "" then StaffRoster(db.t, societyId) else [])
      ensures loading == (societyId == "")
      ensures !showAddForm && newStaff == EmptyNewStaff
    {
      this.db := db;
      this.societyId := societyId;
      showAddForm := false;
      newStaff := EmptyNewStaff;
      staffList := [];
      loading := true;
      if societyId != "" {
        staffList := StaffRoster(db.t, societyId);
        loading := false;
      }
    }

    /** `fetchStaff`. */
    method FetchStaff()
      requires Valid()
      modifies this
      ensures Valid()
      ensures staffList == StaffRoster(db.t, societyId) && !loading
      ensures showAddForm == old(showAddForm) && newStaff == old(newStaff)
    {
      staffList := StaffRoster(db.t, societyId);
      loading := false;
    }

    /** ADD NEW STAFF / CANCEL. */
    method ToggleAddForm()
      requires Valid()
      modifies this
      ensures Valid()
      ensures showAddForm == !old(showAddForm)
      ensures staffList == old(staffList) && loading == old(loading) && newStaff == old(newStaff)
    {
      showAddForm := !showAddForm;
    }

    /** Typing into the add form. */
    method EditNewStaff(form: NewStaffForm)
      requires Valid() && showAddForm
      modifies this
      ensures Valid()
      ensures newStaff == form
      ensures staffList == old(staffList) && loading == old(loading) && showAddForm == old(showAddForm)
    {
      newStaff := form;
    }

    /** SAVE STAFF: the name, role and phone inputs are required; flats are not. */
    method HandleAddStaff()
      requires Valid() && showAddForm
      requires newStaff.name != "" && newStaff.role != "" && newStaff.phone != ""
      modifies this, db
      ensures Valid()
      ensures db.t == old(db.t).(staff := old(db.t.staff) + [NewStaffRow(old(db.t.serial), societyId, old(newStaff))],
                                 serial := old(db.t.serial) + 1)
      ensures newStaff == EmptyNewStaff && !showAddForm
      ensures staffList == StaffRoster(db.t, societyId) && !loading
      ensures NewStaffRow(old(db.t.serial), societyId, old(newStaff)) in staffList
    {
      var row := db.InsertStaff(societyId, newStaff.name, newStaff.role, newStaff.phone, ParseFlats(newStaff.flats), Out);
      assert row == NewStaffRow(old(db.t.serial), societyId, old(newStaff));
      newStaff := EmptyNewStaff;
      showAddForm := false;
      FetchStaff();
      assert row == db.t.staff[|db.t.staff| - 1];
      OnRoster(db.t, row, societyId);
    }

    /** The In/Out button on a listed member; `now` is the clock. */
    method ToggleStatus(staff: Staff, now: Timestamp)
      requires Valid() && staff in staffList
      modifies this, db
      ensures Valid()
      ensures db.t == old(db.t).(staff := SetStaffAttendance(old(db.t.staff), staff.id, Flip(staff.status),
                                                             CheckInStamp(Flip(staff.status), now, staff.last_check_in)))
      ensures staffList == StaffRoster(db.t, societyId) && !loading
      ensures showAddForm == old(showAddForm) && newStaff == old(newStaff)
    {
      var newStatus := Flip(staff.status);
      var lastCheckIn := CheckInStamp(newStatus, now, staff.last_check_in);
      db.UpdateStaffAttendance(staff.id, newStatus, lastCheckIn);
      FetchStaff();
    }
  }
}
