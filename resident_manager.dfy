/**
 * The residents register: onboarding a resident with their flat and WhatsApp
 * number, and editing an existing one in the same form.
 */
module ResidentManager {
  import opened Wrappers
  import opened Types
  import opened Lists
  import opened Store

  datatype ResidentForm = ResidentForm(name: string, flat_number: string, whatsapp_number: string)

  const EmptyResidentForm := ResidentForm("", "", "")

  function FlatNumber(r: Resident): string { r.flat_number }

  /** `fetchResidents`: this society's residents, and only them, ordered by flat number. */
  function ResidentList(t: Tables, sid: SocietyId): (r: seq<Resident>)
    ensures SortedBy(r, FlatNumber)
    ensures multiset(r) == multiset(Scoped(t.residents, ResidentSociety, sid))
  {
    SortBy(Scoped(t.residents, ResidentSociety, sid), FlatNumber)
  }

  /** The form `handleEdit` fills from a resident. */
  function FormOf(r: Resident): (f: ResidentForm)
    ensures f.name == r.name && f.flat_number == r.flat_number && f.whatsapp_number == r.whatsapp_number
  {
    ResidentForm(r.name, r.flat_number, r.whatsapp_number)
  }

  /** Saving an edit of a stored resident without changing the form leaves
      the table as it was, because ids are unique. */
  lemma EditSaveUnchanged(rows: seq<Resident>, r: Resident)
    requires Ascending(rows, ResidentKey)
    requires r in rows
    ensures UpdateResidentRow(rows, r.id, FormOf(r).name, FormOf(r).flat_number, FormOf(r).whatsapp_number) == rows
  {
    var u := UpdateResidentRow(rows, r.id, r.name, r.flat_number, r.whatsapp_number);
    var k :| 0 <= k < |rows| && rows[k] == r;
    forall i | 0 <= i < |rows|
      ensures u[i] == rows[i]
    {
      if rows[i].id == r.id {
        AscendingUnique(rows, ResidentKey, i, k);
      }
    }
  }

  /** Saving an edit changes only the edited row, and the number of rows stays the same. */
  lemma EditSaveTouchesOne(rows: seq<Resident>, id: Id, f: ResidentForm, i: nat)
    requires i < |rows|
    ensures |UpdateResidentRow(rows, id, f.name, f.flat_number, f.whatsapp_number)| == |rows|
    ensures rows[i].id == id ==>
              var u := UpdateResidentRow(rows, id, f.name, f.flat_number, f.whatsapp_number)[i];
              FormOf(u) == f && u.id == id && u.society_id == rows[i].society_id
    ensures rows[i].id != id ==> UpdateResidentRow(rows, id, f.name, f.flat_number, f.whatsapp_number)[i] == rows[i]
  {
  }

  class Register {
    const db: Db
    const societyId: SocietyId
    var residents: seq<Resident>
    var loading: bool
    var editingId: Option<Id>
    var formData: ResidentForm

    ghost predicate Valid()
      reads this, db
    {
      db.Valid()
    }

    constructor (db: Db, societyId: SocietyId)
      requires db.Valid()
      ensures Valid()
      ensures this.db == db && this.societyId == societyId
      ensures residents == (if societyId != "" then ResidentList(db.t, societyId) else [])
      ensures loading == (societyId == "")
      ensures editingId == None && formData == EmptyResidentForm
    {
      this.db := db;
      this.societyId := societyId;
      editingId := None;
      formData := EmptyResidentForm;
      residents := [];
      loading := true;
      if societyId != "" {
        residents := ResidentList(db.t, societyId);
        loading := false;
      }
    }

    method FetchResidents()
      requires Valid()
      modifies this
      ensures Valid()
      ensures residents == ResidentList(db.t, societyId) && !loading
      ensures editingId == old(editingId) && formData == old(formData)
    {
      residents := ResidentList(db.t, societyId);
      loading := false;
    }

    /** Typing into the form. */
    method EditForm(f: ResidentForm)
      requires Valid()
      modifies this
      ensures Valid()
      ensures formData == f
      ensures editingId == old(editingId) && residents == old(residents) && loading == old(loading)
    {
      formData := f;
    }

    /** UPDATE / SAVE RESIDENT: all three inputs are required. With an
        `editingId` the row is overwritten, otherwise a row is inserted. */
    method HandleSave()
      requires Valid()
      requires formData.name != "" && formData.flat_number != "" && formData.whatsapp_number != ""
      modifies this, db
      ensures Valid()
      ensures old(editingId).Some? ==>
                db.t == old(db.t).(residents := UpdateResidentRow(old(db.t.residents), old(editingId).value,
                                                                  old(formData).name, old(formData).flat_number,
                                                                  old(formData).whatsapp_number))
      ensures old(editingId).None? ==>
                db.t == old(db.t).(residents := old(db.t.residents)
                                     + [Resident(old(db.t.serial), societyId, old(formData).flat_number,
                                                 old(formData).name, old(formData).whatsapp_number)],
                                   serial := old(db.t.serial) + 1)
      ensures formData == EmptyResidentForm && editingId == None
      ensures residents == ResidentList(db.t, societyId) && !loading
    {
      if editingId.Some? {
        db.UpdateResident(editingId.value, formData.name, formData.flat_number, formData.whatsapp_number);
      } else {
        var _ := db.InsertResident(societyId, formData.name, formData.flat_number, formData.whatsapp_number);
      }
      formData := EmptyResidentForm;
      editingId := None;
      FetchResidents();
    }

    /** The edit button on a listed resident. */
    method HandleEdit(r: Resident)
      requires Valid() && r in residents
      modifies this
      ensures Valid()
      ensures editingId == Some(r.id) && formData == FormOf(r)
      ensures residents == old(residents) && loading == old(loading)
    {
      editingId := Some(r.id);
      formData := FormOf(r);
    }

    /** The cancel button, shown while editing. */
    method Cancel()
      requires Valid() && editingId.Some?
      modifies this
      ensures Valid()
      ensures editingId == None && formData == EmptyResidentForm
      ensures residents == old(residents) && loading == old(loading)
    {
      editingId := None;
      formData := EmptyResidentForm;
    }
  }
}
