/**
 * The emergency command centre: three alert buttons that raise a full-screen
 * alert and record it in the society's emergency log, and the ten most
 * recent alerts.
 */
module EmergencyPanel {
  import opened Wrappers
  import opened Types
  import opened Lists
  import opened Store

  /** One alert button: its kind and the description recorded with it. */
  datatype AlertButton = AlertButton(kind: EmergencyKind, description: string)

  const Buttons: seq<AlertButton> := [
    AlertButton(FIRE, "Fire detected in building"),
    AlertButton(MEDICAL, "Medical emergency - Ambulance needed"),
    AlertButton(THEFT, "Intruder or theft reported")
  ]

  /** The description the panel records for each kind. */
  function Description(kind: EmergencyKind): (d: string)
    ensures AlertButton(kind, d) in Buttons
  {
    match kind
    case FIRE => Buttons[0].description
    case MEDICAL => Buttons[1].description
    case THEFT => Buttons[2].description
  }

  /** Each kind has exactly one button, and the descriptions differ. */
  lemma ButtonsOnePerKind(i: nat, j: nat)
    requires i < |Buttons| && j < |Buttons|
    ensures Buttons[i].kind == Buttons[j].kind <==> i == j
    ensures Buttons[i].description == Buttons[j].description <==> i == j
  {
    if i != j {
      assert Buttons[i].description[0] != Buttons[j].description[0];
    }
  }

  const HistoryLimit := 10

  /** `fetchEmergencyHistory`: this society's ten newest alerts (or all of
      them when there are fewer), newest first. */
  function History(t: Tables, sid: SocietyId): (r: seq<Emergency>)
    ensures |r| == if |Scoped(t.emergencies, EmergencySociety, sid)| < HistoryLimit
                   then |Scoped(t.emergencies, EmergencySociety, sid)| else HistoryLimit
    ensures forall e :: e in r ==> e in t.emergencies && e.society_id == sid
    ensures WellFormed(t) ==> Descending(r, EmergencyTime)
    ensures WellFormed(t) ==>
              forall e :: e in t.emergencies && e.society_id == sid && e !in r ==>
                |Scoped(t.emergencies, EmergencySociety, sid)| > HistoryLimit
                && e.created_at < r[HistoryLimit - 1].created_at
  {
    NewestFirstTake(t.emergencies, EmergencySociety, sid, EmergencyTime, HistoryLimit);
    Take(NewestFirst(t.emergencies, EmergencySociety, sid), HistoryLimit)
  }

  /** A just-recorded alert heads the history. */
  lemma TriggeredOnTop(t: Tables, e: Emergency)
    ensures |History(t.(emergencies := t.emergencies + [e]), e.society_id)| > 0
    ensures History(t.(emergencies := t.emergencies + [e]), e.society_id)[0] == e
  {
    NewestFirstAppend(t.emergencies, e, EmergencySociety, e.society_id);
  }

  class Panel {
    const db: Db
    const societyId: SocietyId
    var activeAlert: Option<EmergencyKind>
    var history: seq<Emergency>

    ghost predicate Valid()
      reads this, db
    {
      db.Valid()
    }

    constructor (db: Db, societyId: SocietyId)
      requires db.Valid()
      ensures Valid()
      ensures this.db == db && this.societyId == societyId
      ensures activeAlert == None
      ensures history == (if societyId != "" then History(db.t, societyId) else [])
    {
      this.db := db;
      this.societyId := societyId;
      activeAlert := None;
      history := [];
      if societyId != "" {
        history := History(db.t, societyId);
      }
    }

    /** An alert button: raises the alert and appends one row to the log;
        nothing already in the log changes. */
    method HandleTrigger(button: AlertButton)
      requires Valid() && button in Buttons
      modifies this, db
      ensures Valid()
      ensures activeAlert == Some(button.kind)
      ensures var e := Emergency(old(db.t.serial), societyId, button.kind, Description(button.kind), old(db.t.serial));
              && db.t == old(db.t).(emergencies := old(db.t.emergencies) + [e], serial := old(db.t.serial) + 1)
              && history == History(db.t, societyId)
              && history[0] == e
      ensures old(db.t.emergencies) <= db.t.emergencies
    {
      activeAlert := Some(button.kind);
      var e := db.InsertEmergency(societyId, button.kind, button.description);
      TriggeredOnTop(old(db.t), e);
      history := History(db.t, societyId);
    }

    /** DISMISS & RESET. */
    method Dismiss()
      requires Valid()
      modifies this
      ensures Valid()
      ensures activeAlert == None && history == old(history)
    {
      activeAlert := None;
    }
  }
}
