/**
 * The row shapes and the closed sets of values of the gate-management
 * application: one datatype per table row, one per enumeration.
 */
module Types {
  import opened Wrappers

  /** Row ids, assigned by the database. */
  type Id = nat

  /** Creation and check-in times, as the database's clock reads them. */
  type Timestamp = nat

  /** A society (tenant) id; every child row is scoped by one. */
  type SocietyId = string

  datatype VisitorStatus = PENDING | APPROVED | REJECTED | CHECKED_IN | CHECKED_OUT

  /** The `visitor_type` column; `StaffVisitor` is the value written 'Staff'. */
  datatype VisitorType = Guest | Delivery | Maintenance | StaffVisitor

  /** A staff member's attendance flag. */
  datatype StaffStatus = In | Out

  /** The three alert kinds an administrator can broadcast. */
  datatype EmergencyKind = FIRE | MEDICAL | THEFT

  datatype Society = Society(id: SocietyId, name: string, city: string)

  datatype Resident = Resident(
    id: Id,
    society_id: SocietyId,
    flat_number: string,
    name: string,
    whatsapp_number: string)

  datatype VisitorEntry = VisitorEntry(
    id: Id,
    society_id: SocietyId,
    resident_id: Option<Id>,
    flat_number: string,
    visitor_name: string,
    purpose: string,
    status: VisitorStatus,
    visitor_type: VisitorType,
    created_at: Timestamp)

  datatype Staff = Staff(
    id: Id,
    society_id: SocietyId,
    name: string,
    role: string,
    phone: string,
    flats: seq<string>,
    photo: Option<string>,
    status: StaffStatus,
    last_check_in: Option<Timestamp>)

  datatype Notice = Notice(
    id: Id,
    society_id: SocietyId,
    title: string,
    content: string,
    author: string,
    created_at: Timestamp)

  datatype Emergency = Emergency(
    id: Id,
    society_id: SocietyId,
    kind: EmergencyKind,
    description: string,
    created_at: Timestamp)

  /** The test every screen uses to tell deliveries from other visitors. */
  predicate IsDelivery(e: VisitorEntry) {
    e.visitor_type == Delivery
  }

  /** The In/Out toggle shared by the gate terminal and the staff register. */
  function Flip(s: StaffStatus): (r: StaffStatus)
    ensures r != s
  {
    if s == In then Out else In
  }
}
