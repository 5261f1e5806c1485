// The registration record shared by the dashboard, the database editor, the
// export route and the registrations API.

module Records {

  /** A value that may be absent (`undefined` or `null` in the source). */
  datatype Option<+T> = None | Some(value: T) {
    function GetOr(default: T): T
    {
      match this
      case Some(v) => v
      case None => default
    }
  }

  /** Training status; any status may be changed to any other. */
  datatype Status = Upcoming | Pending | Completed

  /** The text the source stores and prints for a status. */
  function StatusName(s: Status): string
  {
    match s
    case Upcoming => "upcoming"
    case Pending => "pending"
    case Completed => "completed"
  }

  lemma StatusNameInjective(a: Status, b: Status)
    requires StatusName(a) == StatusName(b)
    ensures a == b
  {
  }

  /** One training sign-up. `id` is the store's `_id`; `callDateTime` is a
      timestamp in milliseconds (None when missing or not a date); the two
      program lists are None when the field is absent. */
  datatype Registration = Registration(
    id: string,
    ticketNo: Option<int>,
    fullName: string,
    email: string,
    phoneNumber: Option<string>,
    dob: Option<string>,
    experience: Option<string>,
    institution: Option<string>,
    callDateTime: Option<int>,
    hearAboutUs: Option<string>,
    currentProfession: Option<string>,
    specialization: Option<string>,
    learningGoals: Option<string>,
    trainingPrograms: Option<seq<string>>,
    additionalPrograms: Option<seq<string>>,
    uploadId: Option<string>,
    uploadName: Option<string>,
    status: Status,
    isExpired: bool)

  /** The ids of a list of records, as a set. */
  function IdSet(rs: seq<Registration>): (ids: set<string>)
    ensures forall i :: 0 <= i < |rs| ==> rs[i].id in ids
    ensures forall id :: id in ids ==> exists i :: 0 <= i < |rs| && rs[i].id == id
  {
    set r | r in rs :: r.id
  }
}
