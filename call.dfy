/** The call record and its disposition status (types/call.ts). */
module CallTypes {
  import opened Wrappers

  /** The four dispositions a call may be tagged with. */
  datatype CallStatus = Interested | NotAnswered | Rejected | FollowUp

  /** Every status, in the order the union type lists them. */
  const AllStatuses: seq<CallStatus> := [Interested, NotAnswered, Rejected, FollowUp]

  /** The string literal that stands for a status in the union type and in the stored JSON. */
  function StatusLabel(s: CallStatus): string
  {
    match s
    case Interested => "Interested"
    case NotAnswered => "Not Answered"
    case Rejected => "Rejected"
    case FollowUp => "Follow Up"
  }

  /** The status a string literal names, if it names one of the four. */
  function StatusFromLabel(text: string): (r: Option<CallStatus>)
    ensures r.Some? ==> StatusLabel(r.value) == text
    ensures r.None? ==> forall s: CallStatus :: StatusLabel(s) != text
  {
    if text == "Interested" then Some(Interested)
    else if text == "Not Answered" then Some(NotAnswered)
    else if text == "Rejected" then Some(Rejected)
    else if text == "Follow Up" then Some(FollowUp)
    else None
  }

  /** A status has exactly four values, with four distinct labels, and each label reads back as its status. */
  lemma StatusesExhaustive()
    ensures |AllStatuses| == 4
    ensures forall s: CallStatus :: s in AllStatuses
    ensures forall i, j :: 0 <= i < j < |AllStatuses| ==> StatusLabel(AllStatuses[i]) != StatusLabel(AllStatuses[j])
    ensures forall s: CallStatus :: StatusFromLabel(StatusLabel(s)) == Some(s)
  {
    forall s: CallStatus
      ensures s in AllStatuses
    {
      match s
      case Interested => assert AllStatuses[0] == s;
      case NotAnswered => assert AllStatuses[1] == s;
      case Rejected => assert AllStatuses[2] == s;
      case FollowUp => assert AllStatuses[3] == s;
    }
  }

  /** One logged call attempt: exactly five fields, `id` being the identity key. */
  datatype CallLog = CallLog(
    id: string,
    phoneNumber: string,
    callLabel: string,  // `label` in the source; a reserved word here
    status: CallStatus,
    timestamp: int)  // epoch milliseconds
}
