/** The ten lifecycle statuses of a job application, shared by the classifier, the jobs route
    and the kanban board, with their wire names. */
module Statuses {
  import opened Wrappers

  datatype Status =
    | Applied | InReview | Assessment | PhoneScreen | Interview
    | Onsite | Offer | Rejected | Withdrawn | Ghosted
  {
    function Name(): string {
      match this
      case Applied => "Applied"
      case InReview => "InReview"
      case Assessment => "Assessment"
      case PhoneScreen => "PhoneScreen"
      case Interview => "Interview"
      case Onsite => "Onsite"
      case Offer => "Offer"
      case Rejected => "Rejected"
      case Withdrawn => "Withdrawn"
      case Ghosted => "Ghosted"
    }
  }

  /** The statuses in declaration order: the order of the classifier's keyword table, of the
      jobs route's allow-list and of the kanban columns. */
  const AllStatuses: seq<Status> :=
    [Applied, InReview, Assessment, PhoneScreen, Interview, Onsite, Offer, Rejected, Withdrawn, Ghosted]

  /** The wire names, in the same order (the jobs route's allow-list and the kanban columns). */
  const StatusNames: seq<string> :=
    ["Applied", "InReview", "Assessment", "PhoneScreen", "Interview",
     "Onsite", "Offer", "Rejected", "Withdrawn", "Ghosted"]

  lemma NamesInOrder()
    ensures |StatusNames| == |AllStatuses|
    ensures forall i :: 0 <= i < |StatusNames| ==> StatusNames[i] == AllStatuses[i].Name()
  {
  }

  /** Reads a wire name back; any other string is not a status. */
  function FromName(s: string): (r: Option<Status>)
    ensures r.Some? <==> s in StatusNames
    ensures r.Some? ==> r.value.Name() == s
  {
    if s == "Applied" then Some(Applied)
    else if s == "InReview" then Some(InReview)
    else if s == "Assessment" then Some(Assessment)
    else if s == "PhoneScreen" then Some(PhoneScreen)
    else if s == "Interview" then Some(Interview)
    else if s == "Onsite" then Some(Onsite)
    else if s == "Offer" then Some(Offer)
    else if s == "Rejected" then Some(Rejected)
    else if s == "Withdrawn" then Some(Withdrawn)
    else if s == "Ghosted" then Some(Ghosted)
    else None
  }

  lemma NameRoundTrip(st: Status)
    ensures FromName(st.Name()) == Some(st)
  {
  }

  lemma NamesDistinct()
    ensures forall i, j :: 0 <= i < j < |StatusNames| ==> StatusNames[i] != StatusNames[j]
  {
  }
}
