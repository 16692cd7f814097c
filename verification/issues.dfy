/** The status badge colours of the issues table (src/components/Issues.tsx). */
module Issues {
  import opened Optional
  import opened Text
  import opened Types

  /** `getStatusColor`: this screen's colour for an issue status, ignoring case. */
  function StatusColor(status: string): (color: ColorScheme)
    ensures color in {Green, Yellow, Blue, Gray}
  {
    PhaseColor(ToLower(status))
  }

  /** The switch of `getStatusColor`, on the lower-cased status. */
  function PhaseColor(phase: string): (color: ColorScheme)
    ensures color in {Green, Yellow, Blue, Gray}
  {
    if phase == "active" then Green
    else if phase == "pending" then Yellow
    else if phase == "resolved" then Blue
    else Gray
  }

  /** The one lower-cased status given `color`, for the three colours besides gray. */
  function PhaseOf(color: ColorScheme): Option<string> {
    match color
    case Green => Some("active")
    case Yellow => Some("pending")
    case Blue => Some("resolved")
    case _ => None
  }

  /** Each colour other than gray belongs to exactly one status. */
  lemma PhaseColorInverse(phase: string, color: ColorScheme)
    requires color != Gray
    ensures PhaseColor(phase) == color <==> PhaseOf(color) == Some(phase)
  {
  }

  /** Every status other than "active", "pending" and "resolved" is gray. */
  lemma PhaseColorGray(phase: string)
    ensures PhaseColor(phase) == Gray <==> phase != "active" && phase != "pending" && phase != "resolved"
  {
  }

  /** Statuses that differ only in the case of their letters get the same colour. */
  lemma StatusColorIgnoresCase(s: string, t: string)
    requires ToLower(s) == ToLower(t)
    ensures StatusColor(s) == StatusColor(t)
    ensures StatusColor(s) == StatusColor(ToLower(s))
  {
  }

  /** "Active" is green, however it is capitalised in the data. */
  lemma ActiveIsGreen()
    ensures StatusColor("Active") == Green
  {
  }

  lemma StatusColorExamples()
    ensures StatusColor("pending") == Yellow
    ensures StatusColor("resolved") == Blue
  {
  }

  lemma InProgressIsGray()
    ensures StatusColor("in progress") == Gray
  {
  }
}
