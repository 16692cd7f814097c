/**
  The inbox and the issues table colour the same issue statuses with two
  unrelated switches.
 */
module StatusTables {
  import opened Text
  import opened Types
  import Inbox
  import Issues

  /**
    The two screens never agree on a colour other than gray: every status
    that one of them colours is gray on the other.
   */
  lemma TablesNeverShareAColour(status: string)
    ensures Inbox.StatusColor(status) == Gray || Issues.StatusColor(status) == Gray
  {
    var phase := ToLower(status);
    Issues.PhaseColorGray(phase);
    if Issues.PhaseColor(phase) != Gray {
      assert phase == "active" || phase == "pending" || phase == "resolved";
    }
  }

  /** "resolved" is blue on the issues table and gray in the inbox; "in progress" the other way. */
  lemma TablesDisagree()
    ensures Issues.StatusColor("resolved") == Blue && Inbox.StatusColor("resolved") == Gray
    ensures Inbox.StatusColor("in progress") == Green && Issues.StatusColor("in progress") == Gray
  {
    Issues.StatusColorExamples();
    Inbox.NewAndResolvedAreGray();
    Issues.InProgressIsGray();
    Inbox.InProgressIsGreen();
  }
}
