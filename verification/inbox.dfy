/**
  The derivations the inbox screen computes from the store (src/components/Inbox.tsx):
  sender resolution, message previews, issue badges and the reply-draft state.
 */
module Inbox {
  import opened Optional
  import opened Seqs
  import opened Text
  import opened Types

  /** `getConstituent`: the first constituent whose voter id is `id`. */
  function GetConstituent(cs: seq<Constituent>, id: string): (r: Option<Constituent>)
    ensures r.None? <==> forall j :: 0 <= j < |cs| ==> cs[j].voterId != id
    ensures r.Some? ==> exists i :: 0 <= i < |cs| && cs[i] == r.value && cs[i].voterId == id
                                   && forall j :: 0 <= j < i ==> cs[j].voterId != id
  {
    Find(cs, (c: Constituent) => c.voterId == id)
  }

  /** `i` is the position of the first constituent whose voter id is `id`. */
  predicate IsFirstWithVoterId(cs: seq<Constituent>, id: string, i: int) {
    0 <= i < |cs| && cs[i].voterId == id && forall j :: 0 <= j < i ==> cs[j].voterId != id
  }

  const UnknownConstituent: string := "Unknown Constituent"

  /** The bold sender line of a message in the list. */
  function SenderLabel(cs: seq<Constituent>, constituentId: string): (line: string)
    ensures (forall j :: 0 <= j < |cs| ==> cs[j].voterId != constituentId) ==>
              line == UnknownConstituent
    ensures forall i :: IsFirstWithVoterId(cs, constituentId, i) ==>
              line == cs[i].firstName + " " + cs[i].lastName
  {
    match GetConstituent(cs, constituentId)
    case Some(c) => c.firstName + " " + c.lastName
    case None => UnknownConstituent
  }

  /**
    The sender line above the open message: both name parts are read through
    optional chaining, so an unknown sender leaves only the separating space.
   */
  function DetailSenderName(cs: seq<Constituent>, constituentId: string): (name: string)
    ensures (forall j :: 0 <= j < |cs| ==> cs[j].voterId != constituentId) ==> name == " "
    ensures (exists j :: 0 <= j < |cs| && cs[j].voterId == constituentId) ==>
              name == SenderLabel(cs, constituentId)
  {
    match GetConstituent(cs, constituentId)
    case Some(c) => c.firstName + " " + c.lastName
    case None => " "
  }

  /** Longest first line shown unabridged in the message list. */
  const PreviewLimit: nat := 100

  /**
    `getPreviewText`: the text before the first newline, cut to 100 characters
    followed by "..." when it is longer than that.
   */
  function PreviewText(message: string): (preview: string)
    ensures '\n' !in preview
    ensures |preview| <= PreviewLimit + 3
  {
    var firstLine := Split(message, '\n')[0];
    if |firstLine| > PreviewLimit then firstLine[..PreviewLimit] + "..." else firstLine
  }

  /**
    The preview in terms of the message alone: with `n` the position of the
    first newline (or the length of a message with none), a first line of at
    most 100 characters is shown unchanged, and a longer one as its first
    100 characters followed by "...", 103 characters in all.
   */
  lemma PreviewTextOfFirstLine(message: string, n: nat)
    requires n <= |message| && '\n' !in message[..n]
    requires n < |message| ==> message[n] == '\n'
    ensures n <= PreviewLimit ==> PreviewText(message) == message[..n]
    ensures n > PreviewLimit ==> PreviewText(message) == message[..PreviewLimit] + "..."
    ensures n > PreviewLimit ==> |PreviewText(message)| == PreviewLimit + 3
  {
    FirstPartIsPrefixBefore(message, '\n', n);
  }

  /** `getStatusColor`: the badge colour for an issue status, ignoring case. */
  function StatusColor(status: string): (color: ColorScheme)
    ensures color != Gray ==> PhaseOf(color) == Some(ToLower(status))
    ensures color == Gray <==> forall c :: PhaseOf(c) != Some(ToLower(status))
  {
    PhaseColorGray(ToLower(status));
    PhaseColor(ToLower(status))
  }

  /** The switch of `getStatusColor`, on the lower-cased status. */
  function PhaseColor(phase: string): ColorScheme {
    // initial phases
    if phase == "new" then Gray
    else if phase == "needs constituent input" then Orange
    // planning phases
    else if phase == "implementation planning" then Blue
    else if phase == "resource allocation" then Cyan
    else if phase == "multi-agency coordination" then Teal
    // legislative phases
    else if phase == "legislation drafted" then Purple
    else if phase == "public review period" then Pink
    else if phase == "in committee" then LinkedIn
    else if phase == "scheduled for vote" then Facebook
    // active phases
    else if phase == "in progress" then Green
    else if phase == "blocked" then Red
    // closure phases
    else if phase == "resolved" then Gray
    else if phase == "referred" then Yellow
    else Gray
  }

  /**
    The one lower-cased status the switch gives `color`, for every colour but
    gray; gray is the colour of "new", of "resolved" and of every status the
    switch does not list.
   */
  function PhaseOf(color: ColorScheme): Option<string> {
    match color
    case Gray => None
    case Orange => Some("needs constituent input")
    case Blue => Some("implementation planning")
    case Cyan => Some("resource allocation")
    case Teal => Some("multi-agency coordination")
    case Purple => Some("legislation drafted")
    case Pink => Some("public review period")
    case LinkedIn => Some("in committee")
    case Facebook => Some("scheduled for vote")
    case Green => Some("in progress")
    case Red => Some("blocked")
    case Yellow => Some("referred")
  }

  /** Each colour other than gray belongs to exactly one workflow phase. */
  lemma PhaseColorInverse(phase: string, color: ColorScheme)
    requires color != Gray
    ensures PhaseColor(phase) == color <==> PhaseOf(color) == Some(phase)
  {
    PhaseOfIsColored(color);
    PhaseColorIsColored(phase);
  }

  lemma PhaseOfIsColored(color: ColorScheme)
    ensures PhaseOf(color).Some? ==> PhaseColor(PhaseOf(color).value) == color
  {
  }

  lemma PhaseColorIsColored(phase: string)
    ensures PhaseColor(phase) != Gray ==> PhaseOf(PhaseColor(phase)) == Some(phase)
  {
  }

  /** Gray is the colour of exactly the statuses no other colour claims. */
  lemma PhaseColorGray(phase: string)
    ensures PhaseColor(phase) == Gray <==> forall c :: PhaseOf(c) != Some(phase)
  {
    if PhaseColor(phase) != Gray {
      PhaseColorIsColored(phase);
    } else {
      forall c | PhaseOf(c).Some?
        ensures PhaseOf(c) != Some(phase)
      {
        PhaseOfIsColored(c);
      }
    }
  }

  /** Statuses that differ only in the case of their letters get the same colour. */
  lemma StatusColorIgnoresCase(s: string, t: string)
    requires ToLower(s) == ToLower(t)
    ensures StatusColor(s) == StatusColor(t)
    ensures StatusColor(s) == StatusColor(ToLower(s))
  {
    ToLowerIdempotent(s);
  }

  /** "In Progress" is green, however it is capitalised in the data. */
  lemma InProgressIsGreen()
    ensures StatusColor("In Progress") == Green
    ensures StatusColor("in progress") == Green
  {
    LowerInProgress();
    LowerStatusColor("in progress");
    calc {
      StatusColor("In Progress");
      PhaseColor(ToLower("In Progress"));
      { LowerInProgress(); }
      PhaseColor("in progress");
    }
  }

  lemma LowerInProgress()
    ensures ToLower("In Progress") == "in progress"
  {
    ToLowerCapitalised('I', "n ");
    ToLowerCapitalised('P', "rogress");
    assert "In Progress" == ['I'] + "n " + (['P'] + "rogress");
    ToLowerConcat(['I'] + "n ", ['P'] + "rogress");
  }

  lemma ReferredIsYellow()
    ensures StatusColor("Referred") == Yellow
  {
    calc {
      StatusColor("Referred");
      PhaseColor(ToLower("Referred"));
      { assert "Referred" == ['R'] + "eferred";
        ToLowerCapitalised('R', "eferred"); }
      PhaseColor("referred");
    }
  }

  /** A status already in lower case is coloured by the switch directly. */
  lemma LowerStatusColor(phase: string)
    requires IsLower(phase)
    ensures StatusColor(phase) == PhaseColor(phase)
  {
    ToLowerFixesExactlyLower(phase);
  }

  lemma BlockedIsRed()
    ensures StatusColor("blocked") == Red
  {
    LowerStatusColor("blocked");
  }

  /** "new" and "resolved" share gray, the colour of every unlisted status. */
  lemma NewAndResolvedAreGray()
    ensures StatusColor("new") == Gray
    ensures StatusColor("resolved") == Gray
  {
    NewIsGray();
    ResolvedIsGray();
  }

  lemma NewIsGray()
    ensures StatusColor("new") == Gray
  {
    LowerStatusColor("new");
  }

  lemma ResolvedIsGray()
    ensures StatusColor("resolved") == Gray
  {
    LowerStatusColor("resolved");
  }

  /** The empty status, which a missing linked issue is coloured as, is gray. */
  lemma EmptyStatusIsGray()
    ensures StatusColor("") == Gray
  {
  }

  /** `context.issues.find(...)` for a linked issue id. */
  function FindIssue(issues: seq<Issue>, id: string): (r: Option<Issue>)
    ensures r.None? <==> forall j :: 0 <= j < |issues| ==> issues[j].issueId != id
    ensures r.Some? ==> exists i :: 0 <= i < |issues| && issues[i] == r.value && issues[i].issueId == id
                                   && forall j :: 0 <= j < i ==> issues[j].issueId != id
  {
    Find(issues, (i: Issue) => i.issueId == id)
  }

  const UnknownIssue: string := "Unknown Issue"

  datatype IssueBadge = IssueBadge(text: string, color: ColorScheme)

  /**
    The badge for one linked issue. Both reads use `||`, so an empty title
    falls back to "Unknown Issue" just as a missing issue does, and an empty
    or missing status is coloured as `""`.
   */
  function LinkedIssueBadge(issues: seq<Issue>, linked: LinkedIssue): (badge: IssueBadge)
    ensures (forall j :: 0 <= j < |issues| ==> issues[j].issueId != linked.issueId) ==>
              badge == IssueBadge(UnknownIssue, Gray)
    ensures forall i :: (0 <= i < |issues| && issues[i].issueId == linked.issueId &&
                         (forall j :: 0 <= j < i ==> issues[j].issueId != linked.issueId)) ==>
              && badge.color == StatusColor(issues[i].status)
              && badge.text == (if issues[i].title == "" then UnknownIssue else issues[i].title)
  {
    var issue := FindIssue(issues, linked.issueId);
    var status := if issue.Some? && issue.value.status != "" then issue.value.status else "";
    var title := if issue.Some? && issue.value.title != "" then issue.value.title else UnknownIssue;
    EmptyStatusIsGray();
    IssueBadge(title, StatusColor(status))
  }

  /** The screen-local state: the open message and the reply being edited. */
  datatype InboxView = InboxView(selected: Option<Communication>, editedReply: string)

  const InitialView: InboxView := InboxView(None, "")

  /** `handleSelectMessage`: open `comm` and seed the reply editor with its draft. */
  function SelectMessage(v: InboxView, comm: Communication): (r: InboxView)
    ensures r.selected == Some(comm)
    ensures r.editedReply == comm.draftReply
  {
    v.(selected := Some(comm), editedReply := comm.draftReply)
  }

  /** Typing in the reply editor replaces the edited text and nothing else. */
  function EditReply(v: InboxView, text: string): (r: InboxView)
    ensures r.selected == v.selected
    ensures r.editedReply == text
  {
    v.(editedReply := text)
  }

  /** Whether the list row of `comm` is highlighted: ids are compared, not records. */
  function IsHighlighted(v: InboxView, comm: Communication): (on: bool)
    ensures v.selected.None? ==> !on
    ensures v.selected == Some(comm) ==> on
  {
    v.selected.Some? && v.selected.value.communicationId == comm.communicationId
  }

  /**
    Selecting a message forgets everything about the earlier view: re-opening
    a message after editing its reply restores the stored draft, and exactly
    the rows with the opened message's id are highlighted.
   */
  lemma SelectMessageResetsView(v: InboxView, w: InboxView, comm: Communication, text: string, other: Communication)
    ensures SelectMessage(v, comm) == SelectMessage(w, comm)
    ensures SelectMessage(EditReply(SelectMessage(v, comm), text), comm) == SelectMessage(v, comm)
    ensures IsHighlighted(SelectMessage(v, comm), other) <==> other.communicationId == comm.communicationId
  {
  }
}
