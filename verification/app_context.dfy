/**
  The in-memory store behind `AppContextProvider` (src/contexts/AppContext.tsx):
  three collections that start empty and only ever grow by appending.
  Each operation is a transition from one state to the next.
 */
module AppContext {
  import opened Types

  datatype AppState = AppState(
    constituents: seq<Constituent>,
    issues: seq<Issue>,
    constituentIssues: seq<ConstituentIssue>
  )

  /** The state when the provider mounts. */
  const Initial: AppState := AppState([], [], [])

  /** `t` keeps every element of `s`, at the same position, in each collection. */
  predicate Extends(s: AppState, t: AppState) {
    && s.constituents <= t.constituents
    && s.issues <= t.issues
    && s.constituentIssues <= t.constituentIssues
  }

  lemma ExtendsTransitive(s: AppState, t: AppState, u: AppState)
    requires Extends(s, t) && Extends(t, u)
    ensures Extends(s, u)
  {
  }

  /** `addConstituent`: append `c`, with no check for an existing `voter_id`. */
  function AddConstituent(s: AppState, c: Constituent): (r: AppState)
    ensures |r.constituents| == |s.constituents| + 1
    ensures r.constituents[|s.constituents|] == c
    ensures Extends(s, r)
    ensures r.issues == s.issues && r.constituentIssues == s.constituentIssues
  {
    s.(constituents := s.constituents + [c])
  }

  /** `addIssue`: append `i`; the other collections are untouched. */
  function AddIssue(s: AppState, i: Issue): (r: AppState)
    ensures |r.issues| == |s.issues| + 1
    ensures r.issues[|s.issues|] == i
    ensures Extends(s, r)
    ensures r.constituents == s.constituents && r.constituentIssues == s.constituentIssues
  {
    s.(issues := s.issues + [i])
  }

  /**
    `addConstituentIssue`: append the link `l`, whether or not a constituent or
    an issue with the ids it names exists.
   */
  function AddConstituentIssue(s: AppState, l: ConstituentIssue): (r: AppState)
    ensures |r.constituentIssues| == |s.constituentIssues| + 1
    ensures r.constituentIssues[|s.constituentIssues|] == l
    ensures Extends(s, r)
    ensures r.constituents == s.constituents && r.issues == s.issues
  {
    s.(constituentIssues := s.constituentIssues + [l])
  }

  /** The three operations the context exposes to the views. */
  datatype Action =
    | AddConstituentAction(constituent: Constituent)
    | AddIssueAction(issue: Issue)
    | AddLinkAction(link: ConstituentIssue)

  function Apply(s: AppState, a: Action): AppState {
    match a
    case AddConstituentAction(c) => AddConstituent(s, c)
    case AddIssueAction(i) => AddIssue(s, i)
    case AddLinkAction(l) => AddConstituentIssue(s, l)
  }

  /** The state after `acts`, oldest first, starting from the mounted provider. */
  function Run(acts: seq<Action>): AppState {
    if |acts| == 0 then Initial
    else Apply(Run(acts[..|acts| - 1]), acts[|acts| - 1])
  }

  /** The constituents that `acts` add, in the order they are added. */
  function AddedConstituents(acts: seq<Action>): seq<Constituent> {
    if |acts| == 0 then []
    else (if acts[0].AddConstituentAction? then [acts[0].constituent] else [])
         + AddedConstituents(acts[1..])
  }

  function AddedIssues(acts: seq<Action>): seq<Issue> {
    if |acts| == 0 then []
    else (if acts[0].AddIssueAction? then [acts[0].issue] else []) + AddedIssues(acts[1..])
  }

  function AddedLinks(acts: seq<Action>): seq<ConstituentIssue> {
    if |acts| == 0 then []
    else (if acts[0].AddLinkAction? then [acts[0].link] else []) + AddedLinks(acts[1..])
  }

  lemma {:induction false} AddedConstituentsDistributes(xs: seq<Action>, ys: seq<Action>)
    ensures AddedConstituents(xs + ys) == AddedConstituents(xs) + AddedConstituents(ys)
  {
    if |xs| == 0 {
      assert xs + ys == ys;
    } else {
      assert (xs + ys)[0] == xs[0];
      assert (xs + ys)[1..] == xs[1..] + ys;
      AddedConstituentsDistributes(xs[1..], ys);
    }
  }

  lemma {:induction false} AddedIssuesDistributes(xs: seq<Action>, ys: seq<Action>)
    ensures AddedIssues(xs + ys) == AddedIssues(xs) + AddedIssues(ys)
  {
    if |xs| == 0 {
      assert xs + ys == ys;
    } else {
      assert (xs + ys)[0] == xs[0];
      assert (xs + ys)[1..] == xs[1..] + ys;
      AddedIssuesDistributes(xs[1..], ys);
    }
  }

  lemma {:induction false} AddedLinksDistributes(xs: seq<Action>, ys: seq<Action>)
    ensures AddedLinks(xs + ys) == AddedLinks(xs) + AddedLinks(ys)
  {
    if |xs| == 0 {
      assert xs + ys == ys;
    } else {
      assert (xs + ys)[0] == xs[0];
      assert (xs + ys)[1..] == xs[1..] + ys;
      AddedLinksDistributes(xs[1..], ys);
    }
  }

  /**
    Every collection holds exactly what was added to it, in the order it was
    added, and nothing else: in particular the mounted provider's collections
    are all empty.
   */
  lemma {:induction false} RunHoldsExactlyTheAdded(acts: seq<Action>)
    ensures Run(acts).constituents == AddedConstituents(acts)
    ensures Run(acts).issues == AddedIssues(acts)
    ensures Run(acts).constituentIssues == AddedLinks(acts)
  {
    if |acts| > 0 {
      var front := acts[..|acts| - 1];
      var last := acts[|acts| - 1];
      RunHoldsExactlyTheAdded(front);
      AddedConstituentsDistributes(front, [last]);
      AddedIssuesDistributes(front, [last]);
      AddedLinksDistributes(front, [last]);
      assert front + [last] == acts;
    }
  }

  /** Whatever is added later, the elements already present keep their values and order. */
  lemma {:induction false} RunOnlyAppends(xs: seq<Action>, ys: seq<Action>)
    ensures Extends(Run(xs), Run(xs + ys))
    decreases |ys|
  {
    if |ys| == 0 {
      assert xs + ys == xs;
    } else {
      var front := ys[..|ys| - 1];
      RunOnlyAppends(xs, front);
      assert (xs + ys)[..|xs + ys| - 1] == xs + front;
      ExtendsTransitive(Run(xs), Run(xs + front), Run(xs + ys));
    }
  }

  /** How many constituents carry the voter id `id`. */
  function CountVoterId(cs: seq<Constituent>, id: string): nat {
    if |cs| == 0 then 0
    else CountVoterId(cs[..|cs| - 1], id) + (if cs[|cs| - 1].voterId == id then 1 else 0)
  }

  lemma {:induction false} CountVoterIdPositive(cs: seq<Constituent>, id: string)
    ensures CountVoterId(cs, id) > 0 <==> exists i :: 0 <= i < |cs| && cs[i].voterId == id
  {
    if |cs| > 0 {
      var front := cs[..|cs| - 1];
      CountVoterIdPositive(front, id);
      if exists i :: 0 <= i < |front| && front[i].voterId == id {
        var i :| 0 <= i < |front| && front[i].voterId == id;
        assert cs[i] == front[i];
      }
      if exists i :: 0 <= i < |cs| && cs[i].voterId == id {
        var i :| 0 <= i < |cs| && cs[i].voterId == id;
        if i < |front| {
          assert front[i] == cs[i];
        }
      }
    }
  }

  /**
    No duplicate detection: adding a constituent whose voter id is already
    present still appends it, so that id is then carried twice or more.
   */
  lemma AddConstituentKeepsDuplicates(s: AppState, c: Constituent)
    requires exists i :: 0 <= i < |s.constituents| && s.constituents[i].voterId == c.voterId
    ensures CountVoterId(AddConstituent(s, c).constituents, c.voterId)
            == CountVoterId(s.constituents, c.voterId) + 1
    ensures CountVoterId(AddConstituent(s, c).constituents, c.voterId) >= 2
  {
    var cs := AddConstituent(s, c).constituents;
    assert cs[..|cs| - 1] == s.constituents;
    CountVoterIdPositive(s.constituents, c.voterId);
  }

  /** Additions to different collections do not interfere with each other. */
  lemma AddsToDifferentCollectionsCommute(s: AppState, c: Constituent, i: Issue, l: ConstituentIssue)
    ensures AddIssue(AddConstituent(s, c), i) == AddConstituent(AddIssue(s, i), c)
    ensures AddConstituentIssue(AddConstituent(s, c), l) == AddConstituent(AddConstituentIssue(s, l), c)
    ensures AddConstituentIssue(AddIssue(s, i), l) == AddIssue(AddConstituentIssue(s, l), i)
  {
  }
}
