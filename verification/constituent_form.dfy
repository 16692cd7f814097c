/**
  The add-constituent form (src/components/ConstituentForm.tsx): its field
  edits, the record it builds on submit, and the reset that follows.
  The clock is a parameter: `now` stands for the instant of submission.
 */
module ConstituentForm {
  import opened Optional
  import opened Text
  import opened Types
  import AppContext

  /** The form's state: a partial constituent, keyed by property name. */
  type FormData = map<string, string>

  /** The properties the form starts with. */
  const FormFields: set<string> := {
    "first_name", "last_name", "email", "phone", "address_line1", "city",
    "state", "zip", "party_affiliation", "preferred_contact_method", "voting_precinct"
  }

  /** The form when it opens and after every submission: each property empty. */
  const InitialForm: FormData := map k | k in FormFields :: ""

  /** Every property the form starts with is still present. */
  predicate HasFormFields(f: FormData) {
    FormFields <= f.Keys
  }

  /** `handleChange`: the input called `name` now holds `value`. */
  function HandleChange(f: FormData, name: string, value: string): (r: FormData)
    ensures r.Keys == f.Keys + {name}
    ensures r[name] == value
    ensures forall k :: k in f && k != name ==> r[k] == f[k]
  {
    f[name := value]
  }

  /** The form after the edits `(name, value)`, oldest first, since it opened. */
  function EditForm(edits: seq<(string, string)>): FormData {
    if |edits| == 0 then InitialForm
    else
      var last := edits[|edits| - 1];
      HandleChange(EditForm(edits[..|edits| - 1]), last.0, last.1)
  }

  /** `i` is the position of the last edit to the property `name`. */
  predicate IsLastEditOf(edits: seq<(string, string)>, name: string, i: int) {
    0 <= i < |edits| && edits[i].0 == name && forall j :: i < j < |edits| ==> edits[j].0 != name
  }

  /**
    After any edits the form holds the properties it started with and those
    some edit named; each holds the value of the last edit naming it, or is
    still empty if none did. In particular the form's properties are always
    all present when it is submitted.
   */
  lemma {:induction false} EditFormHolds(edits: seq<(string, string)>)
    ensures HasFormFields(EditForm(edits))
    ensures forall k :: k in EditForm(edits) <==>
              k in FormFields || exists i :: 0 <= i < |edits| && edits[i].0 == k
    ensures forall k, i :: IsLastEditOf(edits, k, i) ==> EditForm(edits)[k] == edits[i].1
    ensures forall k :: k in FormFields && (forall i :: 0 <= i < |edits| ==> edits[i].0 != k) ==>
              EditForm(edits)[k] == ""
  {
    if |edits| > 0 {
      var front := edits[..|edits| - 1];
      var last := edits[|edits| - 1];
      EditFormHolds(front);
      forall k, i | IsLastEditOf(edits, k, i)
        ensures EditForm(edits)[k] == edits[i].1
      {
        if i < |edits| - 1 {
          assert IsLastEditOf(front, k, i);
        }
      }
      forall k | k in EditForm(edits)
        ensures k in FormFields || exists i :: 0 <= i < |edits| && edits[i].0 == k
      {
        if k != last.0 && k !in FormFields {
          var i :| 0 <= i < |front| && front[i].0 == k;
          assert edits[i].0 == k;
        }
      }
      forall k | k in FormFields || exists i :: 0 <= i < |edits| && edits[i].0 == k
        ensures k in EditForm(edits)
      {
        if k !in FormFields && k != last.0 {
          var i :| 0 <= i < |edits| && edits[i].0 == k;
          assert front[i].0 == k;
        }
      }
      forall k | k in FormFields && (forall i :: 0 <= i < |edits| ==> edits[i].0 != k)
        ensures EditForm(edits)[k] == ""
      {
        assert forall i :: 0 <= i < |front| ==> front[i] == edits[i];
      }
    }
  }

  /** The generated voter id: "V" followed by the decimal digits of `now`. */
  function VoterId(now: nat): (id: string)
    ensures |id| >= 2 && id[0] == 'V'
    ensures IsDigits(id[1..]) && DecimalValue(id[1..]) == now
    ensures id[1] == '0' ==> id == "V0"
  {
    "V" + NatToDecimal(now)
  }

  /**
    Submissions at different instants get different voter ids, and submissions
    at the same instant get the same one: nothing else tells them apart.
   */
  lemma VoterIdInjective(a: nat, b: nat)
    ensures VoterId(a) == VoterId(b) <==> a == b
  {
  }

  /**
    The record `handleSubmit` hands to the store: the form's properties, then a
    fresh voter id and the submission instant for both dates, which override
    any form properties of the same names.
   */
  function BuildConstituent(f: FormData, now: Timestamp): (c: Constituent)
    requires HasFormFields(f)
    ensures c.voterId == VoterId(now)
    ensures c.dateOfBirth == now && c.registrationDate == now
    ensures forall k :: k in FormFields ==> StringField(c, k) == Some(f[k])
    ensures c.addressLine2 == (if "address_line2" in f then Some(f["address_line2"]) else None)
  {
    Constituent(
      voterId := VoterId(now),
      firstName := f["first_name"],
      lastName := f["last_name"],
      dateOfBirth := now,
      addressLine1 := f["address_line1"],
      addressLine2 := if "address_line2" in f then Some(f["address_line2"]) else None,
      city := f["city"],
      state := f["state"],
      zip := f["zip"],
      partyAffiliation := f["party_affiliation"],
      phone := f["phone"],
      email := f["email"],
      preferredContactMethod := f["preferred_contact_method"],
      registrationDate := now,
      votingPrecinct := f["voting_precinct"]
    )
  }

  /**
    A `voter_id`, `date_of_birth` or `registration_date` typed into the form
    makes no difference to the record built from it.
   */
  lemma BuildIgnoresOverriddenFields(f: FormData, name: string, value: string, now: Timestamp)
    requires HasFormFields(f)
    requires name in {"voter_id", "date_of_birth", "registration_date"}
    ensures BuildConstituent(HandleChange(f, name, value), now) == BuildConstituent(f, now)
  {
  }

  /** What a submission leaves behind: the store (if there is one) and the form. */
  datatype Submission = Submission(store: Option<AppContext.AppState>, form: FormData)

  /**
    `handleSubmit`: with a store present, exactly one constituent, the one
    built from the form, is appended and nothing else changes; without one
    nothing is added. Either way the form is reset to its initial state.
   */
  function HandleSubmit(store: Option<AppContext.AppState>, f: FormData, now: Timestamp): (r: Submission)
    requires HasFormFields(f)
    ensures r.form == InitialForm
    ensures store.None? <==> r.store.None?
    ensures store.Some? ==>
              && |r.store.value.constituents| == |store.value.constituents| + 1
              && r.store.value.constituents[|store.value.constituents|] == BuildConstituent(f, now)
              && AppContext.Extends(store.value, r.store.value)
              && r.store.value.issues == store.value.issues
              && r.store.value.constituentIssues == store.value.constituentIssues
  {
    var c := BuildConstituent(f, now);
    var store' := match store
      case Some(s) => Some(AppContext.AddConstituent(s, c))
      case None => None;
    Submission(store', InitialForm)
  }

  /**
    Two submissions at the same instant are both stored, under one voter id:
    there is no guard against the collision.
   */
  lemma SameInstantSubmissionsCollide(s: AppContext.AppState, f: FormData, g: FormData, now: Timestamp)
    requires HasFormFields(f) && HasFormFields(g)
    ensures var first := HandleSubmit(Some(s), f, now).store.value;
            var second := HandleSubmit(Some(first), g, now).store.value;
            AppContext.CountVoterId(second.constituents, VoterId(now))
              == AppContext.CountVoterId(s.constituents, VoterId(now)) + 2
  {
  }
}
