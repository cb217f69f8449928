/**
  The `Home` component of the lead manager page: a list of leads, a draft lead
  bound to the "New Lead" form, and a flag saying whether the form is shown.
  Every event handler of the page is a pure transition on that state.
 */
module Home {
  import opened Optional
  import opened Leads
  import opened Score

  datatype State = State(leads: seq<Lead>, draft: Lead, showForm: bool)

  /** The state the page mounts with: no leads, an all-empty draft, the form hidden. */
  function Init(): (st: State)
    ensures st.leads == [] && !st.showForm
    ensures forall f: Field :: Get(st.draft, f) == ""
  {
    State([], Blank(), false)
  }

  // ---------------------------------------------------------------------------
  // Event handlers

  /** `handleSubmit`: store the draft as the last lead, clear the draft, hide the form. */
  function HandleSubmit(st: State): (r: State)
    ensures |r.leads| == |st.leads| + 1
    ensures r.leads[..|st.leads|] == st.leads
    ensures r.leads[|st.leads|] == st.draft
    ensures forall f: Field :: Get(r.draft, f) == ""
    ensures !r.showForm
  {
    State(st.leads + [st.draft], Blank(), false)
  }

  /** `handleChange`: the input named `name` now holds `value`. */
  function HandleChange(st: State, name: string, value: string): (r: State)
    ensures r.leads == st.leads && r.showForm == st.showForm
    ensures forall f: Field :: FieldName(f) == name ==> Get(r.draft, f) == value
    ensures forall f: Field :: FieldName(f) != name ==> Get(r.draft, f) == Get(st.draft, f)
  {
    st.(draft := Update(st.draft, name, value))
  }

  /**
    `s.filter((_, i) => i !== index)`: the elements of `s` whose position is not
    `index`, in their original order. An index in range removes exactly that
    element; any other index removes nothing.
   */
  function RemoveAt<T>(s: seq<T>, index: int): (r: seq<T>)
    ensures 0 <= index < |s| ==> r == s[..index] + s[index + 1..]
    ensures !(0 <= index < |s|) ==> r == s
  {
    if |s| == 0 then []
    else
      var init := s[..|s| - 1];
      var last := s[|s| - 1];
      assert s == init + [last];
      if |s| - 1 == index then RemoveAt(init, index)
      else RemoveAt(init, index) + [last]
  }

  /** `deleteLead(index)`: only the list changes. */
  function DeleteLead(st: State, index: int): (r: State)
    ensures r.draft == st.draft && r.showForm == st.showForm
    ensures 0 <= index < |st.leads| ==> r.leads == st.leads[..index] + st.leads[index + 1..]
    ensures 0 <= index < |st.leads| ==> |r.leads| == |st.leads| - 1
    ensures !(0 <= index < |st.leads|) ==> r.leads == st.leads
  {
    st.(leads := RemoveAt(st.leads, index))
  }

  /** The header button: shows the form when hidden, hides it when shown. */
  function ToggleForm(st: State): (r: State)
    ensures r.showForm != st.showForm
    ensures r.leads == st.leads && r.draft == st.draft
  {
    st.(showForm := !st.showForm)
  }

  /** The form's Cancel button: hides the form and keeps the draft as typed. */
  function CancelForm(st: State): (r: State)
    ensures !r.showForm
    ensures r.leads == st.leads && r.draft == st.draft
  {
    st.(showForm := false)
  }

  /** Company name and contact name are filled in. */
  predicate RequiredFilled(l: Lead)
  {
    l.companyName != "" && l.contactName != ""
  }

  /**
    Submitting the form: the browser lets the submit event through only when
    the two `required` inputs are non-empty, and `handleSubmit` runs only then.
   */
  function SubmitForm(st: State): (r: State)
    ensures RequiredFilled(st.draft) ==> r == HandleSubmit(st)
    ensures !RequiredFilled(st.draft) ==> r == st
  {
    if RequiredFilled(st.draft) then HandleSubmit(st) else st
  }

  // ---------------------------------------------------------------------------
  // Sessions: sequences of user events

  datatype Event =
    | Toggle
    | Cancel
    | Change(name: string, value: string)
    | Submit
    | Delete(index: int)

  /**
    Handles one event. Change, Cancel and Submit come from the form's inputs and
    buttons, which are rendered only while `showForm` holds; with the form
    hidden there is nothing to fire them, so they leave the state as it is.
   */
  function Dispatch(st: State, ev: Event): (r: State)
    ensures !st.showForm && (ev.Change? || ev.Cancel? || ev.Submit?) ==> r == st
    ensures !st.showForm ==> r.draft == st.draft
  {
    match ev
    case Toggle => ToggleForm(st)
    case Cancel => if st.showForm then CancelForm(st) else st
    case Change(name, value) => if st.showForm then HandleChange(st, name, value) else st
    case Submit => if st.showForm then SubmitForm(st) else st
    case Delete(index) => DeleteLead(st, index)
  }

  /** The state after handling `evs` in order, starting from `st`. */
  function Run(st: State, evs: seq<Event>): State
    decreases |evs|
  {
    if |evs| == 0 then st else Run(Dispatch(st, evs[0]), evs[1..])
  }

  /**
    Over a whole session the list changes only through Submit and Delete, the
    draft only through Change and Submit, and the form flag not through Change
    or Delete.
   */
  lemma {:induction false} RunFootprint(st: State, evs: seq<Event>)
    ensures (forall i :: 0 <= i < |evs| ==> !evs[i].Submit? && !evs[i].Delete?) ==> Run(st, evs).leads == st.leads
    ensures (forall i :: 0 <= i < |evs| ==> !evs[i].Change? && !evs[i].Submit?) ==> Run(st, evs).draft == st.draft
    ensures (forall i :: 0 <= i < |evs| ==> evs[i].Change? || evs[i].Delete?) ==> Run(st, evs).showForm == st.showForm
    decreases |evs|
  {
    if |evs| > 0 {
      RunFootprint(Dispatch(st, evs[0]), evs[1..]);
    }
  }

  /** Handling `a` and then `b` is handling `a + b`. */
  lemma {:induction false} RunAppend(st: State, a: seq<Event>, b: seq<Event>)
    ensures Run(st, a + b) == Run(Run(st, a), b)
    decreases |a|
  {
    if |a| == 0 {
      assert a + b == b;
    } else {
      assert (a + b)[0] == a[0];
      assert (a + b)[1..] == a[1..] + b;
      RunAppend(Dispatch(st, a[0]), a[1..], b);
    }
  }

  predicate AllFilled(leads: seq<Lead>)
  {
    forall i :: 0 <= i < |leads| ==> RequiredFilled(leads[i])
  }

  /** No event can put a lead without company or contact name into the list. */
  lemma DispatchKeepsFilled(st: State, ev: Event)
    requires AllFilled(st.leads)
    ensures AllFilled(Dispatch(st, ev).leads)
  {
    match ev
    case Delete(index) =>
      var r := Dispatch(st, ev).leads;
      if 0 <= index < |st.leads| {
        forall i | 0 <= i < |r|
          ensures RequiredFilled(r[i])
        {
          if i < index {
            assert r[i] == st.leads[i];
          } else {
            assert r[i] == st.leads[i + 1];
          }
        }
      }
    case Submit =>
      if st.showForm && RequiredFilled(st.draft) {
        var r := Dispatch(st, ev).leads;
        assert r == st.leads + [st.draft];
      }
    case _ =>
  }

  lemma {:induction false} RunKeepsFilled(st: State, evs: seq<Event>)
    requires AllFilled(st.leads)
    ensures AllFilled(Run(st, evs).leads)
    decreases |evs|
  {
    if |evs| > 0 {
      DispatchKeepsFilled(st, evs[0]);
      RunKeepsFilled(Dispatch(st, evs[0]), evs[1..]);
    }
  }

  /** In every session, every stored lead has a company name and a contact name. */
  lemma ReachableLeadsFilled(evs: seq<Event>)
    ensures AllFilled(Run(Init(), evs).leads)
  {
    RunKeepsFilled(Init(), evs);
  }

  // ---------------------------------------------------------------------------
  // Properties of single handlers

  /** Submitting stores the draft exactly as typed, after the leads already there. */
  lemma SubmitAppends(st: State)
    requires RequiredFilled(st.draft)
    ensures SubmitForm(st).leads == st.leads + [st.draft]
    ensures forall i :: 0 <= i < |st.leads| ==> SubmitForm(st).leads[i] == st.leads[i]
    ensures SubmitForm(st).draft == Blank() && !SubmitForm(st).showForm
  {
  }

  /** A submit with company or contact name empty is blocked and changes nothing. */
  lemma SubmitBlocked(st: State)
    requires st.draft.companyName == "" || st.draft.contactName == ""
    ensures SubmitForm(st) == st
  {
  }

  /** Deleting a position keeps the other leads in their relative order. */
  lemma DeleteKeepsOrder(st: State, index: int)
    requires 0 <= index < |st.leads|
    ensures var r := DeleteLead(st, index).leads;
      && |r| == |st.leads| - 1
      && (forall i :: 0 <= i < index ==> r[i] == st.leads[i])
      && (forall i :: index <= i < |r| ==> r[i] == st.leads[i + 1])
  {
    var r := DeleteLead(st, index).leads;
    assert r == st.leads[..index] + st.leads[index + 1..];
  }

  /** Toggling twice is no change at all. */
  lemma ToggleTwice(st: State)
    ensures ToggleForm(ToggleForm(st)) == st
  {
  }

  /**
    Cancel keeps the partial draft: reopening the form after a cancel shows
    exactly what was typed before, and the list is untouched.
   */
  lemma CancelThenReopen(st: State)
    ensures ToggleForm(CancelForm(st)).showForm
    ensures ToggleForm(CancelForm(st)).draft == st.draft
    ensures ToggleForm(CancelForm(st)).leads == st.leads
  {
  }

  /** Only Submit and Delete change the list; only Change and Submit change the draft. */
  lemma EventFootprint(st: State, ev: Event)
    ensures !ev.Submit? && !ev.Delete? ==> Dispatch(st, ev).leads == st.leads
    ensures !ev.Change? && !ev.Submit? ==> Dispatch(st, ev).draft == st.draft
  {
  }

  /**
    While the form stays hidden the draft cannot change: as long as no Toggle
    reopens it, any sequence of events keeps the draft and keeps the form hidden.
   */
  lemma {:induction false} HiddenFormKeepsDraft(st: State, evs: seq<Event>)
    requires !st.showForm
    requires forall i :: 0 <= i < |evs| ==> !evs[i].Toggle?
    ensures Run(st, evs).draft == st.draft
    ensures !Run(st, evs).showForm
    decreases |evs|
  {
    if |evs| > 0 {
      var next := Dispatch(st, evs[0]);
      assert next.draft == st.draft && !next.showForm;
      HiddenFormKeepsDraft(next, evs[1..]);
    }
  }

  // ---------------------------------------------------------------------------
  // What the list view shows

  /** The "No leads yet" message. */
  predicate ShowsEmptyState(st: State)
  {
    |st.leads| == 0
  }

  /** The score badge of a lead card: absent for an empty score, else its colour. */
  function Badge(l: Lead): (b: Option<ScoreColor>)
    ensures b.None? <==> l.leadScore == ""
    ensures b.Some? ==> b.value == GetScoreColor(l.leadScore)
  {
    if l.leadScore == "" then None else Some(GetScoreColor(l.leadScore))
  }

  /**
    Whether a lead card shows field `f`: company and contact name always, every
    other field only when non-empty (the LinkedIn URL as a "View Profile" link,
    the score as its badge).
   */
  predicate Displayed(l: Lead, f: Field)
  {
    f == CompanyName || f == ContactName || Get(l, f) != ""
  }

  /** On a card for a stored lead, the fields shown are exactly the non-empty ones. */
  lemma DisplayedIffNonEmpty(l: Lead, f: Field)
    requires RequiredFilled(l)
    ensures Displayed(l, f) <==> Get(l, f) != ""
    ensures f == LeadScore ==> (Displayed(l, f) <==> Badge(l).Some?)
  {
  }

  /** After a delete the empty state shows iff the list was empty or held just the deleted lead. */
  lemma EmptyStateAfterDelete(st: State, index: int)
    ensures ShowsEmptyState(DeleteLead(st, index)) <==>
      |st.leads| == 0 || (|st.leads| == 1 && index == 0)
  {
  }

  /** After an accepted submit the empty state is gone. */
  lemma NoEmptyStateAfterSubmit(st: State)
    requires RequiredFilled(st.draft)
    ensures !ShowsEmptyState(SubmitForm(st))
  {
  }

  // ---------------------------------------------------------------------------
  // A whole session

  /** The lead of the session below: Acme, contact Jo, score 8, everything else empty. */
  function AcmeLead(): Lead
  {
    Blank().(companyName := "Acme", contactName := "Jo", leadScore := "8")
  }

  /** Open the form, then type company, contact and score. */
  function AcmeTyping(): seq<Event>
  {
    [Toggle, Change("company_name", "Acme"), Change("contact_name", "Jo"), Change("lead_score", "8")]
  }

  /** Opening the form and typing company, contact and score fills exactly those fields. */
  lemma AcmeDraft()
    ensures
      var s := Run(Init(), AcmeTyping());
      s.showForm && s.leads == [] && s.draft == AcmeLead()
  {
    var s1 := ToggleForm(Init());
    var s2 := HandleChange(s1, "company_name", "Acme");
    var s3 := HandleChange(s2, "contact_name", "Jo");
    var s4 := HandleChange(s3, "lead_score", "8");
    Extensionality(s4.draft, AcmeLead());
    var evs := AcmeTyping();
    assert Run(Init(), evs) == Run(s1, evs[1..]);
    assert Run(s1, evs[1..]) == Run(s2, evs[2..]);
    assert Run(s2, evs[2..]) == Run(s3, evs[3..]);
    assert Run(s3, evs[3..]) == s4;
  }

  /** Saving a filled draft lists it as the only lead; deleting position 0 shows the empty state again. */
  lemma SaveThenDelete(st: State)
    requires st.showForm && st.leads == [] && RequiredFilled(st.draft)
    ensures var s := Dispatch(st, Submit);
      && s.leads == [st.draft]
      && !s.showForm && s.draft == Blank()
      && !ShowsEmptyState(s)
      && ShowsEmptyState(Dispatch(s, Delete(0)))
  {
    var s := Dispatch(st, Submit);
    assert s == HandleSubmit(st);
    assert |s.leads| == 1;
  }

  /** The Acme lead, with score "8", gets a High badge. */
  lemma AcmeBadge()
    ensures RequiredFilled(AcmeLead())
    ensures Badge(AcmeLead()) == Some(High)
  {
    EightIsHigh();
  }

  /**
    The whole session from a fresh page: after typing and saving, the Acme lead
    is the only lead and shows a High badge; deleting it brings back the empty state.
   */
  lemma AcmeSession()
    ensures var s := Run(Init(), AcmeTyping() + [Submit]);
      && s.leads == [AcmeLead()]
      && !s.showForm && s.draft == Blank()
      && Badge(s.leads[0]) == Some(High)
    ensures ShowsEmptyState(Run(Init(), AcmeTyping() + [Submit, Delete(0)]))
  {
    var typed := Run(Init(), AcmeTyping());
    AcmeDraft();
    AcmeBadge();
    SaveThenDelete(typed);
    var saved := Dispatch(typed, Submit);
    RunAppend(Init(), AcmeTyping(), [Submit]);
    assert Run(typed, [Submit]) == Run(saved, []) == saved;
    RunAppend(Init(), AcmeTyping(), [Submit, Delete(0)]);
    assert Run(typed, [Submit, Delete(0)]) == Run(saved, [Delete(0)]);
    assert Run(saved, [Delete(0)]) == Dispatch(saved, Delete(0));
  }
}
