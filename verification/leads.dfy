/**
  The lead record of the lead manager page: ten free-text fields, no
  identifier. A `Field` names one of the ten keys; the page's change handler
  writes the value of an input into the key named by the input's `name`
  attribute, which is modelled by `FieldOf` and `Update`.
 */
module Leads {
  import opened Optional

  datatype Lead = Lead(
    companyName: string,
    contactName: string,
    jobTitle: string,
    emailGuess: string,
    linkedinUrl: string,
    companySize: string,
    painPoints: string,
    leadScore: string,
    scoreReason: string,
    personalizedMessage: string)

  /** The ten keys of a lead, in declaration order. */
  datatype Field =
    | CompanyName
    | ContactName
    | JobTitle
    | EmailGuess
    | LinkedinUrl
    | CompanySize
    | PainPoints
    | LeadScore
    | ScoreReason
    | PersonalizedMessage

  /** The key of a field as the page spells it (the inputs' `name` attributes). */
  function FieldName(f: Field): string
  {
    match f
    case CompanyName => "company_name"
    case ContactName => "contact_name"
    case JobTitle => "job_title"
    case EmailGuess => "email_guess"
    case LinkedinUrl => "linkedin_url"
    case CompanySize => "company_size"
    case PainPoints => "pain_points"
    case LeadScore => "lead_score"
    case ScoreReason => "score_reason"
    case PersonalizedMessage => "personalized_message"
  }

  /** The field a `name` attribute selects, if it is one of the ten keys. */
  function FieldOf(name: string): (r: Option<Field>)
    ensures r.Some? ==> FieldName(r.value) == name
    ensures r.None? ==> forall f: Field :: FieldName(f) != name
  {
    if name == "company_name" then Some(CompanyName)
    else if name == "contact_name" then Some(ContactName)
    else if name == "job_title" then Some(JobTitle)
    else if name == "email_guess" then Some(EmailGuess)
    else if name == "linkedin_url" then Some(LinkedinUrl)
    else if name == "company_size" then Some(CompanySize)
    else if name == "pain_points" then Some(PainPoints)
    else if name == "lead_score" then Some(LeadScore)
    else if name == "score_reason" then Some(ScoreReason)
    else if name == "personalized_message" then Some(PersonalizedMessage)
    else None
  }

  /** Every field's key selects that field again: the keys are distinct. */
  lemma FieldOfName(f: Field)
    ensures FieldOf(FieldName(f)) == Some(f)
  {
    match f
    case CompanyName =>
    case ContactName =>
    case JobTitle =>
    case EmailGuess =>
    case LinkedinUrl =>
    case CompanySize =>
    case PainPoints =>
    case LeadScore =>
    case ScoreReason =>
    case PersonalizedMessage =>
  }

  /** The value stored under a field. */
  function Get(l: Lead, f: Field): string
  {
    match f
    case CompanyName => l.companyName
    case ContactName => l.contactName
    case JobTitle => l.jobTitle
    case EmailGuess => l.emailGuess
    case LinkedinUrl => l.linkedinUrl
    case CompanySize => l.companySize
    case PainPoints => l.painPoints
    case LeadScore => l.leadScore
    case ScoreReason => l.scoreReason
    case PersonalizedMessage => l.personalizedMessage
  }

  /** Two leads that agree on every field are the same lead. */
  lemma Extensionality(a: Lead, b: Lead)
    requires forall f: Field :: Get(a, f) == Get(b, f)
    ensures a == b
  {
    assert Get(a, CompanyName) == Get(b, CompanyName);
    assert Get(a, ContactName) == Get(b, ContactName);
    assert Get(a, JobTitle) == Get(b, JobTitle);
    assert Get(a, EmailGuess) == Get(b, EmailGuess);
    assert Get(a, LinkedinUrl) == Get(b, LinkedinUrl);
    assert Get(a, CompanySize) == Get(b, CompanySize);
    assert Get(a, PainPoints) == Get(b, PainPoints);
    assert Get(a, LeadScore) == Get(b, LeadScore);
    assert Get(a, ScoreReason) == Get(b, ScoreReason);
    assert Get(a, PersonalizedMessage) == Get(b, PersonalizedMessage);
  }

  /** The lead `{ ...l, [f]: v }`: field `f` holds `v`, every other field is kept. */
  function Set(l: Lead, f: Field, v: string): (r: Lead)
    ensures Get(r, f) == v
    ensures forall g: Field :: g != f ==> Get(r, g) == Get(l, g)
  {
    match f
    case CompanyName => l.(companyName := v)
    case ContactName => l.(contactName := v)
    case JobTitle => l.(jobTitle := v)
    case EmailGuess => l.(emailGuess := v)
    case LinkedinUrl => l.(linkedinUrl := v)
    case CompanySize => l.(companySize := v)
    case PainPoints => l.(painPoints := v)
    case LeadScore => l.(leadScore := v)
    case ScoreReason => l.(scoreReason := v)
    case PersonalizedMessage => l.(personalizedMessage := v)
  }

  /** Writing back the value a field already holds changes nothing. */
  lemma SetGet(l: Lead, f: Field)
    ensures Set(l, f, Get(l, f)) == l
  {
    Extensionality(Set(l, f, Get(l, f)), l);
  }

  /** A second write to the same field overrides the first. */
  lemma SetSet(l: Lead, f: Field, v: string, w: string)
    ensures Set(Set(l, f, v), f, w) == Set(l, f, w)
  {
    Extensionality(Set(Set(l, f, v), f, w), Set(l, f, w));
  }

  /** Writes to different fields commute. */
  lemma SetCommutes(l: Lead, f: Field, v: string, g: Field, w: string)
    requires f != g
    ensures Set(Set(l, f, v), g, w) == Set(Set(l, g, w), f, v)
  {
    Extensionality(Set(Set(l, f, v), g, w), Set(Set(l, g, w), f, v));
  }

  /** The all-empty lead the draft starts as and is reset to. */
  function Blank(): (r: Lead)
    ensures forall f: Field :: Get(r, f) == ""
  {
    Lead("", "", "", "", "", "", "", "", "", "")
  }

  /** `{ ...l, [name]: v }`: a key outside the ten leaves the ten fields as they were. */
  function Update(l: Lead, name: string, v: string): (r: Lead)
    ensures forall f: Field :: Get(r, f) == (if FieldName(f) == name then v else Get(l, f))
  {
    match FieldOf(name)
    case Some(f) => Set(l, f, v)
    case None => l
  }
}
