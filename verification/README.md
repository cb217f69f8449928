# Lead Manager page, modelled in Dafny

The repository is a one-page lead tracker. Its only logic is the `Home`
component in `app/page.tsx`: it holds an ordered list of sales leads, a draft
lead bound to the "New Lead" form, and a flag saying whether the form is
shown. Users can open and close the form, type into it, save the draft as a
new lead and delete a lead by its position. Each lead card shows a score
badge whose colour comes from `parseInt` applied to the score text.

The model is functional. Each handler is a pure function from state to
state. The lemmas state what each handler changes and what it leaves alone.

- `optional.dfy`, module `Optional`: the `Option` type.
- `leads.dfy`, module `Leads`: the ten-field `Lead` record and the `Field`
  enumeration of its keys. It also models reading and writing a field by the
  key an input's `name` attribute carries.
- `parse_int.dfy`, module `JsParseInt`: ECMAScript `parseInt` with no radix
  (section 19.2.5 of ECMA-262). It skips leading white space, takes an
  optional sign and an optional `0x`/`0X` prefix, then reads the longest digit
  run, giving NaN when that run is empty. `ShowInt` renders an integer in
  decimal and is its proved inverse.
- `score.dfy`, module `Score`: `getScoreColor` as a three-valued enum. `High`
  is the green badge, `Medium` the yellow one, `Low` the red one.
- `home.dfy`, module `Home`: the component state and the handlers. It also
  models the browser's `required` gate on submit, sessions as event
  sequences, and the list view's display predicates.

Cancel does not reset the draft. The header button (`app/page.tsx:79`) and
the form's Cancel button (`app/page.tsx:226`) both change only `showForm`.
`CancelThenReopen` proves that reopening the form shows the earlier partial
draft.

The form, its inputs and its Cancel and Save Lead buttons are rendered only
while `showForm` holds (`app/page.tsx:86`). `Dispatch` therefore ignores
change, cancel and submit events while the form is hidden.

`handleSubmit` does not check the required fields itself. Empty company or
contact names are rejected by the HTML `required` attributes
(`app/page.tsx:100`, `app/page.tsx:113`), so the browser never fires the
submit event for such a draft. `SubmitForm` models that gate, kept apart from
`HandleSubmit`.

## Model

| member | source | states |
|---|---|---|
| Leads.FieldOf | app/page.tsx:52-57 | An input name picks a field only when it is that field's key; a name that is no key picks none |
| Leads.FieldOfName | app/page.tsx:5-16 | The ten keys are distinct: each key picks back its own field |
| Leads.Extensionality | app/page.tsx:5-16 | A lead is determined by its ten field values |
| Leads.Set | app/page.tsx:53-56 | `{ ...formData, [name]: value }`: the named field holds the new value and the other nine keep theirs |
| Leads.SetGet | app/page.tsx:53-56 | Writing back a field's current value gives the same lead |
| Leads.SetSet | app/page.tsx:53-56 | A later change of the same field overrides an earlier one |
| Leads.SetCommutes | app/page.tsx:53-56 | Changes to two different fields can be applied in either order |
| Leads.Blank | app/page.tsx:20-31 | The initial and reset draft has all ten fields empty |
| Leads.Update | app/page.tsx:52-57 | Each field whose key equals the name gets the value; every other field is unchanged |
| JsParseInt.TrimStart | app/page.tsx:64 | parseInt's first step drops exactly the maximal prefix of white space and line terminators |
| JsParseInt.DigitRun | app/page.tsx:64 | parseInt reads the longest prefix of radix digits; the character after it is not a digit |
| JsParseInt.TrimStartSkips | app/page.tsx:64 | White space followed by a non-space character is skipped up to that character |
| JsParseInt.DigitRunStops | app/page.tsx:64 | A digit run followed by a non-digit ends right there |
| JsParseInt.AfterWhiteSpaceAndSign | app/page.tsx:64 | After white space and one optional sign, the rest is read with that sign |
| JsParseInt.IsStrWhiteSpace | app/page.tsx:64 | The characters parseInt skips: ECMAScript WhiteSpace (tab, vertical tab, form feed, byte order mark, every Zs space separator) and LineTerminator (LF, CR, U+2028, U+2029) |
| JsParseInt.ParseInt | app/page.tsx:64 | `parseInt(score)`: trim leading white space, take one optional sign, then read the rest with `ParseBody`; its meaning over all inputs is given by the lemmas ParseIntDecimal, ParseIntHex and ParseIntNoDigits |
| JsParseInt.ParseBody | app/page.tsx:64 | After the sign: a `0x`/`0X` prefix selects base 16, otherwise base 10; the longest digit run is read, and an empty run gives NaN |
| JsParseInt.ParseIntDecimal | app/page.tsx:64 | White space, optional sign, decimal digits, then a tail that does not start with a digit: the result is the signed value of the digits, and the tail is ignored. Excluded is a lone `0` digit followed by `x` or `X`, a hex prefix (so `"0xyz"` is NaN, not 0) |
| JsParseInt.ParseBodyHex | app/page.tsx:64 | After a `0x`/`0X` prefix the hex digit run is read in base 16, and an empty run is NaN |
| JsParseInt.ParseIntHex | app/page.tsx:64 | A hex-prefixed input reads as its signed base-16 value, or NaN when no hex digit follows the prefix |
| JsParseInt.SingleDigitValue | app/page.tsx:64 | A run of one decimal digit has that digit's value |
| JsParseInt.OneDigit | app/page.tsx:64 | A score text that is a single decimal digit parses to that digit's value |
| JsParseInt.ParseIntNoDigits | app/page.tsx:64 | When no digit follows the white space and optional sign, the result is NaN |
| JsParseInt.DigitChar | app/page.tsx:64 | Each value below 10 has a decimal digit character with that value |
| JsParseInt.ShowNat | app/page.tsx:64 | Decimal rendering is a non-empty digit string with no leading zero |
| JsParseInt.ShowNatValue | app/page.tsx:64 | The digits of a rendered natural number have that number as their value |
| JsParseInt.ShowNatNotHex | app/page.tsx:64 | A rendered number plus a tail forms a hex prefix only for `0` followed by `x` or `X` |
| JsParseInt.ParseShowInt | app/page.tsx:64 | parseInt of a rendered integer followed by a tail that does not start with a digit gives back that integer. Excluded is `0` followed by `x` or `X`, which starts a hex number (`"0x9"` reads as 9) |
| JsParseInt.ParseShowRoundTrip | app/page.tsx:64 | parseInt inverts decimal rendering |
| Score.ColorOf | app/page.tsx:65-67 | The two comparisons in order: `>= 8` gives High, else `>= 5` gives Medium, else Low; NaN fails both comparisons |
| Score.GetScoreColor | app/page.tsx:63-68 | The colour is a partition of the parsed value: High iff ≥ 8, Medium iff 5 to 7, Low iff NaN or < 5 |
| Score.ColorMonotone | app/page.tsx:65-67 | A larger parsed score never gets a lower colour, and NaN ranks lowest |
| Score.NaNIsLow | app/page.tsx:65-67 | NaN fails both comparisons and is coloured like any value below 5 |
| Score.ColorOfRenderedScore | app/page.tsx:63-68 | For a score typed as a decimal integer n: High iff n ≥ 8, Medium iff 5 ≤ n < 8, Low iff n < 5 |
| Score.ColorIgnoresTail | app/page.tsx:63-68 | A fraction, an exponent or trailing letters after the integer do not change the colour. Excluded is `0` followed by `x` or `X`, which starts a hex number (`"0x9"` reads as 9, Medium) |
| Score.NoDigitsIsLow | app/page.tsx:63-68 | A score text with no leading digits is coloured Low |
| Score.NineIsHigh | app/page.tsx:63-65 | "9" is High |
| Score.EightIsHigh | app/page.tsx:63-65 | "8", the boundary, is High |
| Score.EightPointFiveIsHigh | app/page.tsx:63-65 | "8.5" reads as 8 and is High |
| Score.HexSixteenIsHigh | app/page.tsx:63-65 | " 0x10" reads as 16 and is High |
| Score.SixIsMedium | app/page.tsx:63-66 | "6" is Medium |
| Score.SevenAbcIsMedium | app/page.tsx:63-66 | "7abc" reads as 7 and is Medium |
| Score.TwoIsLow | app/page.tsx:63-67 | "2" is Low |
| Score.OneEOneIsLow | app/page.tsx:63-67 | "1e1" reads as 1, not 10, and is Low |
| Score.MinusNineIsLow | app/page.tsx:63-67 | "-9" is Low |
| Score.EmptyIsLow | app/page.tsx:63-67 | "" is NaN and Low |
| Score.AbcIsLow | app/page.tsx:63-67 | "abc" is NaN and Low |
| Home.Init | app/page.tsx:19-32 | The page starts with no leads, an all-empty draft and the form hidden |
| Home.HandleSubmit | app/page.tsx:34-50 | One lead is added at the end and equals the draft; earlier leads are unchanged; the draft is cleared in all ten fields; the form is hidden |
| Home.HandleChange | app/page.tsx:52-57 | Only the named draft field changes; the other fields, the list and the form flag are unchanged |
| Home.RemoveAt | app/page.tsx:59-61 | Filtering out position i gives `s[..i] + s[i+1..]` for i in range, and `s` unchanged for a negative or too-large i |
| Home.DeleteLead | app/page.tsx:59-61 | An in-range delete removes exactly that lead, giving a list one shorter; an out-of-range delete changes nothing; draft and form flag are kept |
| Home.ToggleForm | app/page.tsx:79 | The header button flips form visibility and touches neither the draft nor the list |
| Home.CancelForm | app/page.tsx:224-230 | Cancel hides the form and keeps both the draft and the list |
| Home.RequiredFilled | app/page.tsx:95-115 | The two `required` inputs, company name (line 100) and contact name (line 113), are non-empty |
| Home.SubmitForm | app/page.tsx:95-115 | With both required fields non-empty, submit runs `handleSubmit`; otherwise the state is unchanged |
| Home.Dispatch | app/page.tsx:78-240 | One user event goes to its handler. Change, Cancel and Submit need the form, which is rendered only while `showForm` holds (line 86): with the form hidden they change nothing, and no event changes the draft |
| Home.Run | app/page.tsx:34-61 | A session: events handled one after another, each on the state the previous one left |
| Home.RunAppend | app/page.tsx:34-61 | Handling one sequence of events and then another is the same as handling their concatenation |
| Home.RunFootprint | app/page.tsx:34-61 | Over a sequence of events, the list changes only through Submit and Delete, the draft only through Change and Submit, and the form flag not at all through Change and Delete |
| Home.DispatchKeepsFilled | app/page.tsx:34-61 | No event can store a lead whose company or contact name is empty |
| Home.RunKeepsFilled | app/page.tsx:34-61 | Every sequence of events preserves "all stored leads have both required fields" |
| Home.ReachableLeadsFilled | app/page.tsx:95-115 | In every session from page load, every stored lead has a company name and a contact name |
| Home.SubmitAppends | app/page.tsx:34-50 | An accepted submit gives `old + [draft]`, keeps every earlier lead, clears the draft and hides the form |
| Home.SubmitBlocked | app/page.tsx:95-115 | A submit with company or contact name empty changes nothing |
| Home.DeleteKeepsOrder | app/page.tsx:59-61 | After deleting position i, leads before i keep their positions, leads after i move down by one, and relative order is kept |
| Home.ToggleTwice | app/page.tsx:79 | Pressing the header button twice restores the state |
| Home.CancelThenReopen | app/page.tsx:226 | After Cancel, reopening the form shows the earlier partial draft, and the list is untouched |
| Home.HiddenFormKeepsDraft | app/page.tsx:78-88 | While no Toggle reopens a hidden form, every sequence of events keeps the draft and keeps the form hidden |
| Home.EventFootprint | app/page.tsx:34-61 | Only submit and delete change the list; only change and submit change the draft |
| Home.ShowsEmptyState | app/page.tsx:243-247 | The "No leads yet" message is shown iff the list is empty |
| Home.Badge | app/page.tsx:254-258 | A card has a score badge iff the score text is non-empty, and the badge has that score's colour |
| Home.Displayed | app/page.tsx:253-312 | A card always shows company and contact name, and shows each other field only when it is non-empty |
| Home.DisplayedIffNonEmpty | app/page.tsx:253-312 | On a stored lead's card, a field is shown iff it is non-empty; the score is shown iff the badge is present |
| Home.EmptyStateAfterDelete | app/page.tsx:243-247 | After a delete, the "No leads yet" message shows iff the list was empty or held only the deleted lead |
| Home.NoEmptyStateAfterSubmit | app/page.tsx:243-247 | After an accepted submit, the "No leads yet" message is not shown |
| Home.AcmeDraft | app/page.tsx:52-57 | Opening the form and typing company "Acme", contact "Jo" and score "8" gives a draft with exactly those fields set |
| Home.SaveThenDelete | app/page.tsx:34-61 | From an empty list, saving a filled draft lists exactly that lead, clears the draft, hides the form and removes the "No leads yet" message; deleting position 0 brings the message back |
| Home.AcmeBadge | app/page.tsx:254-256 | The Acme lead has both required fields and, with score "8", a High badge |
| Home.AcmeSession | app/page.tsx:34-61 | From page load: open the form, type Acme, Jo and 8, save. The Acme lead is then the only lead, with a High badge, the draft is blank and the form hidden; deleting position 0 brings back the "No leads yet" message |

## Left out

- `app/layout.tsx` is not part of this model. It holds only page metadata and the HTML shell.
- JSX markup, Tailwind class strings, links, and the badge text "Score: n/10" are left out. The three badge styles are the `ScoreColor` enum.
- React re-rendering and state batching are left out. Each handler runs to completion on the state of the render that created it, which is how a single event behaves.
- Home.SubmitForm: models only the two `required` attributes. The browser also blocks submit for an invalid `type="email"` or `type="url"` value and for a `type="number"` score outside 1 to 10 (`app/page.tsx:134`, `146`, `177-182`). The model lets those drafts through, so it allows more submits than the browser does.
- Leads.Update: a `name` that is not one of the ten keys would add an extra property to the draft object. The `Lead` record has only the ten fields, so the model leaves them unchanged. Every input on the page carries one of the ten keys.
- JsParseInt.ParseShowInt: the result is an unbounded integer, not an IEEE double. Very long digit runs in JavaScript round, or become Infinity. Rounding is monotone and 5 and 8 are exact doubles, so the colour is the same.
- JsParseInt.ParseIntDecimal: `-0` and `+0` both become `0`. They compare equally with 5 and 8, so the colour is the same.
- JavaScript strings are UTF-16 code units, while Dafny characters are Unicode scalar values. All white space and digit characters `parseInt` recognises lie in the Basic Multilingual Plane, so both views parse the same.
- `parseInt` with an explicit radix argument is left out, because the page never passes one.
