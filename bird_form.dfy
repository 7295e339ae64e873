/** The BirdForm component: its default values, its required fields, the population-status
    options, and which callback each of its buttons leads to. */
module BirdForm {
  import opened Wrappers
  import opened Records
  import opened Forms

  /** The options of the population-status select, in their order. */
  const PopulationStatuses: seq<string> :=
    ["Common", "Uncommon", "Vulnerable", "Endangered", "Critically Endangered"]

  /** The values a new (not edited) bird starts with. */
  function NewBird(): Bird {
    Bird(None, "", Some(""), Some(""), Some(""), Some(""), Some(""), "Common", None, Some(""),
         TagList([]), Some(false), None)
  }

  /** The form's `defaultValues`: the record being edited, or a blank bird. */
  function Defaults(bird: Option<Bird>): (d: Bird)
    ensures bird.Some? ==> d == bird.value
    ensures bird.None? ==> (d.english_name == "" && d.local_name == Some("") &&
      d.scientific_name == Some("") && d.description == Some("") && d.fun_fact == Some("") &&
      d.location == Some("") && d.thumbnail == Some(""))
    ensures bird.None? ==> (d.population_status == "Common" && d.tags == TagList([]) &&
      d.is_featured == Some(false))
    ensures bird.None? ==> d.population_status in PopulationStatuses
    ensures bird.None? ==> d.id.None? && Falsy(d.slug)
  {
    if bird.Some? then bird.value else NewBird()
  }

  /** The fields the form registers. */
  datatype Field = EnglishName | ScientificName | Location | PopulationStatus | IsFeatured
                 | Description | Thumbnail | TagsInput

  /** The fields registered with `required: true`. */
  const RequiredFields: set<Field> := {EnglishName, ScientificName, Location, Description}

  function OptionalMissing(v: Option<string>): bool {
    MissingText(v.None?, if v.Some? then v.value else "")
  }

  /** The fields whose `required` rule fails for these values. */
  function Errors(b: Bird): (errs: set<Field>)
    ensures errs <= RequiredFields
    ensures EnglishName in errs <==> b.english_name == ""
    ensures ScientificName in errs <==> Falsy(b.scientific_name)
    ensures Location in errs <==> Falsy(b.location)
    ensures Description in errs <==> Falsy(b.description)
  {
    (if MissingText(false, b.english_name) then {EnglishName} else {})
    + (if OptionalMissing(b.scientific_name) then {ScientificName} else {})
    + (if OptionalMissing(b.location) then {Location} else {})
    + (if OptionalMissing(b.description) then {Description} else {})
  }

  /** The values handleSave may receive from this form: every required field filled. */
  predicate Accepts(b: Bird) { Errors(b) == {} }

  /** The buttons: the close icon and "Discard" call onCancel; "Commit Record" submits. */
  datatype Button = CloseIcon | Discard | Commit

  function Press(button: Button, values: Bird): (s: Submission<Bird, Field>)
    ensures button != Commit ==> s == Cancelled
    ensures s.Submitted? <==> button == Commit && Accepts(values)
    ensures s.Submitted? ==> s.data == values
  {
    if button == Commit then HandleSubmit(values, Errors(values)) else Cancelled
  }

  /** A blank new bird cannot be committed until its required fields are filled. */
  lemma BlankBirdRejected()
    ensures Press(Commit, Defaults(None)) == Rejected(RequiredFields)
  {
  }
}
