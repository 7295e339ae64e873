/** The EventForm component: its default values (with today's date), its required fields, the
    species checkboxes built from the birds, and the featured-image field. */
module EventForm {
  import opened Wrappers
  import opened Text
  import opened Records
  import opened Forms

  /** `now.split('T')[0]`: the calendar-date part of an ISO timestamp. */
  function DatePart(isoTimestamp: string): (date: string)
    ensures date <= isoTimestamp
    ensures 'T' !in date
    ensures |date| < |isoTimestamp| ==> isoTimestamp[|date|] == 'T'
  {
    if isoTimestamp == [] || isoTimestamp[0] == 'T' then ""
    else
      var rest := DatePart(isoTimestamp[1..]);
      assert isoTimestamp == [isoTimestamp[0]] + isoTimestamp[1..];
      [isoTimestamp[0]] + rest
  }

  /** DatePart agrees with the source's own expression, the first piece of the split on 'T'. */
  lemma {:induction false} DatePartIsFirstPiece(isoTimestamp: string)
    ensures DatePart(isoTimestamp) == Split(isoTimestamp, 'T')[0]
  {
    if isoTimestamp != [] {
      DatePartIsFirstPiece(isoTimestamp[1..]);
    }
  }

  /** For an ISO timestamp `date + "T" + time`, the default date is `date`. */
  lemma {:induction false} DatePartOfTimestamp(date: string, time: string)
    requires 'T' !in date
    ensures DatePart(date + "T" + time) == date
  {
    var s := date + "T" + time;
    if date != [] {
      assert s[1..] == date[1..] + "T" + time;
      assert 'T' !in date[1..] by { assert forall x :: x in date[1..] ==> x in date; }
      DatePartOfTimestamp(date[1..], time);
      assert date == [date[0]] + date[1..];
    }
  }

  /** The values a new event starts with; `nowIso` stands for `new Date().toISOString()`. */
  function NewEvent(nowIso: string): Event {
    Event(None, "", DatePart(nowIso), Some(""), Some(""), [], [], None)
  }

  /** The form's `defaultValues`: the event being edited, or a blank event dated today. */
  function Defaults(event: Option<Event>, nowIso: string): (d: Event)
    ensures event.Some? ==> d == event.value
    ensures event.None? ==> (d.title == "" && d.location_name == Some("") &&
      d.description == Some("") && d.bird_species_spotted == [] && d.images == [])
    ensures event.None? ==> d.event_date == DatePart(nowIso)
    ensures event.None? ==> d.id.None? && d.slug.None?
  {
    if event.Some? then event.value else NewEvent(nowIso)
  }

  datatype Field = Title | EventDate | LocationName | SpeciesSpotted | Description | FeaturedImage

  /** The fields registered with `required: true`. */
  const RequiredFields: set<Field> := {Title, EventDate, LocationName, Description}

  function OptionalMissing(v: Option<string>): bool {
    MissingText(v.None?, if v.Some? then v.value else "")
  }

  function Errors(e: Event): (errs: set<Field>)
    ensures errs <= RequiredFields
    ensures Title in errs <==> e.title == ""
    ensures EventDate in errs <==> e.event_date == ""
    ensures LocationName in errs <==> Falsy(e.location_name)
    ensures Description in errs <==> Falsy(e.description)
  {
    (if MissingText(false, e.title) then {Title} else {})
    + (if MissingText(false, e.event_date) then {EventDate} else {})
    + (if OptionalMissing(e.location_name) then {LocationName} else {})
    + (if OptionalMissing(e.description) then {Description} else {})
  }

  predicate Accepts(e: Event) { Errors(e) == {} }

  /** The positions of the ticked boxes, in increasing order. */
  function TickedPositions(checked: seq<bool>): (idx: seq<nat>)
    ensures forall k :: 0 <= k < |idx| ==> idx[k] < |checked| && checked[idx[k]]
    ensures forall k, l :: 0 <= k < l < |idx| ==> idx[k] < idx[l]
    ensures forall i :: 0 <= i < |checked| && checked[i] ==> i in idx
  {
    if checked == [] then []
    else
      var n := |checked| - 1;
      var front := TickedPositions(checked[..n]);
      assert forall i :: 0 <= i < n ==> checked[..n][i] == checked[i];
      var idx := front + (if checked[n] then [n] else []);
      assert forall k :: 0 <= k < |front| ==> idx[k] == front[k];
      idx
  }

  /** The species checkboxes: one per bird, valued with its English name. Once a box has been
      changed, the submitted list is the values of the ticked boxes, in the birds' order. */
  function CheckedSpecies(birds: seq<Bird>, checked: seq<bool>): (names: seq<string>)
    requires |checked| == |birds|
    ensures |names| == |TickedPositions(checked)|
    ensures forall k :: 0 <= k < |names| ==> names[k] == birds[TickedPositions(checked)[k]].english_name
    ensures forall n :: n in names ==> exists i :: 0 <= i < |birds| && checked[i] && birds[i].english_name == n
    ensures forall i :: 0 <= i < |birds| && checked[i] ==> birds[i].english_name in names
  {
    if birds == [] then []
    else
      var n := |birds| - 1;
      var front := CheckedSpecies(birds[..n], checked[..n]);
      front + (if checked[n] then [birds[n].english_name] else [])
  }

  /** What the form library holds for the checkbox group: the stored list while no box has been
      changed, the ticked boxes once one has. */
  datatype SpeciesInput = Untouched | Ticked(checked: seq<bool>)

  /** The submitted `bird_species_spotted`. */
  function SubmittedSpecies(stored: seq<string>, birds: seq<Bird>, input: SpeciesInput): (names: seq<string>)
    requires input.Ticked? ==> |input.checked| == |birds|
    ensures input.Untouched? ==> names == stored
    ensures input.Ticked? ==> forall n :: n in names <==>
      exists i :: 0 <= i < |birds| && input.checked[i] && birds[i].english_name == n
  {
    match input
    case Untouched => stored
    case Ticked(checked) => CheckedSpecies(birds, checked)
  }

  /** The boxes as the form first shows them: ticked when the bird's name is in the stored list. */
  function InitialBoxes(stored: seq<string>, birds: seq<Bird>): (checked: seq<bool>)
    ensures |checked| == |birds|
    ensures forall i :: 0 <= i < |birds| ==> (checked[i] <==> birds[i].english_name in stored)
  {
    seq(|birds|, i requires 0 <= i < |birds| => birds[i].english_name in stored)
  }

  /** Changing a box and changing it back submits the stored names that have a box, and drops
      the stored names no bird carries. */
  lemma RetickedKeepsNamedSpecies(stored: seq<string>, birds: seq<Bird>)
    ensures forall n :: n in SubmittedSpecies(stored, birds, Ticked(InitialBoxes(stored, birds))) <==>
      n in stored && exists i :: 0 <= i < |birds| && birds[i].english_name == n
  {
    var checked := InitialBoxes(stored, birds);
    var names := SubmittedSpecies(stored, birds, Ticked(checked));
    forall n | n in stored && exists i :: 0 <= i < |birds| && birds[i].english_name == n
      ensures n in names
    {
      var i :| 0 <= i < |birds| && birds[i].english_name == n;
      assert checked[i];
    }
  }

  /** `register('images.0.url')`: the featured URL is written to the first image descriptor,
      creating it when there is none; the other descriptors are untouched. */
  function SetFeaturedImage(images: seq<Image>, url: string): (r: seq<Image>)
    ensures |r| == if images == [] then 1 else |images|
    ensures r[0].url == url
    ensures images != [] ==> r[0].caption == images[0].caption && r[1..] == images[1..]
  {
    if images == [] then [Image(url, None)] else [images[0].(url := url)] + images[1..]
  }

  datatype Button = CloseIcon | DiscardLog | Seal

  function Press(button: Button, values: Event): (s: Submission<Event, Field>)
    ensures button != Seal ==> s == Cancelled
    ensures s.Submitted? <==> button == Seal && Accepts(values)
    ensures s.Submitted? ==> s.data == values
  {
    if button == Seal then HandleSubmit(values, Errors(values)) else Cancelled
  }
}
