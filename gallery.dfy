/** The Gallery page's derived data: the tag list offered as filters (`allTags`) and the birds
    shown for a search query and a selected tag (`filteredBirds`). */
module Gallery {
  import opened Wrappers
  import opened Text
  import opened Seqs
  import opened Records

  /** The tag that selects every bird, first in the tag list and selected initially. */
  const AllLabel: string := "All"

  /** `bird.tags ?? []` as seen by `forEach`. */
  function TagsOf(b: Bird): seq<string> {
    if b.tags.TagList? then b.tags.items else []
  }

  /** The tags of the given birds, bird after bird, each bird's tags in its own order. */
  function FlatTags(birds: seq<Bird>): seq<string> {
    if birds == [] then [] else FlatTags(birds[..|birds| - 1]) + TagsOf(birds[|birds| - 1])
  }

  /** What adding the elements of s one by one to a JavaScript Set holding acc leaves, read in
      insertion order: each element is appended unless it is already present. */
  function Dedup(acc: seq<string>, s: seq<string>): seq<string> {
    if s == [] then acc
    else
      var d := Dedup(acc, s[..|s| - 1]);
      if s[|s| - 1] in d then d else d + [s[|s| - 1]]
  }

  lemma {:induction false} DedupKeepsStart(acc: seq<string>, s: seq<string>)
    ensures |Dedup(acc, s)| >= |acc| && Dedup(acc, s)[..|acc|] == acc
  {
    if s != [] {
      DedupKeepsStart(acc, s[..|s| - 1]);
      var d := Dedup(acc, s[..|s| - 1]);
      assert (d + [s[|s| - 1]])[..|acc|] == d[..|acc|];
    }
  }

  lemma {:induction false} DedupMembers(acc: seq<string>, s: seq<string>)
    ensures forall x :: x in Dedup(acc, s) <==> x in acc || x in s
  {
    if s != [] {
      var init := s[..|s| - 1];
      DedupMembers(acc, init);
      assert s == init + [s[|s| - 1]];
    }
  }

  lemma {:induction false} DedupDistinct(acc: seq<string>, s: seq<string>)
    requires Distinct(acc)
    ensures Distinct(Dedup(acc, s))
  {
    if s != [] {
      DedupDistinct(acc, s[..|s| - 1]);
    }
  }

  /** The elements come in the order of their first occurrence in acc + s. */
  lemma {:induction false} DedupFirstOccurrenceOrder(acc: seq<string>, s: seq<string>)
    requires Distinct(acc)
    ensures InFirstOccurrenceOrder(Dedup(acc, s), acc + s)
  {
    if s == [] {
      assert acc + s == acc;
      DistinctInOwnOrder(acc);
    } else {
      var init, t := s[..|s| - 1], s[|s| - 1];
      var u := acc + init;
      assert acc + s == u + [t];
      var d := Dedup(acc, init);
      DedupFirstOccurrenceOrder(acc, init);
      DedupMembers(acc, init);
      if t in d {
        OrderAfterRepeat(d, u, t);
      } else {
        OrderAfterNew(d, u, t);
      }
    }
  }

  lemma DistinctInOwnOrder(s: seq<string>)
    requires Distinct(s)
    ensures InFirstOccurrenceOrder(s, s)
  {
    forall i, j | 0 <= i < j < |s| ensures FirstIndex(s, s[i]) < FirstIndex(s, s[j]) {
      FirstIndexDetermined(s, s[i], i);
      FirstIndexDetermined(s, s[j], j);
    }
  }

  /** Appending an element already seen keeps the order of first occurrences. */
  lemma OrderAfterRepeat(d: seq<string>, u: seq<string>, t: string)
    requires InFirstOccurrenceOrder(d, u)
    ensures InFirstOccurrenceOrder(d, u + [t])
  {
    forall i, j | 0 <= i < j < |d|
      ensures FirstIndex(u + [t], d[i]) < FirstIndex(u + [t], d[j])
    {
      FirstIndexOfExtension(u, t, d[i]);
      FirstIndexOfExtension(u, t, d[j]);
    }
  }

  /** Appending an element not seen before puts it last in the order of first occurrences. */
  lemma OrderAfterNew(d: seq<string>, u: seq<string>, t: string)
    requires InFirstOccurrenceOrder(d, u)
    requires forall x :: x in d <==> x in u
    requires t !in d
    ensures InFirstOccurrenceOrder(d + [t], u + [t])
  {
    var r := d + [t];
    FirstIndexDetermined(u + [t], t, |u|);
    forall i | 0 <= i < |r| ensures r[i] in u + [t] {
      if i < |d| { assert r[i] == d[i]; }
    }
    forall i, j | 0 <= i < j < |r|
      ensures FirstIndex(u + [t], r[i]) < FirstIndex(u + [t], r[j])
    {
      assert r[i] == d[i];
      FirstIndexOfExtension(u, t, d[i]);
      if j < |d| {
        assert r[j] == d[j];
        FirstIndexOfExtension(u, t, d[j]);
      } else {
        assert r[j] == t;
      }
    }
  }

  lemma FlatTagsStep(birds: seq<Bird>, i: nat)
    requires i < |birds|
    ensures FlatTags(birds[..i + 1]) == FlatTags(birds[..i]) + TagsOf(birds[i])
  {
    assert birds[..i + 1][..i] == birds[..i];
  }

  /** Adding one more element to the Set. */
  lemma DedupSnoc(acc: seq<string>, s: seq<string>, x: string)
    ensures Dedup(acc, s + [x]) == if x in Dedup(acc, s) then Dedup(acc, s) else Dedup(acc, s) + [x]
  {
    assert (s + [x])[..|s|] == s;
  }

  /** The tag list built from the flattened tags: 'All' first, no tag twice, exactly 'All' and
      the tags, in the order they first appear. */
  lemma TagSetProperties(flat: seq<string>)
    ensures |Dedup([AllLabel], flat)| > 0 && Dedup([AllLabel], flat)[0] == AllLabel
    ensures Distinct(Dedup([AllLabel], flat))
    ensures forall t :: t in Dedup([AllLabel], flat) <==> t == AllLabel || t in flat
    ensures InFirstOccurrenceOrder(Dedup([AllLabel], flat), [AllLabel] + flat)
  {
    DedupKeepsStart([AllLabel], flat);
    DedupDistinct([AllLabel], flat);
    DedupMembers([AllLabel], flat);
    DedupFirstOccurrenceOrder([AllLabel], flat);
  }

  /** `allTags`: a Set started with 'All', to which every tag of every bird is added in turn;
      read back as an array. `forEach` on a tags value that is a string would throw, so rows
      carry a list or no tags. */
  method AllTags(birds: seq<Bird>) returns (tags: seq<string>)
    requires forall b :: b in birds ==> !b.tags.TagText?
    ensures tags == Dedup([AllLabel], FlatTags(birds))
    ensures |tags| > 0 && tags[0] == AllLabel
    ensures Distinct(tags)
    ensures forall t :: t in tags <==> t == AllLabel || t in FlatTags(birds)
    ensures InFirstOccurrenceOrder(tags, [AllLabel] + FlatTags(birds))
  {
    tags := [AllLabel];
    var i := 0;
    while i < |birds|
      invariant 0 <= i <= |birds|
      invariant tags == Dedup([AllLabel], FlatTags(birds[..i]))
    {
      var items := TagsOf(birds[i]);
      var j := 0;
      assert FlatTags(birds[..i]) + items[..j] == FlatTags(birds[..i]);
      while j < |items|
        invariant 0 <= j <= |items|
        invariant tags == Dedup([AllLabel], FlatTags(birds[..i]) + items[..j])
      {
        ghost var seen := FlatTags(birds[..i]) + items[..j];
        AppendTakeStep(FlatTags(birds[..i]), items, j);
        DedupSnoc([AllLabel], seen, items[j]);
        if items[j] !in tags {
          tags := tags + [items[j]];
        }
        j := j + 1;
      }
      assert items[..j] == items;
      FlatTagsStep(birds, i);
      i := i + 1;
    }
    assert birds[..i] == birds;
    TagSetProperties(FlatTags(birds));
  }

  /** The search part of the predicate: english, local or scientific name contains the query,
      ignoring case, tried in that order. None when the evaluation throws: it reaches a name
      that is null. */
  function SearchMatch(b: Bird, query: string): Option<bool> {
    if ContainsIgnoringCase(b.english_name, query) then Some(true)
    else if b.local_name.None? then None
    else if ContainsIgnoringCase(b.local_name.value, query) then Some(true)
    else if b.scientific_name.None? then None
    else Some(ContainsIgnoringCase(b.scientific_name.value, query))
  }

  /** `selectedTag === 'All' || bird.tags?.includes(selectedTag)`; on a string value
      `includes` is substring search. */
  predicate TagMatch(b: Bird, selectedTag: string) {
    selectedTag == AllLabel ||
    match b.tags
    case NoTags => false
    case TagList(items) => selectedTag in items
    case TagText(text) => Contains(text, selectedTag)
  }

  predicate Kept(b: Bird, query: string, selectedTag: string) {
    SearchMatch(b, query) == Some(true) && TagMatch(b, selectedTag)
  }

  /** `filteredBirds`: the birds passing the search and the tag test, in order; None when the
      predicate throws for some bird. */
  function FilteredBirds(birds: seq<Bird>, query: string, selectedTag: string): (r: Option<seq<Bird>>)
    ensures r.None? <==> exists i :: 0 <= i < |birds| && SearchMatch(birds[i], query).None?
    ensures r.Some? ==> IsSublist(r.value, birds)
    ensures r.Some? ==> forall b :: b in r.value <==> b in birds && Kept(b, query, selectedTag)
  {
    if exists i :: 0 <= i < |birds| && SearchMatch(birds[i], query).None? then None
    else Some(Filter(birds, b => Kept(b, query, selectedTag)))
  }

  predicate HasNames(b: Bird) { b.local_name.Some? && b.scientific_name.Some? }

  /** For birds whose names are all present, a bird is shown exactly when one of its three
      names contains the query, ignoring case, and the tag test passes. */
  lemma FilteredBirdsWithNames(birds: seq<Bird>, query: string, selectedTag: string)
    requires forall i :: 0 <= i < |birds| ==> HasNames(birds[i])
    ensures FilteredBirds(birds, query, selectedTag).Some?
    ensures forall b :: b in FilteredBirds(birds, query, selectedTag).value <==>
      b in birds && TagMatch(b, selectedTag) &&
      (ContainsIgnoringCase(b.english_name, query) ||
       ContainsIgnoringCase(b.local_name.value, query) ||
       ContainsIgnoringCase(b.scientific_name.value, query))
  {
  }

  /** An empty query with 'All' selected shows every bird, tagged or not. */
  lemma {:induction false} EmptyQueryShowsAll(birds: seq<Bird>)
    ensures FilteredBirds(birds, "", AllLabel) == Some(birds)
  {
    forall b | b in birds ensures Kept(b, "", AllLabel) {
      ContainsEmpty(b.english_name);
    }
    forall i | 0 <= i < |birds| ensures SearchMatch(birds[i], "") == Some(true) {
      ContainsEmpty(birds[i].english_name);
    }
    FilterKeepsAll(birds, b => Kept(b, "", AllLabel));
  }
}
