/** The admin page: what `handleSave` does to a record before the upsert (slug derivation, tag
    splitting), the two list filters, and the page's view, authentication and status state. */
module Admin {
  import opened Wrappers
  import opened Text
  import opened Seqs
  import opened Records
  import opened Fetch
  import UseBirds
  import UseEvents
  import BirdForm
  import EventForm

  // ---------------------------------------------------------------- slug derivation

  /** The characters `/[^\w\s-]/g` does not delete. */
  predicate Allowed(c: char) { IsWordChar(c) || IsSpace(c) || c == '-' }

  /** The class `[\s_-]`. */
  predicate IsSeparator(c: char) { IsSpace(c) || c == '_' || c == '-' }

  predicate IsSlugChar(c: char) { 'a' <= c <= 'z' || '0' <= c <= '9' || c == '-' }

  predicate NoDoubleHyphen(s: string) {
    forall i :: 0 <= i < |s| - 1 ==> !(s[i] == '-' && s[i + 1] == '-')
  }

  /** Letters, digits and single hyphens, hyphens allowed at either end. */
  predicate IsSlugText(s: string) {
    (forall i :: 0 <= i < |s| ==> IsSlugChar(s[i])) && NoDoubleHyphen(s)
  }

  /** What a derived slug looks like: lower-case letters, digits and single inner hyphens. */
  predicate IsSlug(s: string) {
    (forall i :: 0 <= i < |s| ==> IsSlugChar(s[i])) &&
    (s == [] || (s[0] != '-' && s[|s| - 1] != '-')) &&
    NoDoubleHyphen(s)
  }

  /** `.replace(/[^\w\s-]/g, '')`. */
  function StripDisallowed(s: string): (r: string)
    ensures IsSublist(r, s)
    ensures forall c :: c in r <==> c in s && Allowed(c)
  {
    Filter(s, Allowed)
  }

  /** The separators at the front of s removed. */
  function DropSeparators(s: string): (r: string)
    ensures |r| <= |s| && r == s[|s| - |r|..]
    ensures forall i :: 0 <= i < |s| - |r| ==> IsSeparator(s[i])
    ensures r == [] || !IsSeparator(r[0])
  {
    if s != [] && IsSeparator(s[0]) then
      var r := DropSeparators(s[1..]);
      assert forall i :: 1 <= i < |s| ==> s[i] == s[1..][i - 1];
      r
    else s
  }

  /** What a character turns into when it starts a step of `Collapse`. */
  function CollapsedHead(c: char): (d: char)
    ensures d == '-' <==> IsSeparator(c)
  {
    if IsSeparator(c) then '-' else c
  }

  /** What `Collapse` works on after its first step: past the whole run of separators when s
      starts with one, past the first character otherwise. */
  function AfterHead(s: string): (r: string)
    requires s != []
    ensures |r| < |s| && r == s[|s| - |r|..]
    ensures IsSeparator(s[0]) ==> r == [] || !IsSeparator(r[0])
  {
    if IsSeparator(s[0]) then DropSeparators(s[1..]) else s[1..]
  }

  /** `.replace(/[\s_-]+/g, '-')`: every maximal run of separators becomes one `-`. */
  function Collapse(s: string): (r: string)
    ensures r == [] <==> s == []
    ensures r != [] ==> (r[0] == '-' <==> IsSeparator(s[0]))
    ensures NoDoubleHyphen(r)
    decreases |s|
  {
    if s == [] then [] else [CollapsedHead(s[0])] + Collapse(AfterHead(s))
  }

  /** Characters of the text that may reach `Collapse`: kept by the first `replace` and already
      lower-case. */
  predicate Lowered(c: char) { Allowed(c) && !IsUpper(c) }

  lemma {:induction false} CollapseChars(s: string)
    requires forall i :: 0 <= i < |s| ==> Lowered(s[i])
    ensures forall i :: 0 <= i < |Collapse(s)| ==> IsSlugChar(Collapse(s)[i])
    decreases |s|
  {
    if s != [] {
      var tail := AfterHead(s);
      forall i | 0 <= i < |tail| ensures Lowered(tail[i]) {
        assert tail[i] == s[|s| - |tail| + i];
      }
      CollapseChars(tail);
      var r := Collapse(s);
      assert r == [CollapsedHead(s[0])] + Collapse(tail);
      forall i | 0 <= i < |r| ensures IsSlugChar(r[i]) {
        if i > 0 {
          assert r[i] == Collapse(tail)[i - 1];
        }
      }
    }
  }

  /** `^-+` of `.replace(/^-+|-+$/g, '')`. */
  function DropLeadingHyphens(s: string): (r: string)
    ensures |r| <= |s| && r == s[|s| - |r|..]
    ensures forall i :: 0 <= i < |s| - |r| ==> s[i] == '-'
    ensures r == [] || r[0] != '-'
  {
    if s != [] && s[0] == '-' then
      var r := DropLeadingHyphens(s[1..]);
      assert forall i :: 1 <= i < |s| ==> s[i] == s[1..][i - 1];
      r
    else s
  }

  /** `-+$` of `.replace(/^-+|-+$/g, '')`. */
  function DropTrailingHyphens(s: string): (r: string)
    ensures |r| <= |s| && r == s[..|r|]
    ensures forall i :: |r| <= i < |s| ==> s[i] == '-'
    ensures r == [] || r[|r| - 1] != '-'
  {
    if s != [] && s[|s| - 1] == '-' then
      var r := DropTrailingHyphens(s[..|s| - 1]);
      assert s[..|s| - 1][..|r|] == s[..|r|];
      r
    else s
  }

  /** `.replace(/^-+|-+$/g, '')`: the hyphens at both ends removed. */
  function TrimHyphens(s: string): (r: string)
    ensures r == [] || (r[0] != '-' && r[|r| - 1] != '-')
  {
    DropTrailingHyphens(DropLeadingHyphens(s))
  }

  lemma LeadingOfSlugText(s: string)
    requires IsSlugText(s)
    ensures IsSlugText(DropLeadingHyphens(s))
  {
    var r := DropLeadingHyphens(s);
    SlugTextSlice(s, |s| - |r|, |s|);
  }

  lemma TrailingOfSlugText(s: string)
    requires IsSlugText(s)
    ensures IsSlugText(DropTrailingHyphens(s))
  {
    var r := DropTrailingHyphens(s);
    SlugTextSlice(s, 0, |r|);
  }

  /** Trimming the ends keeps an inner slice, so letters, digits and single hyphens stay so. */
  lemma TrimHyphensOfSlugText(s: string)
    requires IsSlugText(s)
    ensures IsSlug(TrimHyphens(s))
  {
    LeadingOfSlugText(s);
    TrailingOfSlugText(DropLeadingHyphens(s));
  }

  lemma SlugTextSlice(s: string, i: nat, j: nat)
    requires IsSlugText(s) && i <= j <= |s|
    ensures IsSlugText(s[i..j])
  {
    var t := s[i..j];
    assert forall n :: 0 <= n < |t| ==> t[n] == s[i + n];
  }

  /** What the first two steps leave: allowed characters, none of them upper-case. */
  lemma KeptIsLowered(name: string)
    ensures forall i :: 0 <= i < |StripDisallowed(Lower(name))| ==> Lowered(StripDisallowed(Lower(name))[i])
  {
    var lowered := Lower(name);
    var kept := StripDisallowed(lowered);
    forall i | 0 <= i < |kept| ensures Lowered(kept[i]) {
      assert kept[i] in lowered;
    }
  }

  /** The slug `handleSave` derives from an English name. */
  function Slugify(name: string): string {
    TrimHyphens(Collapse(StripDisallowed(Lower(name))))
  }

  /** A derived slug holds only lower-case letters, digits and single inner hyphens. */
  lemma SlugifyIsSlug(name: string)
    ensures IsSlug(Slugify(name))
  {
    var kept := StripDisallowed(Lower(name));
    KeptIsLowered(name);
    CollapseChars(kept);
    TrimHyphensOfSlugText(Collapse(kept));
  }

  /** One step of `Collapse` on text whose runs of separators have length one. */
  lemma CollapseStep(s: string)
    requires s != []
    requires |s| > 1 && IsSeparator(s[0]) ==> !IsSeparator(s[1])
    ensures Collapse(s) == [CollapsedHead(s[0])] + Collapse(s[1..])
  {
    if IsSeparator(s[0]) {
      assert DropSeparators(s[1..]) == s[1..];
    }
    assert AfterHead(s) == s[1..];
  }

  lemma SlugTextTail(s: string)
    requires s != [] && IsSlugText(s)
    ensures IsSlugText(s[1..])
    ensures |s| > 1 ==> IsSlugChar(s[1]) && !(s[0] == '-' && s[1] == '-')
  {
    var tail := s[1..];
    forall i | 0 <= i < |tail| ensures IsSlugChar(tail[i]) { assert tail[i] == s[i + 1]; }
    forall i | 0 <= i < |tail| - 1 ensures !(tail[i] == '-' && tail[i + 1] == '-') {
      assert tail[i] == s[i + 1] && tail[i + 1] == s[i + 2];
    }
  }

  /** Among slug characters only the hyphen is a separator. */
  lemma SlugCharSeparator(c: char)
    requires IsSlugChar(c)
    ensures IsSeparator(c) <==> c == '-'
  {
  }

  /** The first step of `Collapse` on slug text keeps its first character. */
  lemma CollapseSlugStep(s: string)
    requires s != [] && IsSlugText(s)
    ensures Collapse(s) == [s[0]] + Collapse(s[1..])
  {
    SlugTextTail(s);
    SlugCharSeparator(s[0]);
    if |s| > 1 {
      SlugCharSeparator(s[1]);
    }
    CollapseStep(s);
  }

  lemma {:induction false} CollapseOfSlug(s: string)
    requires IsSlugText(s)
    ensures Collapse(s) == s
    decreases |s|
  {
    if s != [] {
      SlugTextTail(s);
      CollapseOfSlug(s[1..]);
      CollapseSlugStep(s);
    }
  }

  /** A slug derives to itself. */
  lemma {:induction false} SlugFixedPoint(s: string)
    requires IsSlug(s)
    ensures Slugify(s) == s
  {
    LowerOfLower(s);
    FilterKeepsAll(s, Allowed);
    CollapseOfSlug(s);
  }

  /** Deriving a slug from a derived slug changes nothing. */
  lemma SlugifyIdempotent(name: string)
    ensures Slugify(Slugify(name)) == Slugify(name)
  {
    SlugifyIsSlug(name);
    SlugFixedPoint(Slugify(name));
  }

  predicate NoSeparator(w: string) { forall i :: 0 <= i < |w| ==> !IsSeparator(w[i]) }

  lemma NoSeparatorTail(w: string)
    requires w != [] && NoSeparator(w)
    ensures !IsSeparator(w[0]) && NoSeparator(w[1..])
  {
    var tail := w[1..];
    forall i | 0 <= i < |tail| ensures !IsSeparator(tail[i]) { assert tail[i] == w[i + 1]; }
  }

  /** A first character that is no separator passes through `Collapse` and nothing else moves. */
  lemma CollapseKeepsHead(c: char, t: string)
    requires !IsSeparator(c)
    ensures Collapse([c] + t) == [c] + Collapse(t)
  {
    var s := [c] + t;
    assert s[0] == c && s[1..] == t;
    CollapseStep(s);
  }

  lemma {:induction false} CollapseWord(w: string, rest: string)
    requires NoSeparator(w)
    ensures Collapse(w + rest) == w + Collapse(rest)
    decreases |w|
  {
    if w != [] {
      NoSeparatorTail(w);
      CollapseWord(w[1..], rest);
      var collapsed := Collapse(rest);
      SplitHead(w, rest);
      CollapseKeepsHead(w[0], w[1..] + rest);
      SplitHead(w, collapsed);
    } else {
      assert w + rest == rest;
    }
  }

  /** DropSeparators passes over exactly a run of separators at the front. */
  lemma {:induction false} DropSeparatorsOfRun(run: string, rest: string)
    requires forall i :: 0 <= i < |run| ==> IsSeparator(run[i])
    requires rest == [] || !IsSeparator(rest[0])
    ensures DropSeparators(run + rest) == rest
    decreases |run|
  {
    if run == [] {
      assert run + rest == rest;
    } else {
      var tail := run[1..];
      assert forall i :: 0 <= i < |tail| ==> tail[i] == run[i + 1];
      SplitHead(run, rest);
      DropSeparatorsOfRun(tail, rest);
    }
  }

  /** A whole run of separators becomes one `-`. With CollapseWord this fixes `Collapse` on
      every text, which is a sequence of words and separator runs. */
  lemma CollapseRun(run: string, rest: string)
    requires run != [] && forall i :: 0 <= i < |run| ==> IsSeparator(run[i])
    requires rest == [] || !IsSeparator(rest[0])
    ensures Collapse(run + rest) == ['-'] + Collapse(rest)
  {
    var tail := run[1..];
    assert forall i :: 0 <= i < |tail| ==> tail[i] == run[i + 1];
    SplitHead(run, rest);
    DropSeparatorsOfRun(tail, rest);
  }

  predicate NotHyphen(c: char) { c != '-' }

  predicate NotSeparator(c: char) { !IsSeparator(c) }

  /** The characters the first `replace` keeps that the second does not turn into `-`. */
  predicate KeptLetter(c: char) { Allowed(c) && NotSeparator(c) }

  predicate IsLowerAlnum(c: char) { 'a' <= c <= 'z' || '0' <= c <= '9' }

  /** Filtering away a leading run that fails p leaves the filter of the rest. */
  lemma FilterPastRun(s: string, n: nat, p: char -> bool)
    requires n <= |s| && forall i :: 0 <= i < n ==> !p(s[i])
    ensures Filter(s, p) == Filter(s[n..], p)
  {
    assert s == s[..n] + s[n..];
    FilterAppend(s[..n], s[n..], p);
    FilterKeepsNone(s[..n], p);
  }

  /** A separator at the front: its whole run is dropped, and `Collapse` writes one `-`. */
  lemma NonSeparatorsPastRun(s: string)
    requires s != [] && IsSeparator(s[0])
    ensures Filter(s, NotSeparator) == Filter(AfterHead(s), NotSeparator)
  {
    var tail := AfterHead(s);
    var n := |s| - |tail|;
    forall i | 0 <= i < n ensures !NotSeparator(s[i]) {
      if i > 0 {
        assert s[i] == s[1..][i - 1];
      }
    }
    FilterPastRun(s, n, NotSeparator);
  }

  /** A step of `Collapse` that starts at a separator: it writes `-` and moves past the run. */
  lemma SeparatorStepKeepsNonSeparators(s: string)
    requires s != [] && IsSeparator(s[0])
    requires Filter(Collapse(AfterHead(s)), NotHyphen) == Filter(AfterHead(s), NotSeparator)
    ensures Filter(Collapse(s), NotHyphen) == Filter(s, NotSeparator)
  {
    FilterCons('-', Collapse(AfterHead(s)), NotHyphen);
    NonSeparatorsPastRun(s);
  }

  /** A step of `Collapse` that starts at another character: that character is kept. */
  lemma OtherStepKeepsNonSeparators(s: string)
    requires s != [] && !IsSeparator(s[0])
    requires Filter(Collapse(s[1..]), NotHyphen) == Filter(s[1..], NotSeparator)
    ensures Filter(Collapse(s), NotHyphen) == Filter(s, NotSeparator)
  {
    var t := s[1..];
    assert s == [s[0]] + t;
    CollapseKeepsHead(s[0], t);
    FilterCons(s[0], Collapse(t), NotHyphen);
    FilterCons(s[0], t, NotSeparator);
  }

  /** `Collapse` keeps every character that is no separator, in order, and adds only hyphens. */
  lemma {:induction false} CollapseKeepsNonSeparators(s: string)
    ensures Filter(Collapse(s), NotHyphen) == Filter(s, NotSeparator)
    decreases |s|
  {
    if s != [] {
      CollapseKeepsNonSeparators(AfterHead(s));
      if IsSeparator(s[0]) {
        SeparatorStepKeepsNonSeparators(s);
      } else {
        OtherStepKeepsNonSeparators(s);
      }
    }
  }

  lemma LeadingHyphensKeepNonHyphens(s: string)
    ensures Filter(DropLeadingHyphens(s), NotHyphen) == Filter(s, NotHyphen)
  {
    var r := DropLeadingHyphens(s);
    FilterPastRun(s, |s| - |r|, NotHyphen);
  }

  lemma TrailingHyphensKeepNonHyphens(s: string)
    ensures Filter(DropTrailingHyphens(s), NotHyphen) == Filter(s, NotHyphen)
  {
    var r := DropTrailingHyphens(s);
    assert s == r + s[|r|..];
    FilterAppend(r, s[|r|..], NotHyphen);
    FilterKeepsNone(s[|r|..], NotHyphen);
  }

  /** On lower-cased text, the kept letters are exactly the letters `a-z` and the digits. */
  lemma KeptLettersOfLowered(lowered: string)
    requires forall i :: 0 <= i < |lowered| ==> !IsUpper(lowered[i])
    ensures Filter(lowered, KeptLetter) == Filter(lowered, IsLowerAlnum)
  {
    forall i | 0 <= i < |lowered| ensures KeptLetter(lowered[i]) == IsLowerAlnum(lowered[i]) {
      KeptLetterOfLowered(lowered[i]);
    }
    FilterCongruent(lowered, KeptLetter, IsLowerAlnum);
  }

  lemma KeptLetterOfLowered(c: char)
    requires !IsUpper(c)
    ensures KeptLetter(c) <==> IsLowerAlnum(c)
  {
  }

  /** Apart from its hyphens, the derived slug is exactly the letters `a-z` and the digits of
      the lower-cased name, in their order: no other character survives and none of these is
      lost. */
  lemma SlugKeepsLettersAndDigits(name: string)
    ensures Filter(Slugify(name), NotHyphen) == Filter(Lower(name), IsLowerAlnum)
  {
    var lowered := Lower(name);
    var kept := StripDisallowed(lowered);
    var collapsed := Collapse(kept);
    LeadingHyphensKeepNonHyphens(collapsed);
    TrailingHyphensKeepNonHyphens(DropLeadingHyphens(collapsed));
    CollapseKeepsNonSeparators(kept);
    FilterFilter(lowered, Allowed, NotSeparator, KeptLetter);
    KeptLettersOfLowered(lowered);
  }

  lemma AllowedExample(words: string)
    requires words == "great blue heron"
    ensures forall c :: c in words ==> Allowed(c)
  {
  }

  lemma DisallowedExample(bangs: string)
    requires bangs == "!!"
    ensures forall c :: c in bangs ==> !Allowed(c)
  {
  }

  lemma KeptExample(words: string, bangs: string)
    requires words == "great blue heron" && bangs == "!!"
    ensures StripDisallowed(words + bangs) == words
  {
    FilterAppend(words, bangs, Allowed);
    AllowedExample(words);
    FilterKeepsAll(words, Allowed);
    DisallowedExample(bangs);
    FilterKeepsNone(bangs, Allowed);
  }

  lemma WordExample(w: string)
    requires w == "great" || w == "blue" || w == "heron"
    ensures NoSeparator(w) && w != [] && w[|w| - 1] != '-'
  {
  }

  lemma CollapseExample(great: string, blue: string, heron: string)
    requires great == "great" && blue == "blue" && heron == "heron"
    ensures Collapse(great + ([' '] + (blue + ([' '] + heron)))) == great + (['-'] + (blue + (['-'] + heron)))
  {
    WordExample(great);
    WordExample(blue);
    WordExample(heron);
    var after := [' '] + heron;
    var rest := [' '] + (blue + after);
    CollapseWord(great, rest);
    assert rest[1..] == blue + after && rest[1] == blue[0];
    CollapseStep(rest);
    CollapseWord(blue, after);
    assert after[1..] == heron;
    CollapseStep(after);
    CollapseWord(heron, []);
    assert heron + [] == heron;
  }

  /** A text with no hyphen at either end keeps its ends. */
  lemma TrimHyphensKeeps(s: string)
    requires s == [] || (s[0] != '-' && s[|s| - 1] != '-')
    ensures TrimHyphens(s) == s
  {
    assert DropLeadingHyphens(s) == s;
    assert DropTrailingHyphens(s) == s;
  }

  lemma SpelledExample(great: string, blue: string, heron: string)
    requires great == "great" && blue == "blue" && heron == "heron"
    ensures great + (['-'] + (blue + (['-'] + heron))) == "great-blue-heron"
  {
  }

  lemma LowerExample(name: string, great: string, blue: string, heron: string, bangs: string)
    requires name == "Great Blue Heron!!"
    requires great == "great" && blue == "blue" && heron == "heron" && bangs == "!!"
    ensures Lower(name) == great + ([' '] + (blue + ([' '] + heron))) + bangs
  {
  }

  lemma CollapsedExample(name: string, great: string, blue: string, heron: string, bangs: string)
    requires name == "Great Blue Heron!!"
    requires great == "great" && blue == "blue" && heron == "heron" && bangs == "!!"
    ensures Collapse(StripDisallowed(Lower(name))) == great + (['-'] + (blue + (['-'] + heron)))
  {
    var words := great + ([' '] + (blue + ([' '] + heron)));
    LowerExample(name, great, blue, heron, bangs);
    KeptExample(words, bangs);
    CollapseExample(great, blue, heron);
  }

  lemma TrimmedExample(great: string, blue: string, heron: string)
    requires great == "great" && blue == "blue" && heron == "heron"
    ensures TrimHyphens(great + (['-'] + (blue + (['-'] + heron)))) == "great-blue-heron"
  {
    var slug := great + (['-'] + (blue + (['-'] + heron)));
    WordExample(heron);
    assert slug[0] == great[0] && slug[|slug| - 1] == heron[|heron| - 1];
    TrimHyphensKeeps(slug);
    SpelledExample(great, blue, heron);
  }

  lemma SlugExampleSteps(name: string, great: string, blue: string, heron: string, bangs: string)
    requires name == "Great Blue Heron!!"
    requires great == "great" && blue == "blue" && heron == "heron" && bangs == "!!"
    ensures Slugify(name) == "great-blue-heron"
  {
    CollapsedExample(name, great, blue, heron, bangs);
    TrimmedExample(great, blue, heron);
  }

  /** The example of the slug rule: "Great Blue Heron!!" becomes "great-blue-heron". */
  lemma SlugExample(name: string)
    requires name == "Great Blue Heron!!"
    ensures Slugify(name) == "great-blue-heron"
  {
    SlugExampleSteps(name, "great", "blue", "heron", "!!");
  }

  // ---------------------------------------------------------------- tags

  /** `text.split(',').map(tag => tag.trim())`. */
  function SplitTags(text: string): (items: seq<string>)
    ensures |items| == Count(text, ',') + 1
    ensures forall i :: 0 <= i < |items| ==> NoOuterSpace(items[i]) && ',' !in items[i]
  {
    var pieces := Split(text, ',');
    seq(|pieces|, i requires 0 <= i < |pieces| => Trim(pieces[i]))
  }

  /** A tags text made of items joined by commas saves as exactly those items when no item holds
      a comma or outer whitespace. */
  lemma SplitTagsOfJoin(tags: seq<string>)
    requires |tags| > 0
    requires forall i :: 0 <= i < |tags| ==> ',' !in tags[i] && NoOuterSpace(tags[i])
    ensures SplitTags(Join(tags, ',')) == tags
  {
    SplitJoin(tags, ',');
    forall i | 0 <= i < |tags| ensures Trim(tags[i]) == tags[i] {
      TrimOfTrimmed(tags[i]);
    }
  }

  /** An empty tags text saves as one empty tag. */
  lemma EmptyTagText()
    ensures SplitTags("") == [""]
  {
    SplitWithout("", ',');
  }

  /** A `tags` value that is a string becomes the list of its comma-separated items, trimmed;
      any other value is left as it is. */
  function FormatTags(tags: TagsValue): (r: TagsValue)
    ensures tags.TagText? ==> (r.TagList? && |r.items| == Count(tags.text, ',') + 1 &&
      (forall i :: 0 <= i < |r.items| ==> NoOuterSpace(r.items[i])))
    ensures !tags.TagText? ==> r == tags
  {
    if tags.TagText? then TagList(SplitTags(tags.text)) else tags
  }

  // ---------------------------------------------------------------- handleSave's record

  datatype Tab = BirdsTab | EventsTab

  /** The table a tab's records are saved to and removed from. */
  datatype Table = BirdsTable | EventsTable

  function TableOf(tab: Tab): (t: Table)
    ensures t == BirdsTable <==> tab == BirdsTab
  {
    if tab == BirdsTab then BirdsTable else EventsTable
  }

  /** The form on the birds tab submits birds, the one on the events tab events. */
  predicate FitsTab(tab: Tab, r: Record) {
    (tab == BirdsTab && r.BirdRecord?) || (tab == EventsTab && r.EventRecord?)
  }

  /** `formattedData`: tags split when they are text, and on the birds tab a slug derived from
      the English name when the record has none. */
  function PrepareForSave(tab: Tab, data: Record): (r: Record)
    requires FitsTab(tab, data)
    ensures FitsTab(tab, r)
    ensures data.EventRecord? ==> r == data
    ensures data.BirdRecord? ==> r.bird.tags == FormatTags(data.bird.tags)
    ensures data.BirdRecord? && !Falsy(data.bird.slug) ==> r.bird.slug == data.bird.slug
    ensures data.BirdRecord? && Falsy(data.bird.slug) ==>
      r.bird.slug == Some(Slugify(data.bird.english_name))
    ensures data.BirdRecord? ==> r.bird == data.bird.(tags := r.bird.tags, slug := r.bird.slug)
  {
    match data
    case EventRecord(_) => data
    case BirdRecord(b) =>
      var b' := b.(tags := FormatTags(b.tags));
      BirdRecord(if Falsy(b.slug) then b'.(slug := Some(Slugify(b.english_name))) else b')
  }

  /** Saving a record prepared once more changes nothing: its slug is set and its tags are a
      list. */
  lemma PrepareForSaveIdempotent(tab: Tab, data: Record)
    requires FitsTab(tab, data)
    ensures PrepareForSave(tab, PrepareForSave(tab, data)) == PrepareForSave(tab, data)
  {
  }

  // ---------------------------------------------------------------- list filters

  /** The birds list's search: the English name, or the scientific name or location where
      present, contains the term, ignoring case. */
  predicate BirdRowMatches(b: Bird, term: string) {
    ContainsIgnoringCase(b.english_name, term) ||
    (b.scientific_name.Some? && ContainsIgnoringCase(b.scientific_name.value, term)) ||
    (b.location.Some? && ContainsIgnoringCase(b.location.value, term))
  }

  /** The events list's search: the title, or the location where present. */
  predicate EventRowMatches(e: Event, term: string) {
    ContainsIgnoringCase(e.title, term) ||
    (e.location_name.Some? && ContainsIgnoringCase(e.location_name.value, term))
  }

  function BirdRows(birds: seq<Bird>, term: string): (rows: seq<Bird>)
    ensures IsSublist(rows, birds)
    ensures forall b :: b in rows <==> b in birds && BirdRowMatches(b, term)
  {
    Filter(birds, b => BirdRowMatches(b, term))
  }

  function EventRows(events: seq<Event>, term: string): (rows: seq<Event>)
    ensures IsSublist(rows, events)
    ensures forall e :: e in rows <==> e in events && EventRowMatches(e, term)
  {
    Filter(events, e => EventRowMatches(e, term))
  }

  /** An empty search term lists every record. */
  lemma {:induction false} EmptyTermListsAll(birds: seq<Bird>, events: seq<Event>)
    ensures BirdRows(birds, "") == birds
    ensures EventRows(events, "") == events
  {
    forall b | b in birds ensures BirdRowMatches(b, "") { ContainsEmpty(b.english_name); }
    forall e | e in events ensures EventRowMatches(e, "") { ContainsEmpty(e.title); }
    FilterKeepsAll(birds, b => BirdRowMatches(b, ""));
    FilterKeepsAll(events, e => EventRowMatches(e, ""));
  }

  // ---------------------------------------------------------------- the page's state

  /** `actionStatus.type`. */
  datatype StatusType = LoadingStatus | SuccessStatus | ErrorStatus

  datatype ActionStatus = ActionStatus(kind: StatusType, message: string)

  /** The two `setTimeout` callbacks: closing the form 1500 ms after a save, clearing the
      status 2000 ms after a removal. */
  datatype Timer = CloseFormTimer | ClearStatusTimer

  /** A request sent to the backend. */
  datatype Request = Upsert(table: Table, record: Record) | DeleteById(table: Table, id: Option<string>)

  /** What the page shows. */
  datatype Screen = LoginScreen | FormScreen(tab: Tab) | ListScreen(tab: Tab)

  const DefaultPassword: string := "admin123"
  const LoginErrorText: string := "Invalid observation credentials."
  const SaveFailedPrefix: string := "Failed to save: "
  const DeleteFailedPrefix: string := "Deletion failed: "
  const RemovedText: string := "Record successfully removed."

  /** `import.meta.env.VITE_ADMIN_PASSWORD || 'admin123'`: an unset or empty setting falls back
      to the default. */
  function AdminPassword(configured: Option<string>): (p: string)
    ensures p != ""
    ensures configured.Some? && configured.value != "" ==> p == configured.value
    ensures configured.None? || configured.value == "" ==> p == DefaultPassword
  {
    if configured.Some? && configured.value != "" then configured.value else DefaultPassword
  }

  const SavingText: string := "Saving recorded observation..."

  function SavedText(tab: Tab): string {
    if tab == BirdsTab then "Bird successfully registered." else "Event successfully registered."
  }

  /** The admin page. `storedAuth` stands for the `admin_auth` entry of localStorage;
      `requests` records what was sent to the backend. */
  class AdminPage {
    const configuredPassword: Option<string>
    const birdsHook: UseBirds.BirdsHook
    const eventsHook: UseEvents.EventsHook
    var storedAuth: bool
    var isAuthenticated: bool
    var password: string
    var loginError: string
    var activeTab: Tab
    var isAdding: bool
    var editingItem: Option<Record>
    var actionStatus: Option<ActionStatus>
    var searchTerm: string
    var pendingTimers: seq<Timer>
    ghost var requests: seq<Request>

    /** The record being edited belongs to the tab on display. */
    predicate Valid()
      reads this
    {
      editingItem.Some? ==> FitsTab(activeTab, editingItem.value)
    }

    /** `isAdding || editingItem`: the form replaces the list. */
    predicate ShowsForm()
      reads this
    {
      isAdding || editingItem.Some?
    }

    function CurrentScreen(): (s: Screen)
      reads this
      ensures s == LoginScreen <==> !isAuthenticated
      ensures s.FormScreen? <==> isAuthenticated && ShowsForm()
      ensures s.ListScreen? <==> isAuthenticated && !ShowsForm()
      ensures s != LoginScreen ==> s.tab == activeTab
    {
      if !isAuthenticated then LoginScreen
      else if ShowsForm() then FormScreen(activeTab)
      else ListScreen(activeTab)
    }

    /** The rows the list shows for the current tab and search term. */
    function ShownBirds(): (rows: seq<Bird>)
      reads this, birdsHook
      ensures IsSublist(rows, birdsHook.birds)
    {
      BirdRows(birdsHook.birds, searchTerm)
    }

    function ShownEvents(): (rows: seq<Event>)
      reads this, eventsHook
      ensures IsSublist(rows, eventsHook.events)
    {
      EventRows(eventsHook.events, searchTerm)
    }

    /** The first render: nothing is authenticated yet, the birds tab is active and no form or
        status is shown. */
    constructor (storedAuth: bool, configuredPassword: Option<string>, hasBackend: bool)
      ensures Valid()
      ensures this.storedAuth == storedAuth && this.configuredPassword == configuredPassword
      ensures birdsHook.hasBackend == hasBackend && eventsHook.hasBackend == hasBackend
      ensures birdsHook.mocks == UseBirds.MockBirds() && eventsHook.mocks == UseEvents.MockEvents()
      ensures fresh(birdsHook) && fresh(eventsHook)
      ensures !isAuthenticated && password == "" && loginError == ""
      ensures activeTab == BirdsTab && !isAdding && editingItem.None? && actionStatus.None?
      ensures searchTerm == "" && pendingTimers == [] && requests == []
    {
      this.configuredPassword := configuredPassword;
      birdsHook := new UseBirds.BirdsHook(hasBackend);
      eventsHook := new UseEvents.EventsHook(hasBackend);
      this.storedAuth := storedAuth;
      isAuthenticated := false;
      password := "";
      loginError := "";
      activeTab := BirdsTab;
      isAdding := false;
      editingItem := None;
      actionStatus := None;
      searchTerm := "";
      pendingTimers := [];
      requests := [];
    }

    /** The mount effects: the stored flag restores the session, and both hooks fetch their
        lists. */
    method Mount(birdsReply: ListReply<Bird>, eventsReply: ListReply<Event>)
      modifies this, birdsHook, eventsHook
      ensures isAuthenticated == (old(isAuthenticated) || storedAuth)
      ensures birdsHook.birds == FetchedList(birdsHook.hasBackend, birdsReply, birdsHook.mocks)
      ensures eventsHook.events == FetchedList(eventsHook.hasBackend, eventsReply, eventsHook.mocks)
      ensures !birdsHook.loading && !eventsHook.loading
      ensures birdsHook.error == old(birdsHook.error) && eventsHook.error == old(eventsHook.error)
      ensures storedAuth == old(storedAuth) && password == old(password)
      ensures loginError == old(loginError) && activeTab == old(activeTab)
      ensures isAdding == old(isAdding) && editingItem == old(editingItem)
      ensures actionStatus == old(actionStatus) && searchTerm == old(searchTerm)
      ensures pendingTimers == old(pendingTimers) && requests == old(requests)
    {
      if storedAuth {
        isAuthenticated := true;
      }
      birdsHook.FetchBirds(birdsReply);
      eventsHook.FetchEvents(eventsReply);
    }

    /** Typing into the password field. */
    method SetPassword(text: string)
      modifies this`password
      ensures password == text
    {
      password := text;
    }

    /** `handleLogin`: the typed password against the configured one. */
    method Login()
      requires !isAuthenticated
      modifies this`isAuthenticated, this`loginError, this`storedAuth
      ensures isAuthenticated <==> password == AdminPassword(configuredPassword)
      ensures isAuthenticated ==> loginError == "" && storedAuth
      ensures !isAuthenticated ==> loginError == LoginErrorText && storedAuth == old(storedAuth)
    {
      if password == AdminPassword(configuredPassword) {
        isAuthenticated := true;
        loginError := "";
        storedAuth := true;
      } else {
        loginError := LoginErrorText;
      }
    }

    /** `handleLogout`: the session ends and the stored flag is removed. The typed password
        stays. */
    method Logout()
      modifies this`isAuthenticated, this`storedAuth
      ensures !isAuthenticated && !storedAuth
      ensures CurrentScreen() == LoginScreen
    {
      isAuthenticated := false;
      storedAuth := false;
    }

    /** A tab button: the tab becomes active and any open form closes. */
    method SelectTab(tab: Tab)
      modifies this`activeTab, this`isAdding, this`editingItem
      ensures activeTab == tab && !isAdding && editingItem.None?
      ensures Valid() && !ShowsForm()
    {
      activeTab := tab;
      isAdding := false;
      editingItem := None;
    }

    /** "Add New": the empty form for the active tab. */
    method StartAdding()
      modifies this`isAdding
      ensures isAdding && ShowsForm()
    {
      isAdding := true;
    }

    /** The edit button of a row: the form opens on that record. */
    method StartEditing(item: Record)
      requires FitsTab(activeTab, item)
      modifies this`editingItem
      ensures editingItem == Some(item) && ShowsForm() && Valid()
    {
      editingItem := Some(item);
    }

    /** The form's `onCancel`: back to the list. */
    method Cancel()
      modifies this`isAdding, this`editingItem
      ensures !isAdding && editingItem.None? && !ShowsForm()
    {
      isAdding := false;
      editingItem := None;
    }

    method SetSearchTerm(term: string)
      modifies this`searchTerm
      ensures searchTerm == term
    {
      searchTerm := term;
    }

    /** Refetching the active tab's list after a change. */
    method Refetch(birdsReply: ListReply<Bird>, eventsReply: ListReply<Event>)
      modifies birdsHook, eventsHook
      ensures activeTab == BirdsTab ==>
        birdsHook.birds == FetchedList(birdsHook.hasBackend, birdsReply, birdsHook.mocks) &&
        eventsHook.events == old(eventsHook.events) && eventsHook.loading == old(eventsHook.loading)
      ensures activeTab == EventsTab ==>
        eventsHook.events == FetchedList(eventsHook.hasBackend, eventsReply, eventsHook.mocks) &&
        birdsHook.birds == old(birdsHook.birds) && birdsHook.loading == old(birdsHook.loading)
      ensures !birdsHook.loading || !eventsHook.loading
      ensures birdsHook.error == old(birdsHook.error) && eventsHook.error == old(eventsHook.error)
    {
      if activeTab == BirdsTab {
        birdsHook.FetchBirds(birdsReply);
      } else {
        eventsHook.FetchEvents(eventsReply);
      }
    }

    /** `handleSave`, with the backend's answer to the upsert given as `upsert` and its answer to
        the refetch as `birdsReply` or `eventsReply`. */
    method Save(data: Record, upsert: Outcome, birdsReply: ListReply<Bird>, eventsReply: ListReply<Event>)
      requires isAuthenticated && ShowsForm() && Valid()
      requires FitsTab(activeTab, data)
      modifies this`actionStatus, this`pendingTimers, this`requests, birdsHook, eventsHook
      ensures requests == old(requests) + [Upsert(TableOf(activeTab), PrepareForSave(activeTab, data))]
      ensures upsert.Err? ==> actionStatus == Some(ActionStatus(ErrorStatus, SaveFailedPrefix + upsert.message))
      ensures upsert.Err? ==> pendingTimers == old(pendingTimers)
      ensures upsert.Err? ==>
        (birdsHook.birds == old(birdsHook.birds) && birdsHook.loading == old(birdsHook.loading) &&
         eventsHook.events == old(eventsHook.events) && eventsHook.loading == old(eventsHook.loading))
      ensures upsert.Ok? ==> actionStatus == Some(ActionStatus(SuccessStatus, SavedText(activeTab)))
      ensures upsert.Ok? ==> pendingTimers == old(pendingTimers) + [CloseFormTimer]
      ensures upsert.Ok? && activeTab == BirdsTab ==>
        (birdsHook.birds == FetchedList(birdsHook.hasBackend, birdsReply, birdsHook.mocks) &&
         eventsHook.events == old(eventsHook.events))
      ensures upsert.Ok? && activeTab == EventsTab ==>
        (eventsHook.events == FetchedList(eventsHook.hasBackend, eventsReply, eventsHook.mocks) &&
         birdsHook.birds == old(birdsHook.birds))
      ensures birdsHook.error == old(birdsHook.error) && eventsHook.error == old(eventsHook.error)
      ensures ShowsForm() && Valid()
    {
      actionStatus := Some(ActionStatus(LoadingStatus, SavingText));
      requests := requests + [Upsert(TableOf(activeTab), PrepareForSave(activeTab, data))];
      FinishSave(upsert, birdsReply, eventsReply);
    }

    /** What `handleSave` does once the backend has answered the upsert. */
    method FinishSave(upsert: Outcome, birdsReply: ListReply<Bird>, eventsReply: ListReply<Event>)
      modifies this`actionStatus, this`pendingTimers, birdsHook, eventsHook
      ensures upsert.Err? ==> actionStatus == Some(ActionStatus(ErrorStatus, SaveFailedPrefix + upsert.message))
      ensures upsert.Err? ==> pendingTimers == old(pendingTimers)
      ensures upsert.Err? ==>
        (birdsHook.birds == old(birdsHook.birds) && birdsHook.loading == old(birdsHook.loading) &&
         eventsHook.events == old(eventsHook.events) && eventsHook.loading == old(eventsHook.loading))
      ensures upsert.Ok? ==> actionStatus == Some(ActionStatus(SuccessStatus, SavedText(activeTab)))
      ensures upsert.Ok? ==> pendingTimers == old(pendingTimers) + [CloseFormTimer]
      ensures upsert.Ok? && activeTab == BirdsTab ==>
        (birdsHook.birds == FetchedList(birdsHook.hasBackend, birdsReply, birdsHook.mocks) &&
         eventsHook.events == old(eventsHook.events))
      ensures upsert.Ok? && activeTab == EventsTab ==>
        (eventsHook.events == FetchedList(eventsHook.hasBackend, eventsReply, eventsHook.mocks) &&
         birdsHook.birds == old(birdsHook.birds))
      ensures birdsHook.error == old(birdsHook.error) && eventsHook.error == old(eventsHook.error)
    {
      match upsert {
        case Err(message) =>
          actionStatus := Some(ActionStatus(ErrorStatus, SaveFailedPrefix + message));
        case Ok =>
          actionStatus := Some(ActionStatus(SuccessStatus, SavedText(activeTab)));
          Refetch(birdsReply, eventsReply);
          pendingTimers := pendingTimers + [CloseFormTimer];
      }
    }

    /** `handleDelete`: `confirmed` is the user's answer to the confirmation dialog, `reply` the
        backend's answer to the removal. */
    method Delete(id: Option<string>, confirmed: bool, reply: Outcome,
                  birdsReply: ListReply<Bird>, eventsReply: ListReply<Event>)
      requires isAuthenticated && !ShowsForm()
      modifies this`actionStatus, this`pendingTimers, this`requests, birdsHook, eventsHook
      ensures !confirmed ==> (requests == old(requests) && actionStatus == old(actionStatus) &&
        pendingTimers == old(pendingTimers))
      ensures !confirmed ==>
        (birdsHook.birds == old(birdsHook.birds) && birdsHook.loading == old(birdsHook.loading) &&
         eventsHook.events == old(eventsHook.events) && eventsHook.loading == old(eventsHook.loading))
      ensures confirmed ==> requests == old(requests) + [DeleteById(TableOf(activeTab), id)]
      ensures confirmed && reply.Err? ==>
        actionStatus == Some(ActionStatus(ErrorStatus, DeleteFailedPrefix + reply.message)) &&
        pendingTimers == old(pendingTimers) &&
        (birdsHook.birds == old(birdsHook.birds) && birdsHook.loading == old(birdsHook.loading) &&
         eventsHook.events == old(eventsHook.events) && eventsHook.loading == old(eventsHook.loading))
      ensures confirmed && reply.Ok? ==>
        actionStatus == Some(ActionStatus(SuccessStatus, RemovedText)) &&
        pendingTimers == old(pendingTimers) + [ClearStatusTimer]
      ensures confirmed && reply.Ok? && activeTab == BirdsTab ==>
        (birdsHook.birds == FetchedList(birdsHook.hasBackend, birdsReply, birdsHook.mocks) &&
         eventsHook.events == old(eventsHook.events))
      ensures confirmed && reply.Ok? && activeTab == EventsTab ==>
        (eventsHook.events == FetchedList(eventsHook.hasBackend, eventsReply, eventsHook.mocks) &&
         birdsHook.birds == old(birdsHook.birds))
      ensures birdsHook.error == old(birdsHook.error) && eventsHook.error == old(eventsHook.error)
    {
      if !confirmed {
        return;
      }
      actionStatus := Some(ActionStatus(LoadingStatus, "Removing record..."));
      requests := requests + [DeleteById(TableOf(activeTab), id)];
      match reply {
        case Err(message) =>
          actionStatus := Some(ActionStatus(ErrorStatus, DeleteFailedPrefix + message));
        case Ok =>
          actionStatus := Some(ActionStatus(SuccessStatus, RemovedText));
          Refetch(birdsReply, eventsReply);
          pendingTimers := pendingTimers + [ClearStatusTimer];
      }
    }

    /** One pending timer fires; timers may fire in any order. */
    method TimerFires(i: nat)
      requires i < |pendingTimers|
      modifies this`isAdding, this`editingItem, this`actionStatus, this`pendingTimers
      ensures pendingTimers == old(pendingTimers[..i] + pendingTimers[i + 1..])
      ensures actionStatus.None?
      ensures old(pendingTimers[i]) == CloseFormTimer ==> !isAdding && editingItem.None? && !ShowsForm()
      ensures old(pendingTimers[i]) == ClearStatusTimer ==>
        isAdding == old(isAdding) && editingItem == old(editingItem)
      ensures old(Valid()) ==> Valid()
    {
      var timer := pendingTimers[i];
      pendingTimers := pendingTimers[..i] + pendingTimers[i + 1..];
      if timer == CloseFormTimer {
        isAdding := false;
        editingItem := None;
      }
      actionStatus := None;
    }
  }
}
