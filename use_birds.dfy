/** The useBirds hook: the list of birds with its loading and error flags, the list fetch with
    its fallback to the built-in mock birds, and the lookup of one bird by slug. */
module UseBirds {
  import opened Wrappers
  import opened Seqs
  import opened Records
  import opened Fetch

  // The long texts of the mock birds.
  const HeronDescription: string := "A large wading bird in the heron family Ardeidae, common throughout most of North America, in the summer as far north as Alaska and the southern provinces of Canada."
  const HeronFunFact: string := "Great Blue Herons can hunt in both day and night thanks to a high percentage of rod-type photoreceptors in their eyes."
  const HeronThumbnail: string := "https://images.unsplash.com/photo-1550853024-fae8cd4be47f?auto=format&fit=crop&w=800&q=80"
  const EagleDescription: string := "A bird of prey found in North America. A sea eagle, it has two known subspecies and forms a species pair with the white-tailed eagle."
  const EagleFunFact: string := "Bald eagles are not actually bald; their name comes from an older meaning of the word \"white-headed\"."
  const EagleThumbnail: string := "https://images.unsplash.com/photo-1510618031347-1949175608b4?auto=format&fit=crop&w=800&q=80"
  const MacawDescription: string := "A large red, yellow, and blue Central and South American parrot, a member of a large group of Neotropical parrots called macaws."
  const MacawFunFact: string := "They can live for up to 60 years in the wild."
  const MacawThumbnail: string := "https://images.unsplash.com/photo-1552728089-57bdde30ebe3?auto=format&fit=crop&w=800&q=80"

  /** The three built-in birds used when the backend is missing, fails or is empty. */
  function MockBirds(): seq<Bird> {
    [ Bird(Some("1"), "Great Blue Heron", Some("Blue Heron"), Some("Ardea herodias"),
           Some(HeronDescription), Some(HeronFunFact),
           Some("Everglades, Florida"), "Common", Some("great-blue-heron"),
           Some(HeronThumbnail),
           TagList(["Waterbird", "Large"]), None, Some(1240)),
      Bird(Some("2"), "Bald Eagle", Some("Sea Eagle"), Some("Haliaeetus leucocephalus"),
           Some(EagleDescription), Some(EagleFunFact),
           Some("Alaska, USA"), "Recovering", Some("bald-eagle"),
           Some(EagleThumbnail),
           TagList(["Raptor", "National"]), None, Some(3500)),
      Bird(Some("3"), "Scarlet Macaw", Some("Guacamaya Roja"), Some("Ara macao"),
           Some(MacawDescription), Some(MacawFunFact),
           Some("Amazon Rainforest, Brazil"), "Vulnerable", Some("scarlet-macaw"),
           Some(MacawThumbnail),
           TagList(["Tropical", "Colorful"]), None, Some(2100)) ]
  }

  /** The mock slugs are present and pairwise distinct. */
  lemma MockBirdSlugsDistinct()
    ensures forall i :: 0 <= i < |MockBirds()| ==> MockBirds()[i].slug.Some?
    ensures forall i, j :: 0 <= i < j < |MockBirds()| ==> MockBirds()[i].slug != MockBirds()[j].slug
  {
  }

  /** `MOCK_BIRDS.find(b => b.slug === slug) || null`. */
  function FindMockBird(slug: string): Option<Bird> {
    FindFirst(MockBirds(), b => HasSlug(b, slug))
  }

  /** The fallback lookup is unambiguous: looking up the slug of a mock bird gives that bird. */
  lemma {:induction false} MockBirdLookupUnambiguous(k: nat)
    requires k < |MockBirds()|
    ensures FindMockBird(MockBirds()[k].slug.value) == Some(MockBirds()[k])
  {
    MockBirdSlugsDistinct();
    var slug := MockBirds()[k].slug.value;
    FindFirstUnique(MockBirds(), b => HasSlug(b, slug), k);
  }

  /** The state of one useBirds instance. `error` is declared by the hook but no path assigns it. */
  class BirdsHook {
    const hasBackend: bool
    /** The fallback list (the module's mock list). */
    const mocks: seq<Bird>
    var birds: seq<Bird>
    var loading: bool
    var error: Option<string>

    constructor (hasBackend: bool)
      ensures this.hasBackend == hasBackend && mocks == MockBirds()
      ensures birds == [] && loading && error == None
    {
      this.hasBackend := hasBackend;
      mocks := MockBirds();
      birds := [];
      loading := true;
      error := None;
    }

    /** `fetchBirds`: the stored list is the backend's rows, or the mock list when there is no
        backend, the query fails or it returns nothing; `loading` ends false on every path. */
    method FetchBirds(reply: ListReply<Bird>)
      modifies this
      ensures !loading
      ensures birds == FetchedList(hasBackend, reply, mocks)
      ensures error == old(error)
    {
      loading := true;
      if !hasBackend {
        birds := mocks;
      } else {
        match reply
        case ListFailed(_) =>
          birds := mocks;
        case Rows(rows) =>
          birds := if |rows| > 0 then rows else mocks;
      }
      loading := false;
    }

    /** `fetchBirdBySlug`: never fails; returns the backend's row, else the first mock with that
        slug, else None. The list and the error are left as they were. */
    method FetchBirdBySlug(slug: string, reply: RowReply<Bird>) returns (bird: Option<Bird>)
      modifies this`loading
      ensures !loading
      ensures bird == LookedUp(hasBackend, reply, mocks, b => HasSlug(b, slug))
      ensures birds == old(birds) && error == old(error)
    {
      loading := true;
      if !hasBackend {
        bird := FindFirst(mocks, b => HasSlug(b, slug));
      } else {
        match reply
        case RowFailed(_) =>
          bird := FindFirst(mocks, b => HasSlug(b, slug));
        case Row(row) =>
          bird := Some(row);
      }
      loading := false;
    }
  }
}
