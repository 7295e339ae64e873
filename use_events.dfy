/** The useEvents hook: the list of events with its loading and error flags, the list fetch
    with its fallback to the built-in mock events, and the lookup of one event by slug. */
module UseEvents {
  import opened Wrappers
  import opened Seqs
  import opened Records
  import opened Fetch

  // The long texts of the mock events.
  const MarshDescription: string := "A crisp morning spent observing waterbirds. The lighting was perfect for capturing the Heron in its natural hunting stance."
  const MarshImage: string := "https://images.unsplash.com/photo-1550853024-fae8cd4be47f?auto=format&fit=crop&w=800&q=80"
  const CanopyDescription: string := "We trekked deep into the canopy to sight the Macaws. The vibrant colors against the green background were breathtaking."
  const CanopyImage: string := "https://images.unsplash.com/photo-1552728089-57bdde30ebe3?auto=format&fit=crop&w=800&q=80"

  /** The two built-in events used when the backend is missing, fails or is empty. */
  function MockEvents(): seq<Event> {
    [ Event(Some("e1"), "Morning Marsh Observation", "2025-11-15", Some("Chestnut Nature Park"),
            Some(MarshDescription),
            ["Great Blue Heron", "Kingfisher", "Egret"],
            [Image(MarshImage, None)],
            Some("morning-marsh-observation")),
      Event(Some("e2"), "Rainforest Canopy Flight", "2025-10-22", Some("Amazon Buffer Zone"),
            Some(CanopyDescription),
            ["Scarlet Macaw", "Toucan", "Harpy Eagle"],
            [Image(CanopyImage, None)],
            Some("rainforest-canopy-flight")) ]
  }

  /** The mock slugs are present and distinct. */
  lemma MockEventSlugsDistinct()
    ensures forall i :: 0 <= i < |MockEvents()| ==> MockEvents()[i].slug.Some?
    ensures forall i, j :: 0 <= i < j < |MockEvents()| ==> MockEvents()[i].slug != MockEvents()[j].slug
  {
  }

  /** `MOCK_EVENTS.find(e => e.slug === slug) || null`. */
  function FindMockEvent(slug: string): Option<Event> {
    FindFirst(MockEvents(), e => EventHasSlug(e, slug))
  }

  /** Looking up the slug of a mock event gives that event. */
  lemma {:induction false} MockEventLookupUnambiguous(k: nat)
    requires k < |MockEvents()|
    ensures FindMockEvent(MockEvents()[k].slug.value) == Some(MockEvents()[k])
  {
    MockEventSlugsDistinct();
    var slug := MockEvents()[k].slug.value;
    FindFirstUnique(MockEvents(), e => EventHasSlug(e, slug), k);
  }

  /** The state of one useEvents instance. `error` is declared by the hook but no path assigns it. */
  class EventsHook {
    const hasBackend: bool
    /** The fallback list (the module's mock list). */
    const mocks: seq<Event>
    var events: seq<Event>
    var loading: bool
    var error: Option<string>

    constructor (hasBackend: bool)
      ensures this.hasBackend == hasBackend && mocks == MockEvents()
      ensures events == [] && loading && error == None
    {
      this.hasBackend := hasBackend;
      mocks := MockEvents();
      events := [];
      loading := true;
      error := None;
    }

    /** `fetchEvents`: the stored list is the backend's rows, or the mock list when there is no
        backend, the query fails or it returns nothing; `loading` ends false on every path. */
    method FetchEvents(reply: ListReply<Event>)
      modifies this
      ensures !loading
      ensures events == FetchedList(hasBackend, reply, mocks)
      ensures error == old(error)
    {
      loading := true;
      if !hasBackend {
        events := mocks;
      } else {
        match reply
        case ListFailed(_) =>
          events := mocks;
        case Rows(rows) =>
          events := if |rows| > 0 then rows else mocks;
      }
      loading := false;
    }

    /** `fetchEventBySlug`: never fails; returns the backend's row, else the first mock with
        that slug, else None. The list and the error are left as they were. */
    method FetchEventBySlug(slug: string, reply: RowReply<Event>) returns (event: Option<Event>)
      modifies this`loading
      ensures !loading
      ensures event == LookedUp(hasBackend, reply, mocks, e => EventHasSlug(e, slug))
      ensures events == old(events) && error == old(error)
    {
      loading := true;
      if !hasBackend {
        event := FindFirst(mocks, e => EventHasSlug(e, slug));
      } else {
        match reply
        case RowFailed(_) =>
          event := FindFirst(mocks, e => EventHasSlug(e, slug));
        case Row(row) =>
          event := Some(row);
      }
      loading := false;
    }
  }
}
