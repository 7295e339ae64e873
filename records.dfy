/** The two kinds of record the site stores: birds and events (the rows of the `birds` and
    `events` tables). Fields follow the column names; a field that a row or a form may leave
    out is an Option. */
module Records {
  import opened Wrappers

  /** The `tags` field. Rows read from the table hold a list; the admin form hands over the raw
      text of its tags input when the user has typed into it. */
  datatype TagsValue = NoTags | TagText(text: string) | TagList(items: seq<string>)

  datatype Bird = Bird(
    id: Option<string>,
    english_name: string,
    local_name: Option<string>,
    scientific_name: Option<string>,
    description: Option<string>,
    fun_fact: Option<string>,
    location: Option<string>,
    population_status: string,
    slug: Option<string>,
    thumbnail: Option<string>,
    tags: TagsValue,
    is_featured: Option<bool>,
    view_count: Option<int>)

  /** One image descriptor of an event: an external URL and an optional caption. */
  datatype Image = Image(url: string, caption: Option<string>)

  datatype Event = Event(
    id: Option<string>,
    title: string,
    event_date: string,
    location_name: Option<string>,
    description: Option<string>,
    bird_species_spotted: seq<string>,
    images: seq<Image>,
    slug: Option<string>)

  /** What the admin page saves: a bird or an event. */
  datatype Record = BirdRecord(bird: Bird) | EventRecord(event: Event)

  /** JavaScript truthiness of an optional string: missing or empty is falsy. */
  predicate Falsy(s: Option<string>) {
    s.None? || s.value == ""
  }

  predicate HasSlug(b: Bird, slug: string) { b.slug == Some(slug) }

  predicate EventHasSlug(e: Event, slug: string) { e.slug == Some(slug) }
}
