# Bird portfolio: a verified model of its admin and data logic

The site is a React portfolio of bird observations. It has a gallery, an events log, a contact
form and a password-protected admin page. This project models the logic inside those pages and
their data hooks, and proves properties of it:

- the admin page's `handleSave` preparation of a record: slug derivation from the English name,
  and splitting a typed tags text on commas;
- the admin page's two list searches;
- the admin page's view, login and save/delete state, as a class whose methods are its handlers.
  The backend's answers are parameters, and each `setTimeout` callback is an explicit
  `TimerFires` step;
- the gallery's tag list (a `Set` built by nested `forEach`) and its search and tag filter;
- the `useBirds`/`useEvents` hooks: a list fetch that falls back to the built-in mock list, and
  a slug lookup that falls back to a `find` over the mocks;
- the `useStorage` hook: the file extension, the storage key layout, and the
  `uploading`/`uploadError` flags;
- the validators and defaults of the contact form and the two admin forms.

Modules follow the source files: `Admin`, `Gallery`, `UseBirds`, `UseEvents`, `UseStorage`,
`Contact`, `BirdForm`, `EventForm`. Shared pieces live in `Records` (the row types), `Fetch`
(the fallback rules both hooks share), `Forms` (the form library's submit gate), `Text`
(JavaScript string primitives) and `Seqs` (`filter`/`find`).

Characters follow JavaScript regular expressions without the `u` flag. `\w` is
`[A-Za-z0-9_]`, and `toLowerCase` maps only `A`–`Z`. `\s` is the ECMAScript whitespace and
line-terminator set, which is also what `trim` removes.

## Model

| member | source | states |
|---|---|---|
| Text.Lower | src/pages/Admin.jsx:50 | `toLowerCase` keeps the length, maps every character with LowerChar, and leaves no upper-case letter |
| Text.Contains | src/pages/Admin.jsx:288 | `includes`: the needle occurs as a contiguous slice of the text (see ContainsIffOccurs) |
| Text.ContainsIffOccurs | src/pages/Admin.jsx:288-290 | `includes` holds exactly when the needle equals some slice of the text |
| Text.ContainsEmpty | src/pages/Admin.jsx:288 | every text includes the empty search term, ignoring case |
| Text.Trim | src/pages/Admin.jsx:42 | the trimmed text has no whitespace at either end and is no longer than the input |
| Text.TrimIsInnerSlice | src/pages/Admin.jsx:42 | `trim` removes only whitespace: the result is the slice of the input that starts after the leading whitespace, and everything before and after that slice is whitespace |
| Text.TrimOfTrimmed | src/pages/Admin.jsx:42 | a text with no outer whitespace trims to itself |
| Text.Split | src/pages/Admin.jsx:42 | `split(',')` gives one more piece than there are commas, and no piece holds a comma |
| Text.JoinSplit | src/pages/Admin.jsx:42 | joining the pieces of a split with the separator gives back the text |
| Text.SplitJoin | src/pages/Admin.jsx:42 | splitting a join of separator-free pieces gives back the pieces |
| Seqs.Filter | src/pages/Admin.jsx:287 | `filter` returns an order-preserving sub-list holding exactly the elements that pass, each as often as in the input |
| Seqs.FilterKeepsAll | src/pages/Admin.jsx:287 | when every element passes, `filter` returns the list unchanged |
| Seqs.FilterAppend | src/pages/Admin.jsx:287 | filtering distributes over concatenation |
| Seqs.FilterFilter | src/pages/Admin.jsx:50-52 | filtering twice equals filtering once by the conjunction of the two tests |
| Seqs.FilterCongruent | src/pages/Admin.jsx:50-52 | two tests that agree on every element filter the list alike |
| Seqs.FindFirst | src/hooks/useBirds.js:81 | `find` returns None exactly when no element passes; otherwise it returns an element at some index that passes, with no passing element before it |
| Seqs.FindFirstUnique | src/hooks/useBirds.js:81 | when exactly one element passes, `find` returns it |
| Admin.StripDisallowed | src/pages/Admin.jsx:51 | `replace(/[^\w\s-]/g, '')` keeps, in order, exactly the word, whitespace and `-` characters |
| Admin.DropSeparators | src/pages/Admin.jsx:52 | removes exactly the leading run of `[\s_-]` characters |
| Admin.Collapse | src/pages/Admin.jsx:52 | `replace(/[\s_-]+/g, '-')` is empty only for empty input, starts with `-` exactly when the input starts with a separator, and never holds two `-` in a row |
| Admin.CollapseChars | src/pages/Admin.jsx:50-52 | on lower-cased text that passed the first `replace`, every character of the collapsed text is `a-z`, `0-9` or `-` |
| Admin.CollapseWord | src/pages/Admin.jsx:52 | a word without separators passes through the collapse unchanged, and so does the text after it |
| Admin.CollapseRun | src/pages/Admin.jsx:52 | a whole maximal run of separators becomes exactly one `-`; with CollapseWord this fixes the result on every text |
| Admin.DropSeparatorsOfRun | src/pages/Admin.jsx:52 | a leading run of separators is passed over exactly, up to the first non-separator |
| Admin.CollapseKeepsNonSeparators | src/pages/Admin.jsx:52 | apart from its hyphens, the collapsed text is exactly the input's non-separator characters, in order |
| Admin.DropLeadingHyphens | src/pages/Admin.jsx:53 | `^-+` removes exactly the leading hyphens |
| Admin.DropTrailingHyphens | src/pages/Admin.jsx:53 | `-+$` removes exactly the trailing hyphens |
| Admin.TrimHyphens | src/pages/Admin.jsx:53 | the result neither starts nor ends with `-` |
| Admin.TrimHyphensOfSlugText | src/pages/Admin.jsx:53 | trimming hyphens from text of slug characters without a double hyphen gives a slug |
| Admin.LeadingHyphensKeepNonHyphens | src/pages/Admin.jsx:53 | removing `^-+` drops only hyphens |
| Admin.TrailingHyphensKeepNonHyphens | src/pages/Admin.jsx:53 | removing `-+$` drops only hyphens |
| Admin.SlugifyIsSlug | src/pages/Admin.jsx:48-54 | a derived slug holds only `a-z`, `0-9` and `-`, neither starts nor ends with `-`, and never holds `--` |
| Admin.SlugKeepsLettersAndDigits | src/pages/Admin.jsx:48-54 | apart from its hyphens, a derived slug is exactly the `a-z` letters and digits of the lower-cased English name, in their order |
| Admin.KeptLettersOfLowered | src/pages/Admin.jsx:50-52 | in lower-cased text, what survives both `replace` calls as a non-hyphen is exactly `a-z` and `0-9` |
| Admin.CollapseOfSlug | src/pages/Admin.jsx:52 | collapsing text that is already slug text changes nothing |
| Admin.SlugFixedPoint | src/pages/Admin.jsx:49-53 | deriving a slug from a slug gives that slug |
| Admin.SlugifyIdempotent | src/pages/Admin.jsx:49-53 | deriving twice gives the same slug as deriving once |
| Admin.SlugExample | src/pages/Admin.jsx:49-53 | "Great Blue Heron!!" derives to "great-blue-heron" |
| Admin.SplitTags | src/pages/Admin.jsx:42 | the typed tags become (number of commas + 1) items, none with outer whitespace or a comma |
| Admin.SplitTagsOfJoin | src/pages/Admin.jsx:41-43 | a tags text made of items joined by commas saves as exactly those items, when no item holds a comma or outer whitespace |
| Admin.EmptyTagText | src/pages/Admin.jsx:42 | an empty tags text saves as one empty tag |
| Admin.FormatTags | src/pages/Admin.jsx:41-43 | a string `tags` becomes a list of (commas + 1) trimmed items; any other value is left as it is |
| Admin.TableOf | src/pages/Admin.jsx:45 | the birds tab writes to the birds table, the events tab to the events table |
| Admin.PrepareForSave | src/pages/Admin.jsx:40-54 | events pass unchanged; a bird gets its tags formatted; on a falsy slug it gets the slug derived from its English name, and a non-empty slug is kept; no other field changes |
| Admin.PrepareForSaveIdempotent | src/pages/Admin.jsx:40-54 | preparing an already prepared record changes nothing |
| Admin.BirdRows | src/pages/Admin.jsx:287-290 | the birds list is an order-preserving sub-list; a bird is kept exactly when its English name, or its scientific name or location where present, contains the term ignoring case |
| Admin.EventRows | src/pages/Admin.jsx:327-329 | the events list is an order-preserving sub-list; an event is kept exactly when its title, or its location where present, contains the term ignoring case |
| Admin.EmptyTermListsAll | src/pages/Admin.jsx:286-329 | an empty search term lists every bird and every event |
| Admin.BirdRowMatches | src/pages/Admin.jsx:288-290 | the birds list's search test: the English name, or the scientific name or location where present, contains the term ignoring case; an absent optional name counts as no match (`?.` yields undefined) |
| Admin.EventRowMatches | src/pages/Admin.jsx:328-329 | the events list's search test: the title, or the location where present, contains the term ignoring case |
| Admin.AdminPassword | src/pages/Admin.jsx:108 | the configured password when it is set and non-empty, otherwise "admin123" |
| Admin.AdminPage.CurrentScreen | src/pages/Admin.jsx:128-215 | the login form exactly when not authenticated; the active tab's form exactly when `isAdding` or `editingItem` is set; the active tab's list otherwise |
| Admin.AdminPage.ShownBirds | src/pages/Admin.jsx:287-291 | the rows shown are a sub-list of the loaded birds |
| Admin.AdminPage.ShownEvents | src/pages/Admin.jsx:327-330 | the rows shown are a sub-list of the loaded events |
| Admin.AdminPage.constructor | src/pages/Admin.jsx:24-33 | the first render: not authenticated, birds tab, no form, no status, empty search, no timers, no requests |
| Admin.AdminPage.Mount | src/pages/Admin.jsx:118-121 | the stored `admin_auth` flag restores the session, and both lists hold what their fetches store; nothing else changes |
| Admin.AdminPage.SetPassword | src/pages/Admin.jsx:147 | the password field holds the typed text |
| Admin.AdminPage.Login | src/pages/Admin.jsx:106-116 | authenticated exactly when the typed password equals AdminPassword; success clears the error and sets the stored flag; failure sets "Invalid observation credentials." |
| Admin.AdminPage.Logout | src/pages/Admin.jsx:123-126 | not authenticated, stored flag removed, login screen shown |
| Admin.AdminPage.SelectTab | src/pages/Admin.jsx:239-246 | the tab becomes active and the form closes |
| Admin.AdminPage.StartAdding | src/pages/Admin.jsx:267 | the empty form opens |
| Admin.AdminPage.StartEditing | src/pages/Admin.jsx:312 | the form opens on the chosen record |
| Admin.AdminPage.Cancel | src/pages/Admin.jsx:219 | `isAdding` false and `editingItem` cleared, so the list shows |
| Admin.AdminPage.SetSearchTerm | src/pages/Admin.jsx:261 | the search term holds the typed text |
| Admin.AdminPage.Refetch | src/pages/Admin.jsx:64-66 | only the active tab's list is refetched; the other list is untouched |
| Admin.AdminPage.Save | src/pages/Admin.jsx:35-77 | one upsert of the prepared record to the active tab's table; on error a "Failed to save: " status with the form still open and no refetch; on success the tab's success message, a refetch of the active list only, and a pending close-form timer; the form stays open and its record still belongs to the tab |
| Admin.AdminPage.Delete | src/pages/Admin.jsx:79-103 | unconfirmed: no request, no status change and both hooks unchanged. Confirmed: one delete by id on the active table; on error "Deletion failed: " with both hooks unchanged; on success "Record successfully removed.", a refetch of the active list and a pending clear-status timer |
| Admin.AdminPage.TimerFires | src/pages/Admin.jsx:68-72 | the fired timer leaves the queue and the status clears; the close-form timer also closes the form |
| Gallery.FlatTagsStep | src/pages/Gallery.jsx:15-16 | the tags after one more bird are the earlier tags followed by that bird's tags |
| Gallery.Dedup | src/pages/Gallery.jsx:14-18 | `new Set(['All'])` after `add` of each tag in turn: a tag is appended only when not already present |
| Gallery.DedupKeepsStart | src/pages/Gallery.jsx:14 | adding to a Set keeps what it started with at the front |
| Gallery.DedupMembers | src/pages/Gallery.jsx:14-18 | the Set holds exactly the initial elements and the added ones |
| Gallery.DedupDistinct | src/pages/Gallery.jsx:14-18 | the Set never holds an element twice |
| Gallery.DedupFirstOccurrenceOrder | src/pages/Gallery.jsx:14-18 | the Set reads back in the order in which its elements first occur |
| Gallery.TagSetProperties | src/pages/Gallery.jsx:13-19 | the tag list starts with 'All', has no duplicate, holds exactly 'All' and every tag, and follows first-occurrence order |
| Gallery.AllTags | src/pages/Gallery.jsx:13-19 | the nested loops build that list: 'All' at index 0, no duplicates, every tag of every bird, in first-occurrence order |
| Gallery.SearchMatch | src/pages/Gallery.jsx:23-25 | the search test in its evaluation order: true as soon as a name contains the query ignoring case; None (a TypeError) when it reaches a null local or scientific name |
| Gallery.TagMatch | src/pages/Gallery.jsx:26 | 'All' matches every bird; otherwise the bird's tag list holds the tag, or its tags text contains it; a bird without tags does not match |
| Gallery.FilteredBirds | src/pages/Gallery.jsx:21-29 | the filter throws (None) exactly when some bird reaches a null name; otherwise it returns an order-preserving sub-list of the birds that pass the search and the tag test |
| Gallery.FilteredBirdsWithNames | src/pages/Gallery.jsx:23-27 | with all names present, a bird is shown exactly when its English, local or scientific name contains the query ignoring case and the tag is 'All' or one of its tags |
| Gallery.EmptyQueryShowsAll | src/pages/Gallery.jsx:21-29 | an empty query with 'All' selected returns every bird, untagged ones included |
| Fetch.FetchedList | src/hooks/useBirds.js:57-71 | the mock list when there is no backend URL, the query fails or returns no rows; exactly the returned rows otherwise |
| Fetch.LookedUp | src/hooks/useBirds.js:77-98 | the backend row on success; otherwise the first mock whose slug matches, or None when none does |
| UseBirds.MockBirds | src/hooks/useBirds.js:4-47 | the three built-in birds, with their slugs, names, statuses and tags |
| UseBirds.FindMockBird | src/hooks/useBirds.js:81 | `MOCK_BIRDS.find(b => b.slug === slug)`: the first mock bird with that slug |
| UseBirds.MockBirdSlugsDistinct | src/hooks/useBirds.js:4-47 | every mock bird has a slug, and no two share one |
| UseBirds.MockBirdLookupUnambiguous | src/hooks/useBirds.js:81 | looking up a mock bird's slug in the mocks gives that bird |
| UseBirds.BirdsHook.constructor | src/hooks/useBirds.js:50-52 | the initial state: no birds, loading, no error |
| UseBirds.BirdsHook.FetchBirds | src/hooks/useBirds.js:54-75 | `loading` ends false on every path, `birds` is FetchedList, and `error` is not assigned |
| UseBirds.BirdsHook.FetchBirdBySlug | src/hooks/useBirds.js:77-98 | returns LookedUp without failing; `loading` ends false; `birds` and `error` are unchanged |
| UseEvents.MockEvents | src/hooks/useEvents.js:4-25 | the two built-in events, with their slugs, dates and species lists |
| UseEvents.FindMockEvent | src/hooks/useEvents.js:59 | `MOCK_EVENTS.find(e => e.slug === slug)`: the first mock event with that slug |
| UseEvents.MockEventSlugsDistinct | src/hooks/useEvents.js:4-25 | every mock event has a slug, and no two share one |
| UseEvents.MockEventLookupUnambiguous | src/hooks/useEvents.js:59 | looking up a mock event's slug in the mocks gives that event |
| UseEvents.EventsHook.constructor | src/hooks/useEvents.js:28-30 | the initial state: no events, loading, no error |
| UseEvents.EventsHook.FetchEvents | src/hooks/useEvents.js:32-53 | `loading` ends false on every path, `events` is FetchedList, and `error` is not assigned |
| UseEvents.EventsHook.FetchEventBySlug | src/hooks/useEvents.js:55-76 | returns LookedUp without failing; `loading` ends false; `events` and `error` are unchanged |
| UseStorage.BucketOrDefault | src/hooks/useStorage.js:8 | the given bucket, or "birds" when none is given |
| UseStorage.Extension | src/hooks/useStorage.js:14 | the text after the last '.', or the whole name when it has no '.' |
| UseStorage.ExtensionIsLastPiece | src/hooks/useStorage.js:14 | Extension equals the last piece of `split('.')`, which is what `pop()` returns |
| UseStorage.Decimal | src/hooks/useStorage.js:15 | `Date.now()` printed as a non-empty run of decimal digits |
| UseStorage.ParseDecimalOfDecimal | src/hooks/useStorage.js:15 | the printed timestamp reads back as the timestamp |
| UseStorage.StorageKey | src/hooks/useStorage.js:15-16 | the key is token, '-', timestamp, '.', extension, so it ends with "." + extension |
| UseStorage.StorageKeyInjective | src/hooks/useStorage.js:15-16 | a key determines its base-36 token, its timestamp and its extension |
| UseStorage.StorageHook.constructor | src/hooks/useStorage.js:5-6 | not uploading, no error |
| UseStorage.StorageHook.UploadImage | src/hooks/useStorage.js:8-43 | uploads under StorageKey to the bucket; on error returns None, records the message and asks for no URL; on success returns the public URL of that same bucket and key with no error; `uploading` ends false |
| Contact.EmailPatternCharacterised | src/pages/Contact.jsx:71 | `/^\S+@\S+$/i` accepts exactly the values without whitespace that have an '@' with a character on each side |
| Contact.MatchesEmailPattern | src/pages/Contact.jsx:71 | `/^\S+@\S+$/i`: a non-empty run of non-whitespace, an '@', and a non-empty run of non-whitespace filling the value |
| Contact.EmailExamples | src/pages/Contact.jsx:71 | "a@b@c" is accepted; "a b@c" and "@b" are not |
| Contact.Errors | src/pages/Contact.jsx:63-81 | name and message fail exactly when empty; the e-mail fails exactly when it does not match the pattern |
| Contact.ContactPage.constructor | src/pages/Contact.jsx:7 | the form is shown first |
| Contact.ContactPage.Submit | src/pages/Contact.jsx:10-14 | `onSubmit` runs, with the values, and sets `submitted` exactly when no rule fails |
| Contact.ContactPage.SendAnother | src/pages/Contact.jsx:32 | "Send Another Message" resets `submitted` |
| Forms.HandleSubmit | src/pages/Contact.jsx:58 | `onSubmit` receives the values exactly when no field's rule fails; otherwise the failing fields are reported |
| BirdForm.Defaults | src/components/admin/BirdForm.jsx:6-17 | editing starts from the given bird; a new bird starts with empty texts, 'Common', no tags, not featured, no slug |
| BirdForm.Errors | src/components/admin/BirdForm.jsx:41-96 | only the English name, scientific name, location and description can fail, each exactly when it is empty or missing |
| BirdForm.Press | src/components/admin/BirdForm.jsx:126-138 | the close icon and Discard lead to `onCancel` only; Commit reaches `onSubmit` exactly when the required fields are filled |
| BirdForm.BlankBirdRejected | src/components/admin/BirdForm.jsx:6-96 | a blank new bird is rejected on all four required fields |
| EventForm.DatePart | src/components/admin/EventForm.jsx:8 | the prefix of the timestamp up to the first 'T' |
| EventForm.DatePartIsFirstPiece | src/components/admin/EventForm.jsx:8 | DatePart equals the first piece of `split('T')` |
| EventForm.DatePartOfTimestamp | src/components/admin/EventForm.jsx:8 | for a timestamp date + "T" + time the default date is that date |
| EventForm.Defaults | src/components/admin/EventForm.jsx:6-13 | editing starts from the given event; a new event has empty texts and lists, no id or slug, and as its date the DatePart of the current ISO timestamp |
| EventForm.Errors | src/components/admin/EventForm.jsx:38-89 | only title, date, location and description can fail, each exactly when empty or missing |
| EventForm.TickedPositions | src/components/admin/EventForm.jsx:69-75 | exactly the positions of the ticked boxes, in increasing order |
| EventForm.CheckedSpecies | src/components/admin/EventForm.jsx:69-75 | once a box has changed, the submitted list is the English names of the ticked birds, one per ticked box, in the birds' order |
| EventForm.SubmittedSpecies | src/components/admin/EventForm.jsx:69-75 | an untouched checkbox group submits the stored list as it is; a changed one submits exactly the names of the ticked birds |
| EventForm.InitialBoxes | src/components/admin/EventForm.jsx:71-74 | a box starts ticked exactly when its bird's English name is in the stored list |
| EventForm.RetickedKeepsNamedSpecies | src/components/admin/EventForm.jsx:69-75 | after a box is changed and changed back, the submitted names are the stored names that some bird carries; stored names without a box are dropped |
| EventForm.SetFeaturedImage | src/components/admin/EventForm.jsx:102 | the URL lands in `images[0].url`, creating that descriptor when missing and leaving the others as they were |
| EventForm.Press | src/components/admin/EventForm.jsx:110-122 | the close icon and "Discard Log" lead to `onCancel` only; sealing reaches `onSubmit` exactly when the required fields are filled |

## Left out

- Supabase queries, upserts, deletes and storage calls are remote I/O. Their answers are parameters (`ListReply`, `RowReply`, `Outcome`), and what was sent is kept in ghost logs (`requests`, `calls`).
- `fetchBirds`/`fetchEvents` after a save or delete are not awaited in the source; here the refetch completes within `Save`/`Delete`. Overlapping fetches and which answer lands last are concurrency and are not modelled.
- The "loading" action status set at the start of `handleSave`/`handleDelete` is overwritten before the method returns, since the oracle answers at once; it is never observable between steps.
- `localStorage` is the `storedAuth` boolean, and `import.meta.env.VITE_ADMIN_PASSWORD` and `VITE_SUPABASE_URL` are parameters. `console` logging is not modelled.
- `Math.random().toString(36).substring(2)` and `Date.now()` are the `token` and `timestamp` parameters of `UploadImage`; `new Date().toISOString()` is the `nowIso` parameter of `EventForm.Defaults`.
- `setTimeout` delays are not modelled: each callback is queued and runs in `TimerFires`, in any order.
- Unicode case mapping: `toLowerCase` maps only ASCII letters.
- react-hook-form delivers field values in its own shapes. The model takes the record the form produces and applies the form's `required` and `pattern` rules to it. The raw text of a tags input appears as `TagText`.
- Admin.AdminPage.Save: requires authenticated, the form shown with its record belonging to the active tab, and the record kind matching the active tab. Only the active tab's form calls `handleSave`, so these hold at every caller. Save does not rely on the form's validation having passed.
- Admin.AdminPage.Delete: requires authenticated and the list shown, because the delete buttons exist only in the list.
- Admin.AdminPage.StartEditing: requires the record kind to match the active tab, because the edit buttons belong to that tab's rows.
- Admin.AdminPage.Login: requires not authenticated, because the login form only renders then.
- Admin.SplitTags: an empty tags text becomes `[""]`, one empty tag. This is what the source does (see `EmptyTagText`).
- Gallery.AllTags: requires that no bird's `tags` is a string. `forEach` on a string throws in the source, and that failure is not modelled.
- UseBirds.BirdsHook.FetchBirds: does not state `birds != []` directly. It follows from FetchedList, whose contract states it whenever the mock list is non-empty.
- UseStorage.StorageHook.UploadImage: a missing `file` makes `file.name` throw inside the `try`, which sets `uploadError` and returns null; the model always has a file name, so that path is not modelled.
- BirdForm's select offers five population statuses (`PopulationStatuses`), but the mock bird "Bald Eagle" has "Recovering". Editing that mock keeps its value as the default, and the model does not restrict the status either.
- src/pages/BirdDetail.jsx and src/pages/Events.jsx only call the hooks and are not part of this model. Rendering, animations, routing and the static pages are not part of it either.
