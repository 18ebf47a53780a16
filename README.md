# SharedShot event bookkeeping in Dafny

SharedShot is a small group photo-sharing web application. Users create events,
upload photos into each event's gallery, and invite collaborators who may add
photos too. This project models the bookkeeping at the centre of the application
and proves properties of that model. It covers three source files:

- **`lib/eventStore.ts`**: the client-side event store. The persisted `events` and
  `users` lists are the two `seq` fields of the class `EventStore.Store`. Each
  mutating operation is a method of that class. `addEvent` appends; `deleteEvent`
  filters and compares lengths; the five other mutating operations find the first
  entry as `findIndex` does, change it and reassign the field. Each method is proved
  against pure functions on the list:
  - `FindIndex`, `Find` and `FindUser` search;
  - `UpdateFirst` with an `Edit` changes the first event that has the slug;
  - `WithoutSlug` and `Without` are the two `filter`s;
  - `CollaboratorOutcome` and `WithCollaborator` give the collaborator rule;
  - `CanUserEdit` and `UserEvents` give the access rule.

  The two read-only operations, `Store.GetUserEvents` and `Store.GetEventBySlug`,
  are functions that read the store and return `UserEvents` and `Find` applied to
  the stored list.
- **`app/api/events/route.ts`**: the server-side create and list endpoints. They
  run over `EventsRoute.EventTable`, which holds the event rows and the
  collaborator join rows. The table enforces the unique index on `slug`, which is
  what `findUnique({ where: { slug } })` relies on.
- **`app/api/upload/route.ts`**: the upload endpoint. It has two input checks.
  Then a loop names each file, stores it and collects its public URL.

Both event files derive slugs with `Slug.Slugify`. It models
`name.toLowerCase().replace(/\s+/g, '-').replace(/[^\w-]/g, '')` on ASCII. Here
`\s` is space, tab, line feed, vertical tab, form feed and carriage return, and
`\w` is `[A-Za-z0-9_]`.

The clock (`Date.now()`, `new Date()`), `crypto.randomUUID()`, `Math.random()`,
the database-assigned id and creation time, and the outcome of the image step are
all parameters. The image step covers decoding, resizing, re-encoding and
writing. In the upload route these parameters arrive as `draw(k)`, one value per
file, plus a flag saying whether the upload directory could be created.

Three behaviours of the code are kept as written:

- `addEvent` in `lib/eventStore.ts` does not check whether the slug is already
  taken, so slugs are not unique in that store. `EventStore.FindAfterAppend` shows
  the effect: a second event with a taken slug can never be found by slug. Only
  the server route, backed by the unique index, keeps slugs unique.
- The owner is not always allowed to edit. `canUserEditEvent` refuses the empty
  user id, even when it is the owner's id. `getUserEvents` has no such guard, so
  it agrees with the edit rule only for non-empty ids
  (`EventStore.UserEventsAreEditable`).
- Uploaded files are handled one after another, in input order. They are named `.jpg` even though the encoder is configured for
  WebP.

## Model

| member | source | states |
|---|---|---|
| `Text.ToLower` | lib/eventStore.ts:15 | `toLowerCase` on one character: each ASCII capital becomes its own small letter (`'B'` to `'b'`), everything else is unchanged |
| `Text.Decimal` | app/api/events/route.ts:75 | the decimal text of a timestamp is a non-empty string of digits with no leading zero unless it is 0 |
| `Text.DecimalRoundTrip` | app/api/events/route.ts:75 | reading the digits back gives the number |
| `Text.DecimalInjective` | app/api/events/route.ts:75 | different timestamps render differently |
| `Text.TakeUntil` | app/api/upload/route.ts:35 | `split(c)[0]` is a prefix without `c`; it is the whole string exactly when there is no `c`, and otherwise is followed by `c` |
| `Text.TakeUntilSeparated` | app/api/upload/route.ts:35 | splitting `a + c + b` gives `a` when `a` has no `c` |
| `Slug.Lower` | lib/eventStore.ts:15 | lower-casing acts character by character, leaves no capital, and changes nothing in a string without capitals |
| `Slug.CollapseSpaces` | lib/eventStore.ts:15 | the whitespace replacement leaves no whitespace and brings in no capital |
| `Slug.StripUnsafe` | lib/eventStore.ts:15 | the character filter deletes every character other than `\w` and `-`: the result holds only kept characters, each kept character as often as in the input and no other, and a string made only of kept characters is unchanged |
| `Slug.Slugify` | lib/eventStore.ts:15 | a slug holds only `a-z`, `0-9`, `_` and `-`, and no whitespace |
| `Slug.CollapseNoSpace` | lib/eventStore.ts:15 | a string without whitespace passes the whitespace replacement unchanged |
| `Slug.CollapseRun` | lib/eventStore.ts:15 | a non-empty whitespace run becomes exactly one `-` |
| `Slug.CollapseAppend` | lib/eventStore.ts:15 | the whitespace replacement works piecewise on any split that does not cut a whitespace run |
| `Slug.RunBecomesDash` | lib/eventStore.ts:15 | a maximal whitespace run between two pieces becomes a single `-` between their replacements |
| `Slug.StripAppend` | lib/eventStore.ts:15 | the character filter works piecewise, so kept characters keep their order |
| `Slug.SlugIdempotent` | lib/eventStore.ts:15 | slugging a slug leaves it unchanged |
| `Slug.SlugExample` | app/events/new/page.tsx:33 | the form's example name "Lake Trip 2025" slugs to "lake-trip-2025" |
| `EventStore.FindIndex` | lib/eventStore.ts:37 | `findIndex` gives -1 exactly when no event has the slug, and otherwise the first index that has it |
| `EventStore.Find` | lib/eventStore.ts:146-149 | getEventBySlug finds nothing exactly when no event has the slug, and otherwise the event at the first such index |
| `EventStore.FindUser` | lib/eventStore.ts:86 | `users.find` finds nothing exactly when no user has the email; a found user is stored and has that email |
| `EventStore.FindUserFirst` | lib/eventStore.ts:86 | the user found is the first one with the email |
| `EventStore.Without` | lib/eventStore.ts:63 | the `filter` drops every occurrence of the value, keeps every other element, and changes nothing when the value is absent |
| `EventStore.WithoutAppend` | lib/eventStore.ts:116 | the `filter` keeps the remaining elements in their order |
| `EventStore.WithoutNoDuplicates` | lib/eventStore.ts:116 | removing a collaborator from a duplicate-free list leaves it duplicate-free |
| `EventStore.AppendNoDuplicates` | lib/eventStore.ts:96-100 | appending an id that is not present keeps the list duplicate-free |
| `EventStore.WithoutAppended` | lib/eventStore.ts:100-116 | removing an id that was just appended and was absent before restores the list |
| `EventStore.WithoutSlug` | lib/eventStore.ts:68-76 | deleteEvent's `filter` keeps exactly the events with another slug; its length is unchanged exactly when no event had the slug, and then the list is unchanged |
| `EventStore.WithoutSlugAppend` | lib/eventStore.ts:70 | deleting keeps the remaining events in their relative order |
| `EventStore.UserEvents` | lib/eventStore.ts:126-131 | getUserEvents returns exactly the stored events the user owns or collaborates on |
| `EventStore.UserEventsAppend` | lib/eventStore.ts:128-130 | getUserEvents keeps the stored order |
| `EventStore.UserEventsAreEditable` | lib/eventStore.ts:121-131 | for a non-empty user id, getUserEvents returns exactly the stored events canUserEditEvent allows |
| `EventStore.CanUserEdit` | lib/eventStore.ts:121-124 | canUserEditEvent: nobody may edit without a non-empty user id; with one, exactly the owner and the listed collaborators may (the lemmas `OwnerCanEdit`, `UserEventsAreEditable` and `DropCollaboratorRevokes` build on it) |
| `EventStore.OwnerCanEdit` | lib/eventStore.ts:121-124 | the owner may edit, provided the owner id is not empty |
| `EventStore.Apply` | lib/eventStore.ts:41-116 | the in-place edits change only `images` or only `collaborators`; id, name, slug, owner, creation time and visibility stay the same |
| `EventStore.UpdateFirst` | lib/eventStore.ts:37-42 | editing the first event with a slug keeps the number of events |
| `EventStore.UpdateFirstAt` | lib/eventStore.ts:37-42 | editing the first event with a slug is the update at `findIndex`, and when the index is -1 nothing changes |
| `EventStore.DropIdempotent` | lib/eventStore.ts:57-66 | removing an image or a collaborator twice is the same as removing it once |
| `EventStore.AppendImagesCompose` | lib/eventStore.ts:35-55 | adding images in two calls is the same as adding their concatenation in one |
| `EventStore.DropImageEffect` | lib/eventStore.ts:57-66 | after removeImageFromEvent, the event holds no copy of the URL and holds every other image; all other events are unchanged |
| `EventStore.DropCollaboratorRevokes` | lib/eventStore.ts:105-124 | after removeCollaboratorFromEvent, that user may edit the event exactly when they own it |
| `EventStore.CollaboratorOutcome` | lib/eventStore.ts:78-103 | addCollaboratorToEvent's answer: one of its three error messages, and success only when the event and the user exist and the user is not yet listed (`CollaboratorErrors` states each error exactly) |
| `EventStore.WithCollaborator` | lib/eventStore.ts:78-103 | the events list addCollaboratorToEvent leaves: same length, unchanged on any error, and no event other than the first with the slug is touched (`CollaboratorAdded` states the change itself) |
| `EventStore.CollaboratorErrors` | lib/eventStore.ts:78-103 | 'Event not found', 'User not found' and 'User is already a collaborator' each occur exactly when their check is the first to fail; on any error the events are unchanged |
| `EventStore.CollaboratorAdded` | lib/eventStore.ts:95-102 | on success the user id is appended to the first event with the slug and a duplicate-free list stays so; the user may then edit; the other events are unchanged |
| `EventStore.CollaboratorRoundTrip` | lib/eventStore.ts:78-119 | removing a collaborator just added restores that event's collaborator list |
| `EventStore.WithCollaboratorKeepsDistinct` | lib/eventStore.ts:78-103 | addCollaboratorToEvent keeps every collaborator list duplicate-free |
| `EventStore.DropCollaboratorKeepsDistinct` | lib/eventStore.ts:105-119 | removeCollaboratorFromEvent keeps every collaborator list duplicate-free |
| `EventStore.NewEvent` | lib/eventStore.ts:15-26 | the record addEvent builds: a URL-safe slug, no images, an empty collaborator list, public, and editable by exactly its owner when the owner id is not empty |
| `EventStore.FindAfterAppend` | lib/eventStore.ts:14-33 | after addEvent, a lookup by the new slug finds the new event exactly when the slug was free; otherwise it finds the older event |
| `EventStore.Store.constructor` | lib/eventStore.ts:134-144 | the store starts from the persisted `events` and `users` lists |
| `EventStore.Store.AddEvent` | lib/eventStore.ts:14-33 | the store grows by one event at the end; the event has the derived slug, the given owner, no images, an empty collaborator list and `isPublic`; users are unchanged |
| `EventStore.Store.AddImageToEvent` | lib/eventStore.ts:35-44 | the result is true exactly when some event has the slug; the first such event gets the URL appended; nothing else changes |
| `EventStore.Store.AddImagesToEvent` | lib/eventStore.ts:46-55 | the result is true exactly when some event has the slug; the first such event gets the URLs appended in order; nothing else changes |
| `EventStore.Store.RemoveImageFromEvent` | lib/eventStore.ts:57-66 | the result is true whenever the event exists; the first such event loses every copy of the URL |
| `EventStore.Store.DeleteEvent` | lib/eventStore.ts:68-76 | the result is false exactly when no event has the slug; the events with the slug are removed and the store is otherwise unchanged |
| `EventStore.Store.AddCollaboratorToEvent` | lib/eventStore.ts:78-103 | returns the outcome of the three ordered checks; the events change only on success |
| `EventStore.Store.RemoveCollaboratorFromEvent` | lib/eventStore.ts:105-119 | the result is true whenever the event exists; the first such event loses every copy of the user id |
| `EventStore.Store.GetUserEvents` | lib/eventStore.ts:126-131 | getUserEvents on the stored list: exactly the stored events the user owns or collaborates on |
| `EventStore.Store.GetEventBySlug` | lib/eventStore.ts:146-149 | getEventBySlug: undefined exactly when no stored event has the slug, otherwise a stored event with that slug |
| `EventsRoute.ChooseSlug` | app/api/events/route.ts:66-94 | a free base slug is used as it is; a taken one gets `-` and the timestamp, which can be read back, so the result is never the taken base |
| `EventsRoute.SuffixesDiffer` | app/api/events/route.ts:75 | two different timestamps give two different suffixed slugs |
| `EventsRoute.AppendKeepsUnique` | app/api/events/route.ts:76-94 | inserting a row whose slug is free keeps slugs unique |
| `EventsRoute.Visible` | app/api/events/route.ts:18-23 | GET's `where`: the user owns the row, or some collaborator join row links this event to the user |
| `EventsRoute.VisibleRows` | app/api/events/route.ts:17-23 | GET selects exactly the rows whose owner is the user or that have a collaborator row for the user |
| `EventsRoute.InsertNewestFirst` | app/api/events/route.ts:37 | inserting into a newest-first list keeps it newest-first and adds exactly that row |
| `EventsRoute.SortNewestFirst` | app/api/events/route.ts:37 | `orderBy: { createdAt: 'desc' }` gives a newest-first permutation of the selected rows |
| `EventsRoute.EventTable.constructor` | app/api/events/route.ts:68-70 | the table starts from the given rows, whose slugs are unique: the unique index on `slug` that `findUnique({ where: { slug } })` relies on |
| `EventsRoute.EventTable.Create` | app/api/events/route.ts:76-94 | an insert succeeds exactly when the slug is free, and then appends exactly that row; the slugs stay unique |
| `EventsRoute.EventTable.Post` | app/api/events/route.ts:54-107 | a missing name or owner gives 400 'Name and owner ID are required' and inserts nothing; otherwise exactly one row is inserted, with the chosen slug, the owner and `isPublic`, or, when even the suffixed slug is taken, 500 'Failed to create event' and nothing is inserted |
| `EventsRoute.EventTable.Get` | app/api/events/route.ts:5-51 | a missing user id gives 400 'User ID is required'; otherwise the result is exactly the user's owned or collaborated events, newest first |
| `UploadRoute.BaseName` | app/api/upload/route.ts:35 | `originalName` is the name before its first dot, has no dot, and is the whole name when there is no dot |
| `UploadRoute.FileName` | app/api/upload/route.ts:36 | every stored file name ends in `.jpg` |
| `UploadRoute.FileNameTimestamp` | app/api/upload/route.ts:33-36 | the part of a file name before its first `-` is the timestamp's digits |
| `UploadRoute.ImageUrl` | app/api/upload/route.ts:55 | a URL starts with `/uploads/` and ends with the file name |
| `UploadRoute.UrlNamesEvent` | app/api/upload/route.ts:55 | the path segment after `/uploads/` is the event slug, when the slug has no `/` |
| `UploadRoute.StoreFiles` | app/api/upload/route.ts:28-57 | the loop succeeds exactly when every file's image step succeeds, and then yields one URL per file, in input order |
| `UploadRoute.Post` | app/api/upload/route.ts:6-67 | no files gives 400 'No files received' before the slug is checked; a missing slug gives 400 'No event slug provided'; any failed step gives 500 and no URLs; success gives one URL per file in order and the count message |

## Left out

- JSON serialisation to `localStorage` and the `typeof window` guards of `getAllEvents` and `getAllUsers`. The persisted lists are the store's fields.
- Full Unicode `toLowerCase` and `\s`. Only ASCII is modelled (`\w` without the `u` flag is already ASCII), so a non-ASCII character that lower-cases to an ASCII letter is simply dropped here, and non-ASCII whitespace is not collapsed into `-`.
- `crypto.randomUUID()`, `new Date().toISOString()`, `Date.now()`, and the database-assigned id and creation time. All are parameters.
- `UploadRoute.Post`: the random suffix `Math.random().toString(36).substring(2, 8)` is an arbitrary string parameter. Its format (at most six base-36 digits) is not modelled.
- Image decoding, resizing to 1920×1080, WebP encoding, `writeFile` and `mkdir`. Each is an opaque success flag. Files written before a failing file stay on disk; the filesystem is not modelled.
- `EventsRoute.EventTable.Get`: the joined `images`, `collaborators.user` and `owner` fields of each returned event are not modelled. Only the event rows are returned. A failing query, which the `catch` turns into 500 "Failed to fetch events" (app/api/events/route.ts:44-49), is not modelled either, so a request with a user id always succeeds here.
- `EventsRoute.EventTable.Post`: database errors other than the unique index on `slug` are not modelled. This includes a missing owner row and connection failures. The race between the `findUnique` check and the insert is not modelled either, so a free base slug is always inserted.
- Request bodies that are not JSON, and JSON values of the wrong type. For example, a numeric `name` makes `toLowerCase` throw and the route return 500. Likewise a failing `request.formData()` in the upload route returns 500 "Failed to upload files" (app/api/upload/route.ts:8, 63-66); the model starts from the parsed form fields. Fields are modelled as optional strings.
- A stored event whose `images` list is missing. The source does not guard against it; a missing `collaborators` list is modelled.
- `lib/userStore.ts`, the authentication routes, the UI pages and components, the file-deletion routes and the per-event routes under `app/api/events/[slug]/` are not part of this model.
