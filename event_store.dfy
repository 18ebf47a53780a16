/**
 * The client-side event store of lib/eventStore.ts. The persisted `events`
 * and `users` lists are the two fields of class Store. addEvent appends;
 * deleteEvent filters and compares lengths; the five other mutating operations
 * find the first entry as findIndex does, change it and write the whole list
 * back, which here is one reassignment of the field. getUserEvents and
 * getEventBySlug only read, so they are functions of the store. The pure parts
 * (findIndex, find, filter, the edit-permission rule) are functions on
 * sequences, and the class methods are proved against them.
 */
module EventStore {
  import opened Wrappers
  import Slug

  type UserId = string

  /** A stored event (lib/eventStore.ts:3-12). `collaborators` is None for a record written without the list. */
  datatype Event = Event(
    id: string,
    name: string,
    slug: string,
    images: seq<string>,
    ownerId: UserId,
    collaborators: Option<seq<UserId>>,
    createdAt: string,
    isPublic: bool)

  /** A stored user, as far as the event store looks at it. */
  datatype User = User(id: UserId, email: string, name: string)

  /** The result of addCollaboratorToEvent: `{ success: true }` or `{ success: false, error }`. */
  datatype Outcome = Success | Failure(error: string)

  const EventNotFound := "Event not found"
  const UserNotFound := "User not found"
  const AlreadyCollaborator := "User is already a collaborator"

  /** The collaborator list, a missing one read as empty. */
  function Collaborators(e: Event): seq<UserId> {
    match e.collaborators
    case None => []
    case Some(c) => c
  }

  predicate HasSlug(evs: seq<Event>, slug: string) {
    exists i | 0 <= i < |evs| :: evs[i].slug == slug
  }

  predicate NoDuplicates<T(==)>(s: seq<T>) {
    forall i, j | 0 <= i < j < |s| :: s[i] != s[j]
  }

  // ---------------------------------------------------------------------------
  // Searching

  /** `events.findIndex(e => e.slug === slug)`: the first index with that slug, or -1. */
  function FindIndex(evs: seq<Event>, slug: string): (r: int)
    ensures -1 <= r < |evs|
    ensures r == -1 <==> !HasSlug(evs, slug)
    ensures r >= 0 ==> evs[r].slug == slug && forall j | 0 <= j < r :: evs[j].slug != slug
  {
    if evs == [] then -1
    else if evs[0].slug == slug then 0
    else
      var k := FindIndex(evs[1..], slug);
      if k == -1 then -1 else k + 1
  }

  /** `all.find(e => e.slug === slug)`, the lookup of getEventBySlug. */
  function Find(evs: seq<Event>, slug: string): (r: Option<Event>)
    ensures r.None? <==> !HasSlug(evs, slug)
    ensures r.Some? ==> r.value == evs[FindIndex(evs, slug)]
  {
    if evs == [] then None
    else if evs[0].slug == slug then Some(evs[0])
    else Find(evs[1..], slug)
  }

  /** `users.find(u => u.email === userEmail)`. */
  function FindUser(users: seq<User>, email: string): (r: Option<User>)
    ensures r.None? <==> forall u | u in users :: u.email != email
    ensures r.Some? ==> r.value in users && r.value.email == email
  {
    if users == [] then None
    else if users[0].email == email then Some(users[0])
    else FindUser(users[1..], email)
  }

  /** The user FindUser returns is the first one with that email. */
  lemma {:induction false} FindUserFirst(users: seq<User>, email: string, i: nat)
    requires i < |users| && users[i].email == email
    requires forall j | 0 <= j < i :: users[j].email != email
    ensures FindUser(users, email) == Some(users[i])
  {
    if i > 0 {
      FindUserFirst(users[1..], email, i - 1);
    }
  }

  // ---------------------------------------------------------------------------
  // Filtering

  /** `list.filter(x => x !== value)`: every occurrence of `value` removed. */
  function Without(s: seq<string>, value: string): (r: seq<string>)
    ensures |r| <= |s|
    ensures forall y :: y in r <==> y in s && y != value
    ensures value !in s ==> r == s
  {
    if s == [] then []
    else if s[0] == value then Without(s[1..], value)
    else [s[0]] + Without(s[1..], value)
  }

  /** Removing a value keeps the other elements in their order. */
  lemma {:induction false} WithoutAppend(a: seq<string>, b: seq<string>, value: string)
    ensures Without(a + b, value) == Without(a, value) + Without(b, value)
  {
    if a == [] {
      assert a + b == b;
    } else {
      assert (a + b)[1..] == a[1..] + b;
      WithoutAppend(a[1..], b, value);
    }
  }

  /** Removing a value from a duplicate-free list leaves it duplicate-free. */
  lemma {:induction false} WithoutNoDuplicates(s: seq<string>, value: string)
    requires NoDuplicates(s)
    ensures NoDuplicates(Without(s, value))
  {
    if s != [] {
      assert NoDuplicates(s[1..]) by {
        forall i, j | 0 <= i < j < |s[1..]| ensures s[1..][i] != s[1..][j] {
          assert s[1..][i] == s[i + 1] && s[1..][j] == s[j + 1];
        }
      }
      WithoutNoDuplicates(s[1..], value);
      var t := Without(s[1..], value);
      if s[0] != value {
        assert s[0] !in s[1..] by {
          forall k | 0 <= k < |s[1..]| ensures s[1..][k] != s[0] {
            assert s[1..][k] == s[k + 1];
          }
        }
        assert s[0] !in t;
        forall i, j | 0 <= i < j < |[s[0]] + t| ensures ([s[0]] + t)[i] != ([s[0]] + t)[j] {
          if i == 0 {
            assert ([s[0]] + t)[j] == t[j - 1];
          } else {
            assert ([s[0]] + t)[i] == t[i - 1] && ([s[0]] + t)[j] == t[j - 1];
          }
        }
      }
    }
  }

  /** Appending a value that is not yet present keeps a list duplicate-free. */
  lemma AppendNoDuplicates<T>(s: seq<T>, value: T)
    requires NoDuplicates(s) && value !in s
    ensures NoDuplicates(s + [value])
  {
    forall i, j | 0 <= i < j < |s + [value]| ensures (s + [value])[i] != (s + [value])[j] {
      if j == |s| {
        assert (s + [value])[i] == s[i];
      } else {
        assert (s + [value])[i] == s[i] && (s + [value])[j] == s[j];
      }
    }
  }

  /** Removing a value just appended, that was absent before, restores the list. */
  lemma {:induction false} WithoutAppended(s: seq<string>, value: string)
    requires value !in s
    ensures Without(s + [value], value) == s
  {
    WithoutAppend(s, [value], value);
    assert Without([value], value) == [];
  }

  /** `events.filter(e => e.slug !== slug)`, the core of deleteEvent. */
  function WithoutSlug(evs: seq<Event>, slug: string): (r: seq<Event>)
    ensures |r| <= |evs|
    ensures forall e :: e in r <==> e in evs && e.slug != slug
    ensures |r| == |evs| <==> !HasSlug(evs, slug)
    ensures !HasSlug(evs, slug) ==> r == evs
  {
    if evs == [] then []
    else if evs[0].slug == slug then WithoutSlug(evs[1..], slug)
    else [evs[0]] + WithoutSlug(evs[1..], slug)
  }

  /** Deleting keeps the remaining events in their relative order. */
  lemma {:induction false} WithoutSlugAppend(a: seq<Event>, b: seq<Event>, slug: string)
    ensures WithoutSlug(a + b, slug) == WithoutSlug(a, slug) + WithoutSlug(b, slug)
  {
    if a == [] {
      assert a + b == b;
    } else {
      assert (a + b)[1..] == a[1..] + b;
      WithoutSlugAppend(a[1..], b, slug);
    }
  }

  // ---------------------------------------------------------------------------
  // Access policy

  /**
   * canUserEditEvent (lib/eventStore.ts:121-124): no user (null or the empty
   * string) may edit; otherwise the owner and the listed collaborators may.
   */
  function CanUserEdit(e: Event, userId: Option<UserId>): (r: bool)
    ensures r ==> Given(userId)
    ensures Given(userId) ==> (r <==> Involves(e, userId.value))
  {
    Given(userId) && (e.ownerId == userId.value || userId.value in Collaborators(e))
  }

  /** The owner-or-collaborator condition that getUserEvents filters on. */
  predicate Involves(e: Event, userId: UserId) {
    e.ownerId == userId || userId in Collaborators(e)
  }

  /** getUserEvents (lib/eventStore.ts:126-131) on the list it reads. */
  function UserEvents(evs: seq<Event>, userId: UserId): (r: seq<Event>)
    ensures |r| <= |evs|
    ensures forall e :: e in r <==> e in evs && Involves(e, userId)
  {
    if evs == [] then []
    else if Involves(evs[0], userId) then [evs[0]] + UserEvents(evs[1..], userId)
    else UserEvents(evs[1..], userId)
  }

  /** getUserEvents keeps the events of the user in their stored order. */
  lemma {:induction false} UserEventsAppend(a: seq<Event>, b: seq<Event>, userId: UserId)
    ensures UserEvents(a + b, userId) == UserEvents(a, userId) + UserEvents(b, userId)
  {
    if a == [] {
      assert a + b == b;
    } else {
      assert (a + b)[1..] == a[1..] + b;
      UserEventsAppend(a[1..], b, userId);
    }
  }

  /** For a real user id, getUserEvents returns exactly the events the user may edit. */
  lemma UserEventsAreEditable(evs: seq<Event>, userId: UserId)
    requires userId != ""
    ensures forall e :: e in UserEvents(evs, userId) <==> e in evs && CanUserEdit(e, Some(userId))
  {
  }

  /** The owner may always edit, unless the owner id is the empty string. */
  lemma OwnerCanEdit(e: Event)
    requires e.ownerId != ""
    ensures CanUserEdit(e, Some(e.ownerId))
  {
  }

  // ---------------------------------------------------------------------------
  // Edits of one event

  /** The change an operation makes to the event it found. */
  datatype Edit =
    | AppendImages(urls: seq<string>)
    | DropImage(url: string)
    | AppendCollaborator(userId: UserId)
    | DropCollaborator(userId: UserId)

  function Apply(edit: Edit, e: Event): (r: Event)
    ensures r.id == e.id && r.name == e.name && r.slug == e.slug && r.ownerId == e.ownerId
    ensures r.createdAt == e.createdAt && r.isPublic == e.isPublic
    ensures edit.AppendImages? || edit.DropImage? ==> r.collaborators == e.collaborators
    ensures edit.AppendCollaborator? || edit.DropCollaborator? ==> r.images == e.images
  {
    match edit
    case AppendImages(urls) => e.(images := e.images + urls)
    case DropImage(url) => e.(images := Without(e.images, url))
    case AppendCollaborator(u) => e.(collaborators := Some(Collaborators(e) + [u]))
    case DropCollaborator(u) => e.(collaborators := Some(Without(Collaborators(e), u)))
  }

  /** The list with `edit` applied to the first event that has `slug`, if any. */
  function UpdateFirst(evs: seq<Event>, slug: string, edit: Edit): (r: seq<Event>)
    ensures |r| == |evs|
  {
    if evs == [] then []
    else if evs[0].slug == slug then [Apply(edit, evs[0])] + evs[1..]
    else [evs[0]] + UpdateFirst(evs[1..], slug, edit)
  }

  /**
   * UpdateFirst is the index update the store performs: nothing changes when
   * no event has the slug, otherwise exactly the entry at findIndex does.
   */
  lemma {:induction false} UpdateFirstAt(evs: seq<Event>, slug: string, edit: Edit)
    ensures var i := FindIndex(evs, slug);
      UpdateFirst(evs, slug, edit) == if i == -1 then evs else evs[i := Apply(edit, evs[i])]
  {
    if evs != [] && evs[0].slug != slug {
      UpdateFirstAt(evs[1..], slug, edit);
      var i := FindIndex(evs, slug);
      if i != -1 {
        assert evs[i := Apply(edit, evs[i])] == [evs[0]] + evs[1..][i - 1 := Apply(edit, evs[i])];
      }
    }
  }

  /** Removing an image or a collaborator twice is the same as removing it once. */
  lemma {:induction false} DropIdempotent(evs: seq<Event>, slug: string, edit: Edit)
    requires edit.DropImage? || edit.DropCollaborator?
    ensures UpdateFirst(UpdateFirst(evs, slug, edit), slug, edit) == UpdateFirst(evs, slug, edit)
  {
    if evs != [] {
      if evs[0].slug == slug {
        var e := evs[0];
        assert Apply(edit, Apply(edit, e)) == Apply(edit, e);
      } else {
        DropIdempotent(evs[1..], slug, edit);
      }
    }
  }

  /** Adding images in two calls is adding their concatenation in one. */
  lemma {:induction false} AppendImagesCompose(evs: seq<Event>, slug: string, a: seq<string>, b: seq<string>)
    ensures UpdateFirst(UpdateFirst(evs, slug, AppendImages(a)), slug, AppendImages(b))
         == UpdateFirst(evs, slug, AppendImages(a + b))
  {
    if evs != [] {
      if evs[0].slug == slug {
        assert evs[0].images + a + b == evs[0].images + (a + b);
      } else {
        AppendImagesCompose(evs[1..], slug, a, b);
      }
    }
  }

  /** After removing an image from an event, the event no longer holds it and keeps the rest in order. */
  lemma DropImageEffect(evs: seq<Event>, slug: string, url: string)
    requires HasSlug(evs, slug)
    ensures var i := FindIndex(evs, slug); var r := UpdateFirst(evs, slug, DropImage(url));
      && url !in r[i].images
      && (forall x :: x in r[i].images <==> x in evs[i].images && x != url)
      && (forall j | 0 <= j < |evs| && j != i :: r[j] == evs[j])
  {
    UpdateFirstAt(evs, slug, DropImage(url));
  }

  /** Removing a non-owner collaborator takes away that user's right to edit the event. */
  lemma DropCollaboratorRevokes(evs: seq<Event>, slug: string, userId: UserId)
    requires HasSlug(evs, slug) && userId != ""
    ensures var i := FindIndex(evs, slug); var r := UpdateFirst(evs, slug, DropCollaborator(userId));
      CanUserEdit(r[i], Some(userId)) <==> evs[i].ownerId == userId
  {
    UpdateFirstAt(evs, slug, DropCollaborator(userId));
  }

  // ---------------------------------------------------------------------------
  // addCollaboratorToEvent

  /** The answer of addCollaboratorToEvent, with its three errors in the order they are checked. */
  function CollaboratorOutcome(evs: seq<Event>, users: seq<User>, slug: string, email: string): (r: Outcome)
    ensures r.Failure? ==> r.error == EventNotFound || r.error == UserNotFound || r.error == AlreadyCollaborator
    ensures r.Success? ==> HasSlug(evs, slug) && FindUser(users, email).Some?
    ensures r.Success? ==> FindUser(users, email).value.id !in Collaborators(evs[FindIndex(evs, slug)])
  {
    match Find(evs, slug)
    case None => Failure(EventNotFound)
    case Some(e) =>
      match FindUser(users, email)
      case None => Failure(UserNotFound)
      case Some(u) => if u.id in Collaborators(e) then Failure(AlreadyCollaborator) else Success
  }

  /** The events list addCollaboratorToEvent leaves behind: changed only on success. */
  function WithCollaborator(evs: seq<Event>, users: seq<User>, slug: string, email: string): (r: seq<Event>)
    ensures |r| == |evs|
    ensures CollaboratorOutcome(evs, users, slug, email).Failure? ==> r == evs
    ensures forall i | 0 <= i < |evs| && i != FindIndex(evs, slug) :: r[i] == evs[i]
  {
    if CollaboratorOutcome(evs, users, slug, email) == Success
    then
      UpdateFirstAt(evs, slug, AppendCollaborator(FindUser(users, email).value.id));
      UpdateFirst(evs, slug, AppendCollaborator(FindUser(users, email).value.id))
    else evs
  }

  /** Each error is reported exactly when its check is the first to fail. */
  lemma CollaboratorErrors(evs: seq<Event>, users: seq<User>, slug: string, email: string)
    ensures var out := CollaboratorOutcome(evs, users, slug, email);
      && (out == Failure(EventNotFound) <==> !HasSlug(evs, slug))
      && (out == Failure(UserNotFound) <==> HasSlug(evs, slug) && forall u | u in users :: u.email != email)
      && (out == Failure(AlreadyCollaborator) <==>
            HasSlug(evs, slug) && FindUser(users, email).Some?
            && FindUser(users, email).value.id in Collaborators(evs[FindIndex(evs, slug)]))
      && (out.Failure? ==> WithCollaborator(evs, users, slug, email) == evs)
  {
  }

  /**
   * On success the found user's id is appended once to the first event with the
   * slug, a duplicate-free list stays duplicate-free, the user may now edit, and
   * every other event is unchanged.
   */
  lemma CollaboratorAdded(evs: seq<Event>, users: seq<User>, slug: string, email: string)
    requires CollaboratorOutcome(evs, users, slug, email) == Success
    ensures var i := FindIndex(evs, slug); var u := FindUser(users, email).value;
      var r := WithCollaborator(evs, users, slug, email);
      && i >= 0 && |r| == |evs|
      && Collaborators(r[i]) == Collaborators(evs[i]) + [u.id]
      && (NoDuplicates(Collaborators(evs[i])) ==> NoDuplicates(Collaborators(r[i])))
      && (u.id != "" ==> CanUserEdit(r[i], Some(u.id)))
      && (forall j | 0 <= j < |evs| && j != i :: r[j] == evs[j])
  {
    var i := FindIndex(evs, slug);
    var u := FindUser(users, email).value;
    UpdateFirstAt(evs, slug, AppendCollaborator(u.id));
    if NoDuplicates(Collaborators(evs[i])) {
      AppendNoDuplicates(Collaborators(evs[i]), u.id);
    }
  }

  /** Removing a collaborator right after adding it restores that event's list. */
  lemma CollaboratorRoundTrip(evs: seq<Event>, users: seq<User>, slug: string, email: string)
    requires CollaboratorOutcome(evs, users, slug, email) == Success
    ensures var i := FindIndex(evs, slug); var u := FindUser(users, email).value;
      var r := UpdateFirst(WithCollaborator(evs, users, slug, email), slug, DropCollaborator(u.id));
      Collaborators(r[i]) == Collaborators(evs[i])
  {
    var i := FindIndex(evs, slug);
    var u := FindUser(users, email).value;
    var mid := WithCollaborator(evs, users, slug, email);
    UpdateFirstAt(evs, slug, AppendCollaborator(u.id));
    assert FindIndex(mid, slug) == i;
    UpdateFirstAt(mid, slug, DropCollaborator(u.id));
    WithoutAppended(Collaborators(evs[i]), u.id);
  }

  /** Every event's collaborator list is free of duplicates. */
  predicate DistinctCollaborators(evs: seq<Event>) {
    forall i | 0 <= i < |evs| :: NoDuplicates(Collaborators(evs[i]))
  }

  /** addCollaboratorToEvent keeps every collaborator list duplicate-free. */
  lemma WithCollaboratorKeepsDistinct(evs: seq<Event>, users: seq<User>, slug: string, email: string)
    requires DistinctCollaborators(evs)
    ensures DistinctCollaborators(WithCollaborator(evs, users, slug, email))
  {
    if CollaboratorOutcome(evs, users, slug, email) == Success {
      CollaboratorAdded(evs, users, slug, email);
    }
  }

  /** removeCollaboratorFromEvent keeps every collaborator list duplicate-free. */
  lemma DropCollaboratorKeepsDistinct(evs: seq<Event>, slug: string, userId: UserId)
    requires DistinctCollaborators(evs)
    ensures DistinctCollaborators(UpdateFirst(evs, slug, DropCollaborator(userId)))
  {
    UpdateFirstAt(evs, slug, DropCollaborator(userId));
    var i := FindIndex(evs, slug);
    if i != -1 {
      WithoutNoDuplicates(Collaborators(evs[i]), userId);
    }
  }

  // ---------------------------------------------------------------------------
  // addEvent

  /** The record addEvent builds; `id` and `createdAt` stand for randomUUID() and the current time. */
  function NewEvent(id: string, name: string, ownerId: UserId, createdAt: string): (e: Event)
    ensures forall i | 0 <= i < |e.slug| :: Slug.IsSlugChar(e.slug[i])
    ensures e.images == [] && Collaborators(e) == [] && e.isPublic
    ensures forall u: UserId :: CanUserEdit(e, Some(u)) <==> u == ownerId && u != ""
  {
    Event(id, name, Slug.Slugify(name), [], ownerId, Some([]), createdAt, true)
  }

  /**
   * addEvent does not look for an existing slug: a new event whose slug is
   * already taken can never be found by slug, and otherwise it is the one found.
   */
  lemma {:induction false} FindAfterAppend(evs: seq<Event>, e: Event)
    ensures Find(evs + [e], e.slug) == if HasSlug(evs, e.slug) then Find(evs, e.slug) else Some(e)
  {
    if evs == [] {
      assert evs + [e] == [e];
    } else {
      assert (evs + [e])[1..] == evs[1..] + [e];
      FindAfterAppend(evs[1..], e);
      if evs[0].slug != e.slug {
        assert HasSlug(evs, e.slug) ==> HasSlug(evs[1..], e.slug) by {
          if HasSlug(evs, e.slug) {
            var k :| 0 <= k < |evs| && evs[k].slug == e.slug;
            assert evs[1..][k - 1] == evs[k];
          }
        }
      }
    }
  }

  // ---------------------------------------------------------------------------
  // The store

  /** The persisted `events` and `users` lists. */
  class Store {
    var events: seq<Event>
    var users: seq<User>

    constructor (events: seq<Event>, users: seq<User>)
      ensures this.events == events && this.users == users
    {
      this.events := events;
      this.users := users;
    }

    /** addEvent (lib/eventStore.ts:14-33): appends the new event and returns it. */
    method AddEvent(name: string, ownerId: UserId, id: string, createdAt: string) returns (e: Event)
      modifies this
      ensures e.slug == Slug.Slugify(name) && e.ownerId == ownerId && e.name == name
      ensures e.id == id && e.createdAt == createdAt
      ensures e.images == [] && e.collaborators == Some([]) && e.isPublic
      ensures events == old(events) + [e] && users == old(users)
    {
      e := NewEvent(id, name, ownerId, createdAt);
      events := events + [e];
    }

    /** addImageToEvent (lib/eventStore.ts:35-44). */
    method AddImageToEvent(slug: string, imageUrl: string) returns (ok: bool)
      modifies this
      ensures ok == HasSlug(old(events), slug)
      ensures events == UpdateFirst(old(events), slug, AppendImages([imageUrl]))
      ensures users == old(users)
    {
      UpdateFirstAt(events, slug, AppendImages([imageUrl]));
      var i := FindIndex(events, slug);
      if i == -1 {
        return false;
      }
      events := events[i := events[i].(images := events[i].images + [imageUrl])];
      return true;
    }

    /** addImagesToEvent (lib/eventStore.ts:46-55). */
    method AddImagesToEvent(slug: string, imageUrls: seq<string>) returns (ok: bool)
      modifies this
      ensures ok == HasSlug(old(events), slug)
      ensures events == UpdateFirst(old(events), slug, AppendImages(imageUrls))
      ensures users == old(users)
    {
      UpdateFirstAt(events, slug, AppendImages(imageUrls));
      var i := FindIndex(events, slug);
      if i == -1 {
        return false;
      }
      events := events[i := events[i].(images := events[i].images + imageUrls)];
      return true;
    }

    /** removeImageFromEvent (lib/eventStore.ts:57-66): true whenever the event exists. */
    method RemoveImageFromEvent(slug: string, imageUrl: string) returns (ok: bool)
      modifies this
      ensures ok == HasSlug(old(events), slug)
      ensures events == UpdateFirst(old(events), slug, DropImage(imageUrl))
      ensures users == old(users)
    {
      UpdateFirstAt(events, slug, DropImage(imageUrl));
      var i := FindIndex(events, slug);
      if i == -1 {
        return false;
      }
      events := events[i := events[i].(images := Without(events[i].images, imageUrl))];
      return true;
    }

    /** deleteEvent (lib/eventStore.ts:68-76): false, and nothing written, when no event has the slug. */
    method DeleteEvent(slug: string) returns (ok: bool)
      modifies this
      ensures ok == HasSlug(old(events), slug)
      ensures events == WithoutSlug(old(events), slug)
      ensures users == old(users)
    {
      var filtered := WithoutSlug(events, slug);
      if |filtered| == |events| {
        return false;
      }
      events := filtered;
      return true;
    }

    /** addCollaboratorToEvent (lib/eventStore.ts:78-103). */
    method AddCollaboratorToEvent(slug: string, userEmail: string) returns (res: Outcome)
      modifies this
      ensures res == CollaboratorOutcome(old(events), old(users), slug, userEmail)
      ensures events == WithCollaborator(old(events), old(users), slug, userEmail)
      ensures users == old(users)
    {
      var i := FindIndex(events, slug);
      if i == -1 {
        return Failure(EventNotFound);
      }
      var user := FindUser(users, userEmail);
      if user.None? {
        return Failure(UserNotFound);
      }
      var collaborators := Collaborators(events[i]);
      if user.value.id in collaborators {
        return Failure(AlreadyCollaborator);
      }
      UpdateFirstAt(events, slug, AppendCollaborator(user.value.id));
      events := events[i := events[i].(collaborators := Some(collaborators + [user.value.id]))];
      return Success;
    }

    /** removeCollaboratorFromEvent (lib/eventStore.ts:105-119): true whenever the event exists. */
    method RemoveCollaboratorFromEvent(slug: string, userId: UserId) returns (ok: bool)
      modifies this
      ensures ok == HasSlug(old(events), slug)
      ensures events == UpdateFirst(old(events), slug, DropCollaborator(userId))
      ensures users == old(users)
    {
      UpdateFirstAt(events, slug, DropCollaborator(userId));
      var i := FindIndex(events, slug);
      if i == -1 {
        return false;
      }
      var collaborators := Collaborators(events[i]);
      events := events[i := events[i].(collaborators := Some(Without(collaborators, userId)))];
      return true;
    }

    /** getUserEvents (lib/eventStore.ts:126-131). */
    function GetUserEvents(userId: UserId): (r: seq<Event>)
      reads this
      ensures forall e :: e in r <==> e in events && Involves(e, userId)
    {
      UserEvents(events, userId)
    }

    /** getEventBySlug (lib/eventStore.ts:146-149). */
    function GetEventBySlug(slug: string): (r: Option<Event>)
      reads this
      ensures r.None? <==> !HasSlug(events, slug)
      ensures r.Some? ==> r.value in events && r.value.slug == slug
    {
      Find(events, slug)
    }
  }
}
