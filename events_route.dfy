/**
 * The server-side event endpoints of app/api/events/route.ts over the event
 * table. The database is class EventTable: its `events` rows (with the unique
 * index on `slug` that `findUnique({ where: { slug } })` relies on) and the
 * `collaborators` join rows. POST validates, derives the slug, picks the
 * collision suffix and inserts one row; GET validates and returns the user's
 * events, newest first.
 */
module EventsRoute {
  import opened Wrappers
  import Slug
  import Text

  /** An event row as POST creates it; `createdAt` is its creation time in milliseconds. */
  datatype EventRow = EventRow(
    id: string,
    name: string,
    slug: string,
    ownerId: string,
    isPublic: bool,
    createdAt: nat)

  /** A row of the event-collaborator join table. */
  datatype CollaboratorRow = CollaboratorRow(eventId: string, userId: string)

  /** A JSON response: the success body, or an HTTP status with an error message. */
  datatype Response<T> = Ok(body: T) | Error(status: nat, message: string)

  const NameAndOwnerRequired := "Name and owner ID are required"
  const UserIdRequired := "User ID is required"
  const CreateFailed := "Failed to create event"

  predicate SlugTaken(rows: seq<EventRow>, slug: string) {
    exists i | 0 <= i < |rows| :: rows[i].slug == slug
  }

  /** The unique index on `slug`. */
  predicate UniqueSlugs(rows: seq<EventRow>) {
    forall i, j | 0 <= i < j < |rows| :: rows[i].slug != rows[j].slug
  }

  /**
   * The slug POST asks to insert (app/api/events/route.ts:66-94): the base slug
   * when it is free, otherwise the base, a `-` and the decimal timestamp, which
   * can be read back from the result and never equals the base.
   */
  function ChooseSlug(base: string, taken: bool, now: nat): (r: string)
    ensures !taken ==> r == base
    ensures taken ==> |r| > |base| + 1 && r[..|base|] == base && r[|base|] == '-'
    ensures taken ==> Text.AllDigits(r[|base| + 1..]) && Text.DecimalValue(r[|base| + 1..]) == now
    ensures taken ==> r != base
  {
    if taken then
      var digits := Text.Decimal(now);
      Text.DecimalRoundTrip(now);
      var r := base + "-" + digits;
      assert r[|base| + 1..] == digits;
      r
    else base
  }

  /** Two timestamps give two different suffixed slugs. */
  lemma SuffixesDiffer(base: string, now1: nat, now2: nat)
    requires now1 != now2
    ensures ChooseSlug(base, true, now1) != ChooseSlug(base, true, now2)
  {
  }

  /** Appending a row whose slug is free keeps the slugs unique. */
  lemma AppendKeepsUnique(rows: seq<EventRow>, row: EventRow)
    requires UniqueSlugs(rows) && !SlugTaken(rows, row.slug)
    ensures UniqueSlugs(rows + [row])
  {
    forall i, j | 0 <= i < j < |rows + [row]| ensures (rows + [row])[i].slug != (rows + [row])[j].slug {
      if j == |rows| {
        assert (rows + [row])[i] == rows[i];
      } else {
        assert (rows + [row])[i] == rows[i] && (rows + [row])[j] == rows[j];
      }
    }
  }

  /** The condition of GET's `where`: owner, or some collaborator row for the user. */
  function Visible(e: EventRow, collaborators: seq<CollaboratorRow>, userId: string): (r: bool)
    ensures r <==> (e.ownerId == userId
      || exists i | 0 <= i < |collaborators| :: collaborators[i].eventId == e.id && collaborators[i].userId == userId)
  {
    e.ownerId == userId || CollaboratorRow(e.id, userId) in collaborators
  }

  /** The rows GET selects, in table order. */
  function VisibleRows(rows: seq<EventRow>, collaborators: seq<CollaboratorRow>, userId: string): (r: seq<EventRow>)
    ensures forall e :: e in r <==> e in rows && Visible(e, collaborators, userId)
    ensures multiset(r) <= multiset(rows)
  {
    if rows == [] then []
    else
      assert rows == [rows[0]] + rows[1..];
      if Visible(rows[0], collaborators, userId)
      then [rows[0]] + VisibleRows(rows[1..], collaborators, userId)
      else VisibleRows(rows[1..], collaborators, userId)
  }

  /** `orderBy: { createdAt: 'desc' }`. */
  predicate NewestFirst(s: seq<EventRow>) {
    forall i, j | 0 <= i < j < |s| :: s[i].createdAt >= s[j].createdAt
  }

  /** One step of insertion sort: `x` placed into a newest-first list. */
  function InsertNewestFirst(x: EventRow, s: seq<EventRow>): (r: seq<EventRow>)
    requires NewestFirst(s)
    ensures NewestFirst(r)
    ensures multiset(r) == multiset(s) + multiset{x}
    ensures forall y | y in r :: y == x || y in s
  {
    if s == [] || x.createdAt >= s[0].createdAt then
      assert forall j | 0 < j < |[x] + s| :: ([x] + s)[j] == s[j - 1];
      [x] + s
    else
      var t := InsertNewestFirst(x, s[1..]);
      assert s == [s[0]] + s[1..];
      assert forall y | y in t :: y.createdAt <= s[0].createdAt;
      assert forall j | 0 < j < |[s[0]] + t| :: ([s[0]] + t)[j] == t[j - 1];
      [s[0]] + t
  }

  /** The rows in newest-first order (ties in any order, as the database leaves them). */
  function SortNewestFirst(s: seq<EventRow>): (r: seq<EventRow>)
    ensures NewestFirst(r)
    ensures multiset(r) == multiset(s)
  {
    if s == [] then []
    else
      assert s == [s[0]] + s[1..];
      InsertNewestFirst(s[0], SortNewestFirst(s[1..]))
  }

  /** The event table and the collaborator join table. */
  class EventTable {
    var events: seq<EventRow>
    var collaborators: seq<CollaboratorRow>

    ghost predicate Valid()
      reads this
    {
      UniqueSlugs(events)
    }

    constructor (events: seq<EventRow>, collaborators: seq<CollaboratorRow>)
      requires UniqueSlugs(events)
      ensures Valid()
      ensures this.events == events && this.collaborators == collaborators
    {
      this.events := events;
      this.collaborators := collaborators;
    }

    /** `prisma.event.create`: the unique index on `slug` rejects a taken slug. */
    method Create(row: EventRow) returns (ok: bool)
      requires Valid()
      modifies this
      ensures Valid()
      ensures ok == !SlugTaken(old(events), row.slug)
      ensures events == if ok then old(events) + [row] else old(events)
      ensures collaborators == old(collaborators)
    {
      if SlugTaken(events, row.slug) {
        return false;
      }
      AppendKeepsUnique(events, row);
      events := events + [row];
      return true;
    }

    /**
     * POST /api/events (app/api/events/route.ts:54-107). `now` stands for
     * Date.now(); `id` and `createdAt` are the values the database assigns.
     */
    method Post(name: Option<string>, ownerId: Option<string>, now: nat, id: string, createdAt: nat)
      returns (r: Response<EventRow>)
      requires Valid()
      modifies this
      ensures Valid() && collaborators == old(collaborators)
      ensures !(Given(name) && Given(ownerId)) ==>
        r == Error(400, NameAndOwnerRequired) && events == old(events)
      ensures Given(name) && Given(ownerId) ==>
        var base := Slug.Slugify(name.value);
        var slug := ChooseSlug(base, SlugTaken(old(events), base), now);
        && (r.Ok? <==> !SlugTaken(old(events), slug))
        && (r.Ok? ==> r.body == EventRow(id, name.value, slug, ownerId.value, true, createdAt)
                      && events == old(events) + [r.body])
        && (r.Error? ==> r == Error(500, CreateFailed) && events == old(events))
    {
      if !Given(name) || !Given(ownerId) {
        return Error(400, NameAndOwnerRequired);
      }
      var slug := Slug.Slugify(name.value);
      // prisma.event.findUnique({ where: { slug } })
      if SlugTaken(events, slug) {
        var uniqueSlug := slug + "-" + Text.Decimal(now);
        var row := EventRow(id, name.value, uniqueSlug, ownerId.value, true, createdAt);
        var ok := Create(row);
        if !ok {
          return Error(500, CreateFailed);
        }
        return Ok(row);
      }
      var row := EventRow(id, name.value, slug, ownerId.value, true, createdAt);
      var ok := Create(row);
      assert ok; // the slug was just found free
      return Ok(row);
    }

    /** GET /api/events (app/api/events/route.ts:5-51). */
    method Get(userId: Option<string>) returns (r: Response<seq<EventRow>>)
      ensures !Given(userId) ==> r == Error(400, UserIdRequired)
      ensures Given(userId) ==> r.Ok?
      ensures r.Ok? ==> NewestFirst(r.body)
      ensures r.Ok? ==> multiset(r.body) == multiset(VisibleRows(events, collaborators, userId.value))
      ensures r.Ok? ==> forall e :: e in r.body <==> e in events && Visible(e, collaborators, userId.value)
    {
      if !Given(userId) {
        return Error(400, UserIdRequired);
      }
      var selected := VisibleRows(events, collaborators, userId.value);
      var sorted := SortNewestFirst(selected);
      assert forall e :: e in sorted <==> e in multiset(sorted);
      assert forall e :: e in selected <==> e in multiset(selected);
      return Ok(sorted);
    }
  }
}
