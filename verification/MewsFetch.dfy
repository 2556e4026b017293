/** Fetching a window of reservations from the property-management system, in one call or in chunks. */
module MewsFetch {
  import opened Wrappers
  import opened HotelModel
  import Numbers

  datatype Reservation = Reservation(
    id: Id, number: Option<string>, state: string,
    startUtc: Option<int>, scheduledStart: Option<int>, endUtc: Option<int>, scheduledEnd: Option<int>,
    customer: Option<Id>, adults: Option<int>, children: Option<int>,
    assignedSpace: Option<Id>, assignedResource: Option<Id>,
    stayStart: int, stayEnd: int)

  datatype Customer = Customer(id: Id, firstName: Option<string>, lastName: Option<string>, email: Option<string>, phone: Option<string>)

  datatype Space = Space(id: Id, number: Option<string>, name: Option<string>)

  datatype Page = Page(reservations: seq<Reservation>, customers: seq<Customer>, spaces: seq<Space>)

  /** The remote refuses a window that is too wide in words of its own; any other failure is fatal. */
  datatype Reply = Answer(page: Page) | TooWide | Failure

  /** What the remote holds while a sync lasts. The stay of a reservation is not empty. */
  datatype Snapshot = Snapshot(reservations: set<Reservation>, customers: set<Customer>, spaces: set<Space>)

  ghost predicate Coherent(s: Snapshot) {
    && (forall r :: r in s.reservations ==> r.stayStart < r.stayEnd)
    && (forall r, q :: r in s.reservations && q in s.reservations && r.id == q.id ==> r == q)
    && (forall c, e :: c in s.customers && e in s.customers && c.id == e.id ==> c == e)
    && (forall a, b :: a in s.spaces && b in s.spaces && a.id == b.id ==> a == b)
  }

  predicate Collides(r: Reservation, from: int, to: int) {
    r.stayStart < to && r.stayEnd > from
  }

  /** A non-empty stay collides with a window when they have an instant in common. */
  lemma CollidesIff(r: Reservation, from: int, to: int)
    requires r.stayStart < r.stayEnd && from < to
    ensures Collides(r, from, to) <==> exists t :: DuringBoth(r, from, to, t)
  {
    if Collides(r, from, to) {
      assert DuringBoth(r, from, to, Numbers.Max(r.stayStart, from));
    }
  }

  predicate DuringBoth(r: Reservation, from: int, to: int, t: int) {
    r.stayStart <= t < r.stayEnd && from <= t < to
  }

  /** The field of the newer interface wins over that of the older. */
  lemma SpaceIs(r: Reservation)
    ensures r.assignedResource.Some? ==> SpaceOf(r) == r.assignedResource
    ensures r.assignedResource.None? ==> SpaceOf(r) == r.assignedSpace
  {
  }

  function SpaceOf(r: Reservation): Option<Id> {
    if r.assignedResource.Some? then r.assignedResource else r.assignedSpace
  }

  ghost predicate Shown(s: Snapshot, r: Reservation, from: int, to: int) {
    r in s.reservations && Collides(r, from, to)
  }

  ghost predicate CustomerShown(s: Snapshot, c: Customer, from: int, to: int) {
    c in s.customers && exists r :: Shown(s, r, from, to) && r.customer == Some(c.id)
  }

  ghost predicate SpaceShown(s: Snapshot, a: Space, from: int, to: int) {
    a in s.spaces && exists r :: Shown(s, r, from, to) && SpaceOf(r) == Some(a.id)
  }

  /** A page holds exactly the reservations colliding with the window, in any order and any
      number of times, with the customers and spaces they mention. */
  ghost predicate Exact(p: Page, s: Snapshot, from: int, to: int) {
    && (forall r :: r in p.reservations <==> Shown(s, r, from, to))
    && (forall c :: c in p.customers <==> CustomerShown(s, c, from, to))
    && (forall a :: a in p.spaces <==> SpaceShown(s, a, from, to))
  }

  ghost predicate Honest(ask: (int, int) -> Reply, s: Snapshot) {
    forall a, b :: a < b && ask(a, b).Answer? ==> Exact(ask(a, b).page, s, a, b)
  }

  datatype Fetched = Fetched(reservations: map<Id, Reservation>, customers: map<Id, Customer>, spaces: map<Id, Space>)

  // ---------------------------------------------------------------- merging by id

  function Merged<T>(m: map<Id, T>, id: T -> Id, xs: seq<T>): map<Id, T> {
    if |xs| == 0 then m else Merged(m, id, xs[..|xs| - 1])[id(xs[|xs| - 1]) := xs[|xs| - 1]]
  }

  /** The map holds, each under its id, exactly the shown items. */
  ghost predicate Indexes<T(!new)>(m: map<Id, T>, id: T -> Id, shown: T -> bool) {
    && (forall x :: shown(x) ==> id(x) in m && m[id(x)] == x)
    && (forall k :: k in m ==> shown(m[k]) && id(m[k]) == k)
  }

  lemma IndexedIff<T(!new)>(m: map<Id, T>, id: T -> Id, shown: T -> bool, x: T)
    requires Indexes(m, id, shown)
    ensures (id(x) in m && m[id(x)] == x) <==> shown(x)
  {
  }

  lemma {:induction false} MergedHas<T(!new)>(m: map<Id, T>, id: T -> Id, xs: seq<T>)
    ensures var all := Merged(m, id, xs);
            && (forall k :: k in m ==> k in all)
            && (forall x :: x in xs ==> id(x) in all)
            && (forall k :: k in all ==> (k in m && all[k] == m[k]) || (all[k] in xs && id(all[k]) == k))
  {
    if |xs| > 0 {
      MergedHas(m, id, xs[..|xs| - 1]);
      assert xs == xs[..|xs| - 1] + [xs[|xs| - 1]];
    }
  }

  /** Merging a page into an index gives the index of everything seen so far. */
  lemma MergeGrows<T(!new)>(m: map<Id, T>, id: T -> Id, xs: seq<T>, seen: T -> bool, page: T -> bool, all: T -> bool)
    requires Indexes(m, id, seen)
    requires forall x :: x in xs <==> page(x)
    requires forall x :: all(x) <==> seen(x) || page(x)
    requires forall x, y :: all(x) && all(y) && id(x) == id(y) ==> x == y
    ensures Indexes(Merged(m, id, xs), id, all)
  {
    MergedHas(m, id, xs);
  }

  method MergeInto<T>(m: map<Id, T>, id: T -> Id, xs: seq<T>) returns (all: map<Id, T>)
    ensures all == Merged(m, id, xs)
  {
    all := m;
    for n := 0 to |xs|
      invariant all == Merged(m, id, xs[..n])
    {
      assert xs[..n + 1][..n] == xs[..n];
      all := all[id(xs[n]) := xs[n]];
    }
    assert xs[..|xs|] == xs;
  }

  // ---------------------------------------------------------------- windows

  /** The three maps hold, by id, exactly what belongs to the window. */
  ghost predicate HoldsWindow(f: Fetched, s: Snapshot, from: int, to: int) {
    && Indexes(f.reservations, (r: Reservation) => r.id, (r: Reservation) => Shown(s, r, from, to))
    && Indexes(f.customers, (c: Customer) => c.id, (c: Customer) => CustomerShown(s, c, from, to))
    && Indexes(f.spaces, (a: Space) => a.id, (a: Space) => SpaceShown(s, a, from, to))
  }

  lemma HeldIffShown(f: Fetched, s: Snapshot, from: int, to: int, r: Reservation)
    requires HoldsWindow(f, s, from, to)
    ensures (r.id in f.reservations && f.reservations[r.id] == r) <==> Shown(s, r, from, to)
  {
    IndexedIff(f.reservations, (r: Reservation) => r.id, (r: Reservation) => Shown(s, r, from, to), r);
  }

  /** A window determines what is held, so any two ways of fetching it agree. */
  lemma WindowDetermines(f: Fetched, g: Fetched, s: Snapshot, from: int, to: int)
    requires HoldsWindow(f, s, from, to) && HoldsWindow(g, s, from, to)
    ensures f == g
  {
  }

  /** A reservation collides with two adjoining windows together exactly when it collides with
      one of them; this needs its stay not to be empty. */
  lemma WindowsAdd(s: Snapshot, from: int, middle: int, to: int)
    requires Coherent(s) && from < middle < to
    ensures forall r :: Shown(s, r, from, to) <==> Shown(s, r, from, middle) || Shown(s, r, middle, to)
    ensures forall c :: CustomerShown(s, c, from, to) <==> CustomerShown(s, c, from, middle) || CustomerShown(s, c, middle, to)
    ensures forall a :: SpaceShown(s, a, from, to) <==> SpaceShown(s, a, from, middle) || SpaceShown(s, a, middle, to)
  {
  }

  function MergedPage(f: Fetched, p: Page): Fetched {
    Fetched(Merged(f.reservations, (r: Reservation) => r.id, p.reservations),
            Merged(f.customers, (c: Customer) => c.id, p.customers),
            Merged(f.spaces, (a: Space) => a.id, p.spaces))
  }

  const NOTHING := Fetched(map[], map[], map[])

  /** Adding the page of the next window to what a fetch holds so far. */
  lemma PageExtends(f: Fetched, p: Page, s: Snapshot, from: int, middle: int, to: int)
    requires Coherent(s) && from <= middle < to && Exact(p, s, middle, to)
    requires if from == middle then f == NOTHING else HoldsWindow(f, s, from, middle)
    ensures HoldsWindow(MergedPage(f, p), s, from, to)
  {
    if from < middle {
      WindowsAdd(s, from, middle, to);
    }
    var none := from == middle;
    MergeGrows(f.reservations, (r: Reservation) => r.id, p.reservations, (r: Reservation) => !none && Shown(s, r, from, middle),
               (r: Reservation) => Shown(s, r, middle, to), (r: Reservation) => Shown(s, r, from, to));
    MergeGrows(f.customers, (c: Customer) => c.id, p.customers, (c: Customer) => !none && CustomerShown(s, c, from, middle),
               (c: Customer) => CustomerShown(s, c, middle, to), (c: Customer) => CustomerShown(s, c, from, to));
    MergeGrows(f.spaces, (a: Space) => a.id, p.spaces, (a: Space) => !none && SpaceShown(s, a, from, middle),
               (a: Space) => SpaceShown(s, a, middle, to), (a: Space) => SpaceShown(s, a, from, to));
  }

  // ---------------------------------------------------------------- the fetch

  /** The windows asked for cover the range end to end, each no wider than the chunk. */
  ghost predicate Tile(windows: seq<(int, int)>, from: int, to: int, chunk: int) {
    && |windows| > 0 && windows[0].0 == from && windows[|windows| - 1].1 == to
    && (forall k :: 0 <= k < |windows| ==> windows[k].0 < windows[k].1 <= windows[k].0 + chunk)
    && (forall k :: 0 < k < |windows| ==> windows[k].0 == windows[k - 1].1)
  }

  lemma TileGrows(windows: seq<(int, int)>, from: int, middle: int, to: int, chunk: int)
    requires middle < to <= middle + chunk
    requires if middle == from then windows == [] else Tile(windows, from, middle, chunk)
    ensures Tile(windows + [(middle, to)], from, to, chunk)
  {
  }

  method MergePage(f: Fetched, p: Page) returns (g: Fetched)
    ensures g == MergedPage(f, p)
  {
    var rs := MergeInto(f.reservations, (r: Reservation) => r.id, p.reservations);
    var cs := MergeInto(f.customers, (c: Customer) => c.id, p.customers);
    var ss := MergeInto(f.spaces, (a: Space) => a.id, p.spaces);
    g := Fetched(rs, cs, ss);
  }

  /** One call for the whole range; if the remote finds it too wide, chunks of at most `chunk`.
      Either way the result is what one call would have brought, and there is a result unless
      the remote refuses a call it was not allowed to refuse. */
  method Fetch(ask: (int, int) -> Reply, ghost s: Snapshot, from: int, to: int, chunk: int)
    returns (f: Option<Fetched>, chunks: seq<(int, int)>)
    requires Coherent(s) && Honest(ask, s) && from < to && chunk > 0
    ensures f.Some? ==> HoldsWindow(f.value, s, from, to)
    ensures ask(from, to).Answer? ==> f.Some? && chunks == []
    ensures ask(from, to).Failure? ==> f == None
    ensures f.Some? && !ask(from, to).Answer? ==> Tile(chunks, from, to, chunk)
    ensures f == None && ask(from, to).TooWide? ==>
              |chunks| > 0 && !ask(chunks[|chunks| - 1].0, chunks[|chunks| - 1].1).Answer?
  {
    chunks := [];
    match ask(from, to)
    case Answer(page) =>
      PageExtends(NOTHING, page, s, from, from, to);
      var whole := MergePage(NOTHING, page);
      f := Some(whole);
    case Failure =>
      f := None;
    case TooWide =>
      var sofar := NOTHING;
      var start := from;
      while start < to
        invariant from <= start
        invariant start == from ==> chunks == [] && sofar == NOTHING
        invariant start > from ==> Tile(chunks, from, Numbers.Min(start, to), chunk)
        invariant start > from ==> HoldsWindow(sofar, s, from, Numbers.Min(start, to))
      {
        var end := Numbers.Min(start + chunk, to);
        TileGrows(chunks, from, start, end, chunk);
        chunks := chunks + [(start, end)];
        var reply := ask(start, end);
        if !reply.Answer? {
          return None, chunks;
        }
        PageExtends(sofar, reply.page, s, from, start, end);
        sofar := MergePage(sofar, reply.page);
        start := start + chunk;
      }
      f := Some(sofar);
  }
}
