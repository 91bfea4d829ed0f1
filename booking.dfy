/** The booking flow: merging a stay into a listing's calendar, pricing it,
    and the `createBooking` mutation that guards, charges and records it. */
module BookingResolver {
  import opened Wrappers
  import opened UtcCalendar
  import opened Types
  import opened Database
  import opened UserResolver

  /** The reasons `createBooking` gives up, in the order it checks them. */
  datatype BookingError =
    | ViewerNotFound
    | ListingNotFound
    | OwnListing
    | CheckOutBeforeCheckIn
    | DatesOverlap
    | HostNotConnected
    | ChargeFailed

  function Message(e: BookingError): string
  {
    match e
    case ViewerNotFound => "viewer not found"
    case ListingNotFound => "listing not found"
    case OwnListing => "viewer can't book own listing"
    case CheckOutBeforeCheckIn => "check out date can't be before check in date"
    case DatesOverlap => "selected dates can't overlap dates that have already been booked"
    case HostNotConnected => "the host either not found or isn't connected with Stripe"
    case ChargeFailed => "failed to created charge with Stripe."
  }

  /** Distinct errors carry distinct messages. */
  lemma MessagesAreDistinct(e1: BookingError, e2: BookingError)
    ensures Message(e1) == Message(e2) <==> e1 == e2
  {
    MessageLength(e1);
    MessageLength(e2);
  }

  /** The messages have pairwise different lengths. */
  lemma MessageLength(e: BookingError)
    ensures |Message(e)| == match e
      case ViewerNotFound => 16
      case ListingNotFound => 17
      case OwnListing => 29
      case CheckOutBeforeCheckIn => 44
      case DatesOverlap => 64
      case HostNotConnected => 56
      case ChargeFailed => 37
  {
    match e
    case ViewerNotFound =>
    case ListingNotFound =>
    case OwnListing =>
    case CheckOutBeforeCheckIn =>
    case DatesOverlap =>
    case HostNotConnected =>
    case ChargeFailed =>
  }

  /** The payment request sent to the processor: amount, the tenant's payment
      source and the host's connected account. */
  datatype Charge = Charge(amount: int, source: string, destination: string)

  /** Some day from a to b inclusive is already marked. */
  ghost predicate Overlaps(index: BookingsIndex, a: int, b: int)
  {
    exists day :: a <= day <= b && MarkedDay(index, day)
  }

  /** `after` marks the days `before` marks and the days from a to b, and no other day. */
  ghost predicate AddsRange(before: BookingsIndex, after: BookingsIndex, a: int, b: int)
  {
    forall day :: MarkedDay(after, day) <==> MarkedDay(before, day) || a <= day <= b
  }

  /** `resolveBookingsIndex`: walks the UTC days from check-in to check-out,
      one day per step, marking each and failing on the first one that is
      already marked. */
  method ResolveBookingsIndex(index: BookingsIndex, checkIn: int, checkOut: int)
    returns (r: Result<BookingsIndex, BookingError>)
    ensures r.Failure? <==> Overlaps(index, checkIn, checkOut)
    ensures r.Failure? ==> r.error == DatesOverlap
    ensures r.Success? ==> forall t :: Marked(r.value, t) <==> Marked(index, t) || DateInRange(t, checkIn, checkOut)
    ensures r.Success? ==> AddsRange(index, r.value, checkIn, checkOut)
    ensures checkOut < checkIn ==> r.Success? && forall t :: Marked(r.value, t) <==> Marked(index, t)
  {
    var cursor := checkIn;
    var next: BookingsIndex := index;
    while cursor <= checkOut
      invariant cursor == checkIn || checkIn < cursor <= checkOut + 1
      invariant forall t :: Marked(next, t) <==> Marked(index, t) || DateInRange(t, checkIn, cursor - 1)
      invariant forall day :: checkIn <= day < cursor ==> !MarkedDay(index, day)
      decreases checkOut - cursor
    {
      var t := UtcDate(cursor);
      var y, m, d := t.year, t.month, t.day;
      ghost var before := next;
      if y !in next {
        NewYearMarksNothing(next, y);
        next := next[y := map[]];
      }
      if m !in next[y] {
        NewMonthMarksNothing(next, y, m);
        next := next[y := next[y][m := map[]]];
      }
      ghost var prepared := next;
      if !(d in next[y][m] && next[y][m][d]) {
        MarkingAddsOneDate(next, t);
        next := next[y := next[y][m := next[y][m][d := true]]];
      } else {
        assert Marked(before, t);
        assert !DateInRange(t, checkIn, cursor - 1);
        assert MarkedDay(index, cursor);
        r := Failure(DatesOverlap);
        return;
      }
      RangeGrowsByOne(checkIn, cursor);
      forall s
        ensures Marked(next, s) <==> Marked(index, s) || DateInRange(s, checkIn, cursor)
      {
        assert Marked(next, s) <==> Marked(prepared, s) || s == t;
        assert Marked(prepared, s) <==> Marked(before, s);
      }
      assert !Marked(index, t);
      forall day | checkIn <= day <= cursor
        ensures !MarkedDay(index, day)
      {
        if day == cursor {
          assert UtcDate(day) == t;
        }
      }
      cursor := cursor + 1;
    }
    assert forall t :: DateInRange(t, checkIn, cursor - 1) <==> DateInRange(t, checkIn, checkOut);
    r := Success(next);
  }

  /** Extending a range by its next day adds exactly that day's date. */
  lemma RangeGrowsByOne(a: int, c: int)
    requires a <= c
    ensures forall s :: DateInRange(s, a, c) <==> DateInRange(s, a, c - 1) || s == UtcDate(c)
  {
    forall s | DateInRange(s, a, c) && !DateInRange(s, a, c - 1)
      ensures s == UtcDate(c)
    {
      UtcDateOfDay(s);
    }
  }

  lemma NewYearMarksNothing(index: BookingsIndex, y: int)
    requires y !in index
    ensures forall s :: Marked(index[y := map[]], s) <==> Marked(index, s)
  {
  }

  lemma NewMonthMarksNothing(index: BookingsIndex, y: int, m: int)
    requires y in index && m !in index[y]
    ensures forall s :: Marked(index[y := index[y][m := map[]]], s) <==> Marked(index, s)
  {
  }

  lemma MarkingAddsOneDate(index: BookingsIndex, t: Ymd)
    requires t.year in index && t.month in index[t.year]
    ensures forall s :: Marked(index[t.year := index[t.year][t.month := index[t.year][t.month][t.day := true]]], s)
                        <==> Marked(index, s) || s == t
  {
  }

  /** The charge for a stay: the nightly price times the number of days from
      check-in to check-out inclusive. */
  function TotalPrice(price: int, checkIn: int, checkOut: int): (total: int)
    ensures checkIn == checkOut ==> total == price
    ensures price >= 0 && checkIn <= checkOut ==> total >= price
  {
    price * ((checkOut - checkIn) + 1)
  }

  /** Splitting a stay into two back-to-back stays does not change its price. */
  lemma TotalPriceSplits(price: int, checkIn: int, middle: int, checkOut: int)
    requires checkIn <= middle < checkOut
    ensures TotalPrice(price, checkIn, checkOut) == TotalPrice(price, checkIn, middle) + TotalPrice(price, middle + 1, checkOut)
  {
    assert price * ((checkOut - checkIn) + 1) == price * ((middle - checkIn) + 1) + price * (checkOut - middle);
  }

  /** Once a stay is merged, any stay sharing a day with it overlaps the
      calendar: the same or intersecting dates cannot be booked twice. */
  lemma {:induction false} MergedRangeBlocksRebooking(before: BookingsIndex, after: BookingsIndex, a: int, b: int, c: int, d: int)
    requires AddsRange(before, after, a, b)
    requires a <= b && c <= d && c <= b && a <= d
    ensures Overlaps(after, c, d)
  {
    var day := if a < c then c else a;
    assert MarkedDay(after, day);
  }

  /** The distinct calendar dates a stay marks. */
  ghost function ReservedDates(checkIn: int, checkOut: int): set<Ymd>
  {
    set day | checkIn <= day <= checkOut :: UtcDate(day)
  }

  /** A stay from a to b marks exactly b - a + 1 distinct dates. */
  lemma {:induction false} ReservedDatesCount(a: int, b: int)
    requires a <= b + 1
    ensures |ReservedDates(a, b)| == b - a + 1
    decreases b - a
  {
    if a <= b {
      ReservedDatesCount(a, b - 1);
      ReservedDatesGrow(a, b);
      LaterDateNotReserved(a, b);
      var earlier, date := ReservedDates(a, b - 1), UtcDate(b);
      assert |earlier + {date}| == |earlier| + 1;
    } else {
      NoReservedDates(a, b);
    }
  }

  /** An empty stay reserves no date. */
  lemma NoReservedDates(a: int, b: int)
    requires b < a
    ensures ReservedDates(a, b) == {}
  {
  }

  /** Extending a stay by its last day adds that day's date. */
  lemma ReservedDatesGrow(a: int, b: int)
    requires a <= b
    ensures ReservedDates(a, b) == ReservedDates(a, b - 1) + {UtcDate(b)}
  {
  }

  /** The date of a day after a stay is not among the stay's dates. */
  lemma LaterDateNotReserved(a: int, b: int)
    ensures UtcDate(b) !in ReservedDates(a, b - 1)
  {
    forall day | a <= day <= b - 1
      ensures UtcDate(day) != UtcDate(b)
    {
      UtcDateInjective(day, b);
    }
  }

  /** The price charged is the nightly price once per date the stay marks. */
  lemma TotalPriceIsPerReservedDate(price: int, checkIn: int, checkOut: int)
    requires checkIn <= checkOut
    ensures TotalPrice(price, checkIn, checkOut) == price * |ReservedDates(checkIn, checkOut)|
  {
    ReservedDatesCount(checkIn, checkOut);
  }

  /** The first guard of `createBooking` that refuses the request, if any:
      no viewer, no listing, the viewer hosts it, check-out before check-in,
      a date already booked, then a host missing or without a wallet. */
  ghost function Rejection(users: map<string, User>, listings: map<string, Listing>,
                           viewerId: Option<string>, listingId: string, checkIn: int, checkOut: int): (r: Option<BookingError>)
    ensures r.None? <==>
      && viewerId.Some? && listingId in listings
      && listings[listingId].host != viewerId.value
      && checkIn <= checkOut
      && !Overlaps(listings[listingId].bookingsIndex, checkIn, checkOut)
      && listings[listingId].host in users && HasWallet(users[listings[listingId].host])
    ensures r != Some(ChargeFailed)
    ensures r == Some(DatesOverlap) ==> listingId in listings && Overlaps(listings[listingId].bookingsIndex, checkIn, checkOut)
  {
    if viewerId.None? then Some(ViewerNotFound)
    else if listingId !in listings then Some(ListingNotFound)
    else if listings[listingId].host == viewerId.value then Some(OwnListing)
    else if checkOut < checkIn then Some(CheckOutBeforeCheckIn)
    else if Overlaps(listings[listingId].bookingsIndex, checkIn, checkOut) then Some(DatesOverlap)
    else if listings[listingId].host !in users || !HasWallet(users[listings[listingId].host]) then Some(HostNotConnected)
    else None
  }

  /** The listing after a booking is recorded: new calendar, id appended. */
  function Booked(l: Listing, index: BookingsIndex, id: string): Listing
  {
    l.(bookingsIndex := index, bookings := l.bookings + [id])
  }

  /** Recording a booking whose days were free keeps the listing's calendar
      equal to the union of its bookings, and its bookings pairwise apart. */
  lemma BookedListingStaysConsistent(l: Listing, bookings: map<string, Booking>, b: Booking, index: BookingsIndex)
    requires ListingConsistent(l, bookings) && BookingsWellFormed(bookings)
    requires b.id !in bookings && b.listing == l.id && b.checkIn <= b.checkOut
    requires !Overlaps(l.bookingsIndex, b.checkIn, b.checkOut)
    requires AddsRange(l.bookingsIndex, index, b.checkIn, b.checkOut)
    ensures ListingConsistent(Booked(l, index, b.id), bookings[b.id := b])
  {
    var l', bookings' := Booked(l, index, b.id), bookings[b.id := b];
    forall x | x in l.bookings
      ensures x in bookings' && bookings'[x] == bookings[x]
    {
    }
    assert l'.bookings[|l.bookings|] == b.id;
    forall x | x in l'.bookings
      ensures x in bookings' && bookings'[x].listing == l'.id
    {
      if x !in l.bookings {
        assert x == b.id;
      }
    }
    forall day
      ensures MarkedDay(index, day) <==>
        exists x :: x in l'.bookings && x in bookings' && Covers(bookings'[x], day)
    {
      if MarkedDay(l.bookingsIndex, day) {
        var x :| x in l.bookings && x in bookings && Covers(bookings[x], day);
        assert x in l'.bookings && x in bookings' && Covers(bookings'[x], day);
      } else if Covers(b, day) {
        assert b.id in l'.bookings && b.id in bookings' && Covers(bookings'[b.id], day);
      }
      if exists x :: x in l'.bookings && x in bookings' && Covers(bookings'[x], day) {
        var x :| x in l'.bookings && x in bookings' && Covers(bookings'[x], day);
        if x in l.bookings {
          assert Covers(bookings[x], day);
        }
      }
    }
    forall i, j | 0 <= i < j < |l'.bookings| && l'.bookings[i] in bookings' && l'.bookings[j] in bookings'
      ensures Apart(bookings'[l'.bookings[i]], bookings'[l'.bookings[j]])
    {
      if j < |l.bookings| {
        assert l'.bookings[i] == l.bookings[i] && l'.bookings[j] == l.bookings[j];
      } else {
        var x := l.bookings[i];
        assert l'.bookings[i] == x && l'.bookings[j] == b.id;
        var earlier := bookings[x];
        var day := if earlier.checkIn < b.checkIn then b.checkIn else earlier.checkIn;
        assert Covers(earlier, day) ==> MarkedDay(l.bookingsIndex, day);
      }
    }
  }

  /** The four writes of a successful booking, in the order the mutation
      performs them: the booking is inserted, the host is credited, the
      tenant's list gains the id, and the listing gets the new calendar and id. */
  lemma CommitKeepsStoreInvariant(users: map<string, User>, listings: map<string, Listing>,
                                  bookings: map<string, Booking>, b: Booking, index: BookingsIndex, total: int)
    requires StoreInvariant(users, listings, bookings)
    requires b.tenant in users && b.listing in listings
    requires listings[b.listing].host in users && listings[b.listing].host != b.tenant
    requires b.id !in bookings && b.checkIn <= b.checkOut
    requires !Overlaps(listings[b.listing].bookingsIndex, b.checkIn, b.checkOut)
    requires AddsRange(listings[b.listing].bookingsIndex, index, b.checkIn, b.checkOut)
    requires total >= 0
    ensures var hostId := listings[b.listing].host;
            StoreInvariant(
              users[hostId := users[hostId].(income := users[hostId].income + total)]
                   [b.tenant := users[b.tenant].(bookings := users[b.tenant].bookings + [b.id])],
              listings[b.listing := Booked(listings[b.listing], index, b.id)],
              bookings[b.id := b])
  {
    var hostId := listings[b.listing].host;
    var users' := users[hostId := users[hostId].(income := users[hostId].income + total)]
                       [b.tenant := users[b.tenant].(bookings := users[b.tenant].bookings + [b.id])];
    var listings' := listings[b.listing := Booked(listings[b.listing], index, b.id)];
    var bookings' := bookings[b.id := b];
    forall k | k in listings'
      ensures listings'[k].id == k && !listings'[k].authorized && listings'[k].price >= 0
      ensures ListingConsistent(listings'[k], bookings')
    {
      if k == b.listing {
        BookedListingStaysConsistent(listings[k], bookings, b, index);
      } else {
        FreshBookingKeepsListing(listings[k], bookings, b);
      }
    }
    forall k, x | k in users' && x in users'[k].bookings
      ensures x in bookings' && bookings'[x].tenant == k
    {
      if k == b.tenant && x !in users[k].bookings {
        assert x == b.id;
      }
    }
    assert UserListsResolve(users', listings', bookings');
  }

  /** `Mutation.createBooking`. The viewer is the user the request's
      credentials resolved to, `paid` is the payment processor's verdict on
      the charge, and `newId` is the freshly generated booking id. */
  method CreateBooking(db: Store, viewerId: Option<string>, listingId: string, source: string,
                       checkIn: int, checkOut: int, paid: bool, newId: string)
    returns (r: Result<Booking, BookingError>, charge: Option<Charge>)
    requires db.Valid()
    requires viewerId.Some? ==> viewerId.value in db.users
    requires newId !in db.bookings
    modifies db
    ensures db.Valid()
    ensures var rejection := Rejection(old(db.users), old(db.listings), viewerId, listingId, checkIn, checkOut);
            rejection.Some? ==> r == Failure(rejection.value) && charge.None? && unchanged(db)
    ensures var rejection := Rejection(old(db.users), old(db.listings), viewerId, listingId, checkIn, checkOut);
            rejection.None? ==>
              var listing := old(db.listings[listingId]);
              charge == Some(Charge(TotalPrice(listing.price, checkIn, checkOut), source, old(db.users[listing.host]).walletId.value))
    ensures var rejection := Rejection(old(db.users), old(db.listings), viewerId, listingId, checkIn, checkOut);
            rejection.None? && !paid ==> r == Failure(ChargeFailed) && unchanged(db)
    ensures var rejection := Rejection(old(db.users), old(db.listings), viewerId, listingId, checkIn, checkOut);
            rejection.None? && paid ==>
              var listing := old(db.listings[listingId]);
              var host := old(db.users[listing.host]);
              var viewer := old(db.users[viewerId.value]);
              && r == Success(Booking(newId, listingId, viewerId.value, checkIn, checkOut))
              && db.bookings == old(db.bookings)[newId := r.value]
              && db.users == old(db.users)[host.id := host.(income := host.income + TotalPrice(listing.price, checkIn, checkOut))]
                                          [viewer.id := viewer.(bookings := viewer.bookings + [newId])]
              && db.users[host.id].income >= host.income
              && listingId in db.listings
              && db.listings == old(db.listings)[listingId := Booked(listing, db.listings[listingId].bookingsIndex, newId)]
              && (forall t :: Marked(db.listings[listingId].bookingsIndex, t) <==>
                    Marked(listing.bookingsIndex, t) || DateInRange(t, checkIn, checkOut))
  {
    charge := None;
    if viewerId.None? {
      return Failure(ViewerNotFound), charge;
    }
    var viewer := db.users[viewerId.value];
    if listingId !in db.listings {
      return Failure(ListingNotFound), charge;
    }
    var listing := db.listings[listingId];
    if listing.host == viewer.id {
      return Failure(OwnListing), charge;
    }
    if checkOut < checkIn {
      return Failure(CheckOutBeforeCheckIn), charge;
    }
    var bookingsIndex := ResolveBookingsIndex(listing.bookingsIndex, checkIn, checkOut);
    if bookingsIndex.Failure? {
      return Failure(bookingsIndex.error), charge;
    }
    var totalPrice := TotalPrice(listing.price, checkIn, checkOut);
    if listing.host !in db.users || !HasWallet(db.users[listing.host]) {
      return Failure(HostNotConnected), charge;
    }
    var host := db.users[listing.host];
    charge := Some(Charge(totalPrice, source, host.walletId.value));
    if !paid {
      return Failure(ChargeFailed), charge;
    }
    var booking := Booking(newId, listing.id, viewer.id, checkIn, checkOut);
    RecordBooking(db, booking, bookingsIndex.value, totalPrice);
    r := Success(booking);
  }

  /** The four sequential saves after a successful charge. */
  method RecordBooking(db: Store, b: Booking, index: BookingsIndex, total: int)
    requires db.Valid()
    requires b.tenant in db.users && b.listing in db.listings
    requires db.listings[b.listing].host in db.users && db.listings[b.listing].host != b.tenant
    requires b.id !in db.bookings && b.checkIn <= b.checkOut
    requires !Overlaps(db.listings[b.listing].bookingsIndex, b.checkIn, b.checkOut)
    requires AddsRange(db.listings[b.listing].bookingsIndex, index, b.checkIn, b.checkOut)
    requires total >= 0
    modifies db
    ensures db.Valid()
    ensures var listing := old(db.listings[b.listing]);
            var host := old(db.users[listing.host]);
            var tenant := old(db.users[b.tenant]);
            && db.bookings == old(db.bookings)[b.id := b]
            && db.users == old(db.users)[listing.host := host.(income := host.income + total)]
                                        [b.tenant := tenant.(bookings := tenant.bookings + [b.id])]
            && db.listings == old(db.listings)[b.listing := Booked(listing, index, b.id)]
  {
    ghost var users, listings, bookings := db.users, db.listings, db.bookings;
    var listing := db.listings[b.listing];
    db.bookings := db.bookings[b.id := b];
    var host := db.users[listing.host];
    host := host.(income := host.income + total);
    db.users := db.users[listing.host := host];
    var tenant := db.users[b.tenant];
    tenant := tenant.(bookings := tenant.bookings + [b.id]);
    db.users := db.users[b.tenant := tenant];
    listing := Booked(listing, index, b.id);
    db.listings := db.listings[b.listing := listing];
    CommitKeepsStoreInvariant(users, listings, bookings, b, index, total);
  }

  /** Merging a stay, read on calendar dates: a valid date is marked after
      the merge iff it was marked before or its day lies in the stay. */
  lemma MergedDate(before: BookingsIndex, after: BookingsIndex, a: int, b: int, t: Ymd)
    requires AddsRange(before, after, a, b) && ValidDate(t)
    ensures Marked(after, t) <==> Marked(before, t) || a <= DayOf(t) <= b
  {
    UtcDateOfDay(t);
    assert MarkedDay(after, DayOf(t)) <==> MarkedDay(before, DayOf(t)) || a <= DayOf(t) <= b;
  }

  /** A listing at 50 a night with an empty calendar, booked from 2024-06-10
      (day 19884) to 2024-06-12: the charge is 150 and exactly June 10, 11
      and 12 are marked. */
  lemma JuneStayExample(after: BookingsIndex)
    requires AddsRange(map[], after, 19884, 19886)
    ensures TotalPrice(50, 19884, 19886) == 150
    ensures Marked(after, Ymd(2024, 5, 10)) && Marked(after, Ymd(2024, 5, 11)) && Marked(after, Ymd(2024, 5, 12))
    ensures !Marked(after, Ymd(2024, 5, 9)) && !Marked(after, Ymd(2024, 5, 13))
  {
    assert DayFromYear(2024) == 19723;
    assert InLeapYear(2024) && MonthStart(5, true) == 152 && MonthStart(6, true) == 182;
    forall k | 9 <= k <= 13
      ensures Marked(after, Ymd(2024, 5, k)) <==> 10 <= k <= 12
    {
      assert DayOf(Ymd(2024, 5, k)) == 19874 + k;
      MergedDate(map[], after, 19884, 19886, Ymd(2024, 5, k));
    }
  }
}
