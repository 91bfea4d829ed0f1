/** The three collections the resolvers read and write (`db.users`,
    `db.listings`, `db.bookings`), and the consistency the booking flow keeps
    among them. */
module Database {
  import opened Wrappers
  import opened Types

  /** The listing's bookings all exist and point back at the listing. */
  ghost predicate BookingsResolve(l: Listing, bookings: map<string, Booking>)
  {
    forall x :: x in l.bookings ==> x in bookings && bookings[x].listing == l.id
  }

  /** A day is marked in the listing's calendar exactly when one of its
      bookings covers it. */
  ghost predicate CalendarMatches(l: Listing, bookings: map<string, Booking>)
  {
    forall day :: MarkedDay(l.bookingsIndex, day) <==>
      exists x :: x in l.bookings && x in bookings && Covers(bookings[x], day)
  }

  /** No two bookings of the listing share a day. */
  ghost predicate NoDoubleBooking(l: Listing, bookings: map<string, Booking>)
  {
    forall i, j :: 0 <= i < j < |l.bookings| && l.bookings[i] in bookings && l.bookings[j] in bookings ==>
      Apart(bookings[l.bookings[i]], bookings[l.bookings[j]])
  }

  ghost predicate ListingConsistent(l: Listing, bookings: map<string, Booking>)
  {
    BookingsResolve(l, bookings) && CalendarMatches(l, bookings) && NoDoubleBooking(l, bookings)
  }

  ghost predicate UsersWellFormed(users: map<string, User>)
  {
    forall k :: k in users ==> users[k].id == k && !users[k].authorized && users[k].income >= 0
  }

  ghost predicate BookingsWellFormed(bookings: map<string, Booking>)
  {
    forall k :: k in bookings ==> bookings[k].id == k && bookings[k].checkIn <= bookings[k].checkOut
  }

  ghost predicate ListingsWellFormed(listings: map<string, Listing>, bookings: map<string, Booking>)
  {
    forall k :: k in listings ==>
      listings[k].id == k && !listings[k].authorized && listings[k].price >= 0
      && ListingConsistent(listings[k], bookings)
  }

  /** The id lists kept on users name records that exist and belong to them. */
  ghost predicate UserListsResolve(users: map<string, User>, listings: map<string, Listing>, bookings: map<string, Booking>)
  {
    && (forall k, x :: k in users && x in users[k].listings ==> x in listings && listings[x].host == k)
    && (forall k, x :: k in users && x in users[k].bookings ==> x in bookings && bookings[x].tenant == k)
  }

  ghost predicate StoreInvariant(users: map<string, User>, listings: map<string, Listing>, bookings: map<string, Booking>)
  {
    && UsersWellFormed(users)
    && BookingsWellFormed(bookings)
    && ListingsWellFormed(listings, bookings)
    && UserListsResolve(users, listings, bookings)
  }

  class Store {
    var users: map<string, User>
    var listings: map<string, Listing>
    var bookings: map<string, Booking>

    ghost predicate Valid()
      reads this
    {
      StoreInvariant(users, listings, bookings)
    }

    constructor ()
      ensures Valid()
      ensures users == map[] && listings == map[] && bookings == map[]
    {
      users, listings, bookings := map[], map[], map[];
    }
  }

  /** Adding a booking under a fresh id leaves every existing listing consistent. */
  lemma FreshBookingKeepsListing(l: Listing, bookings: map<string, Booking>, b: Booking)
    requires ListingConsistent(l, bookings)
    requires b.id !in bookings
    ensures ListingConsistent(l, bookings[b.id := b])
  {
    var bookings' := bookings[b.id := b];
    forall x | x in l.bookings
      ensures x in bookings' && bookings'[x] == bookings[x]
    {
    }
    forall day
      ensures MarkedDay(l.bookingsIndex, day) <==>
        exists x :: x in l.bookings && x in bookings' && Covers(bookings'[x], day)
    {
      if MarkedDay(l.bookingsIndex, day) {
        var x :| x in l.bookings && x in bookings && Covers(bookings[x], day);
        assert x in bookings' && Covers(bookings'[x], day);
      }
    }
  }
}
