/** The stored records of the marketplace and the sparse booking calendar
    that each listing carries. */
module Types {
  import opened Wrappers
  import opened UtcCalendar

  /** year -> month (0 to 11) -> day of month -> `true` when that day is booked. */
  type BookingsIndex = map<int, map<int, map<int, bool>>>

  /** A user. `authorized` is not a stored column: the `user` query sets it
      on the record it returns when the viewer is that user. */
  datatype User = User(
    id: string,
    name: string,
    walletId: Option<string>,
    income: int,
    listings: seq<string>,
    bookings: seq<string>,
    authorized: bool)

  /** A listing. `authorized` is set by the `listing` query, as for users. */
  datatype Listing = Listing(
    id: string,
    title: string,
    description: string,
    image: string,
    host: string,
    listingType: string,
    address: string,
    country: string,
    state: string,
    city: string,
    bookings: seq<string>,
    bookingsIndex: BookingsIndex,
    price: int,
    numOfGuests: int,
    authorized: bool)

  /** A booking; check-in and check-out are UTC day numbers, both nights included. */
  datatype Booking = Booking(id: string, listing: string, tenant: string, checkIn: int, checkOut: int)

  /** The calendar entry of date t is present and `true` (JavaScript truthiness
      of `index[y][m][d]`). */
  predicate Marked(index: BookingsIndex, t: Ymd)
  {
    t.year in index && t.month in index[t.year] && t.day in index[t.year][t.month]
      && index[t.year][t.month][t.day]
  }

  /** The calendar marks the UTC date of day number `day`. */
  predicate MarkedDay(index: BookingsIndex, day: int)
  {
    Marked(index, UtcDate(day))
  }

  /** Date t is a real date falling between day numbers a and b inclusive. */
  predicate DateInRange(t: Ymd, a: int, b: int)
  {
    ValidDate(t) && a <= DayOf(t) <= b
  }

  /** The booking occupies day number `day`. */
  predicate Covers(b: Booking, day: int)
  {
    b.checkIn <= day <= b.checkOut
  }

  /** Two bookings share no day. */
  predicate Apart(b1: Booking, b2: Booking)
  {
    b1.checkOut < b2.checkIn || b2.checkOut < b1.checkIn
  }
}
