# TinyHouse reservation core in Dafny

This project models the GraphQL resolvers of the TinyHouse server that book,
list and show rentals, and proves properties about them.

- **Bookings** (`createBooking` and `resolveBookingsIndex`): a tenant asks for a
  listing from a check-in to a check-out date. The request is refused when:
  - no viewer is logged in;
  - the listing does not exist;
  - the viewer hosts the listing;
  - check-out comes before check-in;
  - a day is already booked;
  - the host has no connected wallet.

  Otherwise the stay's price is charged. Then the booking is stored, the host's
  income grows by the charge, the tenant's booking list gains the new id, and
  the listing gets the merged calendar and the id.
- **Listings** (`listing`, `listings`, `hostListing`, `Listing.bookings`): input
  validation, the region text and the location query, the sort order, paging,
  and the host-only view of a listing's bookings.
- **Users** (`user`, `hasWallet`, `income`, `User.listings`, `User.bookings`):
  the self-only view of income and bookings, and paging with totals.

A listing's calendar (`bookingsIndex`) is a year → month → day → `true` map. It
is keyed by the values that JavaScript's `getUTCFullYear`, `getUTCMonth` and
`getUTCDate` return. Module `UtcCalendar` defines those values for whole days
counted from 1970-01-01, using the formulas of ECMA-262 section 21.4.1. It
proves that day numbers and valid dates correspond one to one.

Check-in and check-out are day numbers throughout the model. The database is a
`Store` class with three maps: users, listings and bookings. Its `Valid()`
invariant says:

- ids match their keys;
- the id lists on users and listings resolve to records that point back;
- a listing's calendar marks exactly the days its bookings cover;
- no two bookings of a listing share a day.

`CreateBooking` and `HostListing` preserve this invariant.

Modules:
- `Wrappers`: `Option`, `Result`, and JavaScript truthiness of a string.
- `UtcCalendar`: the calendar.
- `Types`: the records.
- `Database`: the store and its invariant.
- `Paging`: the skip/limit paging.
- `BookingResolver`, `ListingResolver`, `UserResolver`: one module per resolver file.

Inputs that come from outside are parameters:
- the logged-in viewer's id;
- what geocoding reported;
- the uploaded image URL;
- the payment processor's verdict;
- freshly generated ids.

## Model

| member | source | states |
|---|---|---|
| UtcCalendar.YearLength | src/graphql/resolvers/Booking/index.ts:23 | consecutive years start 365 or 366 days apart, by the Gregorian leap rule |
| UtcCalendar.DayFromYearMonotone | src/graphql/resolvers/Booking/index.ts:23 | later years start on later days |
| UtcCalendar.YearFromDay | src/graphql/resolvers/Booking/index.ts:23 | the UTC year of a day is the one whose first day is at or before it and whose successor's first day is after it |
| UtcCalendar.MonthFromDayWithinYear | src/graphql/resolvers/Booking/index.ts:24 | the UTC month (0 to 11) of a day within the year is the month whose start is at or before it and whose successor's start is after it |
| UtcCalendar.UtcDate | src/graphql/resolvers/Booking/index.ts:23-25 | the (year, month, date) triple read from a day is a valid date whose day number is that day |
| UtcCalendar.UtcDateInjective | src/graphql/resolvers/Booking/index.ts:41 | stepping the cursor by one day always reaches a different calendar date: two days share a date iff they are equal |
| UtcCalendar.UtcDateOfDay | src/graphql/resolvers/Booking/index.ts:23-25 | every valid date is the date of exactly its own day number, so calendar keys and days correspond one to one |
| UtcCalendar.DayOfInjective | src/graphql/resolvers/Booking/index.ts:23-25 | two valid dates with the same day number are the same date |
| UtcCalendar.EpochIsNewYear1970 | src/graphql/resolvers/Booking/index.ts:18 | day 0 reads as 1970, month 0, date 1 |
| UtcCalendar.DayBeforeEpoch | src/graphql/resolvers/Booking/index.ts:18 | day -1 reads as 1969, month 11, date 31 |
| BookingResolver.ResolveBookingsIndex | src/graphql/resolvers/Booking/index.ts:13-45 | fails with the overlap error iff some day from check-in to check-out is already marked; on success the new calendar marks exactly the old marks plus every date in the range, and nothing else; with check-out before check-in the loop does not run and the marks stay as they were |
| BookingResolver.RangeGrowsByOne | src/graphql/resolvers/Booking/index.ts:41 | advancing the cursor by one day adds exactly that day's date to the covered dates |
| BookingResolver.MergedDate | src/graphql/resolvers/Booking/index.ts:22-42 | after a merge, a valid date is marked iff it was marked before or its day lies in the stay |
| BookingResolver.MergedRangeBlocksRebooking | src/graphql/resolvers/Booking/index.ts:35-39 | once a stay is merged, any later stay sharing a day with it is reported as overlapping |
| BookingResolver.TotalPrice | src/graphql/resolvers/Booking/index.ts:86-87 | a same-day stay costs one night's price; with a non-negative price a stay never costs less than one night |
| BookingResolver.TotalPriceSplits | src/graphql/resolvers/Booking/index.ts:86-87 | splitting a stay into two back-to-back stays leaves the total price unchanged |
| BookingResolver.ReservedDatesCount | src/graphql/resolvers/Booking/index.ts:22-41 | a stay from a to b marks exactly b - a + 1 distinct calendar dates |
| BookingResolver.TotalPriceIsPerReservedDate | src/graphql/resolvers/Booking/index.ts:86-87 | the charge is the nightly price once for each distinct date the stay marks |
| BookingResolver.Rejection | src/graphql/resolvers/Booking/index.ts:58-94 | no guard refuses the request iff there is a viewer, the listing exists, the viewer is not its host, check-in is not after check-out, no day of the stay is booked, and the host exists with a wallet; a guard never reports a failed payment, and it reports the overlap error only when a day of the stay really is booked |
| BookingResolver.MessagesAreDistinct | src/graphql/resolvers/Booking/index.ts:60-94 | each way the booking can fail has its own message: two errors share a message iff they are the same error |
| BookingResolver.BookedListingStaysConsistent | src/graphql/resolvers/Booking/index.ts:115-117 | recording a booking whose days were free keeps the listing's calendar equal to the union of its bookings, and keeps its bookings pairwise apart |
| BookingResolver.CommitKeepsStoreInvariant | src/graphql/resolvers/Booking/index.ts:107-117 | the four writes of a successful booking keep the store invariant |
| BookingResolver.CreateBooking | src/graphql/resolvers/Booking/index.ts:49-122 | the first failing guard, in source order, is the error, and then nothing is charged or changed; otherwise the host's wallet is charged the total price from the payment source; an unpaid charge changes nothing; a paid one stores the booking, credits the host, appends the id to the tenant and the listing, and merges the stay into the calendar; the store invariant holds throughout |
| BookingResolver.RecordBooking | src/graphql/resolvers/Booking/index.ts:107-117 | the four saves in order, leaving the store valid |
| BookingResolver.JuneStayExample | src/graphql/resolvers/Booking/index.ts:83-87 | a stay at 50 a night from 2024-06-10 to 2024-06-12 in an empty calendar costs 150 and marks June 10, 11 and 12, but neither June 9 nor June 13 |
| Database.FreshBookingKeepsListing | src/graphql/resolvers/Booking/index.ts:107 | inserting a booking under a fresh id leaves every other listing consistent |
| ListingResolver.VerifyHostListingInput | src/graphql/resolvers/Listing/index.ts:29-45 | the input passes iff the title has at most 100 characters, the description at most 5000, the type is APARTMENT or HOUSE, and the price is not negative; the rules are checked in that order, so an input gets the error of the first rule it breaks: the type error only when title and description pass, the price error only when the type is valid too |
| ListingResolver.RegionText | src/graphql/resolvers/Listing/index.ts:94-96 | the region is as long as the city part and the state part, each with its ", " and present only when that part is, plus the country; without city and state it is just the country |
| ListingResolver.RegionTextShape | src/graphql/resolvers/Listing/index.ts:94-96 | the region ends with the country; it starts with "city, " when a city is present, else with "state, " when a state is present; it is just the country when neither is present |
| ListingResolver.MessagesAreDistinct | src/graphql/resolvers/Listing/index.ts:29-143 | each way a listing request can fail has its own message: two errors share a message iff they are the same error |
| ListingResolver.OrderFor | src/graphql/resolvers/Listing/index.ts:99-107 | no filter means no order; low-to-high means ascending price; any other filter means descending price |
| ListingResolver.Listings | src/graphql/resolvers/Listing/index.ts:70-124 | fails with "country not found" iff a location is given and geocoding found no country; otherwise it reports the region text and the query built from the present location parts (none without a location), the order for the filter, skip = Skip(page, limit) and take = limit |
| ListingResolver.QueryListing | src/graphql/resolvers/Listing/index.ts:49-69 | a missing listing is an error; otherwise the stored listing comes back unchanged except that it is authorized iff it already was or the viewer is its host |
| ListingResolver.ListingBookings | src/graphql/resolvers/Listing/index.ts:179-206 | null iff the listing is not authorized; otherwise the total is the number of booking ids and the result is the requested page of them |
| ListingResolver.BookingsOnlyForHost | src/graphql/resolvers/Listing/index.ts:185-187 | in a valid store, a queried listing shows its bookings exactly when the viewer is its host |
| ListingResolver.NewListing | src/graphql/resolvers/Listing/index.ts:147-158 | the new listing has the input's fields, the uploaded image, the viewer as host, the geocoded country, state and city, the address "city, state, country", no bookings and an empty calendar |
| ListingResolver.NewListingIsConsistent | src/graphql/resolvers/Listing/index.ts:156-157 | a listing with no bookings and an empty calendar marks no day and is consistent |
| ListingResolver.HostingKeepsStoreInvariant | src/graphql/resolvers/Listing/index.ts:160-163 | inserting the new listing and appending its id to the host's list keeps the store invariant |
| ListingResolver.HostListing | src/graphql/resolvers/Listing/index.ts:127-169 | an invalid input, a missing viewer or an incomplete geocoded address is an error, in that order, and changes nothing; otherwise the new listing is stored under the fresh id, its id is appended to the viewer's listings, and the bookings are untouched; the store invariant holds throughout |
| Paging.Skip | src/graphql/resolvers/Listing/index.ts:113 | pages 1 and below start at offset 0, and a non-negative limit never gives a negative offset |
| Paging.NextPageFollows | src/graphql/resolvers/Listing/index.ts:113 | page p + 1 starts exactly limit records after page p |
| Paging.Page | src/graphql/resolvers/Listing/index.ts:194-197 | a page holds at most limit records |
| Paging.FirstPagesArePrefix | src/graphql/resolvers/User/index.ts:51-54 | reading pages 1 to n in turn yields the list's first n * limit ids in order, with none skipped and none repeated |
| Paging.PagesCoverList | src/graphql/resolvers/User/index.ts:51-54 | with a positive limit, enough pages read in turn return the whole list |
| UserResolver.QueryUser | src/graphql/resolvers/User/index.ts:11-31 | a missing user is an error; otherwise the stored user comes back unchanged except that it is authorized iff it already was or the viewer is that user |
| UserResolver.HasWallet | src/graphql/resolvers/User/index.ts:34-36 | true iff the wallet id is present and not empty |
| UserResolver.Income | src/graphql/resolvers/User/index.ts:37-39 | the income is shown iff the user is authorized, and is then the stored income |
| UserResolver.UserListings | src/graphql/resolvers/User/index.ts:40-63 | the total is the number of listing ids and the result is the requested page of them |
| UserResolver.UserBookings | src/graphql/resolvers/User/index.ts:64-91 | null iff the user is not authorized; otherwise the total is the number of booking ids and the result is the requested page of them |
| UserResolver.PrivateFieldsOnlyForSelf | src/graphql/resolvers/User/index.ts:22-25 | in a valid store, a queried user's income and bookings are shown exactly when the viewer is that user |

## Left out

- Authentication (`authorize`) is left out. The viewer is the id of a stored user, or none.
- Geocoding, the image upload and the payment call go over the network. Each is a parameter.
- Payment: the charge is returned as the request sent, and `paid` says whether it went through. The application fee and its rounding belong to the payment wrapper, which is outside this model.
- Id generation from random bytes is left out. A fresh id is a parameter that no existing record uses.
- Database queries are left out: `count`, `find` with its order, and `findByIds`.
- Listings: the method returns the region and the database request (where, order, skip, take). It does not return the matching listings or their count, because the database evaluates that query.
- ListingBookings, UserListings, UserBookings, Paging.FirstPagesArePrefix, Paging.PagesCoverList: pages are modelled as slices of the id list in list order. The source hands skip and take to `findByIds` itself, with no order option, so the database's row order decides which records land on which page. The "none skipped, none repeated" property holds for the list-order paging of this model, not necessarily for the database's.
- ListingBookings, UserListings, UserBookings, Paging.Page: the limit is a natural number. The schema accepts any integer and the source passes it on unchanged, so negative limits are not modelled; from page 2 on they would give a negative skip. How the database treats `take: 0` is not modelled either: the model returns an empty page.
- The field resolvers that only fetch records are left out: `Listing.host`, `Booking.listing` and `Booking.tenant`. So is `Listing.bookingsIndex`, which serialises the calendar to JSON.
- Check-in and check-out are day numbers. Parsing the date strings with `new Date` is not modelled. Neither are times of day other than UTC midnight, which would make the price fractional.
- TotalPrice: uses exact integers. The source multiplies JavaScript doubles, which agree with the integer product only while it stays below 2^53; larger totals are rounded there and not here.
- ResolveBookingsIndex: works on map values. The source's shallow copy shares the inner month and day objects with the listing, so a failed merge can leave marks in the in-memory listing. That listing is never saved, so the stored state is unaffected.
- Concurrency is not modelled. The four saves of a booking run in sequence with no lock, and two requests racing on one listing are outside this sequential model. So is a failure between the charge and the saves.
- Error messages: the outer "Failed to ...: " prefix of each rethrown error is not modelled. The overlap error is the source's fixed message and does not name the conflicting day.
- String lengths: titles and descriptions are sequences of characters. The source's `length` counts UTF-16 code units.
- Price validation: `verifyHostListingInput` refuses only negative prices, so a price of 0 is accepted. The model does the same, even though the message says "greater than 0".
