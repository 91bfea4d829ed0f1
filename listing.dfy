/** The `listing` and `listings` queries, the `hostListing` mutation and the
    `Listing.bookings` field resolver. */
module ListingResolver {
  import opened Wrappers
  import opened Types
  import opened Paging
  import opened Database

  /** The GraphQL `ListingType` values. */
  const Apartment: string := "APARTMENT"
  const House: string := "HOUSE"

  /** The fields of `HostListingInput`. */
  datatype HostListingInput = HostListingInput(
    title: string,
    description: string,
    image: string,
    listingType: string,
    address: string,
    price: int,
    numOfGuests: int)

  /** What geocoding an address or location reported; each part may be missing. */
  datatype Geocode = Geocode(country: Option<string>, state: Option<string>, city: Option<string>)

  datatype ListingsFilter = PriceLowToHigh | PriceHighToLow

  datatype Direction = Asc | Desc

  /** The `where` of the `listings` query: the location parts to match. */
  datatype ListingsQuery = ListingsQuery(city: Option<string>, state: Option<string>, country: Option<string>)

  /** What the `listings` query asks the database for, and the region it reports. */
  datatype ListingsRequest = ListingsRequest(
    region: Option<string>,
    query: ListingsQuery,
    order: Option<Direction>,
    skip: int,
    take: int)

  datatype ListingInputError = TitleTooLong | DescriptionTooLong | UnknownType | NegativePrice

  datatype ListingError =
    | ListingNotFound
    | CountryNotFound
    | InvalidInput(reason: ListingInputError)
    | ViewerNotFound
    | InvalidAddress

  function Message(e: ListingError): string
  {
    match e
    case ListingNotFound => "listing not found"
    case CountryNotFound => "country not found"
    case InvalidInput(TitleTooLong) => "Listing title must < 100 characters."
    case InvalidInput(DescriptionTooLong) => "Listing description must < 5000 characters."
    case InvalidInput(UnknownType) => "Listing type must be either Apartment or House."
    case InvalidInput(NegativePrice) => "Listing price must be greater than 0."
    case ViewerNotFound => "viewer not found"
    case InvalidAddress => "invalid address input"
  }

  /** Distinct errors carry distinct messages. */
  lemma MessagesAreDistinct(e1: ListingError, e2: ListingError)
    ensures Message(e1) == Message(e2) <==> e1 == e2
  {
  }

  /** `verifyHostListingInput`: the first rule the input breaks, if any. */
  function VerifyHostListingInput(input: HostListingInput): (r: Option<ListingInputError>)
    ensures r.None? <==>
      && |input.title| <= 100
      && |input.description| <= 5000
      && (input.listingType == Apartment || input.listingType == House)
      && input.price >= 0
    ensures r == Some(TitleTooLong) <==> |input.title| > 100
    ensures r == Some(DescriptionTooLong) <==> |input.title| <= 100 && |input.description| > 5000
    ensures r == Some(UnknownType) <==>
      |input.title| <= 100 && |input.description| <= 5000 && input.listingType != Apartment && input.listingType != House
    ensures r == Some(NegativePrice) <==>
      && |input.title| <= 100 && |input.description| <= 5000
      && (input.listingType == Apartment || input.listingType == House)
      && input.price < 0
  {
    if |input.title| > 100 then Some(TitleTooLong)
    else if |input.description| > 5000 then Some(DescriptionTooLong)
    else if input.listingType != Apartment && input.listingType != House then Some(UnknownType)
    else if input.price < 0 then Some(NegativePrice)
    else None
  }

  /** The region text "city, state, country", where the city and state parts
      appear only when present. */
  function RegionText(city: Option<string>, state: Option<string>, country: string): (r: string)
    ensures |r| == (if Truthy(city) then |city.value| + 2 else 0) + (if Truthy(state) then |state.value| + 2 else 0) + |country|
    ensures !Truthy(city) && !Truthy(state) ==> r == country
  {
    (if Truthy(city) then city.value + ", " else "")
      + (if Truthy(state) then state.value + ", " else "")
      + country
  }

  /** The region ends with the country, starts with the city when there is
      one, and is just the country when neither city nor state is present. */
  lemma RegionTextShape(city: Option<string>, state: Option<string>, country: string)
    ensures var r := RegionText(city, state, country);
            && |r| >= |country| && r[|r| - |country|..] == country
            && (Truthy(city) ==> |r| >= |city.value| + 2 && r[..|city.value| + 2] == city.value + ", ")
            && (!Truthy(city) && Truthy(state) ==> |r| >= |state.value| + 2 && r[..|state.value| + 2] == state.value + ", ")
            && (!Truthy(city) && !Truthy(state) ==> r == country)
  {
    var r := RegionText(city, state, country);
    var head := (if Truthy(city) then city.value + ", " else "") + (if Truthy(state) then state.value + ", " else "");
    assert r == head + country;
    assert r[|head|..] == country;
    if Truthy(city) {
      assert r == (city.value + ", ") + ((if Truthy(state) then state.value + ", " else "") + country);
    } else if Truthy(state) {
      assert r == (state.value + ", ") + country;
    }
  }

  /** The sort order a filter selects. */
  function OrderFor(filter: Option<ListingsFilter>): (r: Option<Direction>)
    ensures r.None? <==> filter.None?
    ensures r == Some(Asc) <==> filter == Some(PriceLowToHigh)
    ensures r == Some(Desc) <==> filter.Some? && filter.value != PriceLowToHigh
  {
    match filter
    case None => None
    case Some(PriceLowToHigh) => Some(Asc)
    case Some(_) => Some(Desc)
  }

  /** `Query.listings`: builds the location query and region text from the
      geocoded location, then the order and the page to fetch. `geo` is what
      geocoding `location` reported; it is only consulted when a location is given. */
  method Listings(location: Option<string>, geo: Geocode, filter: Option<ListingsFilter>, limit: int, page: int)
    returns (r: Result<ListingsRequest, ListingError>)
    ensures r.Failure? <==> Truthy(location) && !Truthy(geo.country)
    ensures r.Failure? ==> r.error == CountryNotFound
    ensures r.Success? ==> r.value.order == OrderFor(filter) && r.value.skip == Skip(page, limit) && r.value.take == limit
    ensures r.Success? && !Truthy(location) ==> r.value.region.None? && r.value.query == ListingsQuery(None, None, None)
    ensures r.Success? && Truthy(location) ==>
      && r.value.region == Some(RegionText(geo.city, geo.state, geo.country.value))
      && r.value.query.country == geo.country
      && (r.value.query.city.Some? <==> Truthy(geo.city)) && (Truthy(geo.city) ==> r.value.query.city == geo.city)
      && (r.value.query.state.Some? <==> Truthy(geo.state)) && (Truthy(geo.state) ==> r.value.query.state == geo.state)
  {
    var region: Option<string> := None;
    var query := ListingsQuery(None, None, None);
    if Truthy(location) {
      if Truthy(geo.city) {
        query := query.(city := geo.city);
      }
      if Truthy(geo.state) {
        query := query.(state := geo.state);
      }
      if Truthy(geo.country) {
        query := query.(country := geo.country);
      } else {
        return Failure(CountryNotFound);
      }
      var cityText := if Truthy(geo.city) then geo.city.value + ", " else "";
      var stateText := if Truthy(geo.state) then geo.state.value + ", " else "";
      region := Some(cityText + stateText + geo.country.value);
    }
    var order: Option<Direction> := None;
    if filter.Some? {
      if filter.value == PriceLowToHigh {
        order := Some(Asc);
      } else {
        order := Some(Desc);
      }
    }
    r := Success(ListingsRequest(region, query, order, if page > 0 then (page - 1) * limit else 0, limit));
  }

  /** `Query.listing`: the stored listing, marked `authorized` when the viewer
      hosts it. */
  function QueryListing(listings: map<string, Listing>, id: string, viewerId: Option<string>): (r: Result<Listing, ListingError>)
    ensures r.Success? <==> id in listings
    ensures r.Failure? ==> r.error == ListingNotFound
    ensures r.Success? ==> r.value.(authorized := listings[id].authorized) == listings[id]
    ensures r.Success? ==> (r.value.authorized <==> listings[id].authorized || viewerId == Some(listings[id].host))
  {
    if id !in listings then Failure(ListingNotFound)
    else
      var listing := listings[id];
      if viewerId.Some? && viewerId.value == listing.host then Success(listing.(authorized := true))
      else Success(listing)
  }

  /** `Listing.bookings`: null unless the listing is authorized; otherwise the
      page of its booking ids and their count. */
  function ListingBookings(l: Listing, limit: nat, page: int): (r: Option<PagingData<string>>)
    ensures r.Some? <==> l.authorized
    ensures r.Some? ==> r.value.total == |l.bookings| && r.value.result == Page(l.bookings, page, limit)
  {
    GatedPage(l.authorized, l.bookings, page, limit)
  }

  /** In a consistent store, a queried listing's bookings are shown exactly
      when the viewer is its host. */
  lemma BookingsOnlyForHost(listings: map<string, Listing>, bookings: map<string, Booking>,
                            id: string, viewerId: Option<string>, limit: nat, page: int)
    requires ListingsWellFormed(listings, bookings)
    requires id in listings
    ensures ListingBookings(QueryListing(listings, id, viewerId).value, limit, page).Some?
            <==> viewerId == Some(listings[id].host)
  {
  }

  /** The listing `hostListing` creates: the input's fields, the uploaded
      image, the viewer as host, the geocoded address, and no bookings yet. */
  function NewListing(input: HostListingInput, id: string, image: string, host: string,
                      country: string, state: string, city: string): (l: Listing)
    ensures l.id == id && l.host == host && l.image == image
    ensures l.title == input.title && l.description == input.description && l.listingType == input.listingType
    ensures l.price == input.price && l.numOfGuests == input.numOfGuests
    ensures l.country == country && l.state == state && l.city == city
    ensures l.bookings == [] && l.bookingsIndex == map[] && !l.authorized
    ensures city != "" && state != "" ==> l.address == RegionText(Some(city), Some(state), country)
  {
    Listing(id, input.title, input.description, image, host, input.listingType,
            city + ", " + state + ", " + country, country, state, city, [], map[], input.price, input.numOfGuests, false)
  }

  /** A freshly hosted listing has no booked day and is consistent with any
      set of bookings. */
  lemma NewListingIsConsistent(l: Listing, bookings: map<string, Booking>)
    requires l.bookings == [] && l.bookingsIndex == map[]
    ensures forall day :: !MarkedDay(l.bookingsIndex, day)
    ensures ListingConsistent(l, bookings)
  {
  }

  /** Inserting a hosted listing and appending its id to the host's list keeps
      the store consistent. */
  lemma HostingKeepsStoreInvariant(users: map<string, User>, listings: map<string, Listing>,
                                   bookings: map<string, Booking>, l: Listing)
    requires StoreInvariant(users, listings, bookings)
    requires l.host in users && l.id !in listings
    requires l.bookings == [] && l.bookingsIndex == map[] && !l.authorized && l.price >= 0
    ensures StoreInvariant(users[l.host := users[l.host].(listings := users[l.host].listings + [l.id])],
                           listings[l.id := l], bookings)
  {
    var users' := users[l.host := users[l.host].(listings := users[l.host].listings + [l.id])];
    var listings' := listings[l.id := l];
    NewListingIsConsistent(l, bookings);
    forall k, x | k in users' && x in users'[k].listings
      ensures x in listings' && listings'[x].host == k
    {
      if k == l.host && x !in users[k].listings {
        assert x == l.id;
      }
    }
  }

  /** `Mutation.hostListing`. The viewer is the user the request's credentials
      resolved to, `geo` is what geocoding the input address reported,
      `imageUrl` is where the image was uploaded, and `newId` is the freshly
      generated listing id. */
  method HostListing(db: Store, input: HostListingInput, viewerId: Option<string>, geo: Geocode,
                     imageUrl: string, newId: string)
    returns (r: Result<Listing, ListingError>)
    requires db.Valid()
    requires viewerId.Some? ==> viewerId.value in db.users
    requires newId !in db.listings
    modifies db
    ensures db.Valid()
    ensures VerifyHostListingInput(input).Some? ==>
      r == Failure(InvalidInput(VerifyHostListingInput(input).value)) && unchanged(db)
    ensures VerifyHostListingInput(input).None? && viewerId.None? ==>
      r == Failure(ViewerNotFound) && unchanged(db)
    ensures VerifyHostListingInput(input).None? && viewerId.Some? && !(Truthy(geo.country) && Truthy(geo.state) && Truthy(geo.city)) ==>
      r == Failure(InvalidAddress) && unchanged(db)
    ensures VerifyHostListingInput(input).None? && viewerId.Some? && Truthy(geo.country) && Truthy(geo.state) && Truthy(geo.city) ==>
      var viewer := old(db.users[viewerId.value]);
      && r == Success(NewListing(input, newId, imageUrl, viewerId.value, geo.country.value, geo.state.value, geo.city.value))
      && db.listings == old(db.listings)[newId := r.value]
      && db.users == old(db.users)[viewer.id := viewer.(listings := viewer.listings + [newId])]
      && db.bookings == old(db.bookings)
  {
    var invalid := VerifyHostListingInput(input);
    if invalid.Some? {
      return Failure(InvalidInput(invalid.value));
    }
    if viewerId.None? {
      return Failure(ViewerNotFound);
    }
    var viewer := db.users[viewerId.value];
    if !Truthy(geo.country) || !Truthy(geo.state) || !Truthy(geo.city) {
      return Failure(InvalidAddress);
    }
    var listing := NewListing(input, newId, imageUrl, viewer.id, geo.country.value, geo.state.value, geo.city.value);
    HostingKeepsStoreInvariant(db.users, db.listings, db.bookings, listing);
    db.listings := db.listings[listing.id := listing];
    viewer := viewer.(listings := viewer.listings + [listing.id]);
    db.users := db.users[viewer.id := viewer];
    r := Success(listing);
  }
}
