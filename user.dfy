/** The `user` query and the field resolvers of `User`: whether a wallet is
    connected, and the income and bookings that only the user may see. */
module UserResolver {
  import opened Wrappers
  import opened Types
  import opened Paging
  import opened Database

  /** The one reason `user` gives up, with the message "user not found". */
  datatype UserError = UserNotFound

  /** `Query.user`: the stored user, marked `authorized` when the viewer is
      that very user. */
  function QueryUser(users: map<string, User>, id: string, viewerId: Option<string>): (r: Result<User, UserError>)
    ensures r.Success? <==> id in users
    ensures r.Failure? ==> r.error == UserNotFound
    ensures r.Success? ==> r.value.(authorized := users[id].authorized) == users[id]
    ensures r.Success? ==> (r.value.authorized <==> users[id].authorized || viewerId == Some(users[id].id))
  {
    if id !in users then Failure(UserNotFound)
    else
      var user := users[id];
      if viewerId.Some? && viewerId.value == user.id then Success(user.(authorized := true))
      else Success(user)
  }

  /** `User.hasWallet`: `Boolean(user.walletId)`. */
  function HasWallet(u: User): (r: bool)
    ensures r <==> u.walletId.Some? && |u.walletId.value| > 0
  {
    Truthy(u.walletId)
  }

  /** `User.income`: hidden (null) unless the user is authorized. */
  function Income(u: User): (r: Option<int>)
    ensures r.Some? <==> u.authorized
    ensures r.Some? ==> r.value == u.income
  {
    if u.authorized then Some(u.income) else None
  }

  /** `User.listings`: the page of the user's listing ids, and their count. */
  function UserListings(u: User, limit: nat, page: int): (r: PagingData<string>)
    ensures r.total == |u.listings|
    ensures r.result == Page(u.listings, page, limit)
  {
    PagingData(|u.listings|, Page(u.listings, page, limit))
  }

  /** `User.bookings`: like `User.listings` over the booking ids, but null
      unless the user is authorized. */
  function UserBookings(u: User, limit: nat, page: int): (r: Option<PagingData<string>>)
    ensures r.Some? <==> u.authorized
    ensures r.Some? ==> r.value.total == |u.bookings| && r.value.result == Page(u.bookings, page, limit)
  {
    GatedPage(u.authorized, u.bookings, page, limit)
  }

  /** In a consistent store, a queried user's income and bookings are shown
      exactly when the viewer is that user. */
  lemma PrivateFieldsOnlyForSelf(users: map<string, User>, id: string, viewerId: Option<string>, limit: nat, page: int)
    requires UsersWellFormed(users)
    requires id in users
    ensures var u := QueryUser(users, id, viewerId).value;
            && (Income(u).Some? <==> viewerId == Some(id))
            && (UserBookings(u, limit, page).Some? <==> viewerId == Some(id))
  {
  }
}
