/** The request handlers of the application, as methods on the database they
    share. Each handler returns its `Status` and, when it changes anything,
    changes only the table named in its `modifies` clause; every refusal
    (any status but `Ok`) leaves the tables as they were. */
module App {
  import opened Wrappers
  import opened Tables
  import opened Models
  import opened Ratings
  import opened Auth
  import opened Queries
  import opened Requests

  /** The outcome of editing location `locId` as user `me`: 404 when it does not
      exist, 403 unless `me` owns it or is staff, 500 when the category cannot be
      converted, and otherwise the merged record replaces it. */
  ghost predicate EditOutcome(me: Row<User>, locId: int, fields: LocationFields,
                              before: Table<Location>, after: Table<Location>, status: Status)
  {
    match Get(before, locId)
    case None => status == NotFound
    case Some(loc) =>
      if !CanEditLocation(me.val.role, loc.ownerId == Some(me.id)) then status == Forbidden
      else match MergeEdit(loc, fields)
        case None => status == ServerError
        case Some(edited) => status == Ok && after == Replace(before, locId, edited)
  }

  class Store {
    var users: Table<User>
    var categories: Table<Category>
    var locations: Table<Location>
    var reviews: Table<Review>
    var favorites: Table<Favorite>

    /** Primary keys are unique (rows ascend by id), usernames are unique, category
        names are non-empty and unique, and no favorite is recorded twice. */
    ghost predicate Valid()
      reads this
    {
      UsersValid() && CategoriesValid() && LocationsValid() && ReviewsValid() && FavoritesValid()
    }

    ghost predicate UsersValid()
      reads this`users
    {
      Ascending(users) && UniqueUsernames(users)
    }

    ghost predicate CategoriesValid()
      reads this`categories
    {
      Ascending(categories) && ValidCategoryNames(categories)
    }

    ghost predicate LocationsValid()
      reads this`locations
    {
      Ascending(locations)
    }

    ghost predicate ReviewsValid()
      reads this`reviews
    {
      Ascending(reviews)
    }

    ghost predicate FavoritesValid()
      reads this`favorites
    {
      Ascending(favorites) && UniqueFavorites(favorites)
    }

    /** A fresh database after the start-up seeding: the administrator `admin1`
        and the business owner `owner1`. */
    constructor Seeded(adminPassword: string, ownerPassword: string)
      ensures Valid()
      ensures users == [Row(1, User(ProtectedUsername, adminPassword, Admin)), Row(2, User("owner1", ownerPassword, Owner))]
      ensures categories == [] && locations == [] && reviews == [] && favorites == []
    {
      users := [Row(1, NewUser(ProtectedUsername, adminPassword, Some(Admin))),
                Row(2, NewUser("owner1", ownerPassword, Some(Owner)))];
      categories := [];
      locations := [];
      reviews := [];
      favorites := [];
    }

    /** The logged-in user: the session's user id resolved against the users
        table; no session, or a session whose user was deleted, is anonymous. */
    function CurrentUser(caller: Option<int>): (me: Option<Row<User>>)
      reads this`users
      ensures me.Some? ==> caller == Some(me.value.id) && me.value in users
      ensures me.None? ==> caller.None? || !HasId(users, caller.value)
    {
      if caller.None? then None
      else match Find(users, caller.value)
        case None => None
        case Some(i) => Some(users[i])
    }

    // -------------------------------------------------------------------
    // Locations: listing and detail

    /** `GET /api/locations`: one summary per shown location, in table order. */
    method ApiLocations(category: Option<string>) returns (data: seq<LocationSummary>)
      ensures var shown := ShownLocations(locations, categories, category);
        && |data| == |shown|
        && forall k :: 0 <= k < |data| ==> data[k] == Summarize(shown[k], categories, reviews)
    {
      var shown := ShownLocations(locations, categories, category);
      data := [];
      for i := 0 to |shown|
        invariant |data| == i
        invariant forall k :: 0 <= k < i ==> data[k] == Summarize(shown[k], categories, reviews)
      {
        var row := shown[i];
        var mine := ReviewsOf(reviews, row.id);
        var avg := AverageRating(mine);
        var loc := row.val;
        data := data + [LocationSummary(row.id, loc.name, loc.lat, loc.lng, CategoryName(loc, categories),
          loc.description, loc.address, loc.photo, loc.openingHours, loc.contacts, avg, |mine|)];
      }
    }

    /** `GET /location/<id>`: the location's reviews, and whether the logged-in
        caller has favorited it (false when anonymous). */
    method LocationDetail(caller: Option<int>, locId: int) returns (status: Status, page: Table<Review>, isFav: bool)
      ensures status == Ok || status == NotFound
      ensures status == NotFound <==> !HasId(locations, locId)
      ensures status == Ok ==> page == ReviewsOf(reviews, locId)
      ensures isFav <==> status == Ok && CurrentUser(caller).Some? && IsFavorite(favorites, CurrentUser(caller).value.id, locId)
    {
      if Find(locations, locId).None? {
        return NotFound, [], false;
      }
      page := ReviewsOf(reviews, locId);
      var me := CurrentUser(caller);
      isFav := false;
      if me.Some? {
        isFav := FindFavorite(favorites, me.value.id, locId).Some?;
      }
      status := Ok;
    }

    // -------------------------------------------------------------------
    // Reviews

    /** `POST /review/add/<loc_id>`: any logged-in user may add any number of
        reviews to any location id with any rating that fits the INTEGER column;
        nothing checks that the location exists or that the rating is in range. */
    method AddReview(caller: Option<int>, locId: int, rating: IntField, comment: Option<string>) returns (status: Status)
      requires Valid()
      modifies this`reviews
      ensures Valid()
      ensures status != Ok ==> reviews == old(reviews)
      ensures match CurrentUser(caller)
        case None => status == LoginRedirect
        case Some(me) =>
          if !(rating.Number? && FitsInteger(rating.n)) then status == ServerError
          else status == Ok && reviews == Insert(old(reviews), NewReview(me.id, locId, Some(rating.n), comment))
    {
      var me := CurrentUser(caller);
      if me.None? {
        return LoginRedirect;
      }
      if !(rating.Number? && FitsInteger(rating.n)) {
        return ServerError;
      }
      var review := NewReview(me.value.id, locId, Some(rating.n), comment);
      InsertAscending(reviews, review);
      reviews := Insert(reviews, review);
      status := Ok;
    }

    /** `GET /location/<loc_id>/reviews`: the location's reviews by rating,
        ascending when `sort` is "asc" and descending otherwise (the default), with
        their mean rating, which does not depend on the order. */
    method ReviewsPage(locId: int, sort: Option<string>) returns (status: Status, page: Table<Review>, avg: real)
      ensures status == Ok || status == NotFound
      ensures status == NotFound <==> !HasId(locations, locId)
      ensures status == NotFound ==> page == [] && avg == 0.0
      ensures status == Ok ==>
        && multiset(page) == multiset(ReviewsOf(reviews, locId))
        && SortedByRating(page, sort == Some("asc"))
        && avg == AverageRating(ReviewsOf(reviews, locId))
    {
      if Find(locations, locId).None? {
        return NotFound, [], 0.0;
      }
      var ascending := sort.GetOr("desc") == "asc";
      var mine := ReviewsOf(reviews, locId);
      page := SortByRating(mine, ascending);
      SortByRatingSorted(mine, ascending);
      avg := AverageRating(page);
      AverageRatingPermutation(page, mine);
      status := Ok;
    }

    /** `POST /review/delete/<review_id>`: only the review's author or an
        administrator may delete it; anyone else gets a notice and the review stays. */
    method DeleteReview(caller: Option<int>, reviewId: int) returns (status: Status)
      requires Valid()
      modifies this`reviews
      ensures Valid()
      ensures status != Ok ==> reviews == old(reviews)
      ensures match CurrentUser(caller)
        case None => status == LoginRedirect
        case Some(me) =>
          match old(Get(reviews, reviewId))
          case None => status == NotFound
          case Some(rv) =>
            if !CanDeleteReview(me.val.role, rv.userId == Some(me.id)) then status == Forbidden
            else status == Ok && reviews == WithoutId(old(reviews), reviewId) && |reviews| == |old(reviews)| - 1
    {
      var me := CurrentUser(caller);
      if me.None? {
        return LoginRedirect;
      }
      var found := Find(reviews, reviewId);
      if found.None? {
        return NotFound;
      }
      var i := found.value;
      if !CanDeleteReview(me.value.val.role, reviews[i].val.userId == Some(me.value.id)) {
        return Forbidden;
      }
      RemoveAt(reviews, i);
      reviews := reviews[..i] + reviews[i + 1..];
      status := Ok;
    }

    // -------------------------------------------------------------------
    // Favorites

    /** `POST /favorite/<loc_id>`: 400 when the caller already favorited the
        location, otherwise exactly one new favorite row. */
    method AddFavorite(caller: Option<int>, locId: int) returns (status: Status)
      requires Valid()
      modifies this`favorites
      ensures Valid()
      ensures status != Ok ==> favorites == old(favorites)
      ensures match CurrentUser(caller)
        case None => status == Unauthorized
        case Some(me) =>
          if old(IsFavorite(favorites, me.id, locId)) then status == BadRequest
          else status == Ok && favorites == Insert(old(favorites), Favorite(me.id, locId))
    {
      var me := CurrentUser(caller);
      if me.None? {
        return Unauthorized;
      }
      if FindFavorite(favorites, me.value.id, locId).Some? {
        return BadRequest;
      }
      InsertAscending(favorites, Favorite(me.value.id, locId));
      AddNewFavorite(favorites, me.value.id, locId);
      favorites := Insert(favorites, Favorite(me.value.id, locId));
      status := Ok;
    }

    /** `DELETE /favorite/<loc_id>`: 404 when the caller has not favorited the
        location, otherwise exactly the one matching row is deleted. */
    method RemoveFavorite(caller: Option<int>, locId: int) returns (status: Status)
      requires Valid()
      modifies this`favorites
      ensures Valid()
      ensures status != Ok ==> favorites == old(favorites)
      ensures match CurrentUser(caller)
        case None => status == Unauthorized
        case Some(me) =>
          if !old(IsFavorite(favorites, me.id, locId)) then status == NotFound
          else
            && status == Ok
            && |favorites| == |old(favorites)| - 1
            && !IsFavorite(favorites, me.id, locId)
            && exists row :: row in old(favorites) && row.val == Favorite(me.id, locId)
                 && favorites == WithoutId(old(favorites), row.id)
    {
      var me := CurrentUser(caller);
      if me.None? {
        return Unauthorized;
      }
      var found := FindFavorite(favorites, me.value.id, locId);
      if found.None? {
        return NotFound;
      }
      var i := found.value;
      ghost var row := favorites[i];
      RemoveAt(favorites, i);
      favorites := favorites[..i] + favorites[i + 1..];
      assert row in old(favorites);
      status := Ok;
    }

    /** `GET /api/favorites`: the caller's favorited locations, in favorite order,
        skipping favorites whose location was deleted. */
    method ApiFavorites(caller: Option<int>) returns (status: Status, items: seq<FavoriteItem>)
      ensures CurrentUser(caller).None? ==> status == Unauthorized && items == []
      ensures CurrentUser(caller).Some? ==> var me := CurrentUser(caller).value;
        && status == Ok
        && items == FavoriteItems(FavoritesOf(favorites, me.id), locations)
        && (forall k :: 0 <= k < |items| ==>
              IsFavorite(favorites, me.id, items[k].id)
              && Get(locations, items[k].id).Some?
              && items[k] == ItemOf(items[k].id, Get(locations, items[k].id).value))
        && (forall f :: f in favorites && f.val.userId == me.id && HasId(locations, f.val.locationId) ==>
              ItemFor(items, f.val.locationId))
    {
      var me := CurrentUser(caller);
      if me.None? {
        return Unauthorized, [];
      }
      var favs := FavoritesOf(favorites, me.value.id);
      items := [];
      for i := 0 to |favs|
        invariant items == FavoriteItems(favs[..i], locations)
      {
        var f := favs[i];
        assert favs[..i + 1][..i] == favs[..i];
        match Get(locations, f.val.locationId) {
          case None =>
          case Some(loc) =>
            items := items + [ItemOf(f.val.locationId, loc)];
        }
      }
      assert favs[..|favs|] == favs;
      forall k | 0 <= k < |items| ensures IsFavorite(favorites, me.value.id, items[k].id) {
        var f :| f in favs && f.val.locationId == items[k].id;
        assert f in favorites && f.val == Favorite(me.value.id, items[k].id);
      }
      status := Ok;
    }

    // -------------------------------------------------------------------
    // Administration: users and categories

    /** `POST /admin/add_user`: administrators only; username, password and role
        must all be present, and the username must be new. */
    method AddUser(caller: Option<int>, username: Option<string>, password: Option<string>, role: Option<string>)
      returns (status: Status)
      requires Valid()
      modifies this`users
      ensures Valid()
      ensures status != Ok ==> users == old(users)
      ensures ProtectedKept(old(users), users)
      ensures match old(CurrentUser(caller))
        case None => status == LoginRedirect
        case Some(me) =>
          if !CanManageUsers(me.val.role) then status == Forbidden
          else if username.None? || password.None? || role.None? then status == BadRequest
          else if old(UsernameTaken(users, username.value)) then status == BadRequest
          else status == Ok && users == Insert(old(users), NewUser(username.value, password.value, role))
    {
      var me := CurrentUser(caller);
      if me.None? {
        return LoginRedirect;
      }
      if !CanManageUsers(me.value.val.role) {
        return Forbidden;
      }
      if username.None? || password.None? || role.None? {
        return BadRequest;
      }
      if UsernameTaken(users, username.value) {
        return BadRequest;
      }
      var user := NewUser(username.value, password.value, role);
      InsertAscending(users, user);
      AddUnusedUsername(users, user);
      users := Insert(users, user);
      status := Ok;
    }

    /** `POST /admin/delete_user/<user_id>`: administrators only, checked before the
        lookup; the account `admin1` is never deleted; otherwise exactly that user is. */
    method DeleteUser(caller: Option<int>, userId: int) returns (status: Status)
      requires Valid()
      modifies this`users
      ensures Valid()
      ensures status != Ok ==> users == old(users)
      ensures ProtectedKept(old(users), users)
      ensures match old(CurrentUser(caller))
        case None => status == LoginRedirect
        case Some(me) =>
          if !CanManageUsers(me.val.role) then status == Forbidden
          else match old(Get(users, userId))
            case None => status == NotFound
            case Some(u) =>
              if u.username == ProtectedUsername then status == BadRequest
              else status == Ok && users == WithoutId(old(users), userId) && |users| == |old(users)| - 1
    {
      var me := CurrentUser(caller);
      if me.None? {
        return LoginRedirect;
      }
      if !CanManageUsers(me.value.val.role) {
        return Forbidden;
      }
      var found := Find(users, userId);
      if found.None? {
        return NotFound;
      }
      var i := found.value;
      if users[i].val.username == ProtectedUsername {
        return BadRequest;
      }
      RemoveAt(users, i);
      forall a | a in users && a.val.username == ProtectedUsername
        ensures a in users[..i] + users[i + 1..]
      {
        AscendingGet(users, a);
        assert a.id != userId;
      }
      users := users[..i] + users[i + 1..];
      status := Ok;
    }

    /** `POST /admin/edit_user/<user_id>`: administrators only; sets the user's
        role to the submitted string, whatever it is, and changes nothing else. */
    method EditUser(caller: Option<int>, userId: int, role: Option<string>) returns (status: Status)
      requires Valid()
      modifies this`users
      ensures Valid()
      ensures status != Ok ==> users == old(users)
      ensures ProtectedKept(old(users), users)
      ensures match old(CurrentUser(caller))
        case None => status == LoginRedirect
        case Some(me) =>
          if !CanManageUsers(me.val.role) then status == Forbidden
          else match old(Get(users, userId))
            case None => status == NotFound
            case Some(u) =>
              if role.None? then status == BadRequest
              else status == Ok && users == Replace(old(users), userId, u.(role := role.value))
    {
      var me := CurrentUser(caller);
      if me.None? {
        return LoginRedirect;
      }
      if !CanManageUsers(me.value.val.role) {
        return Forbidden;
      }
      var found := Find(users, userId);
      if found.None? {
        return NotFound;
      }
      if role.None? {
        return BadRequest;
      }
      var i := found.value;
      var edited := users[i].val.(role := role.value);
      UpdateAt(users, i, edited);
      RoleChange(users, i, role.value);
      users := users[i := Row(userId, edited)];
      status := Ok;
    }

    /** `POST /admin/add_category`: administrators and moderators only; the name
        must be present and non-empty and must not match an existing name exactly. */
    method AddCategory(caller: Option<int>, name: Option<string>) returns (status: Status)
      requires Valid()
      modifies this`categories
      ensures Valid()
      ensures status != Ok ==> categories == old(categories)
      ensures match CurrentUser(caller)
        case None => status == LoginRedirect
        case Some(me) =>
          if !CanManageCategories(me.val.role) then status == Forbidden
          else if name.None? || name.value == "" then status == BadRequest
          else if old(CategoryNameTaken(categories, name.value)) then status == BadRequest
          else status == Ok && categories == Insert(old(categories), Category(name.value))
    {
      var me := CurrentUser(caller);
      if me.None? {
        return LoginRedirect;
      }
      if !CanManageCategories(me.value.val.role) {
        return Forbidden;
      }
      if name.None? || name.value == "" {
        return BadRequest;
      }
      if CategoryNameTaken(categories, name.value) {
        return BadRequest;
      }
      InsertAscending(categories, Category(name.value));
      AddUnusedCategory(categories, name.value);
      categories := Insert(categories, Category(name.value));
      status := Ok;
    }

    // -------------------------------------------------------------------
    // Locations: creation, edits, deletion

    /** `POST /api/add_location`: administrators and moderators only; the new
        location has no owner. Returns the new id. */
    method AddLocationApi(caller: Option<int>, fields: LocationFields) returns (status: Status, newId: int)
      requires Valid()
      modifies this`locations
      ensures Valid()
      ensures status != Ok ==> locations == old(locations)
      ensures match CurrentUser(caller)
        case None => status == LoginRedirect
        case Some(me) =>
          if !IsStaff(me.val.role) then status == Forbidden
          else match StaffLocation(fields)
            case None => status == ServerError
            case Some(loc) => status == Ok && newId == NextId(old(locations)) && locations == Insert(old(locations), loc)
    {
      newId := 0;
      var me := CurrentUser(caller);
      if me.None? {
        return LoginRedirect, newId;
      }
      if !IsStaff(me.value.val.role) {
        return Forbidden, newId;
      }
      var loc := StaffLocation(fields);
      if loc.None? {
        return ServerError, newId;
      }
      newId := NextId(locations);
      InsertAscending(locations, loc.value);
      locations := Insert(locations, loc.value);
      status := Ok;
    }

    /** `POST /api/my_location/add`: any logged-in user; the new location is
        owned by the caller. Returns the new id. */
    method AddMyLocation(caller: Option<int>, fields: LocationFields) returns (status: Status, newId: int)
      requires Valid()
      modifies this`locations
      ensures Valid()
      ensures status != Ok ==> locations == old(locations)
      ensures match CurrentUser(caller)
        case None => status == Unauthorized
        case Some(me) =>
          match OwnLocation(fields, me.id)
          case None => status == ServerError
          case Some(loc) => status == Ok && newId == NextId(old(locations)) && locations == Insert(old(locations), loc)
    {
      newId := 0;
      var me := CurrentUser(caller);
      if me.None? {
        return Unauthorized, newId;
      }
      var loc := OwnLocation(fields, me.value.id);
      if loc.None? {
        return ServerError, newId;
      }
      newId := NextId(locations);
      InsertAscending(locations, loc.value);
      locations := Insert(locations, loc.value);
      status := Ok;
    }

    /** The body shared by the two location edit handlers, once the caller is known. */
    method EditAs(me: Row<User>, locId: int, fields: LocationFields) returns (status: Status)
      requires Valid()
      modifies this`locations
      ensures Valid()
      ensures status != Ok ==> locations == old(locations)
      ensures EditOutcome(me, locId, fields, old(locations), locations, status)
    {
      var found := Find(locations, locId);
      if found.None? {
        return NotFound;
      }
      var i := found.value;
      var loc := locations[i].val;
      if !CanEditLocation(me.val.role, loc.ownerId == Some(me.id)) {
        return Forbidden;
      }
      var edited := MergeEdit(loc, fields);
      if edited.None? {
        return ServerError;
      }
      UpdateAt(locations, i, edited.value);
      ReplaceGet(locations, locId, edited.value, locId);
      locations := locations[i := Row(locId, edited.value)];
      status := Ok;
    }

    /** `PUT /api/my_location/edit/<loc_id>`. */
    method EditMyLocation(caller: Option<int>, locId: int, fields: LocationFields) returns (status: Status)
      requires Valid()
      modifies this`locations
      ensures Valid()
      ensures status != Ok ==> locations == old(locations)
      ensures match CurrentUser(caller)
        case None => status == Unauthorized
        case Some(me) => EditOutcome(me, locId, fields, old(locations), locations, status)
    {
      var me := CurrentUser(caller);
      if me.None? {
        return Unauthorized;
      }
      status := EditAs(me.value, locId, fields);
    }

    /** `POST /edit_location/<loc_id>`: the same edit from the HTML form; a refusal
        is a notice and a redirect. */
    method EditLocationPage(caller: Option<int>, locId: int, fields: LocationFields) returns (status: Status)
      requires Valid()
      modifies this`locations
      ensures Valid()
      ensures status != Ok ==> locations == old(locations)
      ensures match CurrentUser(caller)
        case None => status == LoginRedirect
        case Some(me) => EditOutcome(me, locId, fields, old(locations), locations, status)
    {
      var me := CurrentUser(caller);
      if me.None? {
        return LoginRedirect;
      }
      status := EditAs(me.value, locId, fields);
    }

    /** `DELETE /api/my_location/delete/<loc_id>`: its owner or staff only. The
        location's reviews and favorites are left in place. */
    method DeleteMyLocation(caller: Option<int>, locId: int) returns (status: Status)
      requires Valid()
      modifies this`locations
      ensures Valid()
      ensures status != Ok ==> locations == old(locations)
      ensures match CurrentUser(caller)
        case None => status == Unauthorized
        case Some(me) =>
          match old(Get(locations, locId))
          case None => status == NotFound
          case Some(loc) =>
            if !CanEditLocation(me.val.role, loc.ownerId == Some(me.id)) then status == Forbidden
            else status == Ok && locations == WithoutId(old(locations), locId) && |locations| == |old(locations)| - 1
    {
      var me := CurrentUser(caller);
      if me.None? {
        return Unauthorized;
      }
      var found := Find(locations, locId);
      if found.None? {
        return NotFound;
      }
      var i := found.value;
      if !CanEditLocation(me.value.val.role, locations[i].val.ownerId == Some(me.value.id)) {
        return Forbidden;
      }
      RemoveAt(locations, i);
      locations := locations[..i] + locations[i + 1..];
      status := Ok;
    }

    /** `GET /my_locations`: the locations the caller owns. */
    method MyLocations(caller: Option<int>) returns (status: Status, mine: Table<Location>)
      ensures CurrentUser(caller).None? ==> status == LoginRedirect && mine == []
      ensures CurrentUser(caller).Some? ==> status == Ok
      ensures CurrentUser(caller).Some? ==> forall row :: row in mine ==>
        row in locations && row.val.ownerId == Some(CurrentUser(caller).value.id)
      ensures CurrentUser(caller).Some? ==> forall row :: row in locations && row.val.ownerId == Some(CurrentUser(caller).value.id) ==>
        row in mine
    {
      var me := CurrentUser(caller);
      if me.None? {
        return LoginRedirect, [];
      }
      mine := OwnedBy(locations, me.value.id);
      status := Ok;
    }
  }
}
