/** The queries the handlers run against the tables (`filter_by`, `join`,
    `.first()`), the row invariants the handlers maintain, and the shapes of
    the two JSON listings. */
module Queries {
  import opened Wrappers
  import opened Tables
  import opened Models
  import opened Ratings
  import opened Auth

  // ---------------------------------------------------------------------
  // Invariants of the rows

  /** `username` is declared unique. */
  ghost predicate UniqueUsernames(users: Table<User>) {
    forall a, b :: a in users && b in users && a.val.username == b.val.username ==> a == b
  }

  /** Category names are non-empty and pairwise distinct; the schema does not
      declare this, the category handler's checks keep it. */
  ghost predicate ValidCategoryNames(cats: Table<Category>) {
    && (forall a :: a in cats ==> a.val.name != "")
    && (forall a, b :: a in cats && b in cats && a.val.name == b.val.name ==> a == b)
  }

  /** Each (user, location) pair is favorited at most once; the schema does not
      declare this, the favorite handler's check keeps it. */
  ghost predicate UniqueFavorites(fs: Table<Favorite>) {
    forall a, b :: a in fs && b in fs && a.val == b.val ==> a == b
  }

  /** Every account named `admin1` before is still there, under the same id and name, after. */
  ghost predicate ProtectedKept(before: Table<User>, after: Table<User>) {
    forall a :: a in before && a.val.username == ProtectedUsername ==>
      exists b :: b in after && b.id == a.id && b.val.username == ProtectedUsername
  }

  /** Changing one user's role keeps usernames unique and keeps the protected account. */
  lemma RoleChange(t: Table<User>, i: nat, role: string)
    requires Ascending(t) && UniqueUsernames(t) && i < |t|
    ensures UniqueUsernames(t[i := Row(t[i].id, t[i].val.(role := role))])
    ensures ProtectedKept(t, t[i := Row(t[i].id, t[i].val.(role := role))])
  {
    var r := t[i := Row(t[i].id, t[i].val.(role := role))];
    assert forall k :: 0 <= k < |t| ==> r[k].id == t[k].id && r[k].val.username == t[k].val.username;
    forall a, b | a in r && b in r && a.val.username == b.val.username ensures a == b {
      var ka :| 0 <= ka < |r| && r[ka] == a;
      var kb :| 0 <= kb < |r| && r[kb] == b;
      assert t[ka] in t && t[kb] in t;
      assert t[ka] == t[kb];
      assert ka == kb;
    }
    forall a | a in t && a.val.username == ProtectedUsername
      ensures exists b :: b in r && b.id == a.id && b.val.username == ProtectedUsername
    {
      var k :| 0 <= k < |t| && t[k] == a;
      assert r[k] in r;
    }
  }

  // ---------------------------------------------------------------------
  // Lookups

  predicate UsernameTaken(users: Table<User>, name: string) {
    exists row :: row in users && row.val.username == name
  }

  predicate CategoryNameTaken(cats: Table<Category>, name: string) {
    exists row :: row in cats && row.val.name == name
  }

  predicate IsFavorite(fs: Table<Favorite>, userId: int, locId: int) {
    exists row :: row in fs && row.val == Favorite(userId, locId)
  }

  /** `Favorite.query.filter_by(user_id=..., location_id=...).first()`. */
  function FindFavorite(fs: Table<Favorite>, userId: int, locId: int): (r: Option<nat>)
    ensures r.Some? ==> r.value < |fs| && fs[r.value].val == Favorite(userId, locId)
    ensures r.None? <==> !IsFavorite(fs, userId, locId)
  {
    if |fs| == 0 then None
    else if fs[0].val == Favorite(userId, locId) then Some(0)
    else match FindFavorite(fs[1..], userId, locId)
      case None =>
        assert forall row :: row in fs ==> row == fs[0] || row in fs[1..];
        None
      case Some(k) => Some(k + 1)
  }

  /** The username check before an insert keeps usernames unique. */
  lemma {:induction false} AddUnusedUsername(users: Table<User>, u: User)
    requires UniqueUsernames(users) && !UsernameTaken(users, u.username)
    ensures UniqueUsernames(Insert(users, u))
  {
    var r := Insert(users, u);
    assert forall a :: a in r ==> a in users || a == r[|users|];
  }

  /** The name checks before an insert keep category names non-empty and unique. */
  lemma {:induction false} AddUnusedCategory(cats: Table<Category>, name: string)
    requires ValidCategoryNames(cats) && name != "" && !CategoryNameTaken(cats, name)
    ensures ValidCategoryNames(Insert(cats, Category(name)))
  {
    var r := Insert(cats, Category(name));
    assert forall a :: a in r ==> a in cats || a == r[|cats|];
  }

  /** The favorite check before an insert keeps each pair at most once. */
  lemma {:induction false} AddNewFavorite(fs: Table<Favorite>, userId: int, locId: int)
    requires UniqueFavorites(fs) && !IsFavorite(fs, userId, locId)
    ensures UniqueFavorites(Insert(fs, Favorite(userId, locId)))
    ensures IsFavorite(Insert(fs, Favorite(userId, locId)), userId, locId)
  {
    var r := Insert(fs, Favorite(userId, locId));
    assert forall a :: a in r ==> a in fs || a == r[|fs|];
    assert r[|fs|] in r;
  }

  // ---------------------------------------------------------------------
  // Reviews of a location

  /** `Review.query.filter_by(location_id=locId).all()`. */
  function ReviewsOf(rs: Table<Review>, locId: int): (r: Table<Review>)
    ensures forall row :: row in r ==> row in rs && row.val.locationId == Some(locId)
    ensures forall row :: row in rs && row.val.locationId == Some(locId) ==> row in r
  {
    if |rs| == 0 then []
    else (if rs[0].val.locationId == Some(locId) then [rs[0]] else []) + ReviewsOf(rs[1..], locId)
  }

  /** The review rows that refer to the location, as a set. */
  ghost function ReviewSet(rs: Table<Review>, locId: int): set<Row<Review>> {
    set row | row in rs && row.val.locationId == Some(locId)
  }

  lemma ReviewSetSplit(rs: Table<Review>, locId: int)
    requires Ascending(rs) && |rs| > 0
    ensures rs[0] !in ReviewSet(rs[1..], locId)
    ensures ReviewSet(rs, locId) ==
      (if rs[0].val.locationId == Some(locId) then {rs[0]} else {}) + ReviewSet(rs[1..], locId)
  {
    forall k | 0 <= k < |rs[1..]| ensures rs[1..][k] != rs[0] {
      assert rs[1..][k].id == rs[k + 1].id;
    }
    assert forall row :: row in rs <==> row == rs[0] || row in rs[1..];
  }

  /** The filtered list has one entry per review row that refers to the location. */
  lemma {:induction false} ReviewCount(rs: Table<Review>, locId: int)
    requires Ascending(rs)
    ensures |ReviewsOf(rs, locId)| == |ReviewSet(rs, locId)|
  {
    if |rs| > 0 {
      ReviewCount(rs[1..], locId);
      ReviewSetSplit(rs, locId);
    }
  }

  // ---------------------------------------------------------------------
  // The location listing

  /** The inner join with Category filtered on the category's name: the location
      has a category, and the category row under that id carries the name. */
  predicate InCategory(loc: Location, cats: Table<Category>, name: string)
    ensures loc.categoryId.None? ==> !InCategory(loc, cats, name)
    ensures InCategory(loc, cats, name) ==> Row(loc.categoryId.value, Category(name)) in cats
  {
    match loc.categoryId
    case None => false
    case Some(cid) => Get(cats, cid).Some? && Get(cats, cid).value.name == name
  }

  function LocationsIn(locs: Table<Location>, cats: Table<Category>, name: string): (r: Table<Location>)
    ensures forall row :: row in r ==> row in locs && InCategory(row.val, cats, name)
    ensures forall row :: row in locs && InCategory(row.val, cats, name) ==> row in r
  {
    if |locs| == 0 then []
    else (if InCategory(locs[0].val, cats, name) then [locs[0]] else []) + LocationsIn(locs[1..], cats, name)
  }

  /** The rows the listing shows: a missing or empty `category` argument is falsy and shows all. */
  function ShownLocations(locs: Table<Location>, cats: Table<Category>, category: Option<string>): (r: Table<Location>)
    ensures category.None? || category.value == "" ==> r == locs
    ensures category.Some? && category.value != "" ==>
      forall row :: row in r <==> row in locs && InCategory(row.val, cats, category.value)
  {
    if category.Some? && category.value != "" then LocationsIn(locs, cats, category.value) else locs
  }

  /** `loc.category.name if loc.category else ''`: the name of the category row the
      location refers to, or '' when it has none or the row is gone. */
  function CategoryName(loc: Location, cats: Table<Category>): (name: string)
    ensures loc.categoryId.None? || !HasId(cats, loc.categoryId.value) ==> name == ""
    ensures loc.categoryId.Some? && HasId(cats, loc.categoryId.value) ==>
      Row(loc.categoryId.value, Category(name)) in cats
  {
    match loc.categoryId
    case None => ""
    case Some(cid) => match Get(cats, cid) case None => "" case Some(c) => c.name
  }

  datatype LocationSummary = LocationSummary(
    id: int,
    name: string,
    lat: Coordinate,
    lng: Coordinate,
    category: string,
    description: Option<string>,
    address: Option<string>,
    photo: Option<string>,
    openingHours: Option<string>,
    contacts: Option<string>,
    avgRating: real,
    reviewsCount: nat)

  /** One element of the `/api/locations` array: the location's own columns as
      stored, its category's name, and the count and mean of its reviews. */
  function Summarize(row: Row<Location>, cats: Table<Category>, rs: Table<Review>): (s: LocationSummary)
    ensures s.id == row.id && s.name == row.val.name && s.lat == row.val.lat && s.lng == row.val.lng
    ensures s.description == row.val.description && s.address == row.val.address && s.photo == row.val.photo
    ensures s.openingHours == row.val.openingHours && s.contacts == row.val.contacts
    ensures s.category == CategoryName(row.val, cats)
    ensures s.reviewsCount == |ReviewsOf(rs, row.id)|
    ensures s.avgRating == AverageRating(ReviewsOf(rs, row.id))
  {
    var mine := ReviewsOf(rs, row.id);
    var loc := row.val;
    LocationSummary(row.id, loc.name, loc.lat, loc.lng, CategoryName(loc, cats), loc.description,
      loc.address, loc.photo, loc.openingHours, loc.contacts, AverageRating(mine), |mine|)
  }

  /** `reviews_count` is the number of reviews referring to the location, and
      `avg_rating` is 0 without reviews and otherwise their mean (`AverageRating`). */
  lemma {:induction false} SummaryStatistics(row: Row<Location>, cats: Table<Category>, rs: Table<Review>)
    requires Ascending(rs)
    ensures Summarize(row, cats, rs).reviewsCount == |ReviewSet(rs, row.id)|
    ensures Summarize(row, cats, rs).reviewsCount == 0 ==> Summarize(row, cats, rs).avgRating == 0.0
    ensures Summarize(row, cats, rs).avgRating == AverageRating(ReviewsOf(rs, row.id))
  {
    ReviewCount(rs, row.id);
  }

  // ---------------------------------------------------------------------
  // The favorites listing

  /** `Favorite.query.filter_by(user_id=userId).all()`. */
  function FavoritesOf(fs: Table<Favorite>, userId: int): (r: Table<Favorite>)
    ensures forall row :: row in r ==> row in fs && row.val.userId == userId
    ensures forall row :: row in fs && row.val.userId == userId ==> row in r
  {
    if |fs| == 0 then []
    else (if fs[0].val.userId == userId then [fs[0]] else []) + FavoritesOf(fs[1..], userId)
  }

  datatype FavoriteItem = FavoriteItem(id: int, name: string, lat: Coordinate, lng: Coordinate, photo: string, description: string)

  /** One element of the `/api/favorites` array; a missing or empty photo or description becomes ''. */
  function ItemOf(id: int, loc: Location): (it: FavoriteItem)
    ensures it.id == id && it.name == loc.name && it.lat == loc.lat && it.lng == loc.lng
    ensures loc.photo.None? ==> it.photo == ""
    ensures loc.photo.Some? ==> it.photo == loc.photo.value
    ensures loc.description.None? ==> it.description == ""
    ensures loc.description.Some? ==> it.description == loc.description.value
  {
    FavoriteItem(id, loc.name, loc.lat, loc.lng, loc.photo.GetOr(""), loc.description.GetOr(""))
  }

  /** The item is the existing location it names, and some favorite row points at it. */
  ghost predicate Listed(it: FavoriteItem, fs: Table<Favorite>, locs: Table<Location>) {
    && Get(locs, it.id).Some?
    && it == ItemOf(it.id, Get(locs, it.id).value)
    && exists f :: f in fs && f.val.locationId == it.id
  }

  ghost predicate ItemFor(items: seq<FavoriteItem>, id: int) {
    exists k :: 0 <= k < |items| && items[k].id == id
  }

  /** The listing built from the favorite rows `fs` in order, skipping rows whose
      location no longer exists. */
  function FavoriteItems(fs: Table<Favorite>, locs: Table<Location>): (items: seq<FavoriteItem>)
    ensures |items| <= |fs|
    ensures forall k :: 0 <= k < |items| ==> Listed(items[k], fs, locs)
    ensures forall f :: f in fs && HasId(locs, f.val.locationId) ==> ItemFor(items, f.val.locationId)
  {
    if |fs| == 0 then []
    else
      var f := fs[|fs| - 1];
      var front := fs[..|fs| - 1];
      var prefix := FavoriteItems(front, locs);
      assert forall g :: g in fs <==> g in front || g == f;
      match Get(locs, f.val.locationId)
      case None => prefix
      case Some(loc) =>
        var items := prefix + [ItemOf(f.val.locationId, loc)];
        assert ItemFor(items, f.val.locationId) by {
          assert items[|prefix|].id == f.val.locationId;
        }
        assert forall id :: ItemFor(prefix, id) ==> ItemFor(items, id) by {
          forall id | ItemFor(prefix, id) ensures ItemFor(items, id) {
            var k :| 0 <= k < |prefix| && prefix[k].id == id;
            assert items[k].id == id;
          }
        }
        items
  }

  // ---------------------------------------------------------------------
  // The caller's own locations

  /** `Location.query.filter_by(owner_id=userId).all()`. */
  function OwnedBy(locs: Table<Location>, userId: int): (r: Table<Location>)
    ensures forall row :: row in r ==> row in locs && row.val.ownerId == Some(userId)
    ensures forall row :: row in locs && row.val.ownerId == Some(userId) ==> row in r
  {
    if |locs| == 0 then []
    else (if locs[0].val.ownerId == Some(userId) then [locs[0]] else []) + OwnedBy(locs[1..], userId)
  }
}
