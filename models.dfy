/** The five record types of the schema (models.py). A non-nullable column is
    a plain field and a nullable one an `Option`, except `User.role` and
    `Review.rating`: both are nullable but have a column default, and no handler
    ever stores NULL in them, so they are plain fields. Primary keys live in the
    table's `Row`, not in the record. */
module Models {
  import opened Wrappers

  /** Column default of `User.role`. */
  const DefaultRole := "user"
  /** Column default of `Review.rating`. */
  const DefaultRating := 5

  /** `password` holds whatever the password hasher produced; it is never inspected.
      `role` is nullable in the schema, never NULL in practice. */
  datatype User = User(username: string, password: string, role: string)

  /** `name` is required; uniqueness is not declared by the schema. */
  datatype Category = Category(name: string)

  /** Latitude and longitude are floats in the source, stored and returned as given. */
  type Coordinate = real

  datatype Location = Location(
    name: string,
    description: Option<string>,
    lat: Coordinate,
    lng: Coordinate,
    address: Option<string>,
    photo: Option<string>,
    openingHours: Option<string>,
    contacts: Option<string>,
    categoryId: Option<int>,
    ownerId: Option<int>)

  /** Both foreign keys are nullable; `rating` is an integer without a range
      (nullable in the schema, never NULL in practice). */
  datatype Review = Review(userId: Option<int>, locationId: Option<int>, rating: int, comment: Option<string>)

  /** Both foreign keys are mandatory. */
  datatype Favorite = Favorite(userId: int, locationId: int)

  /** A user record as the ORM builds it: an unspecified role becomes the column default. */
  function NewUser(username: string, password: string, role: Option<string>): (u: User)
    ensures u.username == username && u.password == password
    ensures role.None? ==> u.role == DefaultRole
    ensures role.Some? ==> u.role == role.value
  {
    User(username, password, role.GetOr(DefaultRole))
  }

  /** A review record as the ORM builds it: an unspecified rating becomes the column
      default, a specified one is stored as given, whatever its value. */
  function NewReview(userId: int, locationId: int, rating: Option<int>, comment: Option<string>): (r: Review)
    ensures r.userId == Some(userId) && r.locationId == Some(locationId) && r.comment == comment
    ensures rating.None? ==> r.rating == DefaultRating
    ensures rating.Some? ==> r.rating == rating.value
  {
    Review(Some(userId), Some(locationId), rating.GetOr(DefaultRating), comment)
  }
}
