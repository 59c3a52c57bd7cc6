/** What a handler receives and answers, and how a location record is built
    from, or merged with, the fields of a request. */
module Requests {
  import opened Wrappers
  import opened Models

  /** The outcome of a handler:
      Ok             200, or the success redirect of a page route
      BadRequest     400 (a refused duplicate or missing name, or a missing `request.form[...]` key)
      Unauthorized   401 from the JSON login guard
      Forbidden      403 on JSON routes; a flash notice and redirect on page routes
      NotFound       404 (`get_or_404`, a missing favorite)
      ServerError    500: an uncaught exception before or at the commit (a missing JSON
                     key, `int()` of a missing or non-numeric value, a number too wide
                     for an INTEGER column); nothing is written
      LoginRedirect  the page login guard's redirect to the login page */
  datatype Status = Ok | BadRequest | Unauthorized | Forbidden | NotFound | ServerError | LoginRedirect

  /** A request value that the handler passes to `int()`. */
  datatype IntField = Absent | Number(n: int) | Malformed

  /** SQLite's INTEGER column is a signed 64-bit integer; binding a larger Python
      int raises at the commit. */
  const MinInteger: int := -0x8000_0000_0000_0000
  const MaxInteger: int := 0x7FFF_FFFF_FFFF_FFFF

  predicate FitsInteger(n: int) {
    MinInteger <= n <= MaxInteger
  }

  /** The field, if supplied, converts with `int()` and the result can be stored. */
  predicate Converts(f: IntField) {
    f.Absent? || (f.Number? && FitsInteger(f.n))
  }

  /** `int(request.get(key, fallback))` as it reaches the database: `None` when
      `int()` raises, or when the number does not fit an INTEGER column and the
      commit raises. */
  function IntOr(f: IntField, fallback: Option<int>): (r: Option<int>)
    ensures f.Number? && FitsInteger(f.n) ==> r == Some(f.n)
    ensures f.Number? && !FitsInteger(f.n) ==> r.None?
    ensures f.Absent? ==> r == fallback
    ensures f.Malformed? ==> r.None?
  {
    match f
    case Absent => fallback
    case Number(n) => if FitsInteger(n) then Some(n) else None
    case Malformed => None
  }

  /** The location fields of a JSON body or form; `None` is an absent key. */
  datatype LocationFields = LocationFields(
    name: Option<string>,
    lat: Option<Coordinate>,
    lng: Option<Coordinate>,
    description: Option<string>,
    address: Option<string>,
    photo: Option<string>,
    openingHours: Option<string>,
    contacts: Option<string>,
    category: IntField)

  /** The category a new location gets: the supplied one, or category 1. */
  const DefaultCategory := 1

  /** The record `add_my_location` builds: name, lat and lng are required (an absent
      one raises), every other text field defaults to '', the category to 1, and the
      owner is the caller. `None` when building or storing it raises. */
  function OwnLocation(fields: LocationFields, ownerId: int): (r: Option<Location>)
    ensures r.Some? <==> fields.name.Some? && fields.lat.Some? && fields.lng.Some? && Converts(fields.category)
    ensures r.Some? ==> var loc := r.value;
      && loc.name == fields.name.value && loc.lat == fields.lat.value && loc.lng == fields.lng.value
      && loc.ownerId == Some(ownerId)
      && loc.categoryId == Some(if fields.category.Number? then fields.category.n else DefaultCategory)
      && loc.description == Some(fields.description.GetOr(""))
      && loc.address == Some(fields.address.GetOr(""))
      && loc.photo == Some(fields.photo.GetOr(""))
      && loc.openingHours == Some(fields.openingHours.GetOr(""))
      && loc.contacts == Some(fields.contacts.GetOr(""))
  {
    if fields.name.None? || fields.lat.None? || fields.lng.None? then None
    else match IntOr(fields.category, Some(DefaultCategory))
      case None => None
      case Some(cat) =>
        Some(Location(fields.name.value, Some(fields.description.GetOr("")), fields.lat.value, fields.lng.value,
          Some(fields.address.GetOr("")), Some(fields.photo.GetOr("")), Some(fields.openingHours.GetOr("")),
          Some(fields.contacts.GetOr("")), Some(cat), Some(ownerId)))
  }

  /** The record `add_location_api` builds: name, lat and lng required, description
      defaults to '', category to 1; address, photo, hours, contacts and owner stay
      NULL. `None` when building or storing it raises. */
  function StaffLocation(fields: LocationFields): (r: Option<Location>)
    ensures r.Some? <==> fields.name.Some? && fields.lat.Some? && fields.lng.Some? && Converts(fields.category)
    ensures r.Some? ==> var loc := r.value;
      && loc.name == fields.name.value && loc.lat == fields.lat.value && loc.lng == fields.lng.value
      && loc.ownerId.None?
      && loc.categoryId == Some(if fields.category.Number? then fields.category.n else DefaultCategory)
      && loc.description == Some(fields.description.GetOr(""))
      && loc.address.None? && loc.photo.None? && loc.openingHours.None? && loc.contacts.None?
  {
    if fields.name.None? || fields.lat.None? || fields.lng.None? then None
    else match IntOr(fields.category, Some(DefaultCategory))
      case None => None
      case Some(cat) =>
        Some(Location(fields.name.value, Some(fields.description.GetOr("")), fields.lat.value, fields.lng.value,
          None, None, None, None, Some(cat), None))
  }

  /** The partial update of the location edit handlers: each supplied text field
      replaces the stored one, each absent one keeps it; the category is `int()` of
      the supplied value or of the stored one, which raises when neither is a number
      or the number does not fit the column (`None`). The coordinates and the owner
      are never touched. */
  function MergeEdit(loc: Location, fields: LocationFields): (r: Option<Location>)
    ensures r.None? <==> IntOr(fields.category, loc.categoryId).None?
    ensures r.Some? ==> var m := r.value;
      && m.lat == loc.lat && m.lng == loc.lng && m.ownerId == loc.ownerId
      && m.categoryId == IntOr(fields.category, loc.categoryId)
      && (fields.name.None? ==> m.name == loc.name)
      && (fields.name.Some? ==> m.name == fields.name.value)
      && (fields.description.None? ==> m.description == loc.description)
      && (fields.description.Some? ==> m.description == fields.description)
      && (fields.address.None? ==> m.address == loc.address)
      && (fields.address.Some? ==> m.address == fields.address)
      && (fields.photo.None? ==> m.photo == loc.photo)
      && (fields.photo.Some? ==> m.photo == fields.photo)
      && (fields.openingHours.None? ==> m.openingHours == loc.openingHours)
      && (fields.openingHours.Some? ==> m.openingHours == fields.openingHours)
      && (fields.contacts.None? ==> m.contacts == loc.contacts)
      && (fields.contacts.Some? ==> m.contacts == fields.contacts)
  {
    match IntOr(fields.category, loc.categoryId)
    case None => None
    case Some(cat) =>
      Some(loc.(
        name := fields.name.GetOr(loc.name),
        description := if fields.description.Some? then fields.description else loc.description,
        address := if fields.address.Some? then fields.address else loc.address,
        photo := if fields.photo.Some? then fields.photo else loc.photo,
        openingHours := if fields.openingHours.Some? then fields.openingHours else loc.openingHours,
        contacts := if fields.contacts.Some? then fields.contacts else loc.contacts,
        categoryId := Some(cat)))
  }

  /** The request that supplies nothing. */
  const NoFields := LocationFields(None, None, None, None, None, None, None, None, Absent)

  /** Submitting nothing leaves a categorised location exactly as it was. */
  lemma MergeNothing(loc: Location)
    requires loc.categoryId.Some?
    ensures MergeEdit(loc, NoFields) == Some(loc)
  {
  }

  /** Submitting the same edit twice has the effect of submitting it once. */
  lemma MergeIdempotent(loc: Location, fields: LocationFields)
    requires MergeEdit(loc, fields).Some?
    ensures MergeEdit(MergeEdit(loc, fields).value, fields) == MergeEdit(loc, fields)
  {
  }
}
