# GidToDNR handlers and schema in Dafny

GidToDNR is a small Flask application for a map of places. Users browse locations, leave reviews and keep favorites. Business owners maintain their own locations. Administrators and moderators manage users, categories and locations. This project models two parts of it:

- the application's request handlers (`app.py`);
- the record schema behind them (`models.py`).

The database is modelled as five in-memory tables: users, categories, locations, reviews and favorites. Each handler is an operation on those tables that returns a status and changes at most one table.

The files:

- `wrappers.dfy`: the `Option` type.
- `tables.dfy`: a table is a sequence of rows ordered by primary key.
  - A fresh key follows SQLite's rowid rule: one more than the largest key, or 1 in an empty table.
  - Lookup, insert, delete-by-key and update-in-place are defined here, each with lemmas about how lookups behave afterwards.
- `models.py` → `models.dfy`: the records.
  - A nullable column is an `Option`, except `User.role` and `Review.rating`. Both are nullable but have a column default, and no handler ever stores NULL in them, so they are plain fields.
  - The column defaults are the `user` role and a rating of 5.
- `auth.dfy`: the role and ownership rules: staff (`admin`, `moderator`), author, owner, and the protected account `admin1`.
- `ratings.dfy`: the mean rating and the rating order of the reviews page.
  - The mean is proved independent of order.
  - It is proved to lie between the lowest and highest rating.
  - The sort is proved to be an ordered permutation.
- `queries.dfy`:
  - the filters the handlers run;
  - the store invariants: unique usernames, non-empty unique category names, each favorite pair at most once, and `admin1` kept;
  - the two JSON listings.
- `requests.dfy`:
  - the handler statuses;
  - the request fields;
  - how a location is built from, or merged with, a request.
- `app.dfy`: the `Store` class.
  - It has one field per table and one method per handler.
  - Every mutating method keeps `Valid()` (the invariants above plus primary-key uniqueness).
  - Every refusal leaves its table unchanged.

The logged-in user is modelled as an optional user id from the session. It is resolved against the users table, so a session whose user has since been deleted counts as anonymous.

Refusals map to statuses as follows:

- The JSON login guard answers 401 (`Unauthorized`).
- The page login guard redirects to the login page (`LoginRedirect`).
- A missing `request.form[...]` key is 400.
- An exception raised before or at the commit is 500, and nothing is written. Examples are a missing JSON key, `int()` applied to a missing or non-numeric value, and a number too wide for SQLite's signed 64-bit INTEGER column.

## Model

| member | source | states |
|---|---|---|
| Tables.Find | app.py:228 | the index returned is the first row with that primary key, and `None` exactly when no row has it (`get_or_404`) |
| Tables.Get | app.py:228 | `Some(v)` exactly when a row with that key exists, and that row holds `v` |
| Tables.NextId | app.py:313 | a fresh key is larger than every existing key: max key + 1, or 1 in an empty table |
| Tables.Insert | app.py:311-313 | adding a record appends one row under a key no row had; every earlier row is kept |
| Tables.WithoutId | app.py:231 | deleting by key leaves exactly the rows with other keys, no more rows than before |
| Tables.Replace | app.py:349-357 | updating a row keeps the table's length and keys, gives the matching row the new record and leaves every other row as it was |
| Tables.AscendingGet | models.py:8 | with primary keys unique, a row's key looks up exactly that row's record |
| Tables.InsertGet | app.py:311-313 | after an insert the new key finds the new record and every other key finds what it found before |
| Tables.InsertAscending | models.py:8 | an insert keeps primary keys unique and ascending |
| Tables.RemoveAt | app.py:231-232 | deleting the row at a found index equals deleting by its key, keeps keys unique and removes exactly one row |
| Tables.NoSuchId | app.py:231 | deleting a key no row has leaves the table unchanged |
| Tables.WithoutIdGet | app.py:231-232 | after a delete the deleted key finds nothing and every other key finds what it found before |
| Tables.WithoutIdAscending | app.py:231-232 | a delete keeps primary keys unique and ascending |
| Tables.ReplaceGet | app.py:349-357 | after an update the key finds the new record, every other key finds what it found before, keys stay unique |
| Tables.UpdateAt | app.py:241-242 | assigning a new record at the found index is the update by key |
| Auth.IsStaff | app.py:300 | `role in ['admin', 'moderator']`: administrators and moderators are staff; the default role and `owner` never are |
| Auth.CanEditLocation | app.py:345 | the owner or staff may edit or delete a location; an account with the default or owner role only its own (also app.py:366, app.py:386) |
| Auth.CanDeleteReview | app.py:145 | the author or an administrator may delete a review; a moderator may not delete another user's review |
| Auth.CanManageUsers | app.py:209 | only administrators manage users, and every administrator is staff; moderators may not (also app.py:226, app.py:238) |
| Auth.CanManageCategories | app.py:249 | administrators and moderators may add categories; the default role and `owner` may not |
| Models.NewUser | models.py:7-11 | username and password are stored as given; an unspecified role becomes `user` |
| Models.NewReview | models.py:34-39 | both foreign keys and the comment are stored as given; an unspecified rating becomes 5, a given rating is stored whatever its value |
| Ratings.TotalRating | app.py:43 | `sum(r.rating for r in reviews)`; it defines the sum the mean is stated against (no contract of its own) |
| Ratings.AverageRating | app.py:42-45 | with no reviews the mean is 0; otherwise mean × count equals the sum of the ratings |
| Ratings.TotalRatingAppend | app.py:43 | the sum of ratings over two concatenated lists is the sum of the two sums |
| Ratings.TotalRatingPermutation | app.py:131 | the sum of ratings does not depend on the order of the reviews |
| Ratings.AverageRatingPermutation | app.py:124-131 | the reviews page's mean over the sorted list equals the mean over the same reviews in any order |
| Ratings.TotalRatingBounds | app.py:43 | if every rating lies in [lo, hi], the sum lies in [n·lo, n·hi] |
| Ratings.AverageRatingWithin | app.py:42-45 | if every rating lies in [lo, hi] and there is a review, the mean lies in [lo, hi] |
| Ratings.InsertByRating | app.py:125-128 | inserting a review into the ordered list adds exactly that review |
| Ratings.InsertByRatingSorted | app.py:125-128 | inserting into a list ordered by rating keeps it ordered |
| Ratings.SortByRating | app.py:125-130 | the ordered list holds exactly the same reviews as the filtered list |
| Ratings.SortByRatingSorted | app.py:125-130 | the list is ordered by rating, ascending for `asc` and descending otherwise |
| Queries.RoleChange | app.py:240-242 | changing a user's role keeps usernames unique and keeps the account `admin1` under its id |
| Queries.UsernameTaken | app.py:216 | some user row carries the username (definition; used by `AddUnusedUsername`) |
| Queries.AddUnusedUsername | app.py:216-219 | inserting a user whose name is not taken keeps usernames unique |
| Queries.CategoryNameTaken | app.py:254 | some category row carries exactly the name (definition; used by `AddUnusedCategory`) |
| Queries.AddUnusedCategory | app.py:252-256 | inserting a non-empty name that is not taken keeps category names non-empty and unique |
| Queries.AddNewFavorite | app.py:97-102 | inserting a pair that is not yet a favorite keeps each pair at most once, and the pair is then a favorite |
| Queries.FindFavorite | app.py:97 | the row found holds the (user, location) pair, and nothing is found exactly when the pair is not a favorite |
| Queries.ReviewsOf | app.py:41 | the filter returns exactly the review rows whose `location_id` is the location |
| Queries.ReviewCount | app.py:58 | the filtered list has exactly as many entries as there are review rows referring to the location |
| Queries.SummaryStatistics | app.py:41-58 | `reviews_count` is the number of reviews of the location; `avg_rating` is 0 without reviews and otherwise their mean |
| Queries.InCategory | app.py:36 | a location without a category is never in one; one that is has its category row, under its id, carrying the name |
| Queries.LocationsIn | app.py:35-37 | the join returns exactly the locations whose category exists and has that name |
| Queries.ShownLocations | app.py:33-37 | a missing or empty `category` shows every location; otherwise exactly those in the named category |
| Queries.CategoryName | app.py:51 | the name of the category row the location refers to, or '' when it has none or that row is gone |
| Queries.Summarize | app.py:46-59 | one listing entry: the location's stored columns unchanged, its category name, the count and the mean of its reviews |
| Queries.FavoritesOf | app.py:274 | the filter returns exactly the caller's favorite rows |
| Queries.FavoriteItems | app.py:274-287 | every item is an existing favorited location, rendered with '' for a missing photo or description; every favorite whose location exists is listed; no more items than favorites |
| Queries.ItemOf | app.py:279-286 | one favorites entry: the location's id, name and coordinates, and its photo and description with '' for NULL |
| Queries.OwnedBy | app.py:377 | the filter returns exactly the locations whose owner is the user |
| Requests.IntOr | app.py:355 | `int(get(key, fallback))` as stored: a supplied number that fits a signed 64-bit INTEGER, else the fallback; a non-numeric or wider value raises |
| Requests.OwnLocation | app.py:319-332 | the record is built exactly when name, lat and lng are present and the category converts and fits the column; text fields default to '', the category to 1, the owner is the caller |
| Requests.StaffLocation | app.py:303-310 | the record is built exactly when name, lat and lng are present and the category converts and fits the column; description defaults to '', category to 1; no owner and no other text fields |
| Requests.MergeEdit | app.py:348-355 | each supplied field replaces the stored one, each absent one is kept; the coordinates and owner never change; the edit fails exactly when the category does not convert or does not fit the column |
| Requests.MergeNothing | app.py:349-355 | an edit that supplies nothing leaves a categorised location exactly as it was |
| Requests.MergeIdempotent | app.py:349-355 | applying the same edit twice gives the same record as applying it once |
| App.EditOutcome | app.py:342-357 | the outcome of an edit: 404 when missing, 403 unless owner or staff, 500 when the category fails, otherwise the merged record replaces the row (definition shared by the edit handlers) |
| App.Store.Seeded | app.py:411-431 | the seeded store holds `admin1` (role admin, key 1) and `owner1` (role owner, key 2), every other table empty, and satisfies the invariants |
| App.Store.CurrentUser | app.py:85-91 | the caller is authenticated exactly when the session's user id names an existing user, and then it is that user |
| App.Store.ApiLocations | app.py:31-60 | one summary per shown location, in table order |
| App.Store.LocationDetail | app.py:64-71 | 404 exactly when the location is missing; otherwise its reviews, and `is_fav` exactly when a logged-in caller favorited it |
| App.Store.AddReview | app.py:74-82 | anonymous: login redirect; a missing or non-numeric rating, or one outside the signed 64-bit range: 500 and nothing written; otherwise exactly one review by the caller with the rating as given, even for a missing location |
| App.Store.ReviewsPage | app.py:119-139 | 404 exactly when the location is missing; otherwise the location's reviews ordered by rating and their mean, which is the mean over the unordered reviews |
| App.Store.DeleteReview | app.py:141-152 | anonymous: login redirect; missing: 404; unless the caller is the author or an admin: refused and unchanged; otherwise exactly that review is removed |
| App.Store.AddFavorite | app.py:94-104 | anonymous: 401; an existing pair: 400 and unchanged; otherwise exactly one new row for the pair; each pair is favorited at most once |
| App.Store.RemoveFavorite | app.py:107-116 | anonymous: 401; no such pair: 404 and unchanged; otherwise exactly one row is removed, the one holding the pair, and the pair is no longer a favorite |
| App.Store.ApiFavorites | app.py:270-287 | anonymous: 401; otherwise the caller's favorited locations in favorite order, each favorited and existing, every existing one listed |
| App.Store.AddUser | app.py:206-221 | non-admin: 403; a missing field or a taken username: 400 and unchanged; otherwise exactly one new user; usernames stay unique and `admin1` stays |
| App.Store.DeleteUser | app.py:223-233 | non-admin: 403 before any lookup; missing: 404; `admin1`: 400 and unchanged; otherwise exactly that user is removed |
| App.Store.EditUser | app.py:235-243 | non-admin: 403; missing: 404; missing role: 400; otherwise only that user's role changes, to any string given |
| App.Store.AddCategory | app.py:246-258 | non-staff: 403; missing or empty name, or an exact duplicate: 400 and unchanged; otherwise exactly one new category; names stay non-empty and unique |
| App.Store.AddLocationApi | app.py:297-313 | non-staff: 403; a missing required field or a non-numeric category: 500 and unchanged; otherwise one new ownerless location under the returned fresh id |
| App.Store.AddMyLocation | app.py:316-336 | anonymous: 401; a missing required field or a non-numeric category: 500 and unchanged; otherwise one new location owned by the caller under the returned fresh id |
| App.Store.EditAs | app.py:342-357 | missing: 404; neither owner nor staff: 403 and unchanged; a non-numeric category: 500 and unchanged; otherwise only that location is replaced by the merged record |
| App.Store.EditMyLocation | app.py:339-358 | anonymous: 401; otherwise the edit outcome above |
| App.Store.EditLocationPage | app.py:380-400 | anonymous: login redirect; otherwise the edit outcome above, with the form fields |
| App.Store.DeleteMyLocation | app.py:361-371 | anonymous: 401; missing: 404; neither owner nor staff: 403 and unchanged; otherwise exactly that location is removed |
| App.Store.MyLocations | app.py:374-378 | the listing holds exactly the locations the caller owns |

## Left out

- Flask routing, templates, `flash`, `redirect` and `url_for`. A page refusal is modelled as a status with the store unchanged.
- Session handling is not modelled: `login`, `logout`, `register` and `load_user`'s session lookup. The caller is an input.
- The pages that only render are not modelled: `index`, `profile`, `admin_panel`, and the GET branch of `edit_location_page`.
- Password hashing is a foreign library. A stored password is whatever the hasher produced, and it is never inspected.
- `App.Store.ApiLocations`: `avg_rating` is the exact rational mean. Python rounds the float mean to one decimal place with `round(..., 1)`; that is not modelled. Latitude and longitude are reals that are stored and returned unchanged.
- `App.Store.ReviewsPage`: same as above for `avg_rating`. Reviews with equal ratings come out in a fixed order of the model's own; the database's order among ties is not specified.
- `created_at` timestamps (models.py:40).
- Concurrency: the check-then-insert windows on favorites, usernames and categories matter only under concurrent requests.
- A JSON body that is missing, or whose values have the wrong type, is not modelled (for example, an explicit `null` for `name`). A JSON field is either present with a value of the expected kind or absent.
- Deletes do not follow the ORM's relationship handling. The ORM clears the foreign keys of a deleted user's or location's reviews and favorites; for favorites, whose keys are NOT NULL, that would make the commit fail. In the model, deleting a user or a location leaves dependent rows unchanged, as dangling references. The favorites listing skips those.
- The second, identical definition of `login_required_json` (app.py:262-268) is modelled once, as the `Unauthorized` branch of each JSON handler.
- `App.Store.Seeded` models the first start, on an empty database, with the passwords as inputs. The start-up block runs at every start against the persistent database; re-seeding on later starts is not modelled. For example, after `owner1` is deleted, the next start re-creates it under a fresh id.
- The mobile WebView shell (`MainActivity.kt`) has no application logic and is not part of this model.
- Column length limits (`String(50)` etc.) are not enforced by SQLite and are not modelled.
- `User.role` and `Review.rating` are nullable columns modelled as plain fields: every handler that writes them supplies a value or relies on the column default, so NULL never occurs.
- Route ids (`<int:loc_id>`, `<int:user_id>`, `<int:review_id>`) and the caller's id are unbounded integers in the model. An id outside the signed 64-bit range, which makes the database driver raise, is not modelled. Request numbers passed to `int()` are bounded (see `Requests.IntOr`).
