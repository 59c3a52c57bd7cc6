/** Role names and the access rules the handlers apply. Roles are plain strings:
    an administrator may store any string as a role, and only the literals below
    grant anything. */
module Auth {
  import opened Models

  const Admin := "admin"
  const Moderator := "moderator"
  const Owner := "owner"

  /** The seeded administrator account, which can never be deleted. */
  const ProtectedUsername := "admin1"

  /** `role in ['admin', 'moderator']`: administrators and moderators are staff;
      the default role and business owners never are. */
  predicate IsStaff(role: string)
    ensures role == Admin || role == Moderator ==> IsStaff(role)
    ensures IsStaff(role) ==> role != DefaultRole && role != Owner
  {
    role == Admin || role == Moderator
  }

  /** Editing or deleting a location: its owner, or staff. An account with the
      default role edits only what it owns. */
  predicate CanEditLocation(role: string, isOwner: bool)
    ensures isOwner ==> CanEditLocation(role, isOwner)
    ensures IsStaff(role) ==> CanEditLocation(role, isOwner)
    ensures CanEditLocation(role, isOwner) && (role == DefaultRole || role == Owner) ==> isOwner
  {
    isOwner || IsStaff(role)
  }

  /** Deleting a review: its author, or an administrator. A moderator, unlike for
      locations, may not delete someone else's review. */
  predicate CanDeleteReview(role: string, isAuthor: bool)
    ensures isAuthor ==> CanDeleteReview(role, isAuthor)
    ensures role == Admin ==> CanDeleteReview(role, isAuthor)
    ensures role == Moderator && !isAuthor ==> !CanDeleteReview(role, isAuthor)
  {
    isAuthor || role == Admin
  }

  /** Adding, deleting and editing users: administrators only, a strict subset of staff. */
  predicate CanManageUsers(role: string)
    ensures CanManageUsers(role) ==> IsStaff(role)
    ensures role == Moderator ==> !CanManageUsers(role)
  {
    role == Admin
  }

  /** Adding categories: staff, so every administrator, and never the default role
      or a business owner. */
  predicate CanManageCategories(role: string)
    ensures CanManageUsers(role) ==> CanManageCategories(role)
    ensures role == Moderator ==> CanManageCategories(role)
    ensures role == DefaultRole || role == Owner ==> !CanManageCategories(role)
  {
    IsStaff(role)
  }
}
