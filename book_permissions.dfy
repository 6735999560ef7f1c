/** Write access to the book catalogue: anyone may read, only staff may change. */
module BookPermissions {
  import opened Wrappers

  /** The HTTP methods that only read. */
  const SafeMethods: set<string> := {"GET", "HEAD", "OPTIONS"}

  /** The authenticated user of a request, if any. */
  datatype RequestUser = RequestUser(isStaff: bool)

  /** `IsAdminOrReadOnly.has_permission`. */
  function HasPermission(httpMethod: string, user: Option<RequestUser>): (r: bool)
    ensures httpMethod in SafeMethods ==> r
    ensures user.Some? && user.value.isStaff ==> r
    ensures httpMethod !in SafeMethods && (user.None? || !user.value.isStaff) ==> !r
  {
    httpMethod in SafeMethods || (user.Some? && user.value.isStaff)
  }

  /** Whatever a non-staff user or an anonymous request may do, a staff user may do too. */
  lemma StaffPermittedWhateverOthersAre(httpMethod: string, other: Option<RequestUser>)
    requires HasPermission(httpMethod, other)
    ensures HasPermission(httpMethod, Some(RequestUser(true)))
  {
  }

  /** Creating, replacing, updating and deleting a book are refused to non-staff users. */
  lemma NonStaffCannotWrite(user: Option<RequestUser>)
    requires user.None? || !user.value.isStaff
    ensures !HasPermission("POST", user) && !HasPermission("PUT", user)
    ensures !HasPermission("PATCH", user) && !HasPermission("DELETE", user)
  {
  }
}
