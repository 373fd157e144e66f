/** The object permissions of goals/permissions.py. CategoryPermission,
    GoalPermission and CommentPermission all extend IsAuthenticated and grant
    access to an object exactly when the requester is its author. */
module Permissions {
  import opened Outcomes
  import opened Models

  datatype AuthorPermission = CategoryPermission | GoalPermission | CommentPermission

  /** The HTTP method of the request. The author rule never looks at it. */
  datatype Method = Get | Head | Options | Post | Put | Patch | Delete

  /** IsAuthenticated.has_permission: an anonymous requester (None) is refused
      before any object is looked at. */
  function Authenticate(requester: Option<UserId>): (r: Result<UserId>)
    ensures r.Ok? <==> requester.Some?
    ensures r.Ok? ==> r.value == requester.value
    ensures r.Err? ==> r.error == NotAuthenticated
  {
    match requester
    case Some(u) => Ok(u)
    case None => Err(NotAuthenticated)
  }

  /** has_object_permission: `request.user == obj.user`. An anonymous user
      never equals an author. */
  predicate HasObjectPermission(perm: AuthorPermission, requester: Option<UserId>, verb: Method, author: UserId) {
    requester == Some(author)
  }

  /** The check DRF runs for a detail request: has_permission first, then
      has_object_permission on the looked-up object. */
  function CheckObjectAccess(perm: AuthorPermission, requester: Option<UserId>, verb: Method, author: UserId): (r: Result<UserId>)
    ensures r.Ok? <==> requester == Some(author)
    ensures r.Ok? ==> r.value == author
    ensures requester.None? ==> r == Err(NotAuthenticated)
    ensures requester.Some? && requester.value != author ==> r == Err(PermissionDenied)
  {
    var u :- Authenticate(requester);
    if HasObjectPermission(perm, requester, verb, author) then Ok(u) else Err(PermissionDenied)
  }

  /** The three classes are one rule: the outcome depends on neither the
      class nor the method, so reads and writes are gated identically. */
  lemma AuthorRuleIgnoresClassAndMethod(p: AuthorPermission, q: AuthorPermission, requester: Option<UserId>,
                                        m: Method, n: Method, author: UserId)
    ensures CheckObjectAccess(p, requester, m, author) == CheckObjectAccess(q, requester, n, author)
  {
  }
}
