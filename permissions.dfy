/** `IsAuthorOrReadOnlyPermission` (backend/api/permissions.py). */
module Permissions {
  import opened Models
  import opened Http

  /**
   * `has_object_permission`: reading is open to everyone; any other method is allowed
   * only to the object's author. The anonymous user is never anybody's author.
   */
  predicate HasObjectPermission(verb: HttpMethod, author: UserId, viewer: Viewer)
  {
    IsSafe(verb) || viewer == Authenticated(author)
  }

  lemma SafeMethodAlwaysPermitted(verb: HttpMethod, author: UserId, viewer: Viewer)
    requires IsSafe(verb)
    ensures HasObjectPermission(verb, author, viewer)
  {
  }

  /** For a method that writes, permission holds exactly when the requester is the author. */
  lemma WriteNeedsAuthor(verb: HttpMethod, author: UserId, viewer: Viewer)
    requires !IsSafe(verb)
    ensures HasObjectPermission(verb, author, viewer) <==> viewer.Authenticated? && viewer.id == author
  {
  }
}
