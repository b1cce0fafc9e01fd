/** Who is asking, with which HTTP method, and the status codes the views answer with. */
module Http {
  import opened Models

  /** `request.user`: the anonymous user or an authenticated one. */
  datatype Viewer = Anonymous | Authenticated(id: UserId)

  datatype HttpMethod = GET | HEAD | OPTIONS | POST | PUT | PATCH | DELETE

  /** `permissions.SAFE_METHODS`. */
  predicate IsSafe(m: HttpMethod)
  {
    m == GET || m == HEAD || m == OPTIONS
  }

  const HTTP_200_OK: int := 200
  const HTTP_201_CREATED: int := 201
  const HTTP_204_NO_CONTENT: int := 204
  const HTTP_400_BAD_REQUEST: int := 400
  const HTTP_401_UNAUTHORIZED: int := 401
  const HTTP_403_FORBIDDEN: int := 403
  const HTTP_404_NOT_FOUND: int := 404
}
