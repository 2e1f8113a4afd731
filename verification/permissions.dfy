/** The ownership checks of `utils/permissions.js`. A user is the decoded
    identity (`_id`, `role`); a resource's owner is the string form of its
    `user_id`, absent when it has none. */
module Permissions {
  import opened Wrappers
  import opened Js
  import opened Http

  datatype User = User(id: Option<string>, role: Option<string>)

  /** The role that may act on anybody's resources. */
  const AdminRole := "admin"

  /** `isOwnerOrAdmin(resourceUserId, user)`. An absent owner equals an
      absent user id, as `undefined === undefined` does. */
  function IsOwnerOrAdmin(owner: Option<string>, user: Option<User>): (r: bool)
    ensures user.None? ==> !r
    ensures user.Some? && user.value.role == Some(AdminRole) ==> r
    ensures user.Some? && user.value.role != Some(AdminRole) ==> (r <==> owner == user.value.id)
  {
    user.Some? && (user.value.role == Some(AdminRole) || owner == user.value.id)
  }

  /** A user who is not an admin is allowed on the resources of at most one
      owner: their own. */
  lemma NonAdminHasOneOwner(o1: Option<string>, o2: Option<string>, user: Option<User>)
    requires IsOwnerOrAdmin(o1, user) && IsOwnerOrAdmin(o2, user)
    requires user.Some? && user.value.role != Some(AdminRole)
    ensures o1 == o2 == user.value.id
  {
  }

  /** The part of a photo the checks read. */
  datatype OwnedPhoto = OwnedPhoto(userId: Option<string>)

  /** `photo?.user_id` */
  function OwnerOf(photo: Option<OwnedPhoto>): Option<string> {
    if photo.Some? then photo.value.userId else None
  }

  /** `canEditPhoto(user, photo)`: an authenticated user may not edit an
      absent photo unless they are an admin. */
  function CanEditPhoto(user: Option<User>, photo: Option<OwnedPhoto>): (r: bool)
    ensures r <==> IsOwnerOrAdmin(OwnerOf(photo), user)
    ensures photo.None? && user.Some? && Present(user.value.id) ==> (r <==> user.value.role == Some(AdminRole))
  {
    IsOwnerOrAdmin(OwnerOf(photo), user)
  }

  /** `canDeletePhoto(user, photo)` */
  function CanDeletePhoto(user: Option<User>, photo: Option<OwnedPhoto>): (r: bool)
    ensures r <==> IsOwnerOrAdmin(OwnerOf(photo), user)
    ensures photo.None? && user.Some? && Present(user.value.id) ==> (r <==> user.value.role == Some(AdminRole))
  {
    IsOwnerOrAdmin(OwnerOf(photo), user)
  }

  /** Editing and deleting a photo are granted to exactly the same users. */
  lemma EditIffDelete(user: Option<User>, photo: Option<OwnedPhoto>)
    ensures CanEditPhoto(user, photo) == CanDeletePhoto(user, photo)
  {
  }

  /** `assertAuth(user, { status = 401, payload })`: the user when it has an
      id, otherwise the error it throws. */
  function AssertAuth(user: Option<User>, status: Option<int>, payload: JsValue): (r: Result<User, HttpError>)
    ensures r.Success? <==> user.Some? && Present(user.value.id)
    ensures r.Success? ==> r.value == user.value
    ensures r.Failure? ==> r.error.status == status.GetOr(401)
    ensures r.Failure? && Truthy(payload) ==> r.error.payload == payload
    ensures r.Failure? && !Truthy(payload) ==> r.error.payload == ErrorBody(Str("Unauthorized"))
    ensures r.Failure? ==> r.error.responseType == Undefined
  {
    if user.Some? && Present(user.value.id) then Success(user.value)
    else Failure(NewHttpError(Some(status.GetOr(401)), None, Or(payload, ErrorBody(Str("Unauthorized"))), Undefined))
  }
}
