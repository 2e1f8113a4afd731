/** The last middleware, `middlewares/errorHandler.js`: how a thrown value
    becomes a reply. Upload errors become 400s, an `HttpError` picks plain
    text, its payload or an `error` object, and anything else an `error`
    object with status 500 unless it carries its own. */
module ErrorHandler {
  import opened Wrappers
  import opened Js
  import opened Http
  import Permissions

  /** The thrown value: an `HttpError` (whose `name` is "Error"), any other
      value with optional `name`, `message` and `status` properties, or
      `null`/`undefined`. A falsy `status` is `None`. */
  datatype Thrown =
    | FromHttp(e: HttpError)
    | Other(name: Option<string>, message: Option<string>, status: Option<int>)
    | Nullish

  /** Hand the error on (`next(err)`), or answer. */
  datatype Handling = Delegate | Respond(reply: Reply)

  /** `err?.name` */
  function NameOf(err: Thrown): Option<string> {
    match err
    case FromHttp(_) => Some("Error")
    case Other(name, _, _) => name
    case Nullish => None
  }

  /** `err?.message` */
  function MessageOf(err: Thrown): Option<string> {
    match err
    case FromHttp(e) => Some(e.message)
    case Other(_, message, _) => message
    case Nullish => None
  }

  /** `err?.status || 500` */
  function StatusOf(err: Thrown): (s: int)
    ensures s != 0
    ensures err.FromHttp? ==> s == (if err.e.status != 0 then err.e.status else 500)
    ensures err.Other? ==> s == (if err.status.Some? && err.status.value != 0 then err.status.value else 500)
    ensures err.Nullish? ==> s == 500
  {
    match err
    case FromHttp(e) => if e.status != 0 then e.status else 500
    case Other(_, _, status) => if status.Some? && status.value != 0 then status.value else 500
    case Nullish => 500
  }

  /** A rejected upload: multer's own error, or a message about image files. */
  predicate IsUploadError(err: Thrown) {
    NameOf(err) == Some("MulterError")
    || (MessageOf(err).Some? && Includes(MessageOf(err).value, "image files"))
  }

  /** `errorHandler(err, req, res, next)` */
  function Handle(err: Thrown, headersSent: bool): (r: Handling)
    ensures r.Delegate? <==> headersSent
    ensures !headersSent && IsUploadError(err) ==> r.reply == Json(400, ErrorBody(OptionalStr(MessageOf(err))))
    ensures r.Respond? && !IsUploadError(err) ==> r.reply.status == StatusOf(err)
    ensures r.Respond? ==> r.reply.status != 0
    ensures r.Respond? && r.reply.Text? ==> err.FromHttp? && err.e.responseType == Str("text")
    ensures r.Respond? && !IsUploadError(err) && err.FromHttp? ==>
              if err.e.responseType == Str("text") then r.reply == Text(StatusOf(err), err.e.message)
              else if Truthy(err.e.payload) then r.reply == Json(StatusOf(err), err.e.payload)
              else r.reply == Json(StatusOf(err), ErrorBody(Str(err.e.message)))
    ensures r.Respond? && !IsUploadError(err) && !err.FromHttp? ==>
              r.reply == Json(StatusOf(err), ErrorBody(Str(
                if MessageOf(err).Some? && MessageOf(err).value != "" then MessageOf(err).value
                else "Server error")))
  {
    if headersSent then Delegate
    else if NameOf(err) == Some("MulterError") then Respond(Json(400, ErrorBody(OptionalStr(MessageOf(err)))))
    else if MessageOf(err).Some? && Includes(MessageOf(err).value, "image files") then
      Respond(Json(400, ErrorBody(OptionalStr(MessageOf(err)))))
    else
      var status := StatusOf(err);
      match err
      case FromHttp(e) =>
        if e.responseType == Str("text") then Respond(Text(status, e.message))
        else if Truthy(e.payload) then Respond(Json(status, e.payload))
        else Respond(Json(status, ErrorBody(Str(e.message))))
      case _ =>
        Respond(Json(status, ErrorBody(Str(Or(OptionalStr(MessageOf(err)), Str("Server error")).s))))
  }

  /** The default message is not about image files. */
  lemma DefaultMessageIsNotUpload()
    ensures !Includes("Server error", "image files")
  {
    var s, m := "Server error", "image files";
    forall j | 0 <= j
      ensures !OccursAt(s, m, j)
    {
      if j + |m| <= |s| {
        assert s[j..j + |m|][0] == s[j] != m[0];
      }
    }
  }

  /** A request refused by `assertAuth` with its defaults reaches the client
      as 401 with `{ error: 'Unauthorized' }`, whatever the user was. */
  lemma FailedAuthIsUnauthorized(user: Option<Permissions.User>)
    requires Permissions.AssertAuth(user, None, Undefined).Failure?
    ensures Handle(FromHttp(Permissions.AssertAuth(user, None, Undefined).error), false)
            == Respond(Json(401, ErrorBody(Str("Unauthorized"))))
  {
    DefaultMessageIsNotUpload();
  }

  /** An error thrown with a text response type is sent as its bare message. */
  lemma TextErrorsSendTheMessage(status: int, message: string, payload: JsValue)
    requires status != 0
    requires !Includes(message, "image files")
    ensures Handle(FromHttp(NewHttpError(Some(status), Some(message), payload, Str("text"))), false)
            == Respond(Text(status, message))
  {
  }
}
