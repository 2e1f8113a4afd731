/** The response helpers of `utils/http.js`: a reply is a status with a JSON
    body or a plain-text body, and the error helpers wrap their payload into
    an object keyed by `error` unless it already is one. */
module Http {
  import opened Wrappers
  import opened Js

  /** What a handler writes: `res.status(s).json(body)` or `res.status(s).send(text)`. */
  datatype Reply = Json(status: int, body: JsValue) | Text(status: int, text: string)

  /** The error a handler throws for the error middleware; the constructor's
      defaults are applied by `NewHttpError`. */
  datatype HttpError = HttpError(status: int, message: string, payload: JsValue, responseType: JsValue)

  /** `new HttpError({ status = 500, message = 'Server error', payload, responseType })` */
  function NewHttpError(status: Option<int>, message: Option<string>, payload: JsValue, responseType: JsValue): (e: HttpError)
    ensures e.status == status.GetOr(500) && e.message == message.GetOr("Server error")
    ensures e.payload == payload && e.responseType == responseType
  {
    HttpError(status.GetOr(500), message.GetOr("Server error"), payload, responseType)
  }

  /** The key an error payload is filed under when none is given. */
  const DefaultKey := "error"

  /** `normalizePayload(payload, defaultKey = 'error')` */
  function NormalizePayload(payload: JsValue, defaultKey: Option<string>): (r: JsValue)
    ensures !Truthy(payload) ==> r == Obj(map[defaultKey.GetOr(DefaultKey) := Undefined])
    ensures payload.Str? && Truthy(payload) ==> r == Obj(map[defaultKey.GetOr(DefaultKey) := payload])
    ensures Truthy(payload) && !payload.Str? ==> r == payload
  {
    var key := defaultKey.GetOr(DefaultKey);
    if !Truthy(payload) then Obj(map[key := Undefined])
    else if payload.Str? then Obj(map[key := payload])
    else payload
  }

  /** A normalised payload is never a string and always truthy, and
      normalising it again changes nothing, whatever key is used. */
  lemma NormalizePayloadIdempotent(payload: JsValue, k1: Option<string>, k2: Option<string>)
    ensures !NormalizePayload(payload, k1).Str? && Truthy(NormalizePayload(payload, k1))
    ensures NormalizePayload(NormalizePayload(payload, k1), k2) == NormalizePayload(payload, k1)
  {
  }

  /** `ok(res, data)` */
  function Ok(data: JsValue): (r: Reply)
    ensures r.Json? && r.status == 200 && r.body == data
  {
    Json(200, data)
  }

  /** `created(res, data)` */
  function Created(data: JsValue): (r: Reply)
    ensures r.Json? && r.status == 201 && r.body == data
  {
    Json(201, data)
  }

  /** `fail(res, { status = 500, payload, defaultKey })` */
  function Fail(status: Option<int>, payload: JsValue, defaultKey: Option<string>): (r: Reply)
    ensures r.Json? && r.status == status.GetOr(500)
    ensures r.body == NormalizePayload(payload, defaultKey)
  {
    Json(status.GetOr(500), NormalizePayload(payload, defaultKey))
  }

  /** `badRequest(res, payload)` */
  function BadRequest(payload: JsValue): (r: Reply)
    ensures r.Json? && r.status == 400 && r.body == NormalizePayload(payload, None)
  {
    Fail(Some(400), payload, None)
  }

  /** `unauthorized(res, payload)` */
  function Unauthorized(payload: JsValue): (r: Reply)
    ensures r.Json? && r.status == 401 && r.body == NormalizePayload(payload, None)
  {
    Fail(Some(401), payload, None)
  }

  /** `forbidden(res, payload)` */
  function Forbidden(payload: JsValue): (r: Reply)
    ensures r.Json? && r.status == 403 && r.body == NormalizePayload(payload, None)
  {
    Fail(Some(403), payload, None)
  }

  /** `notFound(res, payload)` */
  function NotFound(payload: JsValue): (r: Reply)
    ensures r.Json? && r.status == 404 && r.body == NormalizePayload(payload, None)
  {
    Fail(Some(404), payload, None)
  }

  /** Every error helper given an `{ error: message }` object sends it as is. */
  lemma ErrorHelpersKeepErrorBody(message: string)
    ensures BadRequest(ErrorBody(Str(message))).body == ErrorBody(Str(message))
    ensures Unauthorized(ErrorBody(Str(message))).body == ErrorBody(Str(message))
    ensures Forbidden(ErrorBody(Str(message))).body == ErrorBody(Str(message))
    ensures NotFound(ErrorBody(Str(message))).body == ErrorBody(Str(message))
  {
  }
}
