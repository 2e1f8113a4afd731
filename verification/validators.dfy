/** The request helpers of `utils/validators.js`: the object-id check that
    can answer a bad request itself, the `limit`/`skip` pagination reader and
    the type-safe trim. `isValidObjectId` is a parameter. */
module Validators {
  import opened Wrappers
  import opened Js
  import opened Http

  /** What `requireObjectId` returns, and the reply it wrote, if any. */
  datatype IdCheck = IdCheck(valid: bool, written: Option<Reply>)

  /** `requireObjectId(value, { res, payload, status = 400 })`; `hasRes` says
      whether a response object was passed. */
  function RequireObjectId(value: JsValue, validId: JsValue -> bool, hasRes: bool,
                           payload: JsValue, status: Option<int>): (r: IdCheck)
    ensures r.valid <==> validId(value)
    ensures r.written.Some? <==> !validId(value) && hasRes
    ensures r.written.Some? ==> r.written.value.Json? && r.written.value.status == status.GetOr(400)
    ensures r.written.Some? && Truthy(payload) ==> r.written.value.body == payload
    ensures r.written.Some? && !Truthy(payload) ==> r.written.value.body == ErrorBody(Str("Invalid id"))
  {
    if validId(value) then IdCheck(true, None)
    else if hasRes then IdCheck(false, Some(Json(status.GetOr(400), Or(payload, ErrorBody(Str("Invalid id"))))))
    else IdCheck(false, None)
  }

  /** With only a response object, an invalid id is answered with 400 and
      `{ error: 'Invalid id' }`, and a valid one is let through untouched. */
  lemma RequireObjectIdDefaults(value: JsValue, validId: JsValue -> bool)
    ensures var r := RequireObjectId(value, validId, true, Undefined, None);
            && (validId(value) ==> r == IdCheck(true, None))
            && (!validId(value) ==> r == IdCheck(false, Some(Json(400, ErrorBody(Str("Invalid id"))))))
  {
  }

  // ---------------------------------------------------------------------
  // Pagination

  /** The two query parameters pagination reads. */
  datatype PageQuery = PageQuery(limit: QueryParam, skip: QueryParam)

  datatype Pagination = Pagination(limit: int, skip: int)

  /** The documented defaults of `parsePagination`. */
  const DefaultLimit := 20
  const DefaultMaxLimit := 100
  const DefaultSkip := 0

  /** `Number.parseInt(x, 10) || fallback`: NaN and 0 both fall back. */
  function ParsedOr(raw: QueryParam, fallback: int): (r: int)
    ensures ParseIntParam(raw).Some? && ParseIntParam(raw).value != 0 ==> r == ParseIntParam(raw).value
    ensures ParseIntParam(raw).None? || ParseIntParam(raw) == Some(0) ==> r == fallback
  {
    match ParseIntParam(raw)
    case Some(n) => if n != 0 then n else fallback
    case None => fallback
  }

  /** `parsePagination(query, { defaultLimit, maxLimit, defaultSkip })`:
      `query` may be absent, and so may each option. */
  function ParsePagination(query: Option<PageQuery>, defaultLimit: Option<int>, maxLimit: Option<int>,
                           defaultSkip: Option<int>): (r: Pagination)
    ensures r.limit <= maxLimit.GetOr(DefaultMaxLimit)
    ensures maxLimit.GetOr(DefaultMaxLimit) >= 1 ==> r.limit >= 1
    ensures r.skip >= 0
    ensures var q := if query.Some? then query.value.limit else Missing;
            var wanted := ParsedOr(q, defaultLimit.GetOr(DefaultLimit));
            var max := maxLimit.GetOr(DefaultMaxLimit);
            && (1 <= wanted <= max ==> r.limit == wanted)
            && (wanted > max ==> r.limit == max)
            && (wanted < 1 <= max ==> r.limit == 1)
    ensures var q := if query.Some? then query.value.skip else Missing;
            var wanted := ParsedOr(q, defaultSkip.GetOr(DefaultSkip));
            && (wanted > 0 ==> r.skip == wanted)
            && (wanted <= 0 ==> r.skip == 0)
  {
    var rawLimit := if query.Some? then query.value.limit else Missing;
    var rawSkip := if query.Some? then query.value.skip else Missing;
    var max := maxLimit.GetOr(DefaultMaxLimit);
    var wanted := ParsedOr(rawLimit, defaultLimit.GetOr(DefaultLimit));
    var atLeastOne := if wanted > 1 then wanted else 1;
    var limit := if max < atLeastOne then max else atLeastOne;
    var skipWanted := ParsedOr(rawSkip, defaultSkip.GetOr(DefaultSkip));
    Pagination(limit, if skipWanted > 0 then skipWanted else 0)
  }

  /** With no query and no options the page is the documented default: 20
      items from the start; a missing query takes the caller's defaults,
      clamped like any other value. */
  lemma MissingQueryUsesDefaults(d: Option<int>, m: Option<int>, ds: Option<int>)
    ensures ParsePagination(None, None, None, None) == Pagination(DefaultLimit, DefaultSkip)
    ensures var r := ParsePagination(None, d, m, ds);
            var wanted := d.GetOr(DefaultLimit);
            var max := m.GetOr(DefaultMaxLimit);
            && (wanted != 0 && 1 <= wanted <= max ==> r.limit == wanted)
            && (wanted > max ==> r.limit == max)
            && r.skip == (if ds.GetOr(DefaultSkip) > 0 then ds.GetOr(DefaultSkip) else 0)
  {
    MissingIsNaN();
  }

  /** Because of `||`, an explicit `limit=0` is read exactly as a missing
      one, and so is a limit `parseInt` cannot read. */
  lemma ZeroLimitFallsBack(limit: QueryParam, skip: QueryParam, d: Option<int>, m: Option<int>, ds: Option<int>)
    ensures ParseIntParam(limit).None? || ParseIntParam(limit) == Some(0) ==>
              ParsePagination(Some(PageQuery(limit, skip)), d, m, ds)
              == ParsePagination(Some(PageQuery(Missing, skip)), d, m, ds)
  {
    MissingIsNaN();
  }

  /** Likewise an explicit `skip=0` or an unreadable skip is read as a
      missing one. */
  lemma ZeroSkipFallsBack(limit: QueryParam, skip: QueryParam, d: Option<int>, m: Option<int>, ds: Option<int>)
    ensures ParseIntParam(skip).None? || ParseIntParam(skip) == Some(0) ==>
              ParsePagination(Some(PageQuery(limit, skip)), d, m, ds)
              == ParsePagination(Some(PageQuery(limit, Missing)), d, m, ds)
  {
    MissingIsNaN();
  }

  /** A `limit` written as a number within range is read back as that number. */
  lemma LimitRoundTrip(n: int, skip: QueryParam, d: Option<int>, m: Option<int>, ds: Option<int>)
    requires 1 <= n <= m.GetOr(DefaultMaxLimit)
    ensures ParsePagination(Some(PageQuery(Single(DecimalString(n)), skip)), d, m, ds).limit == n
  {
    ParseIntDecimal(n);
  }

  // ---------------------------------------------------------------------
  // Trimming

  /** `safeTrim(value)`: a non-string gives the empty string; a string loses
      its leading and trailing whitespace and nothing else. */
  function SafeTrim(v: JsValue): (r: string)
    ensures !v.Str? ==> r == ""
    ensures v.Str? ==> exists lead :: TrimmedAt(v.s, r, lead)
    ensures r == [] || (!IsWhitespace(r[0]) && !IsWhitespace(r[|r| - 1]))
  {
    match v
    case Str(s) =>
      TrimIsTrimmedAt(s);
      Trim(s)
    case _ => ""
  }

  /** Trimming what was already trimmed changes nothing. */
  lemma SafeTrimIdempotent(v: JsValue)
    ensures SafeTrim(Str(SafeTrim(v))) == SafeTrim(v)
  {
    if v.Str? {
      TrimIdempotent(v.s);
      assert SafeTrim(v) == Trim(v.s);
      assert SafeTrim(Str(Trim(v.s))) == Trim(Trim(v.s));
    }
  }
}
