/** The feed logic of `controllers/photoController.js`: the page size, the
    `date|id` cursor, the `limit + 1` fetch that tells whether there is a next
    page, and the controller's own copy of the reaction overlay. The store's
    cursor filter and sort are kept abstract: the handler is given the rows
    the query returns in feed order. */
module PhotoController {
  import opened Wrappers
  import opened Js
  import opened Http
  import opened Documents
  import opened PhotoPresenter
  import PhotoService

  /** `FEED_DEFAULT_LIMIT` */
  const FeedDefaultLimit := 12

  /** `FEED_MAX_LIMIT` */
  const FeedMaxLimit := 30

  /** The separator between the date and the id of a cursor. */
  const CursorSeparator := '|'

  // ---------------------------------------------------------------------
  // Page size

  /** `parseFeedLimit(req.query.limit)`: a parameter `parseInt` cannot read
      gives the default, anything else is clamped into [1, 30]. */
  function ParseFeedLimit(raw: QueryParam): (r: int)
    ensures 1 <= r <= FeedMaxLimit
    ensures ParseIntParam(raw).None? ==> r == FeedDefaultLimit
    ensures ParseIntParam(raw).Some? && 1 <= ParseIntParam(raw).value <= FeedMaxLimit
            ==> r == ParseIntParam(raw).value
    ensures ParseIntParam(raw).Some? && ParseIntParam(raw).value < 1 ==> r == 1
    ensures ParseIntParam(raw).Some? && ParseIntParam(raw).value > FeedMaxLimit ==> r == FeedMaxLimit
  {
    match ParseIntParam(raw)
    case None => FeedDefaultLimit
    case Some(parsed) =>
      var atLeastOne := if parsed > 1 then parsed else 1;
      if atLeastOne < FeedMaxLimit then atLeastOne else FeedMaxLimit
  }

  /** A page size written as `?limit=n` for any n in range is read back as n. */
  lemma FeedLimitRoundTrip(n: int)
    requires 1 <= n <= FeedMaxLimit
    ensures ParseFeedLimit(Single(DecimalString(n))) == n
  {
    ParseIntDecimal(n);
  }

  // ---------------------------------------------------------------------
  // Cursor

  /** A decoded cursor: the raw date text (handed to `new Date`) and the id. */
  datatype Cursor = Cursor(date: string, id: string)

  /** `parseCursor(rawCursor)`: only a non-empty string is considered; its
      first two `|`-separated pieces must both be non-empty, the first must
      be a date and the second an object id. `validDate` is "`new Date(d)`
      is not NaN" and `validId` is `isValidObjectId`. */
  function ParseCursor(raw: QueryParam, validDate: string -> bool, validId: string -> bool): (r: Option<Cursor>)
    ensures !raw.Single? || raw.text == "" ==> r.None?
    ensures r.Some? ==>
              && r.value.date != "" && r.value.id != ""
              && CursorSeparator !in r.value.date && CursorSeparator !in r.value.id
              && validDate(r.value.date) && validId(r.value.id)
    ensures r.Some? ==>
              var pieces := Split(raw.text, CursorSeparator);
              |pieces| >= 2 && pieces[0] == r.value.date && pieces[1] == r.value.id
  {
    match raw
    case Single(text) =>
      if text == "" then None
      else
        var pieces := Split(text, CursorSeparator);
        var rawDate := pieces[0];
        var rawId := if |pieces| > 1 then Some(pieces[1]) else None;
        if rawDate == "" || rawId.None? || rawId.value == "" then None
        else if !validDate(rawDate) then None
        else if !validId(rawId.value) then None
        else Some(Cursor(rawDate, rawId.value))
    case _ => None
  }

  /** The cursor the feed hands out: `${isoDate}|${id}`. */
  function FormatCursor(isoDate: string, id: string): string {
    isoDate + [CursorSeparator] + id
  }

  /** A cursor the feed hands out is accepted and decoded to its date and id,
      provided the date reads back as a date and the id as an object id. */
  lemma CursorRoundTrip(isoDate: string, id: string, validDate: string -> bool, validId: string -> bool)
    requires isoDate != "" && id != ""
    requires CursorSeparator !in isoDate && CursorSeparator !in id
    requires validDate(isoDate) && validId(id)
    ensures ParseCursor(Single(FormatCursor(isoDate, id)), validDate, validId) == Some(Cursor(isoDate, id))
  {
    SplitJoin([isoDate, id], CursorSeparator);
    assert Join([isoDate, id], [CursorSeparator]) == FormatCursor(isoDate, id);
  }

  /** A cursor without a separator, or with an empty date piece, is refused. */
  lemma MalformedCursorRefused(text: string, validDate: string -> bool, validId: string -> bool)
    requires text != ""
    requires CursorSeparator !in text || text[0] == CursorSeparator
    ensures ParseCursor(Single(text), validDate, validId).None?
  {
    if CursorSeparator !in text {
      SplitWhole(text, CursorSeparator);
    } else {
      SplitAfterPiece("", CursorSeparator, text[1..]);
      assert "" + [CursorSeparator] + text[1..] == text;
    }
  }

  /** Only the first two pieces matter: anything after a second separator is
      ignored. */
  lemma CursorIgnoresTail(isoDate: string, id: string, tail: string,
                          validDate: string -> bool, validId: string -> bool)
    requires isoDate != "" && id != ""
    requires CursorSeparator !in isoDate && CursorSeparator !in id
    requires validDate(isoDate) && validId(id)
    ensures ParseCursor(Single(FormatCursor(isoDate, id) + [CursorSeparator] + tail), validDate, validId)
            == Some(Cursor(isoDate, id))
  {
    var text := FormatCursor(isoDate, id) + [CursorSeparator] + tail;
    assert text == isoDate + [CursorSeparator] + (id + [CursorSeparator] + tail);
    SplitAfterPiece(isoDate, CursorSeparator, id + [CursorSeparator] + tail);
    SplitAfterPiece(id, CursorSeparator, tail);
  }

  // ---------------------------------------------------------------------
  // Shaping and the overlay (the controller's copies)

  /** `shapePhoto(doc, photoReactions, commentReactions)`, whose maps default
      to empty ones. */
  function ShapePhoto(doc: Option<PhotoDoc>, photoReactions: map<string, int>,
                      commentReactions: map<string, int>): (r: Option<ShapedPhoto>)
    ensures r.None? <==> doc.None?
    ensures r == ToClient(doc, Some(photoReactions), Some(commentReactions))
    ensures photoReactions == map[] && commentReactions == map[] ==> r == ToClient(doc, None, None)
  {
    match doc
    case None => None
    case Some(p) =>
      var cs := CommentsOf(p);
      var shaped := seq(|cs|, i requires 0 <= i < |cs| =>
        ShapedComment(cs[i].id, cs[i].comment, cs[i].dateTime, Or(cs[i].user, cs[i].userId),
                      CountOrZero(cs[i].likeCount), CountOrZero(cs[i].dislikeCount),
                      ReactionIn(commentReactions, cs[i].id)));
      assert shaped == ShapeComments(cs, Some(commentReactions));
      EmptyMapsAreNoMaps(doc);
      Some(ShapedPhoto(
        p,
        if p.imageUrl.Some? && p.imageUrl.value != "" then Some(BuildOptimizedUrl(p.imageUrl.value)) else None,
        CountOrZero(p.likeCount),
        CountOrZero(p.dislikeCount),
        ReactionIn(photoReactions, p.id),
        shaped))
  }

  function ShapeEach(photos: seq<PhotoDoc>, photoReactions: map<string, int>,
                     commentReactions: map<string, int>): (r: seq<ShapedPhoto>)
    ensures |r| == |photos|
    ensures forall i :: 0 <= i < |photos| ==> Some(r[i]) == ShapePhoto(Some(photos[i]), photoReactions, commentReactions)
  {
    if photos == [] then []
    else [ShapePhoto(Some(photos[0]), photoReactions, commentReactions).value]
         + ShapeEach(photos[1..], photoReactions, commentReactions)
  }

  /** The controller's `attachReactions`, which shapes with `shapePhoto` and
      empty default maps, sends exactly what the service's copy sends. */
  function AttachReactions(photos: Option<seq<PhotoDoc>>, userId: Option<string>,
                           collection: seq<ReactionRow>): (r: seq<ShapedPhoto>)
    ensures r == PhotoService.AttachReactions(photos, userId, collection)
  {
    match photos
    case None => []
    case Some(ps) =>
      if ps == [] then []
      else
        if !Present(userId) then
          var r := ShapeEach(ps, map[], map[]);
          assert r == PhotoService.ShapeAll(ps, None, None);
          r
        else
          var rows := PhotoService.FindReactions(collection, userId.value, PhotoService.PhotoIds(ps), PhotoService.CommentIds(ps));
          var maps := PhotoService.BuildMaps(rows);
          var r := ShapeEach(ps, maps.photo, maps.comment);
          assert r == PhotoService.ShapeAll(ps, Some(maps.photo), Some(maps.comment));
          r
  }

  // ---------------------------------------------------------------------
  // The feed

  /** `Photo.find(query).sort(...).limit(limit + 1)` on rows already in feed order. */
  function Fetch(ordered: seq<PhotoDoc>, limit: nat): (r: seq<PhotoDoc>)
    ensures |r| == if |ordered| <= limit + 1 then |ordered| else limit + 1
    ensures r == ordered[..|r|]
  {
    if |ordered| <= limit + 1 then ordered else ordered[..limit + 1]
  }

  /** The slice of lines 154-162: one page and whether there is more. */
  datatype Page = Page(items: seq<PhotoDoc>, hasMore: bool, nextCursor: Option<string>)

  /** `hasMore`, `items` and `nextCursor` from the fetched rows; `isoDate`
      is `new Date(d).toISOString()`. */
  function Paginate(fetched: seq<PhotoDoc>, limit: nat, isoDate: JsValue -> string): (p: Page)
    ensures p.hasMore <==> |fetched| > limit
    ensures |p.items| == if p.hasMore then limit else |fetched|
    ensures p.items == fetched[..|p.items|]
    ensures p.nextCursor.Some? <==> p.hasMore && limit > 0
    ensures p.nextCursor.Some? ==>
              var last := p.items[|p.items| - 1];
              p.nextCursor.value == FormatCursor(isoDate(last.dateTime), last.id)
  {
    var hasMore := |fetched| > limit;
    var items := if hasMore then fetched[..limit] else fetched;
    var nextCursor :=
      if hasMore && |items| > 0 then
        var last := items[|items| - 1];
        Some(FormatCursor(isoDate(last.dateTime), last.id))
      else None;
    Page(items, hasMore, nextCursor)
  }

  /** What `getRecentPhotos` answers: a refused cursor, or one page. */
  datatype Feed =
    | InvalidCursor
    | FeedPage(items: seq<ShapedPhoto>, nextCursor: Option<string>, hasMore: bool)

  /** The page `getRecentPhotos` serves once the cursor is accepted: at most
      `limit` photos, in feed order, each with the caller's reactions, and a
      next cursor exactly when there are more photos. */
  function ServePage(ordered: seq<PhotoDoc>, limit: nat, userId: Option<string>,
                     collection: seq<ReactionRow>, isoDate: JsValue -> string): (r: Feed)
    requires limit >= 1
    ensures r.FeedPage?
    ensures r.hasMore <==> |ordered| > limit
    ensures |r.items| == (if |ordered| < limit then |ordered| else limit)
    ensures forall i :: 0 <= i < |r.items| ==> r.items[i].doc == ordered[i]
    ensures r.nextCursor.Some? <==> r.hasMore
    ensures r.nextCursor.Some? ==>
              r.nextCursor.value == FormatCursor(isoDate(ordered[limit - 1].dateTime), ordered[limit - 1].id)
    ensures r.items == AttachReactions(Some(ordered[..|r.items|]), userId, collection)
  {
    var page := Paginate(Fetch(ordered, limit), limit, isoDate);
    FetchedPage(ordered, limit, isoDate);
    var shaped := AttachReactions(Some(page.items), userId, collection);
    FeedPage(shaped, page.nextCursor, page.hasMore)
  }

  /** Fetching `limit + 1` rows and paginating them gives the first `limit`
      rows of the feed, says whether more follow, and names the last of them
      in the next cursor. */
  lemma FetchedPage(ordered: seq<PhotoDoc>, limit: nat, isoDate: JsValue -> string)
    requires limit >= 1
    ensures var p := Paginate(Fetch(ordered, limit), limit, isoDate);
            && (p.hasMore <==> |ordered| > limit)
            && p.items == ordered[..if |ordered| < limit then |ordered| else limit]
            && (p.nextCursor.Some? <==> p.hasMore)
            && (p.nextCursor.Some? ==>
                  p.nextCursor.value == FormatCursor(isoDate(ordered[limit - 1].dateTime), ordered[limit - 1].id))
  {
    var fetched := Fetch(ordered, limit);
    var p := Paginate(fetched, limit, isoDate);
    assert p.items == fetched[..|p.items|];
    assert fetched == ordered[..|fetched|];
    if p.hasMore {
      assert p.items[limit - 1] == ordered[limit - 1];
    }
  }

  /** `getRecentPhotos`: the cursor is checked before anything is read; a
      page holds at most `limit` photos, in feed order, each with the
      caller's reactions; there is a next cursor exactly when there are more
      photos. `ordered` is what the store returns for the cursor, in feed
      order. */
  function GetRecentPhotos(rawLimit: QueryParam, rawCursor: QueryParam, ordered: seq<PhotoDoc>,
                           userId: Option<string>, collection: seq<ReactionRow>,
                           validDate: string -> bool, validId: string -> bool,
                           isoDate: JsValue -> string): (r: Feed)
    ensures r.InvalidCursor? <==> QueryTruthy(rawCursor) && ParseCursor(rawCursor, validDate, validId).None?
    ensures r.FeedPage? ==>
              var limit := ParseFeedLimit(rawLimit);
              && (r.hasMore <==> |ordered| > limit)
              && |r.items| == (if |ordered| < limit then |ordered| else limit)
              && (forall i :: 0 <= i < |r.items| ==> r.items[i].doc == ordered[i])
              && (r.nextCursor.Some? <==> r.hasMore)
              && (r.nextCursor.Some? ==>
                    r.nextCursor.value == FormatCursor(isoDate(ordered[limit - 1].dateTime), ordered[limit - 1].id))
              && r.items == AttachReactions(Some(ordered[..|r.items|]), userId, collection)
  {
    var limit := ParseFeedLimit(rawLimit);
    if QueryTruthy(rawCursor) && ParseCursor(rawCursor, validDate, validId).None? then InvalidCursor
    else ServePage(ordered, limit, userId, collection, isoDate)
  }

  /** The next cursor of a full page decodes to the date and id of its last
      photo, when the rendered date reads back and the id is an object id. */
  lemma NextCursorResumes(fetched: seq<PhotoDoc>, limit: nat, isoDate: JsValue -> string,
                          validDate: string -> bool, validId: string -> bool)
    requires |fetched| > limit > 0
    requires var last := fetched[limit - 1];
             && isoDate(last.dateTime) != "" && last.id != ""
             && CursorSeparator !in isoDate(last.dateTime) && CursorSeparator !in last.id
             && validDate(isoDate(last.dateTime)) && validId(last.id)
    ensures var p := Paginate(fetched, limit, isoDate);
            var last := fetched[limit - 1];
            && p.nextCursor.Some?
            && ParseCursor(Single(p.nextCursor.value), validDate, validId)
               == Some(Cursor(isoDate(last.dateTime), last.id))
  {
    var last := fetched[limit - 1];
    CursorRoundTrip(isoDate(last.dateTime), last.id, validDate, validId);
  }

  /** The reply of the feed handler. */
  function FeedReply(f: Feed): (r: Option<Reply>)
    ensures f.InvalidCursor? <==> r.Some?
    ensures r.Some? ==> r.value == Json(400, ErrorBody(Str("Invalid cursor")))
  {
    match f
    case InvalidCursor =>
      ErrorHelpersKeepErrorBody("Invalid cursor");
      Some(BadRequest(ErrorBody(Str("Invalid cursor"))))
    case FeedPage(_, _, _) => None
  }
}
