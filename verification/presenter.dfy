/** The client view of a photo (`presenters/photoPresenter.js`, duplicated as
    `buildOptimizedUrl`/`shapePhoto` in `controllers/photoController.js`): the
    delivery URL with the optimising transformation spliced in, and a stored
    photo with defaulted counters and the caller's own reactions attached to
    it and to each of its comments. */
module PhotoPresenter {
  import opened Wrappers
  import opened Js
  import opened Documents

  /** The path segment after which a delivery URL takes transformations. */
  const UploadMarker := "/upload/"

  /** `OPTIMIZED_TRANSFORM`: automatic format and quality, 1080 pixels wide. */
  const OptimizedTransform := "f_auto,q_auto,w_1080"

  /** What the splice inserts right after the first marker. */
  const Inserted := OptimizedTransform + "/"

  // ---------------------------------------------------------------------
  // Optimised delivery URL

  /** `buildOptimizedUrl`: empty stays empty, a URL without the marker is
      returned as is, otherwise the transformation goes right after the
      first occurrence of the marker. */
  function BuildOptimizedUrl(url: string): (r: string)
    ensures url == "" ==> r == ""
    ensures IndexOf(url, UploadMarker).None? ==> r == url
    ensures IndexOf(url, UploadMarker).Some? ==> |r| == |url| + |Inserted|
  {
    if url == "" then ""
    else
      match IndexOf(url, UploadMarker)
      case None => url
      case Some(idx) =>
        var cut := idx + |UploadMarker|;
        url[..cut] + OptimizedTransform + "/" + url[cut..]
  }

  /** The inverse splice: where the first marker is directly followed by the
      inserted segment, take that segment out; leave anything else alone. */
  function UnoptimizeUrl(url: string): string {
    match IndexOf(url, UploadMarker)
    case None => url
    case Some(idx) =>
      var cut := idx + |UploadMarker|;
      if cut + |Inserted| <= |url| && url[cut..cut + |Inserted|] == Inserted
      then url[..cut] + url[cut + |Inserted|..]
      else url
  }

  /** If `m` occurs at `i` and nowhere before, `i` is its first occurrence. */
  lemma FirstOccurrence(s: string, m: string, i: nat)
    requires OccursAt(s, m, i)
    requires forall j :: 0 <= j < i ==> !OccursAt(s, m, j)
    ensures IndexOf(s, m) == Some(i)
  {
  }

  /** The splice keeps the split point: the first marker of the optimised URL
      is the input's first marker, and the inserted segment follows it. */
  lemma {:induction false} OptimizedKeepsMarker(url: string)
    requires IndexOf(url, UploadMarker).Some?
    ensures IndexOf(BuildOptimizedUrl(url), UploadMarker) == IndexOf(url, UploadMarker)
    ensures var cut := IndexOf(url, UploadMarker).value + |UploadMarker|;
            var r := BuildOptimizedUrl(url);
            && cut + |Inserted| <= |r|
            && r[..cut] == url[..cut]
            && r[cut..cut + |Inserted|] == Inserted
            && r[cut + |Inserted|..] == url[cut..]
  {
    var idx := IndexOf(url, UploadMarker).value;
    var cut := idx + |UploadMarker|;
    assert OccursAt(url, UploadMarker, idx);
    var r := BuildOptimizedUrl(url);
    assert r == url[..cut] + Inserted + url[cut..];
    assert r[..cut] == url[..cut];
    forall j | 0 <= j < idx
      ensures !OccursAt(r, UploadMarker, j)
    {
      assert !OccursAt(url, UploadMarker, j);
      assert r[j..j + |UploadMarker|] == r[..cut][j..j + |UploadMarker|];
      assert url[j..j + |UploadMarker|] == url[..cut][j..j + |UploadMarker|];
    }
    assert r[idx..cut] == url[idx..cut];
    FirstOccurrence(r, UploadMarker, idx);
  }

  /** Deleting the inserted segment recovers the input, for every URL. */
  lemma OptimizeRoundTrip(url: string)
    ensures UnoptimizeUrl(BuildOptimizedUrl(url)) == url
  {
    if url != "" && IndexOf(url, UploadMarker).Some? {
      OptimizedKeepsMarker(url);
      var cut := IndexOf(url, UploadMarker).value + |UploadMarker|;
      var r := BuildOptimizedUrl(url);
      assert UnoptimizeUrl(r) == r[..cut] + r[cut + |Inserted|..];
      assert url == url[..cut] + url[cut..];
    }
  }

  /** `p.imageUrl ? buildOptimizedUrl(p.imageUrl) : undefined` */
  function OptimizedOf(imageUrl: Option<string>): (r: Option<string>)
    ensures r.Some? <==> imageUrl.Some? && imageUrl.value != ""
    ensures r.Some? ==> r.value == BuildOptimizedUrl(imageUrl.value)
    ensures r.Some? ==> UnoptimizeUrl(r.value) == imageUrl.value
  {
    match imageUrl
    case Some(u) =>
      if u != "" then
        OptimizeRoundTrip(u);
        Some(BuildOptimizedUrl(u))
      else None
    case None => None
  }

  // ---------------------------------------------------------------------
  // Shaping for the client

  /** `reactions?.get(String(id)) || 0`: the recorded value when there is
      one (a recorded 0 reads as 0 either way), otherwise 0. */
  function LookupReaction(reactions: Option<map<string, int>>, id: string): (r: int)
    ensures r == (if reactions.Some? && id in reactions.value then reactions.value[id] else 0)
  {
    match reactions
    case None => 0
    case Some(m) => ReactionIn(m, id)
  }

  /** One comment as the client sees it. */
  function ShapeComment(c: CommentDoc, commentReactions: Option<map<string, int>>): (r: ShapedComment)
    ensures r.id == c.id && r.comment == c.comment && r.dateTime == c.dateTime
    ensures Truthy(c.user) ==> r.user == c.user
    ensures !Truthy(c.user) ==> r.user == c.userId
    ensures c.likeCount.Some? ==> r.likeCount == c.likeCount.value
    ensures c.likeCount.None? ==> r.likeCount == 0
    ensures c.dislikeCount.Some? ==> r.dislikeCount == c.dislikeCount.value
    ensures c.dislikeCount.None? ==> r.dislikeCount == 0
    ensures r.myReaction == LookupReaction(commentReactions, c.id)
  {
    ShapedComment(
      c.id, c.comment, c.dateTime, Or(c.user, c.userId),
      CountOrZero(c.likeCount), CountOrZero(c.dislikeCount),
      LookupReaction(commentReactions, c.id))
  }

  /** The `comments.map(...)` of the presenter. */
  function ShapeComments(cs: seq<CommentDoc>, commentReactions: Option<map<string, int>>): (r: seq<ShapedComment>)
    ensures |r| == |cs|
    ensures forall i :: 0 <= i < |cs| ==> r[i] == ShapeComment(cs[i], commentReactions)
  {
    if cs == [] then []
    else [ShapeComment(cs[0], commentReactions)] + ShapeComments(cs[1..], commentReactions)
  }

  /** `toClient(photo, { photoReactions, commentReactions })`: no photo gives
      no view; otherwise the stored photo with the optimised URL, defaulted
      counters, the caller's reaction and its comments shaped in order. */
  function ToClient(photo: Option<PhotoDoc>, photoReactions: Option<map<string, int>>,
                    commentReactions: Option<map<string, int>>): (r: Option<ShapedPhoto>)
    ensures r.None? <==> photo.None?
    ensures r.Some? ==> r.value.doc == photo.value
    ensures r.Some? ==> r.value.imageUrlOptimized == OptimizedOf(photo.value.imageUrl)
    ensures r.Some? ==> r.value.comments == ShapeComments(CommentsOf(photo.value), commentReactions)
    ensures r.Some? ==> r.value.myReaction == LookupReaction(photoReactions, photo.value.id)
  {
    match photo
    case None => None
    case Some(p) =>
      Some(ShapedPhoto(
        p,
        OptimizedOf(p.imageUrl),
        CountOrZero(p.likeCount),
        CountOrZero(p.dislikeCount),
        LookupReaction(photoReactions, p.id),
        ShapeComments(CommentsOf(p), commentReactions)))
  }

  /** A stored counter is reported as stored, a missing one as 0, on the
      photo and on every comment. */
  lemma CountsDefaulted(p: PhotoDoc, photoReactions: Option<map<string, int>>,
                        commentReactions: Option<map<string, int>>)
    ensures var v := ToClient(Some(p), photoReactions, commentReactions).value;
            && v.likeCount == (if p.likeCount.Some? then p.likeCount.value else 0)
            && v.dislikeCount == (if p.dislikeCount.Some? then p.dislikeCount.value else 0)
            && forall i :: 0 <= i < |v.comments| ==>
                 var c := CommentsOf(p)[i];
                 && v.comments[i].likeCount == (if c.likeCount.Some? then c.likeCount.value else 0)
                 && v.comments[i].dislikeCount == (if c.dislikeCount.Some? then c.dislikeCount.value else 0)
  {
  }

  /** Without reaction maps, the photo and every comment report no reaction. */
  lemma NoMapsNoReaction(p: PhotoDoc)
    ensures var v := ToClient(Some(p), None, None).value;
            && v.myReaction == 0
            && forall i :: 0 <= i < |v.comments| ==> v.comments[i].myReaction == 0
  {
  }

  /** An empty map behaves exactly like no map. */
  lemma EmptyMapsAreNoMaps(photo: Option<PhotoDoc>)
    ensures ToClient(photo, Some(map[]), Some(map[])) == ToClient(photo, None, None)
  {
    if photo.Some? {
      var cs := CommentsOf(photo.value);
      assert ShapeComments(cs, Some(map[])) == ShapeComments(cs, None);
    }
  }
}
