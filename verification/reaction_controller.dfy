/** The reaction handlers `reactToPhoto` and `reactToComment` as one
    sequential state transition over the abstract store, parameterised by
    the target kind. A request is validated (user, id, value) before the
    store is consulted; a valid one on an existing target writes the ledger,
    applies the counter delta, clamps and reports the new state. */
module ReactionController {
  import opened Wrappers
  import opened Js
  import opened Http
  import opened Documents
  import opened Ledger
  import opened ReactionEngine

  /** A reaction request: the authenticated user's id if any (`req.user?._id`),
      the id from the route, and `Number(req.body?.value)`. */
  datatype ReactRequest = ReactRequest(user: Option<string>, targetId: string, value: Number)

  /** What the handler answers: the new state, or an error status and message. */
  datatype Outcome =
    | Reacted(myReaction: Vote, likeCount: int, dislikeCount: int)
    | Refused(status: int, message: string)

  datatype Step = Step(store: Store, outcome: Outcome)

  function InvalidIdMessage(kind: TargetType): string {
    match kind
    case Photo => "Invalid photo id"
    case Comment => "Invalid comment id"
  }

  function NotFoundMessage(kind: TargetType): string {
    match kind
    case Photo => "Photo not found"
    case Comment => "Comment not found"
  }

  /** The outcome of a request that passed validation on an existing target. */
  predicate Validated(s: Store, kind: TargetType, req: ReactRequest, validId: string -> bool) {
    && Present(req.user)
    && validId(req.targetId)
    && NormalizeValue(req.value).Some?
    && Target(kind, req.targetId) in s.counters
  }

  /** The body of a valid request on an existing target: read the previous
      value, compute the next one, write the ledger, apply the counter delta
      (only when it is non-zero), clamp, and report. */
  function Transition(s: Store, k: Key, requested: Vote): (r: Step)
    requires k.target in s.counters
    ensures r.outcome.Reacted?
    ensures r.outcome.myReaction == ComputeNextValue(VoteOf(s.ledger, k), requested)
    ensures VoteOf(r.store.ledger, k) == r.outcome.myReaction
    ensures forall k' :: k' != k ==> VoteOf(r.store.ledger, k') == VoteOf(s.ledger, k')
    ensures r.store.counters == s.counters[k.target := Counts(r.outcome.likeCount, r.outcome.dislikeCount)]
    ensures r.outcome.likeCount >= 0 && r.outcome.dislikeCount >= 0
    ensures var prev := VoteOf(s.ledger, k);
            var next := ComputeNextValue(prev, requested);
            && r.store.ledger == WriteLedger(s.ledger, k, next)
            && Counts(r.outcome.likeCount, r.outcome.dislikeCount)
               == Clamp(ApplyDelta(s.counters[k.target], IncForTransition(prev, next)))
  {
    var t := k.target;
    var prev := VoteOf(s.ledger, k);
    var next := ComputeNextValue(prev, requested);
    var ledger := WriteLedger(s.ledger, k, next);
    var inc := IncForTransition(prev, next);
    var updated := if inc != Delta(0, 0) then ApplyDelta(s.counters[t], inc) else s.counters[t];
    var counts := Clamp(updated);
    ClampProperties(updated);
    Step(Store(ledger, s.counters[t := counts]), Reacted(next, counts.likeCount, counts.dislikeCount))
  }

  /** `reactToPhoto` (kind Photo) and `reactToComment` (kind Comment);
      `validId` is `isValidObjectId`. */
  function React(s: Store, kind: TargetType, req: ReactRequest, validId: string -> bool): (r: Step)
    ensures !Present(req.user) ==> r.outcome == Refused(401, "Unauthorized")
    ensures Present(req.user) && !validId(req.targetId) ==> r.outcome == Refused(400, InvalidIdMessage(kind))
    ensures Present(req.user) && validId(req.targetId) && NormalizeValue(req.value).None?
            ==> r.outcome == Refused(400, "Invalid value")
    ensures r.outcome == Refused(404, NotFoundMessage(kind))
            <==> (&& Present(req.user) && validId(req.targetId) && NormalizeValue(req.value).Some?
                  && Target(kind, req.targetId) !in s.counters)
    ensures r.outcome.Reacted? <==> Validated(s, kind, req, validId)
    ensures r.outcome.Refused? ==> r.store == s
    ensures r.outcome.Reacted? ==>
              r == Transition(s, Key(req.user.value, Target(kind, req.targetId)), NormalizeValue(req.value).value)
  {
    var value := NormalizeValue(req.value);
    if !Present(req.user) then Step(s, Refused(401, "Unauthorized"))
    else if !validId(req.targetId) then Step(s, Refused(400, InvalidIdMessage(kind)))
    else if value.None? then Step(s, Refused(400, "Invalid value"))
    else
      var t := Target(kind, req.targetId);
      if t !in s.counters then Step(s, Refused(404, NotFoundMessage(kind)))
      else Transition(s, Key(req.user.value, t), value.value)
  }

  /** Validation never reads the store: a request refused with 401 or 400 is
      refused the same way whatever the ledger and counters hold. */
  lemma ValidationPrecedesStore(s1: Store, s2: Store, kind: TargetType, req: ReactRequest, validId: string -> bool)
    requires React(s1, kind, req, validId).outcome.Refused?
    requires React(s1, kind, req, validId).outcome.status != 404
    ensures React(s2, kind, req, validId).outcome == React(s1, kind, req, validId).outcome
  {
  }

  /** The reply the handler sends for an outcome. */
  function ReplyOf(o: Outcome): (r: Reply)
    ensures r.Json?
    ensures o.Reacted? ==> r.status == 200
    ensures o.Reacted? ==>
              r.body == Obj(map["myReaction" := IntValue(o.myReaction),
                                "likeCount" := IntValue(o.likeCount),
                                "dislikeCount" := IntValue(o.dislikeCount)])
    ensures o.Refused? && o.status in {400, 401, 404} ==> r == Json(o.status, ErrorBody(Str(o.message)))
  {
    match o
    case Reacted(mine, likes, dislikes) =>
      Ok(Obj(map["myReaction" := IntValue(mine), "likeCount" := IntValue(likes), "dislikeCount" := IntValue(dislikes)]))
    case Refused(status, message) =>
      ErrorHelpersKeepErrorBody(message);
      if status == 401 then Unauthorized(ErrorBody(Str(message)))
      else if status == 404 then NotFound(ErrorBody(Str(message)))
      else if status == 400 then BadRequest(ErrorBody(Str(message)))
      else Fail(Some(status), ErrorBody(Str(message)), None)
  }
}
