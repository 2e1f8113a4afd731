/** The pure parts of `controllers/reactionController.js`: reading a request
    value, the like/dislike toggle, the counter delta of a transition and the
    non-negative clamp of counters read back from the store. */
module ReactionEngine {
  import opened Wrappers
  import opened Js
  import opened Ledger

  /** `normalizeValue`: the coerced request value is accepted only when it
      is exactly 1, -1 or 0. */
  function NormalizeValue(n: Number): (r: Option<Vote>)
    ensures r.Some? <==> n == Finite(1.0) || n == Finite(-1.0) || n == Finite(0.0)
    ensures r.Some? ==> n == Finite(r.value as real)
  {
    if n == Finite(1.0) then Some(1)
    else if n == Finite(-1.0) then Some(-1)
    else if n == Finite(0.0) then Some(0)
    else None
  }

  /** `computeNextValue`: an explicit 0 clears, a first vote is taken as is,
      the same vote again toggles it off and the opposite vote flips it. */
  function ComputeNextValue(current: Vote, requested: Vote): (r: Vote)
    ensures r == (if requested == 0 || requested == current then 0 else requested)
  {
    if requested == 0 then 0
    else if current == 0 then requested
    else if current == requested then 0
    else requested
  }

  /** The toggle as a user experiences it: a vote repeated from neutral goes
      back to neutral, a third time comes back, and after a flip the original
      vote is re-established. */
  lemma ToggleSequences(v: Vote)
    requires v != 0
    ensures ComputeNextValue(0, v) == v
    ensures ComputeNextValue(ComputeNextValue(0, v), v) == 0
    ensures ComputeNextValue(ComputeNextValue(ComputeNextValue(0, v), v), v) == v
    ensures ComputeNextValue(ComputeNextValue(v, -v), v) == v
    ensures forall p: Vote :: ComputeNextValue(p, 0) == 0
  {
  }

  /** How much one ledger value contributes to its target's counters. */
  function Contribution(v: Vote): Counts {
    Counts(Ind(v == 1), Ind(v == -1))
  }

  /** `incForTransition`: the delta that turns the old value's contribution
      into the new one's. */
  function IncForTransition(prev: Vote, next: Vote): (d: Delta)
    ensures Contribution(prev).likeCount + d.likeCount == Contribution(next).likeCount
    ensures Contribution(prev).dislikeCount + d.dislikeCount == Contribution(next).dislikeCount
    ensures -1 <= d.likeCount <= 1 && -1 <= d.dislikeCount <= 1
    ensures prev == next ==> d == Delta(0, 0)
  {
    var like := (if prev == 1 then -1 else 0) + (if next == 1 then 1 else 0);
    var dislike := (if prev == -1 then -1 else 0) + (if next == -1 then 1 else 0);
    Delta(like, dislike)
  }

  /** `clampPhotoCounts` / `clampCommentCounts`: a negative field is reset to
      0 (and written back), any other field is the freshly read value. */
  function Clamp(c: Counts): (r: Counts)
    ensures r.likeCount == (if c.likeCount < 0 then 0 else c.likeCount)
    ensures r.dislikeCount == (if c.dislikeCount < 0 then 0 else c.dislikeCount)
  {
    var resetLike := c.likeCount < 0;
    var resetDislike := c.dislikeCount < 0;
    if resetLike || resetDislike then
      Counts(if resetLike then 0 else c.likeCount, if resetDislike then 0 else c.dislikeCount)
    else
      c
  }

  /** Whether the clamp issues a corrective write. */
  predicate ClampWrites(c: Counts) {
    c.likeCount < 0 || c.dislikeCount < 0
  }

  /** The clamp's result is never negative, leaves non-negative counters
      alone, is idempotent, and writes exactly when it changes something. */
  lemma ClampProperties(c: Counts)
    ensures Clamp(c).likeCount >= 0 && Clamp(c).dislikeCount >= 0
    ensures !ClampWrites(c) <==> Clamp(c) == c
    ensures Clamp(Clamp(c)) == Clamp(c)
  {
  }
}
