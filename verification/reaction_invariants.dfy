/** Counter conservation for the reaction handlers: the like and dislike
    counters of every target stay equal to the number of +1 and -1 ledger
    records for it, across any sequence of requests, so the clamp is a
    safeguard that never fires from a consistent start. */
module ReactionInvariants {
  import opened Wrappers
  import opened Js
  import opened Documents
  import opened Ledger
  import opened ReactionEngine
  import opened ReactionController

  /** On the target it touches, the delta of a transition carries counters
      equal to the old tallies to counters equal to the new ones. */
  lemma DeltaKeepsTally(l: LedgerMap, c: Counts, k: Key, requested: Vote)
    requires c == Tally(l, k.target)
    ensures var prev := VoteOf(l, k);
            var next := ComputeNextValue(prev, requested);
            ApplyDelta(c, IncForTransition(prev, next)) == Tally(WriteLedger(l, k, next), k.target)
  {
    WriteMovesOneRecord(l, k, ComputeNextValue(VoteOf(l, k), requested));
  }

  /** Any write for `k`, whatever value it stores, changes the tallies of its
      target by exactly the delta from the old value to the new. */
  lemma WriteMovesOneRecord(l: LedgerMap, k: Key, next: Vote)
    ensures ApplyDelta(Tally(l, k.target), IncForTransition(VoteOf(l, k), next))
            == Tally(WriteLedger(l, k, next), k.target)
  {
    var t := k.target;
    TallyAfterWrite(l, k, next, t, 1);
    TallyAfterWrite(l, k, next, t, -1);
    DeltaMovesCounts(VoteOf(l, k), next, Tally(l, t), Tally(WriteLedger(l, k, next), t));
  }

  /** Counts that lose the old value's record and gain the new value's are
      the old counts moved by the transition's delta. */
  lemma DeltaMovesCounts(prev: Vote, next: Vote, before: Counts, after: Counts)
    requires after.likeCount == before.likeCount - Ind(prev == 1) + Ind(next == 1)
    requires after.dislikeCount == before.dislikeCount - Ind(prev == -1) + Ind(next == -1)
    ensures ApplyDelta(before, IncForTransition(prev, next)) == after
  {
  }

  /** A write for one target leaves the tallies of every other target as they were. */
  lemma TallyElsewhere(l: LedgerMap, k: Key, next: Vote, t: Target)
    requires t != k.target
    ensures Tally(WriteLedger(l, k, next), t) == Tally(l, t)
  {
    TallyAfterWrite(l, k, next, t, 1);
    TallyAfterWrite(l, k, next, t, -1);
  }

  /** Writing the ledger for one key and resetting that key's target to its
      new tally keeps a consistent store consistent. */
  lemma WritePreservesConsistency(s: Store, k: Key, next: Vote)
    requires Consistent(s)
    ensures var l := WriteLedger(s.ledger, k, next);
            Consistent(Store(l, s.counters[k.target := Tally(l, k.target)]))
  {
    var l := WriteLedger(s.ledger, k, next);
    var s' := Store(l, s.counters[k.target := Tally(l, k.target)]);
    forall t | t in s'.counters
      ensures s'.counters[t] == Tally(l, t)
    {
      if t != k.target {
        TallyElsewhere(s.ledger, k, next, t);
      }
    }
  }

  /** One transition from a consistent store leaves it consistent, and the
      counts it reports are the new tallies of its target. */
  lemma TransitionPreservesConsistency(s: Store, k: Key, requested: Vote)
    requires Consistent(s)
    requires k.target in s.counters
    ensures Consistent(Transition(s, k, requested).store)
    ensures var r := Transition(s, k, requested);
            Counts(r.outcome.likeCount, r.outcome.dislikeCount) == Tally(r.store.ledger, k.target)
  {
    var r := Transition(s, k, requested);
    var next := r.outcome.myReaction;
    DeltaKeepsTally(s.ledger, s.counters[k.target], k, requested);
    WritePreservesConsistency(s, k, next);
  }

  /** Counter conservation: a request on a consistent store leaves it
      consistent; when it reacts, the counters read back after the delta are
      the new tallies, so they are never negative and the clamp never fires. */
  lemma {:induction false} ReactPreservesConsistency(s: Store, kind: TargetType, req: ReactRequest, validId: string -> bool)
    requires Consistent(s)
    ensures Consistent(React(s, kind, req, validId).store)
    ensures var r := React(s, kind, req, validId);
            r.outcome.Reacted? ==>
              var t := Target(kind, req.targetId);
              var prev := VoteOf(s.ledger, Key(req.user.value, t));
              && Counts(r.outcome.likeCount, r.outcome.dislikeCount) == Tally(r.store.ledger, t)
              && !ClampWrites(ApplyDelta(s.counters[t], IncForTransition(prev, r.outcome.myReaction)))
  {
    var r := React(s, kind, req, validId);
    if r.outcome.Reacted? {
      var t := Target(kind, req.targetId);
      var k := Key(req.user.value, t);
      var requested := NormalizeValue(req.value).value;
      TransitionPreservesConsistency(s, k, requested);
      DeltaKeepsTally(s.ledger, s.counters[t], k, requested);
    }
  }

  /** A sequence of requests, each on one kind of target, applied in order. */
  function Run(s: Store, reqs: seq<(TargetType, ReactRequest)>, validId: string -> bool): Store
    decreases |reqs|
  {
    if reqs == [] then s
    else Run(React(s, reqs[0].0, reqs[0].1, validId).store, reqs[1..], validId)
  }

  /** For any finite sequence of requests from a consistent start, every
      target's like count is the number of users whose recorded vote is +1
      and its dislike count the number whose vote is -1. */
  lemma {:induction false} RunPreservesConsistency(s: Store, reqs: seq<(TargetType, ReactRequest)>, validId: string -> bool)
    requires Consistent(s)
    ensures Consistent(Run(s, reqs, validId))
    decreases |reqs|
  {
    if reqs != [] {
      ReactPreservesConsistency(s, reqs[0].0, reqs[0].1, validId);
      RunPreservesConsistency(React(s, reqs[0].0, reqs[0].1, validId).store, reqs[1..], validId);
    }
  }
}
