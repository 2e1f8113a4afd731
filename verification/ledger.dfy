/** The persistent state a reaction request touches, kept abstract: the
    reaction ledger, one value per (user, target) pair, and each target's
    like/dislike counters. The conservation invariant says the counters are
    exactly the tallies of the ledger. */
module Ledger {
  import opened Documents

  /** A photo or comment, by kind and id. */
  datatype Target = Target(kind: TargetType, id: string)

  /** The uniqueness key of a reaction: one record per user and target. */
  datatype Key = Key(user: string, target: Target)

  /** A reaction value as a request or transition sees it: neutral is 0. */
  type Vote = v: int | -1 <= v <= 1

  /** A stored reaction value: neutral is never stored, it is the absence of a record. */
  type Stored = v: int | v == -1 || v == 1 witness 1

  type LedgerMap = map<Key, Stored>

  /** A target's aggregate counters. */
  datatype Counts = Counts(likeCount: int, dislikeCount: int)

  /** The relative change applied to a target's counters. */
  datatype Delta = Delta(likeCount: int, dislikeCount: int)

  datatype Store = Store(ledger: LedgerMap, counters: map<Target, Counts>)

  /** `existing?.value || 0` */
  function VoteOf(l: LedgerMap, k: Key): Vote {
    if k in l then l[k] else 0
  }

  /** The keys of the ledger holding value `v` for target `t`. */
  function Voters(l: LedgerMap, t: Target, v: Stored): set<Key> {
    set k | k in l && k.target == t && l[k] == v
  }

  /** What the counters of `t` must be: the number of +1 and -1 records. */
  function Tally(l: LedgerMap, t: Target): Counts {
    Counts(|Voters(l, t, 1)|, |Voters(l, t, -1)|)
  }

  /** Counter conservation for every known target. */
  predicate Consistent(s: Store) {
    forall t :: t in s.counters ==> s.counters[t] == Tally(s.ledger, t)
  }

  /** `$inc` of a delta on a target's counters. */
  function ApplyDelta(c: Counts, d: Delta): Counts {
    Counts(c.likeCount + d.likeCount, c.dislikeCount + d.dislikeCount)
  }

  /** The ledger write of a transition to `next` for `k`: delete the record
      when clearing an existing one, update it on a flip, insert a new one on
      a first vote, and do nothing when clearing what is not there. */
  function WriteLedger(l: LedgerMap, k: Key, next: Vote): (r: LedgerMap)
    ensures k in r <==> next != 0
    ensures VoteOf(r, k) == next
    ensures forall k' :: k' != k ==> (k' in r <==> k' in l)
    ensures forall k' :: k' != k && k' in r ==> r[k'] == l[k']
    ensures next == 0 && k !in l ==> r == l
  {
    if next == 0 && k in l then l - {k}
    else if next != 0 && k in l then l[k := next]
    else if next != 0 && k !in l then l[k := next]
    else l
  }

  /** 1 when `b` holds, else 0. */
  function Ind(b: bool): int {
    if b then 1 else 0
  }

  /** Outside `k` itself, a write leaves every set of voters as it was. */
  lemma VotersApartFromKey(l: LedgerMap, k: Key, next: Vote, t: Target, v: Stored)
    ensures Voters(WriteLedger(l, k, next), t, v) - {k} == Voters(l, t, v) - {k}
  {
    var r := WriteLedger(l, k, next);
    forall x | x in Voters(r, t, v) - {k}
      ensures x in Voters(l, t, v) - {k}
    {
    }
    forall x | x in Voters(l, t, v) - {k}
      ensures x in Voters(r, t, v) - {k}
    {
    }
  }

  lemma CardinalityWithout(s: set<Key>, k: Key)
    ensures |s| == |s - {k}| + Ind(k in s)
  {
    if k in s {
      assert s == (s - {k}) + {k};
    } else {
      assert s - {k} == s;
    }
  }

  /** A write for `k` moves one record of `k.target` from its old value to
      `next` and leaves every other target's tally alone. */
  lemma TallyAfterWrite(l: LedgerMap, k: Key, next: Vote, t: Target, v: Stored)
    ensures |Voters(WriteLedger(l, k, next), t, v)|
            == |Voters(l, t, v)| - Ind(k.target == t && VoteOf(l, k) == v) + Ind(k.target == t && next == v)
  {
    var r := WriteLedger(l, k, next);
    VotersApartFromKey(l, k, next, t, v);
    CardinalityWithout(Voters(r, t, v), k);
    CardinalityWithout(Voters(l, t, v), k);
    assert k in Voters(r, t, v) <==> k.target == t && next == v;
    assert k in Voters(l, t, v) <==> k.target == t && VoteOf(l, k) == v;
  }

  /** The key a reaction row is stored under. */
  function RowKey(row: ReactionRow): Key {
    Key(row.user, Target(row.targetType, row.targetId))
  }

  /** The rows of the reaction collection are exactly the ledger's records. */
  predicate Represents(rows: seq<ReactionRow>, l: LedgerMap) {
    && (forall i :: 0 <= i < |rows| ==> RowKey(rows[i]) in l && l[RowKey(rows[i])] == rows[i].value)
    && (forall k :: k in l ==> exists i :: 0 <= i < |rows| && RowKey(rows[i]) == k)
  }
}
