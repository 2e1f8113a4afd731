/** `attachReactions` of `services/photoService.js`: the caller's reaction
    rows for a page of photos are read once, folded into one lookup table per
    target kind, and overlaid on every photo and comment through the
    presenter. The rows are read from the reaction collection, a sequence of
    records; the selection is the query's filter. */
module PhotoService {
  import opened Wrappers
  import opened Js
  import opened Documents
  import opened Ledger
  import opened PhotoPresenter

  /** `photoReactions` and `commentReactions`, keyed by the target id. */
  datatype ReactionMaps = ReactionMaps(photo: map<string, int>, comment: map<string, int>)

  /** The table a row of the given kind goes to. */
  function TableOf(maps: ReactionMaps, kind: TargetType): map<string, int> {
    match kind
    case Photo => maps.photo
    case Comment => maps.comment
  }

  /** Row `i` is the last one about its target. */
  predicate LastFor(rows: seq<ReactionRow>, i: int)
    requires 0 <= i < |rows|
  {
    forall j :: i < j < |rows| ==>
      !(rows[j].targetType == rows[i].targetType && rows[j].targetId == rows[i].targetId)
  }

  /** Some row about target `id` of the given kind. */
  predicate HasRowFor(rows: seq<ReactionRow>, kind: TargetType, id: string) {
    exists i :: 0 <= i < |rows| && rows[i].targetType == kind && rows[i].targetId == id
  }

  /** The `reactions.forEach(...)` fold: a Photo row goes only to the photo
      table and a Comment row only to the comment table, every entry comes
      from a row about that target, and among rows about the same target the
      last one wins. */
  function BuildMaps(rows: seq<ReactionRow>): (r: ReactionMaps)
    ensures forall id :: id in r.photo <==> HasRowFor(rows, Photo, id)
    ensures forall id :: id in r.comment <==> HasRowFor(rows, Comment, id)
    ensures forall id :: id in r.photo ==>
              exists i :: 0 <= i < |rows| && rows[i].targetType == Photo && rows[i].targetId == id
                          && rows[i].value == r.photo[id]
    ensures forall id :: id in r.comment ==>
              exists i :: 0 <= i < |rows| && rows[i].targetType == Comment && rows[i].targetId == id
                          && rows[i].value == r.comment[id]
    ensures forall i :: 0 <= i < |rows| && LastFor(rows, i) ==>
              rows[i].targetId in TableOf(r, rows[i].targetType)
              && TableOf(r, rows[i].targetType)[rows[i].targetId] == rows[i].value
    decreases |rows|
  {
    if rows == [] then ReactionMaps(map[], map[])
    else
      var init := rows[..|rows| - 1];
      var m := BuildMaps(init);
      var row := rows[|rows| - 1];
      var r := match row.targetType
        case Photo => m.(photo := m.photo[row.targetId := row.value])
        case Comment => m.(comment := m.comment[row.targetId := row.value]);
      BuildMapsStep(rows, m, r);
      r
  }

  /** The inductive step of `BuildMaps`: the maps of all but the last row,
      updated with the last row, satisfy the fold's contract. */
  lemma BuildMapsStep(rows: seq<ReactionRow>, m: ReactionMaps, r: ReactionMaps)
    requires rows != []
    requires var init := rows[..|rows| - 1];
             && (forall id :: id in m.photo <==> HasRowFor(init, Photo, id))
             && (forall id :: id in m.comment <==> HasRowFor(init, Comment, id))
             && (forall id :: id in m.photo ==>
                   exists i :: 0 <= i < |init| && init[i].targetType == Photo && init[i].targetId == id
                               && init[i].value == m.photo[id])
             && (forall id :: id in m.comment ==>
                   exists i :: 0 <= i < |init| && init[i].targetType == Comment && init[i].targetId == id
                               && init[i].value == m.comment[id])
             && (forall i :: 0 <= i < |init| && LastFor(init, i) ==>
                   init[i].targetId in TableOf(m, init[i].targetType)
                   && TableOf(m, init[i].targetType)[init[i].targetId] == init[i].value)
    requires var row := rows[|rows| - 1];
             r == match row.targetType
               case Photo => m.(photo := m.photo[row.targetId := row.value])
               case Comment => m.(comment := m.comment[row.targetId := row.value])
    ensures forall id :: id in r.photo <==> HasRowFor(rows, Photo, id)
    ensures forall id :: id in r.comment <==> HasRowFor(rows, Comment, id)
    ensures forall id :: id in r.photo ==>
              exists i :: 0 <= i < |rows| && rows[i].targetType == Photo && rows[i].targetId == id
                          && rows[i].value == r.photo[id]
    ensures forall id :: id in r.comment ==>
              exists i :: 0 <= i < |rows| && rows[i].targetType == Comment && rows[i].targetId == id
                          && rows[i].value == r.comment[id]
    ensures forall i :: 0 <= i < |rows| && LastFor(rows, i) ==>
              rows[i].targetId in TableOf(r, rows[i].targetType)
              && TableOf(r, rows[i].targetType)[rows[i].targetId] == rows[i].value
  {
    var row := rows[|rows| - 1];
    assert r.photo == StepTable(m.photo, row, Photo);
    assert r.comment == StepTable(m.comment, row, Comment);
    TableStep(rows, rows[..|rows| - 1], Photo, m.photo, r.photo);
    TableStep(rows, rows[..|rows| - 1], Comment, m.comment, r.comment);
    LastWinsStep(rows, m, r);
  }

  /** The table of one kind after folding in `row`. */
  function StepTable(t: map<string, int>, row: ReactionRow, kind: TargetType): map<string, int> {
    if row.targetType == kind then t[row.targetId := row.value] else t
  }

  /** One table through the inductive step: its keys are still the targets of
      that kind that have a row, and every entry still comes from a row. */
  lemma TableStep(rows: seq<ReactionRow>, init: seq<ReactionRow>, kind: TargetType,
                  t: map<string, int>, u: map<string, int>)
    requires rows != [] && init == rows[..|rows| - 1]
    requires u == StepTable(t, rows[|rows| - 1], kind)
    requires forall id :: id in t <==> HasRowFor(init, kind, id)
    requires forall id :: id in t ==>
               exists i :: 0 <= i < |init| && init[i].targetType == kind && init[i].targetId == id
                           && init[i].value == t[id]
    ensures forall id :: id in u <==> HasRowFor(rows, kind, id)
    ensures forall id :: id in u ==>
              exists i :: 0 <= i < |rows| && rows[i].targetType == kind && rows[i].targetId == id
                          && rows[i].value == u[id]
  {
    var n := |rows| - 1;
    var row := rows[n];
    forall id
      ensures id in u <==> HasRowFor(rows, kind, id)
    {
      if HasRowFor(rows, kind, id) {
        var i :| 0 <= i < |rows| && rows[i].targetType == kind && rows[i].targetId == id;
        if i < n {
          assert init[i] == rows[i];
        }
      }
      if HasRowFor(init, kind, id) {
        var i :| 0 <= i < |init| && init[i].targetType == kind && init[i].targetId == id;
        assert rows[i] == init[i];
      }
    }
    forall id | id in u
      ensures exists i :: 0 <= i < |rows| && rows[i].targetType == kind && rows[i].targetId == id
                          && rows[i].value == u[id]
    {
      if row.targetType == kind && row.targetId == id {
        assert rows[n].value == u[id];
      } else {
        var i :| 0 <= i < n && init[i].targetType == kind && init[i].targetId == id
                 && init[i].value == t[id];
        assert rows[i] == init[i];
      }
    }
  }

  /** Last-wins through the inductive step. */
  lemma LastWinsStep(rows: seq<ReactionRow>, m: ReactionMaps, r: ReactionMaps)
    requires rows != []
    requires var init := rows[..|rows| - 1];
             forall i :: 0 <= i < |init| && LastFor(init, i) ==>
               init[i].targetId in TableOf(m, init[i].targetType)
               && TableOf(m, init[i].targetType)[init[i].targetId] == init[i].value
    requires r.photo == StepTable(m.photo, rows[|rows| - 1], Photo)
    requires r.comment == StepTable(m.comment, rows[|rows| - 1], Comment)
    ensures forall i :: 0 <= i < |rows| && LastFor(rows, i) ==>
              rows[i].targetId in TableOf(r, rows[i].targetType)
              && TableOf(r, rows[i].targetType)[rows[i].targetId] == rows[i].value
  {
    var init := rows[..|rows| - 1];
    var n := |rows| - 1;
    var row := rows[n];
    forall i | 0 <= i < |rows| && LastFor(rows, i)
      ensures rows[i].targetId in TableOf(r, rows[i].targetType)
      ensures TableOf(r, rows[i].targetType)[rows[i].targetId] == rows[i].value
    {
      if i < n {
        assert init[i] == rows[i];
        assert !(row.targetType == rows[i].targetType && row.targetId == rows[i].targetId);
        assert LastFor(init, i) by {
          forall j | i < j < |init|
            ensures !(init[j].targetType == init[i].targetType && init[j].targetId == init[i].targetId)
          {
            assert init[j] == rows[j];
          }
        }
      }
    }
  }

  // ---------------------------------------------------------------------
  // The query and the overlay

  /** The ids of the photos of the page. */
  function PhotoIds(photos: seq<PhotoDoc>): set<string> {
    set i | 0 <= i < |photos| :: photos[i].id
  }

  /** The ids of every comment of every photo of the page (`flatMap`). */
  function CommentIds(photos: seq<PhotoDoc>): set<string> {
    set i, j | 0 <= i < |photos| && 0 <= j < |CommentsOf(photos[i])| :: CommentsOf(photos[i])[j].id
  }

  /** The filter of `Reaction.find`: the caller's rows about one of the page's
      photos or one of their comments. */
  predicate Selected(row: ReactionRow, userId: string, photoIds: set<string>, commentIds: set<string>) {
    && row.user == userId
    && ((row.targetType == Photo && row.targetId in photoIds)
        || (row.targetType == Comment && row.targetId in commentIds))
  }

  /** The rows the query returns, in collection order. */
  function FindReactions(collection: seq<ReactionRow>, userId: string, photoIds: set<string>,
                         commentIds: set<string>): (r: seq<ReactionRow>)
    ensures forall x :: x in r <==> x in collection && Selected(x, userId, photoIds, commentIds)
  {
    if collection == [] then []
    else
      var rest := FindReactions(collection[1..], userId, photoIds, commentIds);
      if Selected(collection[0], userId, photoIds, commentIds) then [collection[0]] + rest else rest
  }

  /** `photos.map((p) => toClient(p, maps))` */
  function ShapeAll(photos: seq<PhotoDoc>, photoReactions: Option<map<string, int>>,
                    commentReactions: Option<map<string, int>>): (r: seq<ShapedPhoto>)
    ensures |r| == |photos|
    ensures forall i :: 0 <= i < |photos| ==>
              Some(r[i]) == ToClient(Some(photos[i]), photoReactions, commentReactions)
  {
    if photos == [] then []
    else [ToClient(Some(photos[0]), photoReactions, commentReactions).value]
         + ShapeAll(photos[1..], photoReactions, commentReactions)
  }

  /** `attachReactions(photos, userId)` over the reaction collection: no
      photos give an empty list, no caller gives the plain views, and
      otherwise every view carries the caller's reactions. One view per
      input photo, in order. */
  function AttachReactions(photos: Option<seq<PhotoDoc>>, userId: Option<string>,
                           collection: seq<ReactionRow>): (r: seq<ShapedPhoto>)
    ensures photos.None? || photos.value == [] ==> r == []
    ensures |r| == |photos.GetOr([])|
    ensures forall i :: 0 <= i < |r| ==> r[i].doc == photos.value[i]
    ensures !Present(userId) ==> forall i :: 0 <= i < |r| ==> Some(r[i]) == ToClient(Some(photos.value[i]), None, None)
    ensures forall i :: 0 <= i < |r| ==>
              var plain := ToClient(Some(photos.value[i]), None, None).value;
              && r[i].imageUrlOptimized == plain.imageUrlOptimized
              && r[i].likeCount == plain.likeCount && r[i].dislikeCount == plain.dislikeCount
              && |r[i].comments| == |plain.comments|
              && forall j :: 0 <= j < |r[i].comments| ==> r[i].comments[j].(myReaction := 0) == plain.comments[j]
  {
    match photos
    case None => []
    case Some(ps) =>
      if ps == [] then []
      else
        if !Present(userId) then ShapeAll(ps, None, None)
        else
          var rows := FindReactions(collection, userId.value, PhotoIds(ps), CommentIds(ps));
          var maps := BuildMaps(rows);
          ShapeAll(ps, Some(maps.photo), Some(maps.comment))
  }

  /** Without a caller, the overlay does not depend on the collection and
      every photo and comment reports no reaction. */
  lemma AnonymousSeesNoReactions(photos: Option<seq<PhotoDoc>>, userId: Option<string>,
                                  c1: seq<ReactionRow>, c2: seq<ReactionRow>)
    requires !Present(userId)
    ensures AttachReactions(photos, userId, c1) == AttachReactions(photos, userId, c2)
    ensures var r := AttachReactions(photos, userId, c1);
            forall i :: 0 <= i < |r| ==>
              && r[i].myReaction == 0
              && forall j :: 0 <= j < |r[i].comments| ==> r[i].comments[j].myReaction == 0
  {
    var r := AttachReactions(photos, userId, c1);
    forall i | 0 <= i < |r|
      ensures r[i].myReaction == 0
      ensures forall j :: 0 <= j < |r[i].comments| ==> r[i].comments[j].myReaction == 0
    {
      NoMapsNoReaction(photos.value[i]);
    }
  }

  /** Every selected row is a record of the ledger, held by the caller. */
  lemma SelectedRowsInLedger(rows: seq<ReactionRow>, collection: seq<ReactionRow>, l: LedgerMap,
                             userId: string, photoIds: set<string>, commentIds: set<string>)
    requires Represents(collection, l)
    requires rows == FindReactions(collection, userId, photoIds, commentIds)
    ensures forall i :: 0 <= i < |rows| ==>
              rows[i].user == userId && RowKey(rows[i]) in l && l[RowKey(rows[i])] == rows[i].value
  {
    forall i | 0 <= i < |rows|
      ensures rows[i].user == userId && RowKey(rows[i]) in l && l[RowKey(rows[i])] == rows[i].value
    {
      assert rows[i] in rows;
      var x :| 0 <= x < |collection| && collection[x] == rows[i];
    }
  }

  /** A ledger record of the caller about a target of the page is selected. */
  lemma LedgerRecordSelected(rows: seq<ReactionRow>, collection: seq<ReactionRow>, l: LedgerMap,
                             userId: string, photoIds: set<string>, commentIds: set<string>,
                             kind: TargetType, id: string)
    requires Represents(collection, l)
    requires rows == FindReactions(collection, userId, photoIds, commentIds)
    requires kind == Photo ==> id in photoIds
    requires kind == Comment ==> id in commentIds
    requires Key(userId, Target(kind, id)) in l
    ensures HasRowFor(rows, kind, id)
  {
    var j :| 0 <= j < |collection| && RowKey(collection[j]) == Key(userId, Target(kind, id));
    assert collection[j] in collection;
    assert collection[j] in rows;
    var i :| 0 <= i < |rows| && rows[i] == collection[j];
  }

  /** The reaction a view reads from the tables is the caller's ledger vote. */
  lemma TableAgreesWithLedger(rows: seq<ReactionRow>, collection: seq<ReactionRow>, l: LedgerMap,
                              userId: string, photoIds: set<string>, commentIds: set<string>,
                              kind: TargetType, id: string)
    requires Represents(collection, l)
    requires rows == FindReactions(collection, userId, photoIds, commentIds)
    requires kind == Photo ==> id in photoIds
    requires kind == Comment ==> id in commentIds
    ensures LookupReaction(Some(TableOf(BuildMaps(rows), kind)), id) == VoteOf(l, Key(userId, Target(kind, id)))
  {
    var table := TableOf(BuildMaps(rows), kind);
    SelectedRowsInLedger(rows, collection, l, userId, photoIds, commentIds);
    if Key(userId, Target(kind, id)) in l {
      LedgerRecordSelected(rows, collection, l, userId, photoIds, commentIds, kind, id);
    }
    if id in table {
      var w :| 0 <= w < |rows| && rows[w].targetType == kind && rows[w].targetId == id
               && rows[w].value == table[id];
      assert RowKey(rows[w]) == Key(userId, Target(kind, id));
    }
  }

  /** When the collection holds exactly the ledger's records, every photo and
      comment of the page reports the caller's recorded vote (0 when none). */
  lemma OverlayMatchesLedger(photos: seq<PhotoDoc>, userId: string, collection: seq<ReactionRow>, l: LedgerMap)
    requires userId != ""
    requires Represents(collection, l)
    ensures var r := AttachReactions(Some(photos), Some(userId), collection);
            forall i :: 0 <= i < |r| ==>
              && r[i].myReaction == VoteOf(l, Key(userId, Target(Photo, photos[i].id)))
              && forall j :: 0 <= j < |r[i].comments| ==>
                   r[i].comments[j].myReaction
                   == VoteOf(l, Key(userId, Target(Comment, CommentsOf(photos[i])[j].id)))
  {
    if photos != [] {
      var rows := FindReactions(collection, userId, PhotoIds(photos), CommentIds(photos));
      var maps := BuildMaps(rows);
      var r := AttachReactions(Some(photos), Some(userId), collection);
      forall i | 0 <= i < |r|
        ensures r[i].myReaction == VoteOf(l, Key(userId, Target(Photo, photos[i].id)))
        ensures forall j :: 0 <= j < |r[i].comments| ==>
                  r[i].comments[j].myReaction
                  == VoteOf(l, Key(userId, Target(Comment, CommentsOf(photos[i])[j].id)))
      {
        TableAgreesWithLedger(rows, collection, l, userId, PhotoIds(photos), CommentIds(photos), Photo, photos[i].id);
        forall j | 0 <= j < |r[i].comments|
          ensures r[i].comments[j].myReaction
                  == VoteOf(l, Key(userId, Target(Comment, CommentsOf(photos[i])[j].id)))
        {
          var c := CommentsOf(photos[i])[j];
          assert c.id in CommentIds(photos);
          TableAgreesWithLedger(rows, collection, l, userId, PhotoIds(photos), CommentIds(photos), Comment, c.id);
        }
      }
    }
  }
}
