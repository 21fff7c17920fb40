/**
 * What `reorderVideo` and `createVideo` promise about the positions of a
 * course's videos (repositories/video.repository.js).
 *
 * A scope is the videos of one course: all of them, or with `liveOnly` only
 * those that are not soft-deleted. Its positions are dense when they are
 * exactly 0..N-1, each once, N being the size of the scope.
 */
module VideoOrdering {
  import opened Wrappers
  import opened VideoStore
  import opened Query

  /** The positions of the videos in scope, in table order. */
  function Orders(rows: seq<Video>, c: CourseId, liveOnly: bool): seq<int> {
    if rows == [] then []
    else (if InScope(rows[0], c, liveOnly) then [rows[0].order] else []) + Orders(rows[1..], c, liveOnly)
  }

  predicate Distinct(os: seq<int>) {
    forall i, j :: 0 <= i < j < |os| ==> os[i] != os[j]
  }

  /** `os` is a permutation of 0..|os|-1. */
  predicate Dense(os: seq<int>) {
    && (forall i :: 0 <= i < |os| ==> 0 <= os[i] < |os|)
    && Distinct(os)
    && (forall k :: 0 <= k < |os| ==> k in os)
  }

  /** Where a position ends up when the video at `from` moves to `to`. */
  function Move(o: int, from: int, to: int): int {
    if o == from then to else ShiftedOrder(o, from, to)
  }

  function MapMove(os: seq<int>, from: int, to: int): (r: seq<int>)
    ensures |r| == |os|
  {
    seq(|os|, i requires 0 <= i < |os| => Move(os[i], from, to))
  }

  /** A position is in `Orders` exactly when some video in scope holds it. */
  lemma {:induction false} OrdersMembers(rows: seq<Video>, c: CourseId, liveOnly: bool)
    ensures forall v :: v in rows && InScope(v, c, liveOnly) ==> v.order in Orders(rows, c, liveOnly)
    ensures forall k :: k in Orders(rows, c, liveOnly) ==>
              exists v :: v in rows && InScope(v, c, liveOnly) && v.order == k
  {
    if rows != [] {
      OrdersMembers(rows[1..], c, liveOnly);
      assert forall v :: v in rows <==> v == rows[0] || v in rows[1..];
    }
  }

  /** Distinct positions in `Orders` means no two videos in scope share a position. */
  lemma {:induction false} OrdersRowDistinct(rows: seq<Video>, c: CourseId, liveOnly: bool)
    requires Distinct(Orders(rows, c, liveOnly))
    ensures forall i, j :: 0 <= i < j < |rows| && InScope(rows[i], c, liveOnly) && InScope(rows[j], c, liveOnly) ==>
              rows[i].order != rows[j].order
  {
    if rows != [] {
      var os := Orders(rows, c, liveOnly);
      var tail := Orders(rows[1..], c, liveOnly);
      var head := if InScope(rows[0], c, liveOnly) then [rows[0].order] else [];
      assert os == head + tail;
      assert Distinct(tail) by {
        forall i, j | 0 <= i < j < |tail| ensures tail[i] != tail[j] {
          assert tail[i] == os[i + |head|] && tail[j] == os[j + |head|];
        }
      }
      OrdersRowDistinct(rows[1..], c, liveOnly);
      OrdersMembers(rows[1..], c, liveOnly);
      forall i, j | 0 <= i < j < |rows| && InScope(rows[i], c, liveOnly) && InScope(rows[j], c, liveOnly)
        ensures rows[i].order != rows[j].order
      {
        if i == 0 {
          assert rows[j] in rows[1..] by { assert rows[j] == rows[1..][j - 1]; }
          assert rows[j].order in tail;
          var p :| 0 <= p < |tail| && tail[p] == rows[j].order;
          assert os[0] == rows[0].order && os[p + 1] == tail[p];
        } else {
          assert rows[i] == rows[1..][i - 1] && rows[j] == rows[1..][j - 1];
        }
      }
    }
  }

  /** Appending a row adds its position at the end of `Orders` when it is in scope. */
  lemma {:induction false} OrdersAppend(rows: seq<Video>, v: Video, c: CourseId, liveOnly: bool)
    ensures Orders(rows + [v], c, liveOnly) ==
            Orders(rows, c, liveOnly) + (if InScope(v, c, liveOnly) then [v.order] else [])
  {
    if rows == [] {
      assert [v][1..] == [];
    } else {
      var head := if InScope(rows[0], c, liveOnly) then [rows[0].order] else [];
      var tail := if InScope(v, c, liveOnly) then [v.order] else [];
      assert (rows + [v])[0] == rows[0];
      assert (rows + [v])[1..] == rows[1..] + [v];
      OrdersAppend(rows[1..], v, c, liveOnly);
      assert Orders(rows + [v], c, liveOnly) == head + (Orders(rows[1..], c, liveOnly) + tail);
      assert Orders(rows, c, liveOnly) == head + Orders(rows[1..], c, liveOnly);
    }
  }

  /**
   * When, in scope, exactly the row with id `id` sits at `from`, the band
   * shift followed by the target write moves every position in scope by `Move`.
   */
  lemma {:induction false} OrdersUnderReorder(rows: seq<Video>, id: VideoId, c: CourseId, from: int, to: int, liveOnly: bool)
    requires forall i :: 0 <= i < |rows| && InScope(rows[i], c, liveOnly) ==> (rows[i].order == from <==> rows[i].id == id)
    ensures Orders(SetOrder(ShiftSiblings(rows, c, from, to), id, to), c, liveOnly) ==
            MapMove(Orders(rows, c, liveOnly), from, to)
  {
    var after := SetOrder(ShiftSiblings(rows, c, from, to), id, to);
    if rows != [] {
      assert after[1..] == SetOrder(ShiftSiblings(rows[1..], c, from, to), id, to);
      OrdersUnderReorder(rows[1..], id, c, from, to, liveOnly);
      var tail := Orders(rows[1..], c, liveOnly);
      assert InScope(after[0], c, liveOnly) == InScope(rows[0], c, liveOnly);
      if InScope(rows[0], c, liveOnly) {
        assert after[0].order == Move(rows[0].order, from, to);
        assert MapMove([rows[0].order] + tail, from, to) == [Move(rows[0].order, from, to)] + MapMove(tail, from, to);
      } else {
        assert Orders(rows, c, liveOnly) == tail;
      }
    }
  }

  /** With both ends inside 0..N-1, `Move` maps a permutation of 0..N-1 to another. */
  lemma MoveKeepsDense(os: seq<int>, from: int, to: int)
    requires Dense(os)
    requires 0 <= from < |os| && 0 <= to < |os|
    ensures Dense(MapMove(os, from, to))
  {
    var r := MapMove(os, from, to);
    forall k | 0 <= k < |os| ensures k in r {
      var pre := if k == to then from
                 else if to > from && from <= k < to then k + 1
                 else if to < from && to < k <= from then k - 1
                 else k;
      assert pre in os;
      var i :| 0 <= i < |os| && os[i] == pre;
      assert r[i] == k;
    }
  }

  /**
   * The density invariant: if the positions in the target's scope are a
   * permutation of 0..N-1 and 0 <= newOrder < N, they still are after the
   * reorder. With `liveOnly` the target must itself be live, which the
   * controller's `getVideoById` check ensures.
   */
  lemma ReorderKeepsDensity(rows: seq<Video>, id: VideoId, t: Video, newOrder: int, liveOnly: bool)
    requires UniqueIds(rows)
    requires Find(rows, id) == Some(t)
    requires InScope(t, t.courseId, liveOnly)
    requires Dense(Orders(rows, t.courseId, liveOnly))
    requires 0 <= newOrder < |Orders(rows, t.courseId, liveOnly)|
    ensures |Orders(Reorder(rows, id, newOrder), t.courseId, liveOnly)| == |Orders(rows, t.courseId, liveOnly)|
    ensures Dense(Orders(Reorder(rows, id, newOrder), t.courseId, liveOnly))
  {
    var c, from := t.courseId, t.order;
    var os := Orders(rows, c, liveOnly);
    OnlyTargetAtFrom(rows, id, t, liveOnly);
    OrdersMembers(rows, c, liveOnly);
    assert from in os;
    OrdersUnderReorder(rows, id, c, from, newOrder, liveOnly);
    MoveKeepsDense(os, from, newOrder);
  }

  /** In a scope with distinct positions, the target is the only video in scope at its position. */
  lemma OnlyTargetAtFrom(rows: seq<Video>, id: VideoId, t: Video, liveOnly: bool)
    requires UniqueIds(rows)
    requires Find(rows, id) == Some(t)
    requires InScope(t, t.courseId, liveOnly)
    requires Distinct(Orders(rows, t.courseId, liveOnly))
    ensures forall i :: 0 <= i < |rows| && InScope(rows[i], t.courseId, liveOnly) ==>
              (rows[i].order == t.order <==> rows[i].id == id)
  {
    var k := IndexOfKey(rows, VideoIdOf, id).value;
    OrdersRowDistinct(rows, t.courseId, liveOnly);
    forall i | 0 <= i < |rows| && InScope(rows[i], t.courseId, liveOnly)
      ensures rows[i].order == t.order <==> rows[i].id == id
    {
      if i < k || k < i {
        assert rows[i].id != id;
      }
    }
  }

  /**
   * Beyond the end: moving a video to `newOrder >= N` (which the controller
   * lets through) leaves the positions distinct, puts the target at
   * `newOrder` and leaves position N-1 empty, so the scope is no longer dense.
   */
  lemma ReorderPastEndLeavesGap(rows: seq<Video>, id: VideoId, t: Video, newOrder: int, liveOnly: bool)
    requires UniqueIds(rows)
    requires Find(rows, id) == Some(t)
    requires InScope(t, t.courseId, liveOnly)
    requires Dense(Orders(rows, t.courseId, liveOnly))
    requires newOrder >= |Orders(rows, t.courseId, liveOnly)|
    ensures var after := Orders(Reorder(rows, id, newOrder), t.courseId, liveOnly);
            && |after| == |Orders(rows, t.courseId, liveOnly)|
            && Distinct(after)
            && newOrder in after
            && |after| - 1 !in after
            && !Dense(after)
  {
    var c, from := t.courseId, t.order;
    var os := Orders(rows, c, liveOnly);
    OnlyTargetAtFrom(rows, id, t, liveOnly);
    OrdersMembers(rows, c, liveOnly);
    assert from in os;
    OrdersUnderReorder(rows, id, c, from, newOrder, liveOnly);
    MovePastEnd(os, from, newOrder);
  }

  /** `Move` with the target sent to `to >= N`: everything else closes up below N-1. */
  lemma MovePastEnd(os: seq<int>, from: int, to: int)
    requires Dense(os)
    requires 0 <= from < |os| <= to
    ensures var after := MapMove(os, from, to);
            Distinct(after) && to in after && |os| - 1 !in after && !Dense(after)
  {
    var after := MapMove(os, from, to);
    var n := |os|;
    assert forall i :: 0 <= i < n ==> (after[i] == to <==> os[i] == from);
    assert forall i :: 0 <= i < n && os[i] != from ==> after[i] < n - 1;
    assert from in os;
    var p :| 0 <= p < n && os[p] == from;
    assert after[p] == to;
  }

  /** Moving a video to its own position changes nothing. */
  lemma ReorderToSamePositionIsNoOp(rows: seq<Video>, id: VideoId, t: Video)
    requires UniqueIds(rows)
    requires Find(rows, id) == Some(t)
    ensures Reorder(rows, id, t.order) == rows
  {
    var after := Reorder(rows, id, t.order);
    forall i | 0 <= i < |rows| ensures after[i] == rows[i] {
      if rows[i].id == id {
        assert rows[i] == t;
      }
    }
  }

  /**
   * The band: with `newOrder` above the old position exactly the same-course
   * videos in (old, newOrder] move down one; otherwise exactly those in
   * [newOrder, old) move up one. Only `order` ever changes, the target ends at
   * `newOrder`, and videos of other courses are untouched.
   */
  lemma ReorderShiftsExactlyTheBand(rows: seq<Video>, id: VideoId, t: Video, newOrder: int)
    requires UniqueIds(rows)
    requires Find(rows, id) == Some(t)
    ensures var after := Reorder(rows, id, newOrder);
      && |after| == |rows|
      && (forall i :: 0 <= i < |rows| ==> after[i] == rows[i].(order := after[i].order))
      && (forall i :: 0 <= i < |rows| && rows[i].id == id ==> after[i].order == newOrder)
      && (forall i :: 0 <= i < |rows| && rows[i].courseId != t.courseId ==> after[i] == rows[i])
      && (newOrder > t.order ==> forall i :: 0 <= i < |rows| && rows[i].id != id ==>
            after[i].order == if rows[i].courseId == t.courseId && t.order < rows[i].order <= newOrder
                              then rows[i].order - 1 else rows[i].order)
      && (newOrder <= t.order ==> forall i :: 0 <= i < |rows| && rows[i].id != id ==>
            after[i].order == if rows[i].courseId == t.courseId && newOrder <= rows[i].order < t.order
                              then rows[i].order + 1 else rows[i].order)
  {
    var after := Reorder(rows, id, newOrder);
    forall i | 0 <= i < |rows|
      ensures after[i] == if rows[i].id == id then rows[i].(order := newOrder)
                          else if rows[i].courseId == t.courseId
                          then rows[i].(order := ShiftedOrder(rows[i].order, t.order, newOrder))
                          else rows[i]
    {
      RowAfterReorder(rows, id, t, newOrder, i);
    }
  }

  /** Row `i` after the reorder: the target takes `newOrder`, its course's other videos are band-shifted. */
  lemma RowAfterReorder(rows: seq<Video>, id: VideoId, t: Video, newOrder: int, i: int)
    requires Find(rows, id) == Some(t)
    requires 0 <= i < |rows|
    ensures |Reorder(rows, id, newOrder)| == |rows|
    ensures Reorder(rows, id, newOrder)[i] ==
              if rows[i].id == id then rows[i].(order := newOrder)
              else if rows[i].courseId == t.courseId
              then rows[i].(order := ShiftedOrder(rows[i].order, t.order, newOrder))
              else rows[i]
  {
    var shifted := ShiftSiblings(rows, t.courseId, t.order, newOrder);
    assert Reorder(rows, id, newOrder) == SetOrder(shifted, id, newOrder);
    assert shifted[i].id == rows[i].id;
  }

  /**
   * Appending: if the live positions of course `c` are 0..N-1, `createVideo`
   * places the new video at N and the live positions become 0..N.
   */
  lemma CreateKeepsDensity(rows: seq<Video>, v: Video)
    requires Dense(Orders(rows, v.courseId, true))
    requires !v.isDeleted && v.order == NextOrder(rows, v.courseId)
    ensures v.order == |Orders(rows, v.courseId, true)|
    ensures Orders(rows + [v], v.courseId, true) == Orders(rows, v.courseId, true) + [v.order]
    ensures Dense(Orders(rows + [v], v.courseId, true))
  {
    NextOrderOfDense(rows, v.courseId);
    OrdersAppend(rows, v, v.courseId, true);
    DenseExtend(Orders(rows, v.courseId, true));
  }

  /** When the live positions of a course are 0..N-1, the next position is N. */
  lemma NextOrderOfDense(rows: seq<Video>, c: CourseId)
    requires Dense(Orders(rows, c, true))
    ensures NextOrder(rows, c) == |Orders(rows, c, true)|
  {
    var os := Orders(rows, c, true);
    var n := |os|;
    var r := NextOrder(rows, c);
    OrdersMembers(rows, c, true);
    if n == 0 {
      assert forall w :: w in rows ==> !InScope(w, c, true);
    } else {
      assert n - 1 in os;
      var w :| w in rows && InScope(w, c, true) && w.order == n - 1;
      assert n <= r;
      var u :| u in rows && InScope(u, c, true) && u.order == r - 1;
      assert r - 1 in os;
      var p :| 0 <= p < n && os[p] == r - 1;
    }
  }

  /** Adding position N to a permutation of 0..N-1 gives a permutation of 0..N. */
  lemma DenseExtend(os: seq<int>)
    requires Dense(os)
    ensures Dense(os + [|os|])
  {
    var n := |os|;
    var grown := os + [n];
    assert forall i :: 0 <= i < n ==> grown[i] == os[i];
    forall k | 0 <= k < n + 1 ensures k in grown {
      if k < n {
        assert k in os;
        var i :| 0 <= i < n && os[i] == k;
        assert grown[i] == k;
      } else {
        assert grown[n] == k;
      }
    }
  }

  /** With a, b, c, d of one course at 0..3, moving d to 1 leaves a, d, b, c. */
  lemma ReorderEarlierScenario()
    ensures var a, b, c, d := Video("a", "k", 0, false, map[]), Video("b", "k", 1, false, map[]),
                              Video("c", "k", 2, false, map[]), Video("d", "k", 3, false, map[]);
            Reorder([a, b, c, d], "d", 1) == [a, b.(order := 2), c.(order := 3), d.(order := 1)]
  {
  }

  /** With a, b, c, d at 0..3, moving a to 3 leaves b, c, d, a. */
  lemma ReorderLaterScenario()
    ensures var a, b, c, d := Video("a", "k", 0, false, map[]), Video("b", "k", 1, false, map[]),
                              Video("c", "k", 2, false, map[]), Video("d", "k", 3, false, map[]);
            Reorder([a, b, c, d], "a", 3) == [a.(order := 3), b.(order := 0), c.(order := 1), d.(order := 2)]
  {
  }
}
