/** Recovering the order in which message ids were allotted from the ids alone. */
module SendOrder {
  import opened Packets

  predicate ValidIds(ids: seq<nat>) {
    && (forall i :: 0 <= i < |ids| ==> 1 <= ids[i] <= MAX_MSG_ID)
    && (forall i, j :: 0 <= i < j < |ids| ==> ids[i] != ids[j])
  }

  predicate Increasing(ids: seq<nat>) {
    forall i, j :: 0 <= i < j < |ids| ==> ids[i] < ids[j]
  }

  /** Position of the first larger id, or the end. */
  function InsertAt(ids: seq<nat>, id: nat): (k: nat)
    ensures k <= |ids|
    ensures k < |ids| ==> id < ids[k]
    ensures forall i :: 0 <= i < k ==> ids[i] <= id
  {
    if ids == [] || id < ids[0] then 0 else 1 + InsertAt(ids[1..], id)
  }

  function Insert(ids: seq<nat>, id: nat): seq<nat> {
    var k := InsertAt(ids, id);
    ids[..k] + [id] + ids[k..]
  }

  function SortIds(ids: seq<nat>): seq<nat> {
    if ids == [] then [] else Insert(SortIds(ids[..|ids| - 1]), ids[|ids| - 1])
  }

  function Rotate<T>(s: seq<T>, k: nat): seq<T>
    requires k <= |s|
  {
    s[k..] + s[..k]
  }

  /** The gap in front of position i of an increasing list, the first one reaching round from the last id. */
  function GapBefore(ids: seq<nat>, i: nat): int
    requires i < |ids|
  {
    var id: int, before: int := ids[i], if i == 0 then ids[|ids| - 1] - MAX_MSG_ID else ids[i - 1];
    id - before
  }

  function WrapScan(ids: seq<nat>, i: nat, best: nat): (w: nat)
    requires best < i <= |ids|
    ensures w < |ids|
    decreases |ids| - i
  {
    if i == |ids| then best
    else WrapScan(ids, i + 1, if GapBefore(ids, i) > GapBefore(ids, best) then i else best)
  }

  /** Where the restored list is cut: in front of its largest gap, the first of equals. */
  function WrapAt(ids: seq<nat>): (w: nat)
    ensures ids != [] ==> w < |ids|
    ensures w <= |ids|
  {
    if ids == [] then 0 else WrapScan(ids, 1, 0)
  }

  predicate FirstLargestGap(ids: seq<nat>, w: nat) {
    && w < |ids|
    && (forall i :: 0 <= i < w ==> GapBefore(ids, i) < GapBefore(ids, w))
    && (forall i :: w < i < |ids| ==> GapBefore(ids, i) <= GapBefore(ids, w))
  }

  lemma {:induction false} WrapScanIsLargest(ids: seq<nat>, i: nat, best: nat)
    requires best < i <= |ids|
    requires forall j :: 0 <= j < best ==> GapBefore(ids, j) < GapBefore(ids, best)
    requires forall j :: best < j < i ==> GapBefore(ids, j) <= GapBefore(ids, best)
    ensures FirstLargestGap(ids, WrapScan(ids, i, best))
    decreases |ids| - i
  {
    if i < |ids| {
      WrapScanIsLargest(ids, i + 1, if GapBefore(ids, i) > GapBefore(ids, best) then i else best);
    }
  }

  lemma WrapAtIsLargest(ids: seq<nat>)
    requires ids != []
    ensures FirstLargestGap(ids, WrapAt(ids))
    ensures forall w: nat :: FirstLargestGap(ids, w) ==> w == WrapAt(ids)
  {
    WrapScanIsLargest(ids, 1, 0);
    var best := WrapAt(ids);
    forall w: nat | FirstLargestGap(ids, w) ensures w == best {
      assert GapBefore(ids, w) <= GapBefore(ids, best) <= GapBefore(ids, w);
    }
  }

  /** The list as a restart rebuilds it from ids met in any order. */
  function RestoredOrder(ids: seq<nat>): seq<nat> {
    var sorted := SortIds(ids);
    Rotate(sorted, WrapAt(sorted))
  }

  // Sorting

  lemma {:induction false} SortIdsSorts(ids: seq<nat>)
    requires ValidIds(ids)
    ensures var s := SortIds(ids);
            Increasing(s) && |s| == |ids| && ValidIds(s) && forall x :: x in s <==> x in ids
  {
    if ids != [] {
      hide Insert, Increasing;
      var front, id := ids[..|ids| - 1], ids[|ids| - 1];
      SortIdsSorts(front);
      var s := SortIds(front);
      assert ids == front + [id];
      assert id !in s;
      InsertKeepsIncreasing(s, id);
      InsertKeepsValid(s, id);
    }
  }

  lemma InsertKeepsIncreasing(ids: seq<nat>, id: nat)
    requires Increasing(ids) && id !in ids
    ensures Increasing(Insert(ids, id)) && |Insert(ids, id)| == |ids| + 1
    ensures forall x :: x in Insert(ids, id) <==> x == id || x in ids
  {
    var k := InsertAt(ids, id);
    SpliceMembers(ids, k, id);
    assert forall i :: 0 <= i < k ==> ids[i] < id;
  }

  lemma InsertKeepsValid(ids: seq<nat>, id: nat)
    requires ValidIds(ids) && id !in ids && 1 <= id <= MAX_MSG_ID
    ensures ValidIds(Insert(ids, id))
  {
  }

  lemma SpliceMembers<T>(s: seq<T>, k: nat, x: T)
    requires k <= |s|
    ensures forall y :: y in s[..k] + [x] + s[k..] <==> y == x || y in s
  {
    assert s == s[..k] + s[k..];
  }

  lemma RotateMembers<T>(s: seq<T>, k: nat)
    requires k <= |s|
    ensures forall y :: y in Rotate(s, k) <==> y in s
  {
    assert s == s[..k] + s[k..];
  }

  /** An increasing list is determined by its elements. */
  lemma {:induction false} IncreasingUnique(a: seq<nat>, b: seq<nat>)
    requires Increasing(a) && Increasing(b) && forall x :: x in a <==> x in b
    ensures a == b
  {
    assert a != [] ==> a[0] in b;
    assert b != [] ==> b[0] in a;
    if a != [] {
      assert a[0] == b[0];
      forall x ensures x in a[1..] <==> x in b[1..] {
        assert x in a <==> x in b;
        assert x in a[1..] <==> x in a && x != a[0] by { assert a == [a[0]] + a[1..]; }
        assert x in b[1..] <==> x in b && x != b[0] by { assert b == [b[0]] + b[1..]; }
      }
      IncreasingUnique(a[1..], b[1..]);
      assert a == [a[0]] + a[1..] && b == [b[0]] + b[1..];
    }
  }

  // Cyclic windows

  /** How far id lies after first, going round. */
  function Offset(first: nat, id: nat): int {
    if id >= first then id - first else id - first + MAX_MSG_ID
  }

  /** The ids were allotted going forward, less than once round, from the oldest to the newest. */
  predicate CyclicWindow(ids: seq<nat>) {
    forall i, j :: 0 <= i < j < |ids| ==> Offset(ids[0], ids[i]) < Offset(ids[0], ids[j])
  }

  function InnerGap(ids: seq<nat>, i: nat): int
    requires 1 <= i < |ids|
  {
    Offset(ids[0], ids[i]) - Offset(ids[0], ids[i - 1])
  }

  /** The free arc from the newest id round to the oldest. */
  function FreeArc(ids: seq<nat>): int
    requires ids != []
  {
    MAX_MSG_ID - Offset(ids[0], ids[|ids| - 1])
  }

  /** The free arc is larger than every gap inside the window; a gap of equal size is harmless only
      if it does not come after the ids have wrapped round. */
  predicate Recoverable(ids: seq<nat>) {
    && CyclicWindow(ids)
    && forall i :: 1 <= i < |ids| ==>
                     InnerGap(ids, i) < FreeArc(ids) || (InnerGap(ids, i) == FreeArc(ids) && ids[i] > ids[0])
  }

  lemma RotatedAt(s: seq<nat>, w: nat, i: nat)
    requires w < |s| && i < |s|
    ensures |Rotate(s, w)| == |s| && Rotate(s, w)[0] == s[w]
    ensures Rotate(s, w)[i] == if w + i < |s| then s[w + i] else s[w + i - |s|]
  {
  }

  /** How far an element of a turned list lies after the first one. */
  lemma RotatedOffset(s: seq<nat>, w: nat, i: nat)
    requires Increasing(s) && ValidIds(s) && w < |s| && i < |s|
    ensures var r := Rotate(s, w);
            && |r| == |s|
            && Offset(r[0], r[i]) == (if w + i < |s| then s[w + i] - s[w] else s[w + i - |s|] - s[w] + MAX_MSG_ID)
            && (i > 0 ==> (r[i] > r[0] <==> w + i < |s|))
  {
    hide Rotate;
    RotatedAt(s, w, i);
    if w + i < |s| {
      assert i > 0 ==> s[w] < s[w + i];
    } else {
      assert s[w + i - |s|] < s[w];
    }
  }

  function Turned(s: seq<nat>, w: nat, i: nat): (j: nat)
    requires w < |s| && 1 <= i < |s|
    ensures j < |s| && j != w
  {
    if w + i < |s| then w + i else w + i - |s|
  }

  /** The gaps of r are those of s, starting after position w. */
  ghost predicate GapsTurned(s: seq<nat>, w: nat, r: seq<nat>) {
    && |r| == |s| && w < |s|
    && FreeArc(r) == GapBefore(s, w)
    && forall i :: 1 <= i < |s| ==>
         InnerGap(r, i) == GapBefore(s, Turned(s, w, i)) && (r[i] > r[0] <==> w + i < |s|)
  }

  lemma RotatedGap(s: seq<nat>, w: nat, i: nat)
    requires Increasing(s) && ValidIds(s) && w < |s| && 1 <= i < |s|
    ensures var r := Rotate(s, w);
            InnerGap(r, i) == GapBefore(s, Turned(s, w, i)) && (r[i] > r[0] <==> w + i < |s|)
  {
    hide Rotate, Offset, Increasing, ValidIds;
    RotatedOffset(s, w, i - 1);
    RotatedOffset(s, w, i);
  }

  lemma RotatedArc(s: seq<nat>, w: nat)
    requires Increasing(s) && ValidIds(s) && w < |s|
    ensures FreeArc(Rotate(s, w)) == GapBefore(s, w)
  {
    hide Rotate, Offset, Increasing, ValidIds;
    RotatedOffset(s, w, |s| - 1);
  }

  lemma RotatedWindow(s: seq<nat>, w: nat)
    requires Increasing(s) && ValidIds(s) && w < |s|
    ensures CyclicWindow(Rotate(s, w))
  {
    hide Offset;
    var r := Rotate(s, w);
    forall i, j | 0 <= i < j < |r| ensures Offset(r[0], r[i]) < Offset(r[0], r[j]) {
      hide Rotate;
      RotatedOffset(s, w, i);
      RotatedOffset(s, w, j);
      OffsetsGrow(s, w, i, j);
    }
  }

  lemma OffsetsGrow(s: seq<nat>, w: nat, i: nat, j: nat)
    requires Increasing(s) && ValidIds(s) && w < |s| && i < j < |s|
    ensures (if w + i < |s| then s[w + i] - s[w] else s[w + i - |s|] - s[w] + MAX_MSG_ID) <
            (if w + j < |s| then s[w + j] - s[w] else s[w + j - |s|] - s[w] + MAX_MSG_ID)
  {
  }

  lemma RotatedGaps(s: seq<nat>, w: nat)
    requires Increasing(s) && ValidIds(s) && w < |s|
    ensures CyclicWindow(Rotate(s, w)) && GapsTurned(s, w, Rotate(s, w))
  {
    hide Offset, Increasing, ValidIds, InnerGap, FreeArc, GapBefore, CyclicWindow;
    RotatedWindow(s, w);
    RotatedArc(s, w);
    forall i | 1 <= i < |s|
      ensures InnerGap(Rotate(s, w), i) == GapBefore(s, Turned(s, w, i)) && (Rotate(s, w)[i] > Rotate(s, w)[0] <==> w + i < |s|)
    {
      RotatedGap(s, w, i);
    }
  }

  lemma GapsDecide(s: seq<nat>, w: nat, r: seq<nat>)
    requires CyclicWindow(r) && GapsTurned(s, w, r)
    ensures Recoverable(r) <==> FirstLargestGap(s, w)
  {
    if Recoverable(r) {
      forall j | 0 <= j < |s| && j != w
        ensures GapBefore(s, j) < GapBefore(s, w) || (GapBefore(s, j) == GapBefore(s, w) && j > w)
      {
        var i := if j > w then j - w else j + |s| - w;
        assert Turned(s, w, i) == j;
        assert InnerGap(r, i) == GapBefore(s, j);
      }
    }
    if FirstLargestGap(s, w) {
      forall i | 1 <= i < |r|
        ensures InnerGap(r, i) < FreeArc(r) || (InnerGap(r, i) == FreeArc(r) && r[i] > r[0])
      {
        assert InnerGap(r, i) == GapBefore(s, Turned(s, w, i));
      }
    }
  }

  lemma RecoverableRotation(s: seq<nat>, w: nat)
    requires Increasing(s) && ValidIds(s) && w < |s|
    ensures Recoverable(Rotate(s, w)) <==> FirstLargestGap(s, w)
  {
    RotatedGaps(s, w);
    GapsDecide(s, w, Rotate(s, w));
  }

  /** A cyclic window is its sorted list, cut somewhere. */
  lemma WindowIsRotation(ids: seq<nat>) returns (w: nat)
    requires ValidIds(ids) && CyclicWindow(ids) && ids != []
    ensures w < |ids| && |SortIds(ids)| == |ids| && ids == Rotate(SortIds(ids), w)
  {
    var p := 1;
    while p < |ids| && ids[p] > ids[0]
      invariant 1 <= p <= |ids|
      invariant forall i :: 1 <= i < p ==> ids[i] > ids[0]
    {
      p := p + 1;
    }
    forall i | p <= i < |ids| ensures ids[i] < ids[0] {
      if i > p { assert Offset(ids[0], ids[p]) < Offset(ids[0], ids[i]); }
    }
    RotatedWindowIncreases(ids, p);
    SortIdsSorts(ids);
    RotateMembers(ids, p);
    IncreasingUnique(Rotate(ids, p), SortIds(ids));
    w := if p == |ids| then 0 else |ids| - p;
    RotateBack(ids, p);
  }

  lemma RotateBack<T>(s: seq<T>, p: nat)
    requires p <= |s|
    ensures Rotate(Rotate(s, p), |s| - p) == s && (p == |s| ==> Rotate(s, p) == s && Rotate(s, 0) == s)
  {
  }

  lemma RotatedWindowIncreases(ids: seq<nat>, p: nat)
    requires ValidIds(ids) && CyclicWindow(ids) && 1 <= p <= |ids|
    requires forall i :: 1 <= i < p ==> ids[i] > ids[0]
    requires forall i :: p <= i < |ids| ==> ids[i] < ids[0]
    ensures Increasing(Rotate(ids, p))
  {
    assert forall i, j :: 0 <= i < j < p ==> ids[i] < ids[j] by {
      forall i, j | 0 <= i < j < p ensures ids[i] < ids[j] {
        assert Offset(ids[0], ids[i]) < Offset(ids[0], ids[j]);
      }
    }
    assert forall i, j :: p <= i < j < |ids| ==> ids[i] < ids[j] by {
      forall i, j | p <= i < j < |ids| ensures ids[i] < ids[j] {
        assert Offset(ids[0], ids[i]) < Offset(ids[0], ids[j]);
      }
    }
    assert forall i, j :: 0 <= i < p <= j < |ids| ==> ids[j] < ids[i];
  }

  /** Sorting and cutting gives back the send order exactly when the ids form a cyclic window whose
      free arc is the largest gap. */
  lemma RestoredOrderIsSendOrder(ids: seq<nat>)
    requires ValidIds(ids)
    ensures RestoredOrder(ids) == ids <==> Recoverable(ids)
  {
    if ids != [] {
      SortIdsSorts(ids);
      var s := SortIds(ids);
      WrapAtIsLargest(s);
      if Recoverable(ids) {
        var w := WindowIsRotation(ids);
        RecoverableRotation(s, w);
      }
      RecoverableRotation(s, WrapAt(s));
    }
  }

  /** In every case the result is the sorted list cut in front of a largest cyclic gap. */
  lemma RestoredOrderIsRotation(ids: seq<nat>)
    requires ValidIds(ids) && ids != []
    ensures var s, r := SortIds(ids), RestoredOrder(ids);
            && Increasing(s) && |r| == |ids| && ValidIds(r) && (forall x :: x in r <==> x in ids)
            && (exists w :: 0 <= w < |s| && r == Rotate(s, w))
            && CyclicWindow(r)
            && forall i :: 1 <= i < |r| ==> InnerGap(r, i) <= FreeArc(r)
  {
    SortIdsSorts(ids);
    var s := SortIds(ids);
    WrapAtIsLargest(s);
    RecoverableRotation(s, WrapAt(s));
    RotateMembers(s, WrapAt(s));
    RotateKeepsValid(s, WrapAt(s));
  }

  lemma RotateKeepsValid(s: seq<nat>, w: nat)
    requires ValidIds(s) && w <= |s|
    ensures ValidIds(Rotate(s, w)) && |Rotate(s, w)| == |s|
  {
  }

  /** The order in which the ids are met does not matter. */
  lemma RestoredOrderIgnoresArrival(a: seq<nat>, b: seq<nat>)
    requires ValidIds(a) && ValidIds(b) && forall x :: x in a <==> x in b
    ensures RestoredOrder(a) == RestoredOrder(b)
  {
    SortIdsSorts(a);
    SortIdsSorts(b);
    IncreasingUnique(SortIds(a), SortIds(b));
  }
}
