/** One client's way through the strategy groups (extend.c): choosing a group, connecting,
    switching on the first request, and moving on after a failure. */
module GroupClient {
  import opened Sequences
  import opened Groups

  /** A cached verdict about a destination. */
  datatype Entry = Entry(mask: set<int>, detect: set<int>, dp: int)

  predicate EntryOk(e: Entry, n: nat) { e.mask <= Full(n) && (e.dp == NIL || 0 <= e.dp < n) }

  /** What the cache has on a destination. */
  datatype Hit = Miss | Cached(entry: Entry)

  /** A connection attempt: the group, and the mask it was made with. */
  datatype Attempt = Attempt(group: int, mask: set<int>)

  /** Between consecutive attempts the mask grows by at least the group tried. */
  ghost predicate Growing(tries: seq<Attempt>) {
    && (forall k :: 0 <= k < |tries| ==> tries[k].group !in tries[k].mask)
    && (forall j, k :: 0 <= j < k < |tries| ==> tries[j].mask + {tries[j].group} <= tries[k].mask)
  }

  /** So no group is tried twice, and there are at most as many attempts as groups. */
  lemma {:induction false} AtMostOnce(tries: seq<Attempt>, n: nat)
    requires Growing(tries) && forall k :: 0 <= k < |tries| ==> 0 <= tries[k].group < n
    ensures forall j, k :: 0 <= j < k < |tries| ==> tries[j].group != tries[k].group
    ensures forall j, k :: 0 <= j < k < |tries| ==> tries[j].mask < tries[k].mask
    ensures |tries| <= n
  {
    forall j, k | 0 <= j < k < |tries| ensures tries[j].group != tries[k].group && tries[j].mask < tries[k].mask {
      assert tries[j].group in tries[j].mask + {tries[j].group};
      assert tries[j].group in tries[k].mask;
    }
    TriedCount(tries, n);
  }

  lemma {:induction false} TriedCount(tries: seq<Attempt>, n: nat)
    requires (forall k :: 0 <= k < |tries| ==> 0 <= tries[k].group < n)
    requires forall j, k :: 0 <= j < k < |tries| ==> tries[j].group != tries[k].group
    ensures |tries| <= n
    decreases n
  {
    if tries != [] {
      var g := tries[0].group;
      if exists k :: 0 <= k < |tries| && tries[k].group == n - 1 {
        var k :| 0 <= k < |tries| && tries[k].group == n - 1;
        TriedCount(tries[..k] + tries[k + 1..], n - 1);
      } else {
        TriedCount(tries, n - 1);
      }
    }
  }

  /** find_dp's test, apart from the mask; `fits` stands for the checks of address, protocol and host. */
  ghost predicate Acceptable(g: Group, x: int, dp: int, detect: set<int>, fits: int -> bool) {
    (x == dp || g.detect == {} || detect * g.detect != {}) && fits(x)
  }

  /** on_trigger's test, apart from the mask. */
  ghost predicate Takes(g: Group, kind: set<int>, canReconn: bool) {
    (g.detect == {} || g.detect * kind != {}) && (OnReconn !in g.auto || canReconn)
  }

  /** Whether a failure of dp moves `next` to the front of it, if dp precedes it. */
  ghost predicate Reorders(gs: seq<Group>, dp: int, next: int, cached: set<int>)
    requires 0 <= dp < |gs| && 0 <= next < |gs|
  {
    dp !in cached && Sort in gs[next].auto && gs[dp].pri > gs[next].pri
  }

  lemma {:induction false} ScannedFrame(gs: seq<Group>, gs': seq<Group>, order: seq<int>, k: int, mask0: set<int>, kind: set<int>, canReconn: bool)
    requires |gs'| == |gs| && forall x :: 0 <= x < |gs| ==> gs'[x] == gs[x].(fails := gs'[x].fails)
    ensures Scanned(gs', order, k, mask0, kind, canReconn) <==> Scanned(gs, order, k, mask0, kind, canReconn)
  {
  }

  /** The walk around the list has looked at the groups before position t of `r` and taken none. */
  ghost predicate Passed(gs: seq<Group>, r: seq<int>, t: int, mask0: set<int>, dp: int, detect: set<int>, fits: int -> bool) {
    && 0 <= t <= |r|
    && forall i :: 0 <= i < t ==> 0 <= r[i] < |gs| && (r[i] in mask0 || !Acceptable(gs[r[i]], r[i], dp, detect, fits))
  }

  /** What find_dp finds from the mask, failure and group in `from`: the first acceptable untried
      group in circular order, position `t` from `start`, or null when there is none; what it
      passes over joins the mask. */
  ghost predicate Chosen(gs: seq<Group>, order: seq<int>, head: int, from: Entry, fits: int -> bool, r: int, mask: set<int>, start: int, t: int) {
    && 0 <= start < |order| && order[start] == (if from.dp == NIL then head else from.dp)
    && Passed(gs, From(order, start), t, from.mask, from.dp, from.detect, fits)
    && if r == NIL then
         mask == Full(|gs|) && forall x :: 0 <= x < |gs| && x !in from.mask ==> !Acceptable(gs[x], x, from.dp, from.detect, fits)
       else
         && t < |order| && r == From(order, start)[t] && 0 <= r < |gs| && r !in mask
         && Acceptable(gs[r], r, from.dp, from.detect, fits) && mask == from.mask + Elems(From(order, start)[..t])
  }

  /** A walk of find_dp: the list, where it began, and what it is looking for. */
  datatype Tour = Tour(gs: seq<Group>, order: seq<int>, head: int, start: int, dp: int, mask0: set<int>, detect: set<int>, fits: int -> bool)

  ghost function Rot(w: Tour): (r: seq<int>)
    ensures |r| == |w.order|
  {
    if 0 <= w.start <= |w.order| then From(w.order, w.start) else w.order
  }

  datatype Aspect = OnList | OnPlace | OnMask

  ghost predicate Sees(a: Aspect, w: Tour, p: int, t: int, mask: set<int>) {
    && 0 <= w.start < |w.order| && 0 <= t <= |w.order|
    && match a
       case OnList => ListOk(w.gs, w.order, w.head) && w.mask0 <= Full(|w.gs|) && w.order[w.start] == (if w.dp == NIL then w.head else w.dp)
       case OnPlace => t < |w.order| ==> Rot(w)[t] == if p == NIL then w.head else p
       case OnMask => mask == w.mask0 + Elems(Rot(w)[..t]) && Passed(w.gs, Rot(w), t, w.mask0, w.dp, w.detect, w.fits)
  }

  /** After t groups, at p with the given mask. */
  ghost predicate Walking(w: Tour, p: int, t: int, mask: set<int>) { forall a :: Sees(a, w, p, t, mask) }

  lemma {:induction false} WalkParts(w: Tour, p: int, t: int, mask: set<int>)
    ensures Walking(w, p, t, mask) <==> Sees(OnList, w, p, t, mask) && Sees(OnPlace, w, p, t, mask) && Sees(OnMask, w, p, t, mask)
  {
  }

  ghost method Start(gs: seq<Group>, order: seq<int>, head: int, dp: int, mask: set<int>, detect: set<int>, fits: int -> bool) returns (w: Tour)
    requires ListOk(gs, order, head) && mask <= Full(|gs|) && (dp == NIL || 0 <= dp < |gs|)
    ensures w == Tour(gs, order, head, w.start, dp, mask, detect, fits) && Walking(w, dp, 0, mask)
  {
    var first := if dp == NIL then head else dp;
    assert first in order;
    var start :| 0 <= start < |order| && order[start] == first;
    w := Tour(gs, order, head, start, dp, mask, detect, fits);
    assert Elems(Rot(w)[..0]) == {};
    WalkParts(w, dp, 0, mask);
  }

  lemma {:induction false} WalkRange(w: Tour, p: int, t: int, mask: set<int>)
    requires Walking(w, p, t, mask)
    ensures 0 <= w.head < |w.gs| && 0 <= t <= |w.gs| && (p == NIL ==> Walking(w, w.head, t, mask))
    ensures mask <= Full(|w.gs|)
  {
    WalkParts(w, p, t, mask);
    WalkParts(w, w.head, t, mask);
    FromAll(w.order, w.start);
    assert forall i :: 0 <= i < t ==> Rot(w)[i] in Rot(w);
  }

  lemma {:induction false} WalkedAll(w: Tour, p: int, t: int, mask: set<int>)
    requires Walking(w, p, t, mask) && t == |w.gs|
    ensures mask == Full(|w.gs|)
  {
    WalkParts(w, p, t, mask);
    assert Rot(w)[..t] == Rot(w);
    RotFull(w.gs, w.order, w.head, w.start);
  }

  lemma {:induction false} RotFull(gs: seq<Group>, order: seq<int>, head: int, start: int)
    requires ListOk(gs, order, head) && 0 <= start < |order|
    ensures Elems(From(order, start)) == Full(|gs|)
  {
    FromAll(order, start);
    forall x ensures x in order <==> 0 <= x < |gs| {}
  }

  lemma {:induction false} WalkHere(w: Tour, p: int, t: int, mask: set<int>)
    requires Walking(w, p, t, mask) && p != NIL && mask != Full(|w.gs|)
    ensures 0 <= t < |w.gs| == |w.order| && 0 <= p < |w.gs| && Rot(w)[t] == p
  {
    WalkParts(w, p, t, mask);
    FromAll(w.order, w.start);
    if t == |w.gs| { WalkedAll(w, p, t, mask); }
    assert Rot(w)[t] in w.order;
  }

  lemma {:induction false} WalkFound(w: Tour, p: int, t: int, mask: set<int>)
    requires Walking(w, p, t, mask) && t < |w.gs| && 0 <= p < |w.gs|
    ensures 0 <= w.start < |w.order| && w.order[w.start] == (if w.dp == NIL then w.head else w.dp)
    ensures Passed(w.gs, Rot(w), t, w.mask0, w.dp, w.detect, w.fits) && t < |w.order| && p == Rot(w)[t] && mask == w.mask0 + Elems(Rot(w)[..t])
    ensures mask <= Full(|w.gs|) && (w.dp != NIL && p != w.dp ==> w.dp in mask)
  {
    WalkRange(w, p, t, mask);
    WalkParts(w, p, t, mask);
    assert Rot(w)[0] == w.order[w.start];
    if t > 0 { assert Rot(w)[..t][0] == Rot(w)[0]; }
  }

  lemma {:induction false} NothingLeft(w: Tour, p: int, t: int, mask: set<int>)
    requires Walking(w, p, t, mask) && mask == Full(|w.gs|)
    ensures 0 <= w.start < |w.order| && w.order[w.start] == (if w.dp == NIL then w.head else w.dp)
    ensures Passed(w.gs, Rot(w), t, w.mask0, w.dp, w.detect, w.fits)
    ensures forall x :: 0 <= x < |w.gs| && x !in w.mask0 ==> !Acceptable(w.gs[x], x, w.dp, w.detect, w.fits)
  {
    WalkParts(w, p, t, mask);
    forall x | 0 <= x < |w.gs| && x !in w.mask0 ensures !Acceptable(w.gs[x], x, w.dp, w.detect, w.fits) {
      assert x in mask && x in Elems(Rot(w)[..t]);
      var i :| 0 <= i < t && Rot(w)[..t][i] == x;
      assert Rot(w)[i] == x;
    }
  }

  lemma {:induction false} WalkOn(w: Tour, p: int, t: int, mask: set<int>)
    requires Walking(w, p, t, mask) && t < |w.gs| && 0 <= p < |w.gs|
    requires p in mask || !Acceptable(w.gs[p], p, w.dp, w.detect, w.fits)
    ensures Walking(w, w.gs[p].next, t + 1, mask + {p})
  {
    WalkParts(w, p, t, mask);
    WalkPast(w, p, t, mask);
    if t + 1 < |w.gs| { FromNext(w.gs, w.order, w.head, w.start, t); }
    WalkParts(w, w.gs[p].next, t + 1, mask + {p});
  }

  lemma {:induction false} WalkPast(w: Tour, p: int, t: int, mask: set<int>)
    requires ListOk(w.gs, w.order, w.head) && 0 <= w.start < |w.order| && 0 <= t < |w.order| && p == Rot(w)[t] && 0 <= p < |w.gs|
    requires mask == w.mask0 + Elems(Rot(w)[..t]) && Passed(w.gs, Rot(w), t, w.mask0, w.dp, w.detect, w.fits)
    requires p in mask || !Acceptable(w.gs[p], p, w.dp, w.detect, w.fits)
    ensures mask + {p} == w.mask0 + Elems(Rot(w)[..t + 1]) && Passed(w.gs, Rot(w), t + 1, w.mask0, w.dp, w.detect, w.fits)
  {
    FromAll(w.order, w.start);
    NotBefore(Rot(w), t);
    ElemsSnoc(Rot(w), t);
  }

  /** What on_trigger's loop has done before position k. */
  ghost predicate Scanned(gs: seq<Group>, order: seq<int>, k: int, mask0: set<int>, kind: set<int>, canReconn: bool) {
    && 0 <= k <= |order|
    && forall i :: 0 <= i < k ==> 0 <= order[i] < |gs| && (order[i] in mask0 || !Takes(gs[order[i]], kind, canReconn))
  }

  ghost predicate ScanAt(gs: seq<Group>, order: seq<int>, k: int, p: int, mask0: set<int>, mask: set<int>, unchecked: set<int>, kind: set<int>, canReconn: bool) {
    && Scanned(gs, order, k, mask0, kind, canReconn) && p == At(order, k)
    && mask == mask0 + Elems(order[..k]) && unchecked == mask0 - Elems(order[..k]) && mask <= Full(|gs|)
  }

  lemma {:induction false} ScanHere(gs: seq<Group>, order: seq<int>, head: int, k: int, p: int, mask0: set<int>, mask: set<int>, unchecked: set<int>, kind: set<int>, canReconn: bool)
    requires ListOk(gs, order, head) && ScanAt(gs, order, k, p, mask0, mask, unchecked, kind, canReconn) && p != NIL
    ensures k < |order| && 0 <= p < |gs| && p == order[k]
    ensures p in mask || !Takes(gs[p], kind, canReconn) ==>
              ScanAt(gs, order, k + 1, gs[p].next, mask0, mask + {p}, unchecked - {p}, kind, canReconn)
  {
    assert Linked(gs, order, k);
    NotBefore(order, k);
    ElemsSnoc(order, k);
  }

  /** No group behind place d could be taken: it has been tried, or is not acceptable. */
  ghost predicate NoneBehind(gs: seq<Group>, order: seq<int>, d: int, mask: set<int>, dp: int, kind: set<int>, fits: int -> bool) {
    forall k :: 0 <= d < k < |order| ==> 0 <= order[k] < |gs| && (order[k] in mask || !Acceptable(gs[order[k]], order[k], dp, kind, fits))
  }

  /** Where on_trigger leaves the failing group and the next one: `order` before, `order'` after. */
  ghost predicate Left(order: seq<int>, order': seq<int>, dp: int, next: int, i: int, j: int) {
    && 0 <= j < |order| && next == order[j] && next != dp
    && (order' == order || (0 <= i < j && dp == order[i] && order' == Swapped(order, i, j)))
  }

  lemma {:induction false} Places(gs: seq<Group>, order: seq<int>, order': seq<int>, head: int, dp: int, next: int, i: int, j: int) returns (d: int, m: int)
    requires ListOk(gs, order', head) && 0 <= dp < |gs| && Left(order, order', dp, next, i, j)
    ensures 0 <= d < |order'| && 0 <= m < |order'| && order'[d] == dp && order'[m] == next && d != m
    ensures if order' == order then m == j else m == i && d == j
  {
    if order' == order {
      assert dp in order';
      d :| 0 <= d < |order'| && order'[d] == dp;
      m := j;
    } else {
      d, m := j, i;
    }
  }

  /** Everything before the next group has been tried or passed over. */
  lemma {:induction false} PassedBefore(order: seq<int>, order': seq<int>, j: int, m: int, i: int, dp: int, mask0: set<int>, mask: set<int>)
    requires 0 <= j < |order| && mask == mask0 + {dp} + Elems(order[..j])
    requires if order' == order then m == j else 0 <= i == m < j && order' == Swapped(order, i, j)
    ensures dp in mask && forall k :: 0 <= k < m ==> order'[k] in mask
  {
    forall k | 0 <= k < m ensures order'[k] in mask {
      assert order'[k] == order[k] == order[..j][k];
    }
  }

  lemma {:induction false} NextAccepted(gs: seq<Group>, gs': seq<Group>, moved: bool, dp: int, next: int, kind: set<int>, canReconn: bool, fits: int -> bool)
    requires 0 <= dp < |gs| == |gs'| && 0 <= next < |gs| && dp != next && Takes(gs[next], kind, canReconn)
    requires Rule(gs'[next]) == Rule(gs[if moved then dp else next])
    ensures Acceptable(gs'[next], next, dp, kind, fits) <==> fits(next) && (moved ==> gs[dp].detect == {} || kind * gs[dp].detect != {})
  {
    assert gs[next].detect * kind == kind * gs[next].detect;
  }

  /** The walk from place d takes the group at place m, everything before which is in the mask,
      exactly when it is acceptable and, if it stands before d, nothing behind d can be taken. */
  lemma {:induction false} FirstFrom(gs: seq<Group>, order: seq<int>, head: int, from: Entry, fits: int -> bool, r: int, mask: set<int>, start: int, t: int, d: int, m: int)
    requires ListOk(gs, order, head) && Chosen(gs, order, head, from, fits, r, mask, start, t)
    requires 0 <= d < |order| && 0 <= m < |order| && d != m && from.dp == order[d] && from.dp != NIL && from.dp in from.mask && order[m] !in from.mask
    requires forall k :: 0 <= k < m ==> order[k] in from.mask
    ensures r == order[m] <==> Acceptable(gs[order[m]], order[m], from.dp, from.detect, fits) && (d < m || NoneBehind(gs, order, d, from.mask, from.dp, from.detect, fits))
  {
    assert start == d;
    if d < m { FirstAhead(gs, order, head, from, fits, r, mask, t, d, m); } else { FirstAround(gs, order, head, from, fits, r, mask, t, d, m); }
  }

  lemma {:induction false} FirstAhead(gs: seq<Group>, order: seq<int>, head: int, from: Entry, fits: int -> bool, r: int, mask: set<int>, t: int, d: int, m: int)
    requires ListOk(gs, order, head) && Chosen(gs, order, head, from, fits, r, mask, d, t)
    requires 0 <= d < m < |order| && order[m] !in from.mask && forall k :: 0 <= k < m ==> order[k] in from.mask
    ensures r == order[m] <==> Acceptable(gs[order[m]], order[m], from.dp, from.detect, fits)
  {
    var w := From(order, d);
    assert forall x :: 0 <= x < |order| - d ==> w[x] == order[d + x];
    assert w[m - d] == order[m];
    if Acceptable(gs[order[m]], order[m], from.dp, from.detect, fits) {
      assert t <= m - d;
      assert r == w[t] == order[d + t];
    }
  }

  lemma {:induction false} FirstAround(gs: seq<Group>, order: seq<int>, head: int, from: Entry, fits: int -> bool, r: int, mask: set<int>, t: int, d: int, m: int)
    requires ListOk(gs, order, head) && Chosen(gs, order, head, from, fits, r, mask, d, t)
    requires 0 <= m < d < |order| && from.dp in from.mask && order[d] == from.dp && order[m] !in from.mask && forall k :: 0 <= k < m ==> order[k] in from.mask
    ensures r == order[m] <==> Acceptable(gs[order[m]], order[m], from.dp, from.detect, fits) && NoneBehind(gs, order, d, from.mask, from.dp, from.detect, fits)
  {
    var w, n := From(order, d), |order|;
    assert forall x :: 0 <= x < n - d ==> w[x] == order[d + x];
    assert forall x :: n - d <= x < n ==> w[x] == order[d + x - n];
    assert w[n - d + m] == order[m];
    if r == order[m] {
      FromAll(order, d);
      assert t == n - d + m;
      forall k | d < k < n ensures order[k] in from.mask || !Acceptable(gs[order[k]], order[k], from.dp, from.detect, fits) {
        assert w[k - d] == order[k];
      }
    }
  }

  /** Behind the failing group, on_trigger's loop has changed nothing in the mask. */
  lemma {:induction false} BehindSame(gs: seq<Group>, order: seq<int>, order': seq<int>, i: int, j: int, d: int, m: int, mask0: set<int>, from: Entry, fits: int -> bool)
    requires Distinct(order) && 0 <= j < |order| && 0 <= d < |order| == |order'| && from.dp == order'[d] && from.mask == mask0 + {from.dp} + Elems(order[..j])
    requires if order' == order then m == j else 0 <= i < j && m == i && d == j && order' == Swapped(order, i, j)
    ensures m < d ==> (NoneBehind(gs, order', d, from.mask, from.dp, from.detect, fits) <==> NoneBehind(gs, order', d, mask0, from.dp, from.detect, fits))
  {
    if m < d {
      forall k | d < k < |order| ensures order'[k] in from.mask <==> order'[k] in mask0 {
        assert order'[k] == order[k];
        assert order[k] !in Elems(order[..j]);
      }
    }
  }

  class Client {
    var dp: int
    var mask: set<int>
    var detect: set<int>
    ghost var tries: seq<Attempt>

    constructor ()
      ensures dp == NIL && mask == {} && detect == {} && tries == []
    {
      dp, mask, detect, tries := NIL, {}, {}, [];
    }

    /** The groups tried are in the mask, except perhaps the current one. */
    ghost predicate Valid(n: nat) reads this {
      && mask <= Full(n) && (dp == NIL || 0 <= dp < n) && (dp == NIL ==> tries == [])
      && Growing(tries)
      && forall k :: 0 <= k < |tries| ==> 0 <= tries[k].group < n && tries[k].mask <= mask && tries[k].group in mask + {dp}
    }

    /** The current group, too, has been given up. */
    ghost predicate Idle() reads this { forall k :: 0 <= k < |tries| ==> tries[k].group in mask }

    /** find_dp: the first acceptable untried group in circular order from the current one, or
        null exactly when there is none; everything passed over joins the mask. */
    method FindDp(g: GroupList, fits: int -> bool) returns (r: int, ghost start: int, ghost t: int)
      requires g.Valid() && mask <= Full(|g.groups|) && (dp == NIL || 0 <= dp < |g.groups|)
      modifies this`mask
      ensures Chosen(g.groups, g.order, g.head, Entry(old(mask), detect, dp), fits, r, mask, start, t)
      ensures mask <= Full(|g.groups|) && (dp != NIL && r != dp ==> dp in mask)
    {
      ghost var w := Start(g.groups, g.order, g.head, dp, mask, detect, fits);
      start, t := w.start, 0;
      var p := dp;
      while true
        invariant w.gs == g.groups && w.order == g.order && w.head == g.head && w.start == start
        invariant w.dp == dp && w.mask0 == old(mask) && w.detect == detect && w.fits == fits
        invariant Walking(w, p, t, mask)
        decreases |g.groups| - t
      {
        WalkRange(w, p, t, mask);
        if p == NIL { p := g.head; }
        if mask == Full(|g.groups|) {
          NothingLeft(w, p, t, mask);
          return NIL, start, t;
        }
        WalkHere(w, p, t, mask);
        if p !in mask && (p == dp || g.groups[p].detect == {} || detect * g.groups[p].detect != {}) && fits(p) {
          WalkFound(w, p, t, mask);
          return p, start, t;
        }
        WalkOn(w, p, t, mask);
        mask := mask + {p};
        p := g.groups[p].next;
        t := t + 1;
      }
    }

    /** The loop of on_trigger: goes down the list to the first group that is not in the mask and
        takes this kind of failure; what it passes joins the mask and leaves `unchecked`. */
    method Scan(g: GroupList, kind: set<int>, canReconn: bool) returns (next: int, unchecked: set<int>, ghost k: int)
      requires g.Valid() && mask <= Full(|g.groups|)
      modifies this`mask
      ensures Scanned(g.groups, g.order, k, old(mask), kind, canReconn)
      ensures mask == old(mask) + Elems(g.order[..k]) && unchecked == old(mask) - Elems(g.order[..k]) && mask <= Full(|g.groups|)
      ensures next != NIL ==> k < |g.order| && next == g.order[k] && next !in mask && Takes(g.groups[next], kind, canReconn)
      ensures next == NIL ==> k == |g.order| || (unchecked == {} && g.groups[g.order[k]].detect == {})
    {
      next, unchecked, k := NIL, mask, 0;
      var p := g.head;
      assert Elems(g.order[..0]) == {};
      while p != NIL
        invariant ScanAt(g.groups, g.order, k, p, old(mask), mask, unchecked, kind, canReconn)
        decreases |g.order| - k
      {
        ScanHere(g.groups, g.order, g.head, k, p, old(mask), mask, unchecked, kind, canReconn);
        if unchecked == {} && g.groups[p].detect == {} { break; }
        if p !in mask && (g.groups[p].detect == {} || g.groups[p].detect * kind != {}) && (OnReconn !in g.groups[p].auto || canReconn) {
          next := p;
          break;
        }
        unchecked, mask := unchecked - {p}, mask + {p};
        p := g.groups[p].next;
        k := k + 1;
      }
    }

    /** on_trigger, up to the reconnection; `cache` is the entry of the destination, before and
        after.  The failing group and everything passed over are in the mask afterwards.  If the
        list is reordered, the failing group came before the next one, and exactly these two
        positions are exchanged.  The failing group has one failure more, and a priority number
        one higher if the cached mask does not have it.  `again` says that a reconnection
        follows: where the list was reordered, the next group has got the settings of the failing
        one by then. */
    method OnTrigger(g: GroupList, kind: set<int>, canReconn: bool, cache: Entry)
      returns (next: int, cache': Entry, again: bool, ghost i: int, ghost j: int)
      requires g.Valid() && Valid(|g.groups|) && dp != NIL && EntryOk(cache, |g.groups|)
      modifies this`mask, this`detect, g
      ensures g.Valid() && |g.groups| == |old(g.groups)| && Valid(|g.groups|) && Idle() && EntryOk(cache', |g.groups|)
      ensures dp in mask && old(mask) <= mask && detect == kind
      ensures Rules(g.groups, g.order) == old(Rules(g.groups, g.order))
      ensures Scanned(old(g.groups), old(g.order), j, old(mask) + {dp}, kind, canReconn) && mask == old(mask) + {dp} + Elems(old(g.order)[..j])
      ensures if next == NIL then j == |g.order| || (old(mask) + {dp} <= Elems(old(g.order)[..j]) && old(g.groups)[old(g.order)[j]].detect == {})
              else j < |g.order| && next == old(g.order)[j] && next !in old(mask) + {dp} && Takes(old(g.groups)[next], kind, canReconn)
      ensures if next != NIL && Reorders(old(g.groups), dp, next, cache.mask) && dp in old(g.order)[..j]
              then 0 <= i < j && dp == old(g.order)[i] && g.order == Swapped(old(g.order), i, j)
              else g.order == old(g.order)
      ensures next != NIL ==> 0 <= next < |g.groups| && next !in mask && cache' == Entry(cache.mask + mask, kind, next)
      ensures next == NIL ==> cache' == Entry({}, {}, g.head)
      ensures next != NIL ==> Rule(g.groups[next]) == Rule(old(g.groups)[if g.order == old(g.order) then next else dp])
      ensures again <==> next != NIL && canReconn && NoReconn !in old(g.groups)[if g.order == old(g.order) then next else dp].auto
      ensures Counted(old(g.groups), g.groups, dp, if dp in cache.mask then 0 else 1, 1)
    {
      i := 0;
      var unchecked;
      next, unchecked, j := Fail(g, kind, canReconn);
      ghost var failed := g.groups;
      if dp !in cache.mask {
        i := Demote(g, dp, next, dp !in unchecked, j);
        CountedTwice(old(g.groups), failed, g.groups, dp, 0, 1, 1, 0);
      }
      if next == NIL {
        HeadIn(g.groups, g.order, g.head);
        return next, Entry({}, {}, g.head), false, i, j;
      }
      again := NoReconn !in g.groups[next].auto && canReconn;
      cache' := Entry(cache.mask + mask, detect, next);
    }

    /** Lines 355-374 of extend.c. */
    method Fail(g: GroupList, kind: set<int>, canReconn: bool) returns (next: int, unchecked: set<int>, ghost k: int)
      requires g.Valid() && mask <= Full(|g.groups|) && 0 <= dp < |g.groups|
      modifies this`mask, this`detect, g`groups
      ensures g.Valid() && detect == kind && Rules(g.groups, g.order) == old(Rules(g.groups, g.order))
      ensures g.groups == old(g.groups)[dp := old(g.groups)[dp].(fails := old(g.groups)[dp].fails + 1)]
      ensures Scanned(old(g.groups), g.order, k, old(mask) + {dp}, kind, canReconn)
      ensures mask == old(mask) + {dp} + Elems(g.order[..k]) && mask <= Full(|g.groups|)
      ensures unchecked == old(mask) + {dp} - Elems(g.order[..k])
      ensures next != NIL ==> k < |g.order| && next == g.order[k] && next !in mask && Takes(old(g.groups)[next], kind, canReconn)
      ensures next == NIL ==> k == |g.order| || (unchecked == {} && old(g.groups)[g.order[k]].detect == {})
    {
      g.Bump(dp, 0, 1);
      mask := mask + {dp};
      detect := kind;
      next, unchecked, k := Scan(g, kind, canReconn);
      ScannedFrame(old(g.groups), g.groups, g.order, k, old(mask) + {dp}, kind, canReconn);
    }

    /** connect_hook; `hit` is what the cache has on the destination, which a client that has no
        group yet adopts; `wait` says whether the connection is put off until the first request
        has been read. */
    method ConnectHook(g: GroupList, hit: Hit, fits: int -> bool, wait: bool) returns (ok: bool, ghost start: int, ghost t: int)
      requires g.Valid() && Valid(|g.groups|) && Idle() && (hit.Cached? ==> EntryOk(hit.entry, |g.groups|))
      modifies this
      ensures Valid(|g.groups|)
      ensures var from := if old(dp) == NIL && hit.Cached? then hit.entry else Entry(old(mask), old(detect), old(dp));
              detect == from.detect && (!ok ==> dp == from.dp) && Chosen(g.groups, g.order, g.head, from, fits, if ok then dp else NIL, mask, start, t)
      ensures tries == old(tries) + if ok && !wait then [Attempt(dp, mask)] else []
      ensures if ok then dp != NIL && dp !in mask && fits(dp) else mask == Full(|g.groups|)
      ensures !ok || wait ==> Idle()
    {
      if dp == NIL && hit.Cached? {
        mask, detect, dp := hit.entry.mask, hit.entry.detect, hit.entry.dp;
      }
      var r;
      r, start, t := FindDp(g, fits);
      if r == NIL { return false, start, t; }
      dp := r;
      if !wait { tries := tries + [Attempt(dp, mask)]; }
      ok := true;
    }

    /** A failure, and the reconnection if there is one: the client's next attempt.  It goes to the
        group that on_trigger has saved as the next one exactly when that group fits the
        destination; when, after a reordering, the failure is of a kind that the failing group's
        position takes; and when the failing group stands before it, or no group behind the
        failing one could be taken: the walk starts there, while the next group was looked for
        from the head.  `d` and `m` are the places of the failing group and of the next one. */
    method Retry(g: GroupList, kind: set<int>, canReconn: bool, cache: Entry, fits: int -> bool, wait: bool)
      returns (next: int, cache': Entry, again: bool, ok: bool, ghost d: int, ghost m: int)
      requires g.Valid() && Valid(|g.groups|) && dp != NIL && EntryOk(cache, |g.groups|)
      modifies this, g
      ensures g.Valid() && |g.groups| == |old(g.groups)| && Valid(|g.groups|) && EntryOk(cache', |g.groups|)
      ensures !again ==> !ok && dp == old(dp)
      ensures tries == old(tries) + if ok && !wait then [Attempt(dp, mask)] else []
      ensures ok ==> dp != NIL && dp != old(dp) && dp !in mask && fits(dp)
      ensures !ok || wait ==> Idle()
      ensures again ==> 0 <= d < |g.order| && 0 <= m < |g.order| && g.order[d] == old(dp) && g.order[m] == next && cache'.dp == next
      ensures again ==>
                (ok && dp == next <==>
                 && fits(next)
                 && (g.order != old(g.order) ==> old(g.groups)[old(dp)].detect == {} || kind * old(g.groups)[old(dp)].detect != {})
                 && (d < m || NoneBehind(g.groups, g.order, d, old(mask), old(dp), kind, fits)))
    {
      ghost var gs, order, mask0 := g.groups, g.order, mask;
      ghost var i, j;
      ok, d, m := false, 0, 0;
      next, cache', again, i, j := OnTrigger(g, kind, canReconn, cache);
      if !again { return; }
      d, m := Places(g.groups, order, g.order, g.head, dp, next, i, j);
      ghost var from := Entry(mask, detect, dp);
      PassedBefore(order, g.order, j, m, i, dp, mask0, mask);
      NextAccepted(gs, g.groups, g.order != order, dp, next, kind, canReconn, fits);
      ghost var start, t;
      ok, start, t := ConnectHook(g, Miss, fits, wait);
      FirstFrom(g.groups, g.order, g.head, from, fits, if ok then dp else NIL, mask, start, t, d, m);
      BehindSame(g.groups, order, g.order, i, j, d, m, mask0, from, fits);
    }

    /** setup_conn: with the first request at hand the group is chosen again, and may change. */
    method SetupConn(g: GroupList, fits: int -> bool) returns (ok: bool, ghost start: int, ghost t: int)
      requires g.Valid() && Valid(|g.groups|) && dp != NIL
      modifies this`mask, this`dp
      ensures Valid(|g.groups|) && dp != NIL && (dp != old(dp) ==> old(dp) in mask)
      ensures Chosen(g.groups, g.order, g.head, Entry(old(mask), detect, old(dp)), fits, if ok then dp else NIL, mask, start, t)
      ensures if ok then dp !in mask && fits(dp) else dp == old(dp) && mask == Full(|g.groups|)
    {
      var r;
      r, start, t := FindDp(g, fits);
      if r == NIL { return false, start, t; }
      dp := r;
      ok := true;
    }

    /** on_response marks the current group before looking for a trigger. */
    method MarkTried(n: nat)
      requires Valid(n) && dp != NIL
      modifies this`mask
      ensures Valid(n) && mask == old(mask) + {dp}
    {
      mask := mask + {dp};
    }
  }

  /** Lines 377-382 of extend.c; `passed` is the guard on the unchecked mask. */
  method Demote(g: GroupList, dp: int, next: int, passed: bool, ghost j: int) returns (ghost i: int)
    requires g.Valid() && 0 <= dp < |g.groups| && 0 <= j <= |g.order| && (passed <==> dp in Elems(g.order[..j]))
    requires next != NIL ==> j < |g.order| && next == g.order[j]
    modifies g
    ensures g.Valid() && |g.groups| == |old(g.groups)| && Rules(g.groups, g.order) == old(Rules(g.groups, g.order))
    ensures Counted(old(g.groups), g.groups, dp, 1, 0)
    ensures next != NIL ==> Rule(g.groups[next]) == Rule(old(g.groups)[if g.order == old(g.order) then next else dp])
    ensures if next != NIL && Sort in old(g.groups)[next].auto && old(g.groups)[dp].pri > old(g.groups)[next].pri && passed
            then 0 <= i < j && dp == old(g.order)[i] && g.order == Swapped(old(g.order), i, j)
            else g.order == old(g.order)
  {
    i := 0;
    if next != NIL && Sort in g.groups[next].auto && g.groups[dp].pri > g.groups[next].pri && passed {
      i := Precedes(g.order, j, dp);
      g.SwopGroups(dp, next, i, j);
    }
    g.Bump(dp, 1, 0);
  }

  /** The counters of every group: x has `pri` and `fails` more, the others are unchanged. */
  ghost predicate Counted(gs: seq<Group>, gs': seq<Group>, x: int, pri: int, fails: int) {
    && |gs'| == |gs|
    && forall y :: 0 <= y < |gs| ==>
         gs'[y].pri == gs[y].pri + (if y == x then pri else 0) && gs'[y].fails == gs[y].fails + (if y == x then fails else 0)
  }

  lemma {:induction false} CountedTwice(a: seq<Group>, b: seq<Group>, c: seq<Group>, x: int, p1: int, f1: int, p2: int, f2: int)
    requires Counted(a, b, x, p1, f1) && Counted(b, c, x, p2, f2)
    ensures Counted(a, c, x, p1 + p2, f1 + f2)
  {
  }

  lemma {:induction false} HeadIn(gs: seq<Group>, order: seq<int>, head: int)
    requires ListOk(gs, order, head)
    ensures 0 <= head < |gs|
  {
  }

  /** The guard of the reordering: a group no longer unchecked has been passed. */
  lemma {:induction false} Precedes(order: seq<int>, k: int, x: int) returns (i: int)
    requires 0 <= k <= |order| && x in Elems(order[..k])
    ensures 0 <= i < k && order[i] == x
  {
    i :| 0 <= i < k && order[..k][i] == x;
  }

  // ----- runs -----

  datatype Phase = Idling | Connected | Over

  /** What happens to a client, or elsewhere in the program, at one moment. */
  datatype Turn =
    | Connect(hit: Hit, fits: int -> bool, wait: bool)
    | FirstRequest(fits: int -> bool)
    | Response
    | Failure(kind: set<int>, canReconn: bool, cache: Entry)
    | Elsewhere(kind: set<int>, canReconn: bool, cache: Entry)

  /** The list and the client between turns. */
  datatype Snap = Snap(gs: seq<Group>, order: seq<int>, head: int, dp: int, mask: set<int>, detect: set<int>, tries: seq<Attempt>, phase: Phase)

  ghost function SnapOf(g: GroupList, c: Client, phase: Phase): Snap
    reads g, c
  {
    Snap(g.groups, g.order, g.head, c.dp, c.mask, c.detect, c.tries, phase)
  }

  /** A connection is made, put off or given up. */
  ghost predicate ConnectTurn(b: Snap, hit: Hit, fits: int -> bool, wait: bool, a: Snap, start: int, t: int) {
    var from := if b.dp == NIL && hit.Cached? then hit.entry else Entry(b.mask, b.detect, b.dp);
    && Chosen(b.gs, b.order, b.head, from, fits, if a.phase == Over then NIL else a.dp, a.mask, start, t)
    && (a.phase == Over || a.phase == if wait then Idling else Connected)
    && a == Snap(b.gs, b.order, b.head, if a.phase == Over then from.dp else a.dp, a.mask, from.detect,
                 if a.phase == Connected then b.tries + [Attempt(a.dp, a.mask)] else b.tries, a.phase)
  }

  ghost predicate SetupTurn(b: Snap, fits: int -> bool, a: Snap, start: int, t: int) {
    && Chosen(b.gs, b.order, b.head, Entry(b.mask, b.detect, b.dp), fits, if a.phase == Over then NIL else a.dp, a.mask, start, t)
    && a == b.(dp := if a.phase == Over then b.dp else a.dp, mask := a.mask, phase := if a.phase == Over then Over else Connected)
  }

  /** The failing group and what the loop of on_trigger passes join the mask; the client goes on
      exactly when there is a next group that allows it. */
  ghost predicate FailureTurn(b: Snap, kind: set<int>, canReconn: bool, cache: Entry, a: Snap, next: int, j: int) {
    && 0 <= b.dp < |b.gs| && |a.gs| == |b.gs| && Counted(b.gs, a.gs, b.dp, if b.dp in cache.mask then 0 else 1, 1)
    && Scanned(b.gs, b.order, j, b.mask + {b.dp}, kind, canReconn)
    && (next != NIL ==> && j < |b.order| && next == b.order[j] && 0 <= next < |b.gs| && next !in b.mask + {b.dp}
                        && Takes(b.gs[next], kind, canReconn))
    && a == Snap(a.gs, a.order, a.head, b.dp, b.mask + {b.dp} + Elems(b.order[..j]), kind, b.tries,
                 if next != NIL && canReconn && NoReconn !in b.gs[if a.order == b.order then next else b.dp].auto then Idling else Over)
  }

  ghost predicate Turned(b: Snap, turn: Turn, a: Snap) {
    match turn
    case Connect(hit, fits, wait) =>
      if b.phase == Idling && (hit.Cached? ==> EntryOk(hit.entry, |b.gs|)) then exists start, t :: ConnectTurn(b, hit, fits, wait, a, start, t) else a == b
    case FirstRequest(fits) =>
      if b.phase == Connected then exists start, t :: SetupTurn(b, fits, a, start, t) else a == b
    case Response => a == if b.phase == Connected then b.(mask := b.mask + {b.dp}) else b
    case Failure(kind, canReconn, cache) =>
      if b.phase == Connected && EntryOk(cache, |b.gs|) then exists next, j :: FailureTurn(b, kind, canReconn, cache, a, next, j) else a == b
    case Elsewhere(_, _, _) => a == b.(gs := a.gs, order := a.order, head := a.head) && |a.gs| == |b.gs|
  }

  /** What holds between turns. */
  ghost predicate Between(g: GroupList, c: Client, other: Client, phase: Phase)
    reads g, c, other
  {
    && g.Valid() && c != other && c.Valid(|g.groups|) && other.Valid(|g.groups|)
    && (phase == Idling ==> c.Idle()) && (phase == Connected ==> c.dp != NIL)
  }

  method ConnectNow(g: GroupList, c: Client, other: Client, hit: Hit, fits: int -> bool, wait: bool) returns (phase: Phase)
    requires Between(g, c, other, Idling) && (hit.Cached? ==> EntryOk(hit.entry, |g.groups|))
    modifies c
    ensures Between(g, c, other, phase) && Turned(old(SnapOf(g, c, Idling)), Connect(hit, fits, wait), SnapOf(g, c, phase))
  {
    ghost var b := SnapOf(g, c, Idling);
    var ok, start, t := c.ConnectHook(g, hit, fits, wait);
    phase := if !ok then Over else if wait then Idling else Connected;
    assert ConnectTurn(b, hit, fits, wait, SnapOf(g, c, phase), start, t);
  }

  method SetupNow(g: GroupList, c: Client, other: Client, fits: int -> bool) returns (phase: Phase)
    requires Between(g, c, other, Connected)
    modifies c
    ensures Between(g, c, other, phase) && Turned(old(SnapOf(g, c, Connected)), FirstRequest(fits), SnapOf(g, c, phase))
  {
    ghost var b := SnapOf(g, c, Connected);
    var ok, start, t := c.SetupConn(g, fits);
    phase := if ok then Connected else Over;
    assert SetupTurn(b, fits, SnapOf(g, c, phase), start, t);
  }

  method FailNow(g: GroupList, c: Client, other: Client, kind: set<int>, canReconn: bool, cache: Entry) returns (phase: Phase)
    requires Between(g, c, other, Connected) && EntryOk(cache, |g.groups|)
    modifies g, c
    ensures Between(g, c, other, phase) && |g.groups| == |old(g.groups)|
    ensures Turned(old(SnapOf(g, c, Connected)), Failure(kind, canReconn, cache), SnapOf(g, c, phase))
  {
    ghost var b := SnapOf(g, c, Connected);
    var next, entry, again, i, j := c.OnTrigger(g, kind, canReconn, cache);
    phase := if again then Idling else Over;
    assert FailureTurn(b, kind, canReconn, cache, SnapOf(g, c, phase), next, j);
  }

  /** One turn; what makes no sense at the moment changes nothing. */
  method TakeTurn(g: GroupList, c: Client, other: Client, turn: Turn, phase: Phase) returns (phase': Phase)
    requires Between(g, c, other, phase)
    modifies g, c, other
    ensures Between(g, c, other, phase') && |g.groups| == |old(g.groups)|
    ensures Turned(old(SnapOf(g, c, phase)), turn, SnapOf(g, c, phase'))
  {
    phase' := phase;
    match turn
    case Connect(hit, fits, wait) =>
      if phase == Idling && (hit.Cached? ==> EntryOk(hit.entry, |g.groups|)) { phase' := ConnectNow(g, c, other, hit, fits, wait); }
    case FirstRequest(fits) =>
      if phase == Connected { phase' := SetupNow(g, c, other, fits); }
    case Response =>
      if phase == Connected { c.MarkTried(|g.groups|); }
    case Failure(kind, canReconn, cache) =>
      if phase == Connected && EntryOk(cache, |g.groups|) { phase' := FailNow(g, c, other, kind, canReconn, cache); }
    case Elsewhere(kind, canReconn, cache) =>
      if other.dp != NIL && EntryOk(cache, |g.groups|) { var _, _, _, _, _ := other.OnTrigger(g, kind, canReconn, cache); }
  }

  /** Any run of one client: connecting, being put off, switching groups on its first request,
      failing and reconnecting, while another client uses and reorders the same list.  Every turn
      does what it says, and every group is connected at most once. */
  method Run(g: GroupList, c: Client, other: Client, turns: seq<Turn>) returns (phase: Phase, ghost run: seq<Snap>)
    requires Between(g, c, other, Idling) && c.tries == []
    modifies g, c, other
    ensures Between(g, c, other, phase) && |g.groups| == |old(g.groups)|
    ensures |run| == |turns| + 1 && run[0] == old(SnapOf(g, c, Idling)) && run[|turns|] == SnapOf(g, c, phase)
    ensures forall k :: 0 <= k < |turns| ==> Turned(run[k], turns[k], run[k + 1])
    ensures |c.tries| <= |g.groups| && forall j, k :: 0 <= j < k < |c.tries| ==> c.tries[j].group != c.tries[k].group
  {
    phase := Idling;
    run := [SnapOf(g, c, phase)];
    for n := 0 to |turns|
      invariant Between(g, c, other, phase) && |g.groups| == |old(g.groups)|
      invariant |run| == n + 1 && run[0] == old(SnapOf(g, c, Idling)) && run[n] == SnapOf(g, c, phase)
      invariant forall k :: 0 <= k < n ==> Turned(run[k], turns[k], run[k + 1])
    {
      phase := TakeTurn(g, c, other, turns[n], phase);
      run := run + [SnapOf(g, c, phase)];
    }
    AtMostOnce(c.tries, |g.groups|);
  }
}
