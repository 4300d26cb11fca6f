/** The data of ByeDPI's event pool (conev.c): the slot array, pair pointers, the timer list and the
    batch of reported events, with what each primitive update keeps. */
module EventSlots {
  import opened Sequences

  datatype Eval = Eval(fd: int, index: int, modIter: nat, pair: int, tvMs: int, tvNext: int, tvPrev: int)

  // ----- slots -----

  predicate Live(items: seq<Eval>, links: seq<int>, count: int, v: int) {
    0 <= v < |items| && 0 <= items[v].index < count <= |links| && links[items[v].index] == v
  }

  /** `links` is a permutation of the items; its first `count` places are the live entries, each of
      which knows its place. */
  ghost predicate Slots(items: seq<Eval>, links: seq<int>, count: int) {
    && 0 <= count <= |links| == |items|
    && (forall i :: 0 <= i < |links| ==> 0 <= links[i] < |items|)
    && (forall i, j :: 0 <= i < j < |links| ==> links[i] != links[j])
    && (forall v :: 0 <= v < |items| ==> v in links)
    && (forall i :: 0 <= i < count ==> items[links[i]].index == i && items[links[i]].fd > 0)
  }

  lemma {:induction false} LiveIffLinked(items: seq<Eval>, links: seq<int>, count: int, v: int)
    requires Slots(items, links, count)
    ensures Live(items, links, count, v) <==> v in links[..count]
  {
    if v in links[..count] {
      var i :| 0 <= i < count && links[..count][i] == v;
    }
  }

  /** add_event on a pool with a free slot. */
  lemma {:induction false} AddSlot(items: seq<Eval>, links: seq<int>, count: int, e: Eval)
    requires Slots(items, links, count) && count < |links| && e.fd > 0 && e.index == count
    ensures var v := links[count];
            var items' := items[v := e];
            && Slots(items', links, count + 1) && !Live(items, links, count, v)
            && forall u :: Live(items', links, count + 1, u) <==> Live(items, links, count, u) || u == v
  {
    var v := links[count];
    var items' := items[v := e];
    forall i | 0 <= i < count ensures items'[links[i]] == items[links[i]] {}
  }

  /** The exchange with the last live slot. */
  ghost function SwapLinks(links: seq<int>, k: int, last: int): (r: seq<int>)
    requires 0 <= k < |links| && 0 <= last < |links|
    ensures |r| == |links|
  {
    links[k := links[last]][last := links[k]]
  }

  lemma {:induction false} SwapKeeps(links: seq<int>, k: int, last: int)
    requires 0 <= k < |links| && 0 <= last < |links|
    ensures forall x :: x in links ==> x in SwapLinks(links, k, last)
  {
    var r := SwapLinks(links, k, last);
    forall x | x in links ensures x in r {
      var i :| 0 <= i < |links| && links[i] == x;
      assert r[if i == k then last else if i == last then k else i] == x;
    }
  }

  /** The slot part of del_event: the last live entry moves to the place of `v`. */
  lemma {:induction false} DropSlot(items: seq<Eval>, links: seq<int>, count: int, v: int, items': seq<Eval>)
    requires Slots(items, links, count) && Live(items, links, count, v) && |items'| == |items|
    requires forall u :: 0 <= u < |items| && u != v ==> items'[u].fd == items[u].fd
    requires var k, last := items[v].index, links[count - 1];
             forall u :: 0 <= u < |items| ==> items'[u].index == if u == last && u != v then k else items[u].index
    ensures var links' := SwapLinks(links, items[v].index, count - 1);
            && Slots(items', links', count - 1)
            && forall u :: Live(items', links', count - 1, u) <==> Live(items, links, count, u) && u != v
  {
    var k := items[v].index;
    var links' := SwapLinks(links, k, count - 1);
    SwapKeeps(links, k, count - 1);
    forall i | 0 <= i < count - 1 ensures items'[links'[i]].index == i && items'[links'[i]].fd > 0 {}
    forall u ensures Live(items', links', count - 1, u) <==> Live(items, links, count, u) && u != v {
      if Live(items, links, count, u) && u != v {
        assert links[items[u].index] == u;
      }
    }
  }

  // ----- pairs -----

  ghost predicate PairLives(items: seq<Eval>, links: seq<int>, count: int, v: int) {
    Live(items, links, count, v) && items[v].pair != NIL ==>
      var p := items[v].pair;
      Live(items, links, count, p) && p != v && items[p].pair != NIL
  }

  ghost predicate PairDiffers(items: seq<Eval>, links: seq<int>, count: int, u: int, v: int) {
    Live(items, links, count, u) && Live(items, links, count, v) && items[u].pair == items[v].pair != NIL ==> u == v
  }

  /** Pair pointers of live entries are null or form cycles of at least two live entries. */
  ghost predicate Pairs(items: seq<Eval>, links: seq<int>, count: int) {
    && (forall v :: PairLives(items, links, count, v))
    && (forall u, v :: PairDiffers(items, links, count, u, v))
  }

  /** Step k of a walk along pair pointers. */
  ghost predicate Step(items: seq<Eval>, s: seq<int>, k: int) {
    0 < k < |s| && 0 <= s[k - 1] < |items| && items[s[k - 1]].pair == s[k]
  }

  /** A walk along pair pointers through distinct live entries. */
  ghost predicate Walk(items: seq<Eval>, links: seq<int>, count: int, s: seq<int>) {
    && Distinct(s)
    && (forall k :: 0 <= k < |s| ==> Live(items, links, count, s[k]))
    && (forall k :: 1 <= k < |s| ==> Step(items, s, k))
  }

  /** The cycle through `v`, beginning there; an unpaired entry is alone. */
  ghost predicate Cycle(items: seq<Eval>, links: seq<int>, count: int, v: int, s: seq<int>) {
    && s != [] && s[0] == v && Walk(items, links, count, s)
    && (if |s| == 1 then items[v].pair == NIL else items[s[|s| - 1]].pair == v)
  }

  lemma {:induction false} DistinctBound(s: seq<int>, n: nat)
    requires Distinct(s) && forall k :: 0 <= k < |s| ==> 0 <= s[k] < n
    ensures |s| <= n
    decreases n
  {
    if s != [] {
      var x := s[0];
      if n - 1 in s {
        var k :| 0 <= k < |s| && s[k] == n - 1;
        DistinctBound(s[..k] + s[k + 1..], n - 1);
      } else {
        DistinctBound(s, n - 1);
      }
    }
  }

  lemma {:induction false} WalkCloses(items: seq<Eval>, links: seq<int>, count: int, s: seq<int>)
    requires Pairs(items, links, count) && s != [] && Walk(items, links, count, s) && items[s[|s| - 1]].pair in s
    requires items[s[|s| - 1]].pair != NIL
    ensures |s| > 1 && items[s[|s| - 1]].pair == s[0]
  {
    var last := s[|s| - 1];
    assert Live(items, links, count, last);
    assert PairLives(items, links, count, last);
    forall k | 1 <= k < |s| ensures s[k] != items[last].pair {
      assert Step(items, s, k) && Live(items, links, count, s[k - 1]);
      assert PairDiffers(items, links, count, s[k - 1], last);
    }
  }

  /** Every live entry lies on a cycle. */
  lemma {:induction false} FindCycle(items: seq<Eval>, links: seq<int>, count: int, s: seq<int>) returns (c: seq<int>)
    requires Slots(items, links, count) && Pairs(items, links, count) && s != [] && Walk(items, links, count, s)
    ensures Cycle(items, links, count, s[0], c)
    decreases |items| + 1 - |s|
  {
    DistinctBound(s, |items|);
    var last := s[|s| - 1];
    var p := items[last].pair;
    assert Live(items, links, count, last) && PairLives(items, links, count, last);
    if |s| > 1 {
      assert Step(items, s, |s| - 1) && Live(items, links, count, s[|s| - 2]);
      assert PairLives(items, links, count, s[|s| - 2]);
    }
    if p == NIL {
      c := s;
    } else if p in s {
      WalkCloses(items, links, count, s);
      c := s;
    } else {
      assert Live(items, links, count, last) && Live(items, links, count, p);
      var s' := s + [p];
      forall k | 1 <= k < |s'| ensures Step(items, s', k) {
        if k < |s| { assert Step(items, s, k); }
      }
      c := FindCycle(items, links, count, s');
    }
  }

  /** No live entry outside a cycle points into it. */
  lemma {:induction false} NoneInto(items: seq<Eval>, links: seq<int>, count: int, v: int, s: seq<int>, u: int)
    requires Slots(items, links, count) && Pairs(items, links, count) && Cycle(items, links, count, v, s)
    requires Live(items, links, count, u) && items[u].pair in s
    ensures u in s
  {
    var k :| 0 <= k < |s| && s[k] == items[u].pair;
    assert Live(items, links, count, s[k]) && PairLives(items, links, count, u);
    if k > 0 {
      assert Step(items, s, k);
      assert Live(items, links, count, s[k - 1]);
      assert PairDiffers(items, links, count, u, s[k - 1]);
    } else if |s| > 1 {
      assert Live(items, links, count, s[|s| - 1]);
      assert PairDiffers(items, links, count, u, s[|s| - 1]);
    }
  }

  /** Removing one whole cycle and leaving the other entries' pairs alone keeps the pairs proper. */
  lemma {:induction false} DropCycle(items: seq<Eval>, links: seq<int>, count: int, v: int, s: seq<int>,
                                     items': seq<Eval>, links': seq<int>, count': int)
    requires Slots(items, links, count) && Pairs(items, links, count) && Cycle(items, links, count, v, s)
    requires forall u :: Live(items', links', count', u) <==> Live(items, links, count, u) && u !in s
    requires forall u :: Live(items', links', count', u) ==> u < |items| && items'[u].pair == items[u].pair
    ensures Pairs(items', links', count')
  {
    forall u ensures PairLives(items', links', count', u) {
      assert PairLives(items, links, count, u);
      if Live(items', links', count', u) && items[u].pair in s { NoneInto(items, links, count, v, s, u); }
    }
    forall u, w ensures PairDiffers(items', links', count', u, w) { assert PairDiffers(items, links, count, u, w); }
  }

  // ----- timers -----

  ghost predicate Linked(items: seq<Eval>, ts: seq<int>, k: int) {
    && 0 <= k < |ts| && 0 <= ts[k] < |items|
    && items[ts[k]].tvNext == At(ts, k + 1) && items[ts[k]].tvPrev == At(ts, k - 1)
  }

  ghost predicate Due(items: seq<Eval>, ts: seq<int>) {
    && (forall k :: 0 <= k < |ts| ==> 0 <= ts[k] < |items|)
    && (forall j, k :: 0 <= j < k < |ts| ==> items[ts[j]].tvMs <= items[ts[k]].tvMs)
  }

  /** The entries `ts` form a doubly linked list in order of deadline. */
  ghost predicate TimerList(items: seq<Eval>, ts: seq<int>, first: int, last: int) {
    && Distinct(ts) && first == At(ts, 0) && last == At(ts, |ts| - 1) && Due(items, ts)
    && (forall k :: 0 <= k < |ts| ==> Linked(items, ts, k))
  }

  /** The list holds exactly the live entries whose timer is set. */
  ghost predicate TimersOf(items: seq<Eval>, links: seq<int>, count: int, ts: seq<int>) {
    && (forall v :: v in ts ==> Live(items, links, count, v))
    && (forall v :: Live(items, links, count, v) ==>
          if v in ts then items[v].tvMs != 0 else items[v].tvMs == 0 && items[v].tvNext == items[v].tvPrev == NIL)
  }

  ghost function Without(ts: seq<int>, gone: set<int>): (r: seq<int>)
    ensures forall u :: u in r <==> u in ts && u !in gone
  {
    if ts == [] then [] else
      assert ts == [ts[0]] + ts[1..];
      if ts[0] in gone then Without(ts[1..], gone) else [ts[0]] + Without(ts[1..], gone)
  }

  lemma {:induction false} WithoutAbsent(ts: seq<int>, gone: set<int>)
    requires forall u :: u in ts ==> u !in gone
    ensures Without(ts, gone) == ts
  {
    if ts != [] {
      var x, rest := ts[0], ts[1..];
      assert x in ts && ts == [x] + rest;
      WithoutAbsent(rest, gone);
      assert Without(ts, gone) == [x] + Without(rest, gone);
    }
  }

  lemma {:induction false} WithoutBoth(ts: seq<int>, a: set<int>, b: set<int>)
    ensures Without(Without(ts, a), b) == Without(ts, a + b)
  {
    if ts != [] {
      var x, rest := ts[0], Without(ts[1..], a);
      WithoutBoth(ts[1..], a, b);
      if x !in a { WithoutCons(x, rest, b); }
    }
  }

  lemma {:induction false} WithoutCons(x: int, rest: seq<int>, b: set<int>)
    ensures Without([x] + rest, b) == if x in b then Without(rest, b) else [x] + Without(rest, b)
  {
    assert ([x] + rest)[1..] == rest;
  }

  lemma {:induction false} WithoutAt(ts: seq<int>, k: int)
    requires 0 <= k < |ts| && Distinct(ts)
    ensures Without(ts, {ts[k]}) == ts[..k] + ts[k + 1..]
  {
    if k == 0 {
      WithoutAbsent(ts[1..], {ts[0]});
    } else {
      WithoutAt(ts[1..], k - 1);
      assert ts[..k] + ts[k + 1..] == [ts[0]] + (ts[1..][..k - 1] + ts[1..][k..]);
    }
  }

  /** The pointer updates of remove_timer. */
  ghost predicate Unlinked(items: seq<Eval>, items': seq<Eval>, v: int) {
    && 0 <= v < |items| == |items'|
    && var a := items[v];
       forall u :: 0 <= u < |items| ==>
         items'[u] == if u == v then a.(tvMs := 0, tvNext := NIL, tvPrev := NIL)
                      else items[u].(tvNext := if a.tvPrev == u then a.tvNext else items[u].tvNext,
                                     tvPrev := if a.tvNext == u then a.tvPrev else items[u].tvPrev)
  }

  lemma {:induction false} UnlinkStep(items: seq<Eval>, items': seq<Eval>, ts: seq<int>, k: int, j: int)
    requires 0 <= k < |ts| && 0 <= j < |ts| - 1 && Distinct(ts) && Unlinked(items, items', ts[k])
    requires forall i :: 0 <= i < |ts| ==> Linked(items, ts, i)
    ensures Linked(items', ts[..k] + ts[k + 1..], j)
  {
    var r := ts[..k] + ts[k + 1..];
    var i := if j < k then j else j + 1;
    assert Linked(items, ts, k) && Linked(items, ts, i);
    assert r[j] == ts[i];
    assert At(r, j + 1) == if j + 1 < k then At(ts, j + 1) else At(ts, j + 2);
    assert At(r, j - 1) == if j - 1 < k then At(ts, j - 1) else At(ts, j);
    assert i != k - 1 && k > 0 ==> ts[i] != ts[k - 1];
    assert i != k + 1 && k + 1 < |ts| ==> ts[i] != ts[k + 1];
  }

  lemma {:induction false} Unlink(items: seq<Eval>, items': seq<Eval>, ts: seq<int>, first: int, last: int, k: int)
    requires TimerList(items, ts, first, last) && 0 <= k < |ts| && Unlinked(items, items', ts[k])
    ensures var a := items[ts[k]];
            TimerList(items', Without(ts, {ts[k]}), if first == ts[k] then a.tvNext else first, if last == ts[k] then a.tvPrev else last)
  {
    var r := ts[..k] + ts[k + 1..];
    WithoutAt(ts, k);
    assert Linked(items, ts, k);
    forall j | 0 <= j < |r| ensures Linked(items', r, j) { UnlinkStep(items, items', ts, k, j); }
    UnlinkDue(items, items', ts, k);
  }

  lemma {:induction false} UnlinkDue(items: seq<Eval>, items': seq<Eval>, ts: seq<int>, k: int)
    requires Distinct(ts) && Due(items, ts) && 0 <= k < |ts| && Unlinked(items, items', ts[k])
    ensures Due(items', ts[..k] + ts[k + 1..]) && Distinct(ts[..k] + ts[k + 1..])
  {
    var r := ts[..k] + ts[k + 1..];
    assert forall j :: 0 <= j < |r| ==> r[j] == ts[if j < k then j else j + 1] && r[j] != ts[k];
  }

  /** The pointer updates of set_timer, between neighbours `p` and `n`. */
  ghost predicate Inserted(items: seq<Eval>, items': seq<Eval>, v: int, ms: int, p: int, n: int) {
    && 0 <= v < |items| == |items'|
    && forall u :: 0 <= u < |items| ==>
         items'[u] == if u == v then items[u].(tvMs := ms, tvNext := n, tvPrev := p)
                      else items[u].(tvNext := if u == p then v else items[u].tvNext,
                                     tvPrev := if u == n then v else items[u].tvPrev)
  }

  lemma {:induction false} AtInserted(ts: seq<int>, k: int, v: int, i: int)
    requires 0 <= k <= |ts|
    ensures At(ts[..k] + [v] + ts[k..], i) == if i < k then At(ts, i) else if i == k then v else At(ts, i - 1)
  {
  }

  lemma {:induction false} InsertStep(items: seq<Eval>, items': seq<Eval>, ts: seq<int>, k: int, v: int, ms: int, j: int)
    requires 0 <= k <= |ts| && 0 <= j <= |ts| && Distinct(ts) && v !in ts
    requires Inserted(items, items', v, ms, At(ts, k - 1), At(ts, k)) && forall i :: 0 <= i < |ts| ==> Linked(items, ts, i)
    ensures Linked(items', ts[..k] + [v] + ts[k..], j)
  {
    var r := ts[..k] + [v] + ts[k..];
    AtInserted(ts, k, v, j);
    AtInserted(ts, k, v, j - 1);
    AtInserted(ts, k, v, j + 1);
    if j != k {
      var i := if j < k then j else j - 1;
      assert Linked(items, ts, i) && ts[i] in ts;
      assert r[j] == ts[i];
    }
  }

  lemma {:induction false} InsertDue(items: seq<Eval>, items': seq<Eval>, ts: seq<int>, k: int, v: int, ms: int, p: int, n: int)
    requires 0 <= k <= |ts| && Distinct(ts) && v !in ts && Due(items, ts) && Inserted(items, items', v, ms, p, n)
    requires (forall i :: 0 <= i < k ==> items[ts[i]].tvMs < ms) && (forall i :: k <= i < |ts| ==> items[ts[i]].tvMs >= ms)
    ensures Due(items', ts[..k] + [v] + ts[k..]) && Distinct(ts[..k] + [v] + ts[k..])
  {
    var r := ts[..k] + [v] + ts[k..];
    forall i, j | 0 <= i < j < |r| ensures r[i] != r[j] && items'[r[i]].tvMs <= items'[r[j]].tvMs {
      AtInserted(ts, k, v, i);
      AtInserted(ts, k, v, j);
      assert At(r, i) == r[i] && At(r, j) == r[j];
    }
  }

  lemma {:induction false} InsertTimer(items: seq<Eval>, items': seq<Eval>, ts: seq<int>, first: int, last: int, k: int, v: int, ms: int)
    requires TimerList(items, ts, first, last) && 0 <= k <= |ts| && v !in ts
    requires Inserted(items, items', v, ms, At(ts, k - 1), At(ts, k))
    requires (forall i :: 0 <= i < k ==> items[ts[i]].tvMs < ms) && (forall i :: k <= i < |ts| ==> items[ts[i]].tvMs >= ms)
    ensures TimerList(items', ts[..k] + [v] + ts[k..], if k == 0 then v else first, if k == |ts| then v else last)
  {
    var r := ts[..k] + [v] + ts[k..];
    InsertDue(items, items', ts, k, v, ms, At(ts, k - 1), At(ts, k));
    forall j | 0 <= j < |r| ensures Linked(items', r, j) { InsertStep(items, items', ts, k, v, ms, j); }
  }

  /** Changes to other fields, or to entries outside the list, leave the list as it is. */
  lemma {:induction false} TimerFrame(items: seq<Eval>, items': seq<Eval>, ts: seq<int>, first: int, last: int)
    requires TimerList(items, ts, first, last) && |items'| == |items|
    requires forall u :: 0 <= u < |items| && u in ts ==>
               items'[u].tvMs == items[u].tvMs && items'[u].tvNext == items[u].tvNext && items'[u].tvPrev == items[u].tvPrev
    ensures TimerList(items', ts, first, last)
  {
    forall k | 0 <= k < |ts| ensures Linked(items', ts, k) {
      assert Linked(items, ts, k) && ts[k] in ts;
    }
    assert forall k :: 0 <= k < |ts| ==> ts[k] in ts;
  }

  // ----- one deletion -----

  /** What lines 113-129 of conev.c do to the entries: `v` dies and loses its timer, the last
      live entry takes its place. */
  ghost predicate Dropped(items: seq<Eval>, items': seq<Eval>, links: seq<int>, count: int, v: int, iters: nat) {
    && 0 <= v < |items| == |items'| && 0 < count <= |links|
    && items'[v].fd == -1 && items'[v].modIter == iters
    && (forall u :: 0 <= u < |items| && u != v ==>
          items'[u].fd == items[u].fd && items'[u].modIter == items[u].modIter && items'[u].tvMs == items[u].tvMs)
    && (forall u :: 0 <= u < |items| ==> items'[u].pair == items[u].pair)
    && (forall u :: 0 <= u < |items| ==>
          items'[u].index == if u == links[count - 1] && u != v then items[v].index else items[u].index)
  }

  lemma {:induction false} DropTimers(items: seq<Eval>, mid: seq<Eval>, items': seq<Eval>, links: seq<int>, count: int,
                                      links': seq<int>, v: int, ts: seq<int>)
    requires TimersOf(items, links, count, ts) && Live(items, links, count, v) && Unlinked(items, mid, v) && |items'| == |items|
    requires forall u :: 0 <= u < |items| && u != v ==>
               items'[u].tvMs == mid[u].tvMs && items'[u].tvNext == mid[u].tvNext && items'[u].tvPrev == mid[u].tvPrev
    requires forall u :: Live(items', links', count - 1, u) <==> Live(items, links, count, u) && u != v
    requires items[v].tvNext == NIL || items[v].tvNext in ts
    requires items[v].tvPrev == NIL || items[v].tvPrev in ts
    ensures TimersOf(items', links', count - 1, Without(ts, {v}))
  {
  }

  // ----- the batch -----

  /** `polled` is what was live, with its descriptor, when the current batch was collected and
      `high` the number of slots then.  Whatever has not been added or deleted since is still
      as it was; slots that have been vacated hold entries changed in this batch. */
  ghost predicate Batch(items: seq<Eval>, links: seq<int>, count: int, iters: nat, polled: map<int, int>, high: int) {
    && 0 <= count <= |links| && 0 <= high <= |links|
    && (forall v :: Live(items, links, count, v) ==> items[v].modIter <= iters)
    && (forall v :: Live(items, links, count, v) && items[v].modIter < iters ==> v in polled && polled[v] == items[v].fd)
    && (forall v :: v in polled ==> 0 <= v < |items| && (Live(items, links, count, v) || items[v].modIter == iters))
    && (forall i :: count <= i < high ==> 0 <= links[i] < |items| && items[links[i]].modIter == iters)
  }

  datatype PollFd = PollFd(fd: int, revents: int)

  /** pollfd records run parallel to the slots; an entry dispatched in this batch has no events left. */
  ghost predicate PollSlots(items: seq<Eval>, links: seq<int>, count: int, iters: nat, pfds: seq<PollFd>, done: set<int>) {
    && 0 <= count <= |links| == |pfds|
    && (forall i :: 0 <= i < count ==>
          && 0 <= links[i] < |items| && pfds[i].fd == items[links[i]].fd
          && (links[i] in done && items[links[i]].modIter < iters ==> pfds[i].revents == 0))
  }

  lemma {:induction false} AddBatch(items: seq<Eval>, links: seq<int>, count: int, iters: nat, polled: map<int, int>, high: int, e: Eval, ok: bool)
    requires Slots(items, links, count) && count < |links| && Batch(items, links, count, iters, polled, high)
    requires e.fd > 0 && e.index == count && e.modIter == iters
    ensures Batch(items[links[count] := e], links, if ok then count + 1 else count, iters, polled, high)
  {
    AddSlot(items, links, count, e);
    var v := links[count];
    var items' := items[v := e];
    forall u ensures Live(items', links, count, u) <==> Live(items, links, count, u) {}
  }

  lemma {:induction false} DropBatch(items: seq<Eval>, items': seq<Eval>, links: seq<int>, count: int, v: int, iters: nat, polled: map<int, int>, high: int)
    requires Slots(items, links, count) && Live(items, links, count, v) && Batch(items, links, count, iters, polled, high)
    requires Dropped(items, items', links, count, v, iters)
    ensures Batch(items', SwapLinks(links, items[v].index, count - 1), count - 1, iters, polled, high)
  {
    var k := items[v].index;
    var links' := SwapLinks(links, k, count - 1);
    DropSlot(items, links, count, v, items');
    assert links'[count - 1] == v;
    forall i | count <= i < high ensures items'[links'[i]].modIter == iters {
      assert links'[i] == links[i];
    }
  }

  lemma {:induction false} DropPoll(items: seq<Eval>, items': seq<Eval>, links: seq<int>, count: int, v: int, iters: nat, pfds: seq<PollFd>, done: set<int>)
    requires Slots(items, links, count) && Live(items, links, count, v) && PollSlots(items, links, count, iters, pfds, done)
    requires Dropped(items, items', links, count, v, iters)
    ensures PollSlots(items', SwapLinks(links, items[v].index, count - 1), count - 1, iters,
                      if links[count - 1] == v then pfds else pfds[items[v].index := pfds[count - 1]], done)
  {
    var k := items[v].index;
    var links' := SwapLinks(links, k, count - 1);
    forall i | 0 <= i < count - 1 ensures links'[i] == links[if i == k then count - 1 else i] && links'[i] != v {}
  }

  /** A new batch: everything live was last changed before it. */
  lemma {:induction false} NewBatch(items: seq<Eval>, links: seq<int>, count: int, iters: nat, polled: map<int, int>, high: int, polled': map<int, int>)
    requires Slots(items, links, count) && Batch(items, links, count, iters, polled, high)
    requires polled' == map v | 0 <= v < |items| && Live(items, links, count, v) :: items[v].fd
    ensures Batch(items, links, count, iters + 1, polled', count)
  {
  }
}
