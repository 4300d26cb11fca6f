/** The state of ByeDPI's event pool as one value, its invariant, and what each operation of
    conev.c keeps of it. */
module EventState {
  import opened Sequences
  import opened EventSlots

  // ----- what the pointer updates amount to -----

  ghost predicate OnlyTimers(items: seq<Eval>, items': seq<Eval>) {
    && |items'| == |items|
    && forall u :: 0 <= u < |items| ==>
         items'[u] == items[u].(tvMs := items'[u].tvMs, tvNext := items'[u].tvNext, tvPrev := items'[u].tvPrev)
  }

  ghost predicate Pointer(items: seq<Eval>, p: int) { p == NIL || 0 <= p < |items| }

  ghost function Removed(items: seq<Eval>, v: int): (r: seq<Eval>)
    requires 0 <= v < |items| && Pointer(items, items[v].tvPrev) && Pointer(items, items[v].tvNext)
    ensures |r| == |items|
  {
    var a := items[v];
    var b := if a.tvPrev != NIL then items[a.tvPrev := items[a.tvPrev].(tvNext := a.tvNext)] else items;
    var c := if a.tvNext != NIL then b[a.tvNext := b[a.tvNext].(tvPrev := a.tvPrev)] else b;
    c[v := c[v].(tvMs := 0, tvNext := NIL, tvPrev := NIL)]
  }

  lemma {:induction false} RemovedUnlinks(items: seq<Eval>, v: int)
    requires 0 <= v < |items| && Pointer(items, items[v].tvPrev) && Pointer(items, items[v].tvNext)
    requires items[v].tvPrev != v && items[v].tvNext != v
    ensures Unlinked(items, Removed(items, v), v)
  {
  }

  lemma {:induction false} RemoveEffect(items: seq<Eval>, ts: seq<int>, first: int, last: int, v: int)
    requires 0 <= v < |items| && TimerList(items, ts, first, last)
    requires v in ts || items[v].tvNext == items[v].tvPrev == NIL
    ensures var a := items[v];
            && Pointer(items, a.tvPrev) && Pointer(items, a.tvNext)
            && Unlinked(items, Removed(items, v), v)
            && TimerList(Removed(items, v), Without(ts, {v}), if first == v then a.tvNext else first, if last == v then a.tvPrev else last)
  {
    if v in ts {
      var k :| 0 <= k < |ts| && ts[k] == v;
      UnlinkFacts(items, ts, k);
      RemovedUnlinks(items, v);
      Unlink(items, Removed(items, v), ts, first, last, k);
    } else {
      WithoutAbsent(ts, {v});
      StartNot(ts, v);
      RemovedUnlinks(items, v);
      TimerFrame(items, Removed(items, v), ts, first, last);
    }
  }

  ghost function Set(items: seq<Eval>, v: int, due: int, prev: int, next: int): (r: seq<Eval>)
    requires 0 <= v < |items| && Pointer(items, prev) && Pointer(items, next)
    ensures |r| == |items|
  {
    var b := items[v := items[v].(tvMs := due, tvNext := next, tvPrev := prev)];
    var c := if next != NIL then b[next := b[next].(tvPrev := v)] else b;
    if prev != NIL then c[prev := c[prev].(tvNext := v)] else c
  }

  lemma {:induction false} SetInserts(items: seq<Eval>, v: int, due: int, prev: int, next: int)
    requires 0 <= v < |items| && Pointer(items, prev) && Pointer(items, next) && v != prev && v != next
    ensures Inserted(items, Set(items, v, due, prev, next), v, due, prev, next)
  {
  }

  lemma {:induction false} SetEffect(items: seq<Eval>, links: seq<int>, count: int, ts: seq<int>, first: int, last: int, v: int, k: int, due: int)
    requires TimerList(items, ts, first, last) && TimersOf(items, links, count, ts) && Live(items, links, count, v)
    requires items[v].tvMs == 0 && due != 0 && 0 <= k <= |ts|
    requires (forall i :: 0 <= i < k ==> items[ts[i]].tvMs < due) && (forall i :: k <= i < |ts| ==> items[ts[i]].tvMs >= due)
    ensures var prev, next := At(ts, k - 1), At(ts, k);
            && Pointer(items, prev) && Pointer(items, next)
            && var items' := Set(items, v, due, prev, next);
               var ts' := ts[..k] + [v] + ts[k..];
               && Inserted(items, items', v, due, prev, next) && OnlyTimers(items, items') && items'[v].tvMs == due
               && TimerList(items', ts', if first == NIL || next == first then v else first, if last == NIL || prev == last then v else last)
               && TimersOf(items', links, count, ts')
  {
    var prev, next := At(ts, k - 1), At(ts, k);
    assert v !in ts;
    SetInserts(items, v, due, prev, next);
    var items' := Set(items, v, due, prev, next);
    InsertTimer(items, items', ts, first, last, k, v, due);
    assert prev != NIL ==> prev in ts;
    assert next != NIL ==> next in ts;
    SetTimersOf(items, items', links, count, ts, v, k, due);
  }

  lemma {:induction false} SetTimersOf(items: seq<Eval>, items': seq<Eval>, links: seq<int>, count: int, ts: seq<int>, v: int, k: int, due: int)
    requires TimersOf(items, links, count, ts) && Live(items, links, count, v) && due != 0 && 0 <= k <= |ts|
    requires Inserted(items, items', v, due, At(ts, k - 1), At(ts, k))
    ensures TimersOf(items', links, count, ts[..k] + [v] + ts[k..])
  {
    var ts' := ts[..k] + [v] + ts[k..];
    assert ts == ts[..k] + ts[k..];
    assert forall u :: u in ts' <==> u == v || u in ts;
    forall u ensures Live(items', links, count, u) <==> Live(items, links, count, u) {}
  }

  /** The same live entries with the same pairs. */
  lemma {:induction false} PairsFrame(items: seq<Eval>, items': seq<Eval>, links: seq<int>, count: int, count': int, v: int)
    requires Pairs(items, links, count) && |items'| == |items| && 0 <= v < |items|
    requires forall u :: Live(items, links, count, u) ==> Live(items', links, count', u) && items'[u].pair == items[u].pair
    requires forall u :: Live(items', links, count', u) ==> Live(items, links, count, u) || (u == v && items'[v].pair == NIL)
    ensures Pairs(items', links, count')
  {
    forall u ensures PairLives(items', links, count', u) { assert PairLives(items, links, count, u); }
    forall u, w ensures PairDiffers(items', links, count', u, w) { assert PairDiffers(items, links, count, u, w); }
  }

  lemma {:induction false} AddTimers(items: seq<Eval>, links: seq<int>, count: int, ts: seq<int>, first: int, last: int, e: Eval)
    requires Slots(items, links, count) && count < |links|
    requires TimerList(items, ts, first, last) && TimersOf(items, links, count, ts)
    requires e == Eval(e.fd, count, e.modIter, NIL, 0, NIL, NIL) && e.fd > 0
    ensures var items' := items[links[count] := e];
            TimerList(items', ts, first, last) && TimersOf(items', links, count, ts) && TimersOf(items', links, count + 1, ts)
  {
    AddSlot(items, links, count, e);
    TimerFrame(items, items[links[count] := e], ts, first, last);
  }

  lemma {:induction false} AddKeeps(items: seq<Eval>, links: seq<int>, count: int, e: Eval)
    requires Slots(items, links, count) && count < |links| && Pairs(items, links, count)
    requires e.pair == NIL && e.fd > 0 && e.index == count
    ensures var v := links[count];
            var items' := items[v := e];
            && Slots(items', links, count) && Slots(items', links, count + 1) && !Live(items, links, count, v)
            && (forall u :: Live(items', links, count + 1, u) <==> Live(items, links, count, u) || u == v)
            && (forall u :: Live(items', links, count, u) <==> Live(items, links, count, u))
            && (forall u :: Live(items, links, count, u) ==> items'[u] == items[u])
            && Pairs(items', links, count) && Pairs(items', links, count + 1)
  {
    var v := links[count];
    AddSlot(items, links, count, e);
    var items' := items[v := e];
    forall u ensures Live(items', links, count, u) <==> Live(items, links, count, u) {}
    PairsFrame(items, items', links, count, count, v);
    PairsFrame(items, items', links, count, count + 1, v);
  }

  lemma {:induction false} AddPolls(items: seq<Eval>, links: seq<int>, count: int, iters: nat, pfds: seq<PollFd>, done: set<int>, e: Eval)
    requires Slots(items, links, count) && count < |links| && e.modIter == iters && PollSlots(items, links, count, iters, pfds, done)
    ensures |pfds| == |links| && 0 <= links[count] < |items| && PollSlots(items[links[count] := e], links, count + 1, iters, pfds[count := PollFd(e.fd, 0)], done)
  {
  }

  lemma {:induction false} UnlinkFacts(items: seq<Eval>, ts: seq<int>, k: int)
    requires 0 <= k < |ts| && Distinct(ts) && forall i :: 0 <= i < |ts| ==> Linked(items, ts, i)
    ensures 0 <= ts[k] < |items|
    ensures var a := items[ts[k]];
            && (a.tvPrev != NIL ==> 0 <= a.tvPrev < |items| && a.tvPrev != ts[k] && a.tvPrev != a.tvNext)
            && (a.tvNext != NIL ==> 0 <= a.tvNext < |items| && a.tvNext != ts[k])
  {
    assert Linked(items, ts, k);
    if k > 0 { assert Linked(items, ts, k - 1); }
    if k + 1 < |ts| { assert Linked(items, ts, k + 1); }
  }

  lemma {:induction false} StartNot(ts: seq<int>, v: int)
    requires v !in ts && v >= 0
    ensures At(ts, 0) != v && At(ts, |ts| - 1) != v
  {
  }

  /** Timer fields do not matter to the rest of the state. */
  lemma {:induction false} KeepCore(items: seq<Eval>, items': seq<Eval>, links: seq<int>, count: int, iters: nat,
                                    polled: map<int, int>, high: int, pfds: seq<PollFd>, done: set<int>)
    requires OnlyTimers(items, items')
    ensures forall u :: Live(items', links, count, u) <==> Live(items, links, count, u)
    ensures Slots(items, links, count) ==> Slots(items', links, count)
    ensures Pairs(items, links, count) ==> Pairs(items', links, count)
    ensures Batch(items, links, count, iters, polled, high) ==> Batch(items', links, count, iters, polled, high)
    ensures PollSlots(items, links, count, iters, pfds, done) ==> PollSlots(items', links, count, iters, pfds, done)
  {
    if Pairs(items, links, count) {
      forall u ensures PairLives(items', links, count, u) { assert PairLives(items, links, count, u); }
      forall u, w ensures PairDiffers(items', links, count, u, w) { assert PairDiffers(items, links, count, u, w); }
    }
  }

  // ----- the whole state -----

  /** The pool and, in `watched`, the entries whose descriptors are registered with epoll.  `ts`,
      `polled`, `done` and `high` describe it: the timers in order, what was live with which
      descriptor when the current batch was collected, what has been dispatched from it, and how
      many slots were in use then. */
  datatype State = State(
    epoll: bool, items: seq<Eval>, links: seq<int>, count: int, iters: nat, tvStart: int, tvEnd: int, pfds: seq<PollFd>,
    watched: set<int>, ts: seq<int>, polled: map<int, int>, done: set<int>, high: int)

  predicate LiveIn(s: State, v: int) { Live(s.items, s.links, s.count, v) }

  datatype Part = TheSlots | TheTimers | TheBatch | ThePolls | TheWatch | ThePairs

  /** One part of the invariant. */
  ghost predicate Holds(part: Part, s: State) {
    match part
    case TheSlots => Slots(s.items, s.links, s.count)
    case TheTimers => TimerList(s.items, s.ts, s.tvStart, s.tvEnd) && TimersOf(s.items, s.links, s.count, s.ts)
    case TheBatch => Batch(s.items, s.links, s.count, s.iters, s.polled, s.high)
    case ThePolls => |s.pfds| == |s.links| && (!s.epoll ==> PollSlots(s.items, s.links, s.count, s.iters, s.pfds, s.done))
    case TheWatch => s.epoll ==> forall v :: v in s.watched <==> LiveIn(s, v)
    case ThePairs => Pairs(s.items, s.links, s.count)
  }

  ghost predicate Good(s: State) { forall part :: Holds(part, s) }

  /** All but the pair pointers, which are taken apart during a deletion. */
  ghost predicate Core(s: State) { forall part :: part != ThePairs ==> Holds(part, s) }

  lemma {:induction false} CoreParts(s: State)
    requires Core(s)
    ensures Holds(TheSlots, s) && Holds(TheTimers, s) && Holds(TheBatch, s) && Holds(ThePolls, s)
  {
  }

  lemma {:induction false} GoodCore(s: State)
    ensures Good(s) <==> Core(s) && Holds(ThePairs, s)
  {
  }

  lemma {:induction false} CoreFrom(s: State)
    requires Holds(TheSlots, s) && Holds(TheTimers, s) && Holds(TheBatch, s) && Holds(ThePolls, s) && Holds(TheWatch, s)
    ensures Core(s)
  {
  }

  /** What is registered follows what is live. */
  lemma {:induction false} WatchKept(s: State, t: State)
    requires Core(s) && t.epoll == s.epoll && t.watched == s.watched && forall u :: LiveIn(t, u) <==> LiveIn(s, u)
    ensures Holds(TheWatch, t)
  {
    assert Holds(TheWatch, s);
  }

  /** `count` is the number of live entries. */
  lemma {:induction false} CountIsLive(s: State)
    requires Good(s)
    ensures |set v | 0 <= v < |s.items| && LiveIn(s, v)| == s.count
  {
    assert Holds(TheSlots, s);
    var live := s.links[..s.count];
    forall v ensures LiveIn(s, v) <==> v in live { LiveIffLinked(s.items, s.links, s.count, v); }
    assert (set v | 0 <= v < |s.items| && LiveIn(s, v)) == (set v | v in live);
    DistinctCard(live);
  }

  lemma {:induction false} DistinctCard(s: seq<int>)
    requires Distinct(s)
    ensures |set x | x in s| == |s|
  {
    if s != [] {
      var rest := s[1..];
      DistinctCard(rest);
      assert s == [s[0]] + rest && s[0] !in rest;
      assert (set x | x in s) == {s[0]} + (set x | x in rest);
    } else {
      assert (set x | x in s) == {};
    }
  }

  ghost function Added(s: State, fd: int): State
    requires 0 <= s.count < |s.links| == |s.pfds| && 0 <= s.links[s.count] < |s.items|
  {
    s.(items := s.items[s.links[s.count] := Eval(fd, s.count, s.iters, NIL, 0, NIL, NIL)], count := s.count + 1,
       pfds := if s.epoll then s.pfds else s.pfds[s.count := PollFd(fd, 0)],
       watched := if s.epoll then s.watched + {s.links[s.count]} else s.watched)
  }

  /** The state when epoll_ctl refuses the descriptor: the free slot has been written. */
  ghost function NotAdded(s: State, fd: int): State
    requires 0 <= s.count < |s.links| == |s.pfds| && 0 <= s.links[s.count] < |s.items|
  {
    s.(items := Added(s, fd).items)
  }

  lemma {:induction false} FreeSlot(s: State)
    requires Good(s) && s.count < |s.links|
    ensures 0 <= s.count && 0 <= s.links[s.count] < |s.items| && |s.pfds| == |s.links|
  {
    GoodCore(s);
    CoreParts(s);
  }

  /** add_event with a free slot. */
  lemma {:induction false} AddGood(s: State, fd: int)
    requires Good(s) && 0 <= s.count < |s.links| == |s.pfds| && 0 <= s.links[s.count] < |s.items| && fd > 0
    ensures var v, t := s.links[s.count], Added(s, fd);
            Good(t) && !LiveIn(s, v) && (forall u :: LiveIn(t, u) <==> LiveIn(s, u) || u == v)
  {
    var t := Added(s, fd);
    AddSlots(s, fd);
    AddRest(s, fd);
    assert Holds(TheWatch, t) by { assert Holds(TheWatch, s); }
    CoreFrom(t);
    GoodCore(t);
  }

  lemma {:induction false} AddSlots(s: State, fd: int)
    requires Good(s) && 0 <= s.count < |s.links| == |s.pfds| && 0 <= s.links[s.count] < |s.items| && fd > 0
    ensures var v, t := s.links[s.count], Added(s, fd);
            Holds(TheSlots, t) && Holds(ThePairs, t) && !LiveIn(s, v) && (forall u :: LiveIn(t, u) <==> LiveIn(s, u) || u == v)
  {
    assert Holds(TheSlots, s) && Holds(ThePairs, s);
    AddKeeps(s.items, s.links, s.count, Eval(fd, s.count, s.iters, NIL, 0, NIL, NIL));
  }

  lemma {:induction false} AddRest(s: State, fd: int)
    requires Good(s) && 0 <= s.count < |s.links| == |s.pfds| && 0 <= s.links[s.count] < |s.items| && fd > 0
    ensures var t := Added(s, fd); Holds(TheTimers, t) && Holds(TheBatch, t) && Holds(ThePolls, t)
  {
    GoodCore(s);
    CoreParts(s);
    var e := Eval(fd, s.count, s.iters, NIL, 0, NIL, NIL);
    AddTimers(s.items, s.links, s.count, s.ts, s.tvStart, s.tvEnd, e);
    AddBatch(s.items, s.links, s.count, s.iters, s.polled, s.high, e, true);
    if !s.epoll { AddPolls(s.items, s.links, s.count, s.iters, s.pfds, s.done, e); }
  }

  /** add_event when epoll_ctl refuses the descriptor. */
  lemma {:induction false} RefusedGood(s: State, fd: int)
    requires Good(s) && 0 <= s.count < |s.links| == |s.pfds| && 0 <= s.links[s.count] < |s.items| && fd > 0 && s.epoll
    ensures var t := NotAdded(s, fd); Good(t) && forall u :: LiveIn(t, u) <==> LiveIn(s, u)
  {
    GoodCore(s);
    CoreParts(s);
    var e := Eval(fd, s.count, s.iters, NIL, 0, NIL, NIL);
    AddKeeps(s.items, s.links, s.count, e);
    AddTimers(s.items, s.links, s.count, s.ts, s.tvStart, s.tvEnd, e);
    AddBatch(s.items, s.links, s.count, s.iters, s.polled, s.high, e, false);
    var t := NotAdded(s, fd);
    forall u ensures LiveIn(t, u) <==> LiveIn(s, u) {}
    WatchKept(s, t);
    CoreFrom(t);
    GoodCore(t);
  }

  /** The state after remove_timer. */
  ghost function TimerRemoved(s: State, v: int): State
    requires 0 <= v < |s.items| && Pointer(s.items, s.items[v].tvPrev) && Pointer(s.items, s.items[v].tvNext)
  {
    var a := s.items[v];
    s.(items := Removed(s.items, v), ts := Without(s.ts, {v}),
       tvStart := if s.tvStart == v then a.tvNext else s.tvStart, tvEnd := if s.tvEnd == v then a.tvPrev else s.tvEnd)
  }

  /** remove_timer on a live entry. */
  lemma {:induction false} RemoveGood(s: State, v: int)
    requires Good(s) && LiveIn(s, v)
    ensures Pointer(s.items, s.items[v].tvPrev) && Pointer(s.items, s.items[v].tvNext)
    ensures var t := TimerRemoved(s, v); Good(t) && OnlyTimers(s.items, t.items) && Unlinked(s.items, t.items, v)
  {
    GoodCore(s);
    CoreParts(s);
    RemoveEffect(s.items, s.ts, s.tvStart, s.tvEnd, v);
    RemoveTimersOf(s.items, Removed(s.items, v), s.links, s.count, s.ts, s.tvStart, s.tvEnd, v);
    TimersChanged(s, TimerRemoved(s, v));
  }

  lemma {:induction false} NeighboursListed(items: seq<Eval>, ts: seq<int>, first: int, last: int, v: int)
    requires TimerList(items, ts, first, last) && v in ts && 0 <= v < |items|
    ensures items[v].tvNext == NIL || items[v].tvNext in ts
    ensures items[v].tvPrev == NIL || items[v].tvPrev in ts
  {
    var k :| 0 <= k < |ts| && ts[k] == v;
    assert Linked(items, ts, k);
  }

  lemma {:induction false} RemoveTimersOf(items: seq<Eval>, items': seq<Eval>, links: seq<int>, count: int, ts: seq<int>, first: int, last: int, v: int)
    requires TimerList(items, ts, first, last) && TimersOf(items, links, count, ts) && Live(items, links, count, v) && Unlinked(items, items', v)
    ensures TimersOf(items', links, count, Without(ts, {v}))
  {
    if v in ts { NeighboursListed(items, ts, first, last, v); }
    forall u ensures Live(items', links, count, u) <==> Live(items, links, count, u) {}
  }

  /** The place for a deadline: everything before it is due earlier. */
  ghost predicate Place(items: seq<Eval>, ts: seq<int>, k: int, due: int) {
    && 0 <= k <= |ts|
    && (forall i :: 0 <= i < k ==> 0 <= ts[i] < |items| && items[ts[i]].tvMs < due)
    && (forall i :: k <= i < |ts| ==> 0 <= ts[i] < |items| && items[ts[i]].tvMs >= due)
  }

  ghost predicate SetOne(items: seq<Eval>, items': seq<Eval>, v: int, due: int) {
    && OnlyTimers(items, items') && 0 <= v < |items| && items'[v].tvMs == due
    && forall u :: 0 <= u < |items| && u != v ==> items'[u].tvMs == items[u].tvMs
  }

  /** The state after set_timer has put a deadline at place k. */
  ghost function TimerSet(s: State, v: int, k: int, due: int): State
    requires 0 <= v < |s.items| && 0 <= k <= |s.ts| && Pointer(s.items, At(s.ts, k - 1)) && Pointer(s.items, At(s.ts, k))
  {
    var prev, next := At(s.ts, k - 1), At(s.ts, k);
    s.(items := Set(s.items, v, due, prev, next), ts := s.ts[..k] + [v] + s.ts[k..],
       tvStart := if s.tvStart == NIL || next == s.tvStart then v else s.tvStart,
       tvEnd := if s.tvEnd == NIL || prev == s.tvEnd then v else s.tvEnd)
  }

  /** set_timer on a live entry without one. */
  lemma {:induction false} SetGood(s: State, v: int, k: int, due: int)
    requires Good(s) && LiveIn(s, v) && s.items[v].tvMs == 0 && due != 0 && Place(s.items, s.ts, k, due)
    ensures Pointer(s.items, At(s.ts, k - 1)) && Pointer(s.items, At(s.ts, k))
    ensures Good(TimerSet(s, v, k, due)) && SetOne(s.items, TimerSet(s, v, k, due).items, v, due)
  {
    GoodCore(s);
    CoreParts(s);
    SetEffect(s.items, s.links, s.count, s.ts, s.tvStart, s.tvEnd, v, k, due);
    TimersChanged(s, TimerSet(s, v, k, due));
  }

  /** New timers, everything else as before. */
  lemma {:induction false} TimersChanged(s: State, t: State)
    requires Good(s) && OnlyTimers(s.items, t.items) && t == s.(items := t.items, ts := t.ts, tvStart := t.tvStart, tvEnd := t.tvEnd)
    requires TimerList(t.items, t.ts, t.tvStart, t.tvEnd) && TimersOf(t.items, t.links, t.count, t.ts)
    ensures Good(t)
  {
    GoodCore(s);
    CoreParts(s);
    KeepCore(s.items, t.items, s.links, s.count, s.iters, s.polled, s.high, s.pfds, s.done);
    forall u ensures LiveIn(t, u) <==> LiveIn(s, u) {}
    WatchKept(s, t);
    CoreFrom(t);
    GoodCore(t);
  }

  // ----- deletion -----

  /** The entries after lines 113-129 of conev.c. */
  ghost function Killed(s: State, v: int): (r: seq<Eval>)
    requires 0 <= v < |s.items| && Pointer(s.items, s.items[v].tvPrev) && Pointer(s.items, s.items[v].tvNext)
    requires 0 < s.count <= |s.links| && 0 <= s.links[s.count - 1] < |s.items|
    ensures |r| == |s.items|
  {
    var a := Removed(s.items[v := s.items[v].(fd := -1, modIter := s.iters)], v);
    var last := s.links[s.count - 1];
    if last == v then a else a[last := a[last].(index := s.items[v].index)]
  }

  /** The whole state after them. */
  ghost function AfterDrop(s: State, v: int): State
    requires 0 <= v < |s.items| && Pointer(s.items, s.items[v].tvPrev) && Pointer(s.items, s.items[v].tvNext)
    requires 0 < s.count <= |s.links| == |s.pfds| && 0 <= s.links[s.count - 1] < |s.items| && 0 <= s.items[v].index < |s.links|
  {
    var a, last := s.items[v], s.count - 1;
    s.(items := Killed(s, v), links := SwapLinks(s.links, a.index, last), count := last,
       tvStart := if s.tvStart == v then a.tvNext else s.tvStart, tvEnd := if s.tvEnd == v then a.tvPrev else s.tvEnd,
       ts := Without(s.ts, {v}),
       pfds := if s.epoll || s.links[last] == v then s.pfds else s.pfds[a.index := s.pfds[last]],
       watched := s.watched - {v})
  }

  /** Lines 93 and 113-116, then 117-129, one after the other. */
  ghost function AfterClose(s: State, v: int): State
    requires 0 <= v < |s.items| && Pointer(s.items, s.items[v].tvPrev) && Pointer(s.items, s.items[v].tvNext)
  {
    TimerRemoved(s.(items := s.items[v := s.items[v].(fd := -1, modIter := s.iters)], watched := s.watched - {v}), v)
  }

  ghost function AfterSwap(s: State, v: int): State
    requires 0 < s.count <= |s.links| == |s.pfds| && 0 <= v < |s.items| && 0 <= s.items[v].index < |s.links| && 0 <= s.links[s.count - 1] < |s.items|
  {
    var k, last := s.items[v].index, s.count - 1;
    var ev := s.links[last];
    if ev == v then s.(count := last) else
      s.(count := last, links := s.links[k := ev][last := v], items := s.items[ev := s.items[ev].(index := k)],
         pfds := if s.epoll then s.pfds else s.pfds[k := s.pfds[last]])
  }

  lemma {:induction false} DropIs(s: State, v: int)
    requires LiveFactsHold(s, v) && s.links[s.items[v].index] == v
    ensures var c := AfterClose(s, v);
            && |c.items| == |s.items| && c.items[v].index == s.items[v].index && c.links == s.links && c.count == s.count && c.pfds == s.pfds
            && AfterSwap(c, v) == AfterDrop(s, v)
  {
    var c := AfterClose(s, v);
    assert c.items[v].index == s.items[v].index;
    if s.links[s.count - 1] == v { assert SwapLinks(s.links, s.items[v].index, s.count - 1) == s.links; }
  }

  lemma {:induction false} LiveFacts(s: State, v: int)
    requires Core(s) && LiveIn(s, v)
    ensures 0 <= v < |s.items| && 0 < s.count <= |s.links| == |s.pfds| && 0 <= s.items[v].index < |s.links|
    ensures 0 <= s.links[s.count - 1] < |s.items|
    ensures Pointer(s.items, s.items[v].tvPrev) && Pointer(s.items, s.items[v].tvNext)
    ensures s.items[v].fd > 0 && s.items[v].modIter <= s.iters && s.links[s.items[v].index] == v
    ensures !s.epoll ==> s.items[v].fd == s.pfds[s.items[v].index].fd
    ensures v in s.ts || s.items[v].tvNext == s.items[v].tvPrev == NIL
    ensures s.items[v].tvNext != v && s.items[v].tvPrev != v
  {
    CoreParts(s);
    if v in s.ts {
      var k :| 0 <= k < |s.ts| && s.ts[k] == v;
      UnlinkFacts(s.items, s.ts, k);
    }
  }

  ghost predicate LiveFactsHold(s: State, v: int) {
    && 0 <= v < |s.items| && Pointer(s.items, s.items[v].tvPrev) && Pointer(s.items, s.items[v].tvNext)
    && s.items[v].tvNext != v && s.items[v].tvPrev != v
    && 0 < s.count <= |s.links| == |s.pfds| && 0 <= s.links[s.count - 1] < |s.items| && 0 <= s.items[v].index < |s.links|
  }

  /** The timer fields are as remove_timer leaves them. */
  ghost predicate SameTimers(items: seq<Eval>, items': seq<Eval>) {
    && |items'| == |items|
    && forall u :: 0 <= u < |items| ==>
         items'[u].tvMs == items[u].tvMs && items'[u].tvNext == items[u].tvNext && items'[u].tvPrev == items[u].tvPrev
  }

  lemma {:induction false} RemovedElsewhere(items: seq<Eval>, e: Eval, v: int)
    requires 0 <= v < |items| && Pointer(items, items[v].tvPrev) && Pointer(items, items[v].tvNext)
    requires items[v].tvPrev != v && items[v].tvNext != v && e.tvNext == items[v].tvNext && e.tvPrev == items[v].tvPrev
    ensures Removed(items[v := e], v) == Removed(items, v)[v := e.(tvMs := 0, tvNext := NIL, tvPrev := NIL)]
  {
    RemovedUnlinks(items, v);
    RemovedUnlinks(items[v := e], v);
  }

  lemma {:induction false} KilledLike(s: State, v: int)
    requires LiveFactsHold(s, v)
    ensures Unlinked(s.items, Removed(s.items, v), v) && SameTimers(Removed(s.items, v), Killed(s, v))
    ensures Dropped(s.items, Killed(s, v), s.links, s.count, v, s.iters)
  {
    RemovedElsewhere(s.items, s.items[v].(fd := -1, modIter := s.iters), v);
    RemovedUnlinks(s.items, v);
  }

  lemma {:induction false} KilledTimers(s: State, v: int)
    requires LiveFactsHold(s, v) && TimerList(s.items, s.ts, s.tvStart, s.tvEnd)
    requires v in s.ts || s.items[v].tvNext == s.items[v].tvPrev == NIL
    ensures var t := AfterDrop(s, v); TimerList(t.items, t.ts, t.tvStart, t.tvEnd)
  {
    var t := AfterDrop(s, v);
    KilledLike(s, v);
    RemoveEffect(s.items, s.ts, s.tvStart, s.tvEnd, v);
    TimerFrame(Removed(s.items, v), t.items, t.ts, t.tvStart, t.tvEnd);
  }

  lemma {:induction false} KilledTimersOf(s: State, v: int)
    requires LiveFactsHold(s, v) && TimersOf(s.items, s.links, s.count, s.ts) && TimerList(s.items, s.ts, s.tvStart, s.tvEnd)
    requires var t := AfterDrop(s, v);
             forall u :: Live(t.items, t.links, t.count, u) <==> Live(s.items, s.links, s.count, u) && u != v
    requires Live(s.items, s.links, s.count, v)
    ensures var t := AfterDrop(s, v); TimersOf(t.items, t.links, t.count, t.ts)
  {
    var t := AfterDrop(s, v);
    KilledLike(s, v);
    if v in s.ts { NeighboursListed(s.items, s.ts, s.tvStart, s.tvEnd, v); }
    DropTimers(s.items, Removed(s.items, v), t.items, s.links, s.count, t.links, v, s.ts);
  }

  /** Entries that are not live keep all their fields. */
  ghost predicate DeadKept(s: State, items: seq<Eval>) {
    |items| == |s.items| && forall u :: 0 <= u < |items| && !LiveIn(s, u) ==> items[u] == s.items[u]
  }

  /** Neighbours in the timer list and the last slot are live, so nothing else is touched. */
  lemma {:induction false} KilledDead(s: State, v: int)
    requires Core(s) && LiveIn(s, v) && LiveFactsHold(s, v)
    ensures DeadKept(s, AfterDrop(s, v).items)
  {
    LiveFacts(s, v);
    KilledFields(s, v);
    var a := s.items[v];
    assert LiveIn(s, s.links[s.count - 1]) by { assert Holds(TheSlots, s); }
    TimerNeighboursLive(s, v);
  }

  lemma {:induction false} TimerNeighboursLive(s: State, v: int)
    requires Core(s) && LiveIn(s, v)
    ensures s.items[v].tvPrev == NIL || LiveIn(s, s.items[v].tvPrev)
    ensures s.items[v].tvNext == NIL || LiveIn(s, s.items[v].tvNext)
  {
    assert Holds(TheTimers, s);
    if v in s.ts { NeighboursListed(s.items, s.ts, s.tvStart, s.tvEnd, v); }
  }

  lemma {:induction false} KilledFields(s: State, v: int)
    requires LiveFactsHold(s, v)
    ensures forall u :: 0 <= u < |s.items| && u != v && u != s.items[v].tvPrev && u != s.items[v].tvNext && u != s.links[s.count - 1] ==>
              Killed(s, v)[u] == s.items[u]
  {
    RemovedElsewhere(s.items, s.items[v].(fd := -1, modIter := s.iters), v);
    RemovedUnlinks(s.items, v);
  }

  /** One entry leaves the pool. */
  lemma {:induction false} DropGood(s: State, v: int)
    requires Core(s) && LiveIn(s, v)
    ensures LiveFactsHold(s, v) && Dropped(s.items, Killed(s, v), s.links, s.count, v, s.iters)
    ensures var t := AfterDrop(s, v);
            Core(t) && forall u :: LiveIn(t, u) <==> LiveIn(s, u) && u != v
  {
    DropSlots(s, v);
    var t := AfterDrop(s, v);
    DropRest(s, v);
    DropTimersPart(s, v);
    WatchDropped(s, v, t);
    CoreFrom(t);
  }

  lemma {:induction false} DropSlots(s: State, v: int)
    requires Core(s) && LiveIn(s, v)
    ensures LiveFactsHold(s, v) && Dropped(s.items, Killed(s, v), s.links, s.count, v, s.iters)
    ensures var t := AfterDrop(s, v);
            Holds(TheSlots, t) && forall u :: LiveIn(t, u) <==> LiveIn(s, u) && u != v
  {
    assert Holds(TheSlots, s);
    LiveFacts(s, v);
    KilledLike(s, v);
    var t := AfterDrop(s, v);
    DropSlot(s.items, s.links, s.count, v, t.items);
  }

  lemma {:induction false} DropRest(s: State, v: int)
    requires Core(s) && LiveIn(s, v) && LiveFactsHold(s, v) && Dropped(s.items, Killed(s, v), s.links, s.count, v, s.iters)
    ensures Holds(TheBatch, AfterDrop(s, v)) && Holds(ThePolls, AfterDrop(s, v))
  {
    DropBatchPart(s, v);
    DropPollPart(s, v);
  }

  lemma {:induction false} DropBatchPart(s: State, v: int)
    requires Core(s) && LiveIn(s, v) && LiveFactsHold(s, v) && Dropped(s.items, Killed(s, v), s.links, s.count, v, s.iters)
    ensures Holds(TheBatch, AfterDrop(s, v))
  {
    assert Holds(TheSlots, s) && Holds(TheBatch, s);
    DropBatch(s.items, Killed(s, v), s.links, s.count, v, s.iters, s.polled, s.high);
    BatchOf(s, v);
  }

  lemma {:induction false} BatchOf(s: State, v: int)
    requires LiveFactsHold(s, v)
    requires Batch(Killed(s, v), SwapLinks(s.links, s.items[v].index, s.count - 1), s.count - 1, s.iters, s.polled, s.high)
    ensures Holds(TheBatch, AfterDrop(s, v))
  {
  }

  lemma {:induction false} DropPollPart(s: State, v: int)
    requires Core(s) && LiveIn(s, v) && LiveFactsHold(s, v) && Dropped(s.items, Killed(s, v), s.links, s.count, v, s.iters)
    ensures Holds(ThePolls, AfterDrop(s, v))
  {
    assert Holds(TheSlots, s) && Holds(ThePolls, s);
    if !s.epoll { DropPoll(s.items, Killed(s, v), s.links, s.count, v, s.iters, s.pfds, s.done); }
  }

  lemma {:induction false} DropTimersPart(s: State, v: int)
    requires Core(s) && LiveIn(s, v) && LiveFactsHold(s, v)
    requires forall u :: LiveIn(AfterDrop(s, v), u) <==> LiveIn(s, u) && u != v
    ensures Holds(TheTimers, AfterDrop(s, v))
  {
    assert Holds(TheTimers, s);
    var t := AfterDrop(s, v);
    forall u ensures Live(t.items, t.links, t.count, u) <==> Live(s.items, s.links, s.count, u) && u != v {
      assert LiveIn(t, u) <==> LiveIn(s, u) && u != v;
    }
    KilledTimers(s, v);
    KilledTimersOf(s, v);
  }

  lemma {:induction false} WatchDropped(s: State, v: int, t: State)
    requires Core(s) && t.epoll == s.epoll && t.watched == s.watched - {v}
    requires forall u :: LiveIn(t, u) <==> LiveIn(s, u) && u != v
    ensures Holds(TheWatch, t)
  {
    assert Holds(TheWatch, s);
  }

  ghost predicate OnlyPairs(items: seq<Eval>, items': seq<Eval>) {
    |items'| == |items| && forall u :: 0 <= u < |items| ==> items'[u] == items[u].(pair := items'[u].pair)
  }

  lemma {:induction false} PairsApart(s: State, items': seq<Eval>)
    requires Core(s) && OnlyPairs(s.items, items')
    ensures Core(s.(items := items')) && forall u :: Live(items', s.links, s.count, u) <==> Live(s.items, s.links, s.count, u)
  {
    CoreParts(s);
    TimerFrame(s.items, items', s.ts, s.tvStart, s.tvEnd);
    PairsApartRest(s, items');
    var t := s.(items := items');
    forall u ensures LiveIn(t, u) <==> LiveIn(s, u) {}
    WatchKept(s, t);
    CoreFrom(t);
  }

  lemma {:induction false} PairsApartRest(s: State, items': seq<Eval>)
    requires OnlyPairs(s.items, items')
    ensures forall u :: Live(items', s.links, s.count, u) <==> Live(s.items, s.links, s.count, u)
    ensures Slots(s.items, s.links, s.count) ==> Slots(items', s.links, s.count)
    ensures TimersOf(s.items, s.links, s.count, s.ts) ==> TimersOf(items', s.links, s.count, s.ts)
    ensures Batch(s.items, s.links, s.count, s.iters, s.polled, s.high) ==> Batch(items', s.links, s.count, s.iters, s.polled, s.high)
    ensures PollSlots(s.items, s.links, s.count, s.iters, s.pfds, s.done) ==> PollSlots(items', s.links, s.count, s.iters, s.pfds, s.done)
  {
  }

  /** Lines 130-135 of conev.c. */
  ghost function PairCut(items: seq<Eval>, v: int): (r: seq<Eval>)
    requires 0 <= v < |items| && 0 <= items[v].pair < |items|
    ensures OnlyPairs(items, r)
  {
    var p := items[v].pair;
    var a := if items[p].pair == v then items[p := items[p].(pair := NIL)] else items;
    a[v := a[v].(pair := NIL)]
  }

  ghost predicate Gone(s: State, v: int) {
    0 <= v < |s.items| && !LiveIn(s, v) && s.items[v].fd == -1 && s.items[v].modIter <= s.iters
  }

  /** What del_event may be called on: a deleted entry, or the head of what is left of a cycle,
      whose end points nowhere, back to the head, or to an entry already deleted. */
  ghost predicate Deletable(s: State, v: int, rest: seq<int>) {
    if rest == [] then Gone(s, v) else
    && rest[0] == v && Walk(s.items, s.links, s.count, rest)
    && var p := s.items[rest[|rest| - 1]].pair;
       p == NIL || Gone(s, p) || (p == v && |rest| > 1)
  }

  /** An entry that was not live stays as it is; at most its pair pointer is cleared. */
  ghost predicate SameButPair(a: Eval, b: Eval) { b == a.(pair := b.pair) && (a.pair == NIL ==> b.pair == NIL) }

  /** The entries `rest` have been deleted and nothing else has. */
  ghost predicate Deleted(s: State, t: State, rest: seq<int>) {
    && |t.items| == |s.items| && |t.links| == |s.links| && t.count == s.count - |rest|
    && (forall u :: LiveIn(t, u) <==> LiveIn(s, u) && u !in rest)
    && (forall u :: LiveIn(t, u) ==>
          && t.items[u].fd == s.items[u].fd && t.items[u].modIter == s.items[u].modIter
          && t.items[u].pair == s.items[u].pair && t.items[u].tvMs == s.items[u].tvMs)
    && (forall u :: u in rest ==> 0 <= u < |t.items| && t.items[u].fd == -1 && t.items[u].modIter == s.iters && t.items[u].pair == NIL)
    && (forall u :: 0 <= u < |s.items| && !LiveIn(s, u) ==> SameButPair(s.items[u], t.items[u]))
    && t.ts == Without(s.ts, set u | u in rest)
    && (t.epoll, t.iters, t.polled, t.done, t.high) == (s.epoll, s.iters, s.polled, s.done, s.high)
  }

  lemma {:induction false} DeletedNone(s: State)
    ensures Deleted(s, s, [])
  {
    WithoutAbsent(s.ts, {});
    var none: seq<int> := [];
    assert (set u | u in none) == {};
  }

  /** Deleting the head alone. */
  lemma {:induction false} DeletedHead(s: State, v: int)
    requires Core(s) && LiveIn(s, v) && s.items[v].pair == NIL
    ensures LiveFactsHold(s, v) && Deleted(s, AfterDrop(s, v), [v])
  {
    DropGood(s, v);
    KilledDead(s, v);
    assert (set u | u in [v]) == {v};
  }

  /** The state in which del_event calls itself. */
  ghost function AfterHead(s: State, v: int): State
    requires LiveFactsHold(s, v) && 0 <= s.items[v].pair < |s.items| && Dropped(s.items, Killed(s, v), s.links, s.count, v, s.iters)
  {
    var t := AfterDrop(s, v);
    t.(items := PairCut(t.items, v))
  }

  lemma {:induction false} HeadPair(s: State, v: int, rest: seq<int>)
    requires Deletable(s, v, rest) && rest != []
    ensures LiveIn(s, v)
    ensures var p := s.items[v].pair;
            && (p == NIL ==> |rest| == 1)
            && (p != NIL ==> 0 <= p < |s.items| && p != v && if |rest| == 1 then Gone(s, p) else LiveIn(s, p) && p == rest[1])
  {
    assert Live(s.items, s.links, s.count, rest[0]);
    if |rest| > 1 {
      assert Step(s.items, rest, 1) && Live(s.items, s.links, s.count, rest[1]);
    }
  }

  /** What is left after the head is again such a piece of a cycle. */
  lemma {:induction false} HeadStep(s: State, v: int, rest: seq<int>)
    requires Core(s) && Deletable(s, v, rest) && rest != [] && s.items[v].pair != NIL
    ensures LiveFactsHold(s, v) && Dropped(s.items, Killed(s, v), s.links, s.count, v, s.iters)
    ensures 0 <= s.items[v].pair < |s.items|
    ensures var t := AfterHead(s, v); Core(t) && Deletable(t, s.items[v].pair, rest[1..])
  {
    HeadPair(s, v, rest);
    DropGood(s, v);
    var d, t := AfterDrop(s, v), AfterHead(s, v);
    PairsApart(d, t.items);
    if |rest| > 1 { TailWalk(s, v, rest); }
  }

  lemma {:induction false} TailWalk(s: State, v: int, rest: seq<int>)
    requires Deletable(s, v, rest) && |rest| > 1 && s.items[v].pair == rest[1]
    requires LiveFactsHold(s, v) && Dropped(s.items, Killed(s, v), s.links, s.count, v, s.iters)
    requires 0 <= s.items[v].pair < |s.items|
    requires forall u :: LiveIn(AfterDrop(s, v), u) <==> LiveIn(s, u) && u != v
    requires var d, t := AfterDrop(s, v), AfterHead(s, v);
             forall u :: Live(t.items, t.links, t.count, u) <==> Live(d.items, d.links, d.count, u)
    ensures Deletable(AfterHead(s, v), rest[1], rest[1..])
  {
    var d, t, tail := AfterDrop(s, v), AfterHead(s, v), rest[1..];
    assert forall u :: LiveIn(t, u) <==> LiveIn(d, u);
    forall k | 0 <= k < |tail| ensures Live(t.items, t.links, t.count, tail[k]) {
      assert tail[k] == rest[k + 1] && LiveIn(s, rest[k + 1]) && rest[k + 1] != rest[0];
      assert LiveIn(d, tail[k]) && LiveIn(t, tail[k]);
    }
    forall k | 1 <= k < |tail| ensures Step(t.items, tail, k) {
      assert Step(s.items, rest, k + 1);
      assert rest[k + 1] != v;
    }
    var z := rest[|rest| - 1];
    assert tail[|tail| - 1] == z && z != v;
    assert !LiveIn(t, v);
    if Gone(s, s.items[z].pair) { assert !LiveIn(d, s.items[z].pair) && !LiveIn(t, s.items[z].pair); }
  }

  lemma {:induction false} HeadLives(s: State, v: int)
    requires Core(s) && LiveIn(s, v) && LiveFactsHold(s, v)
    requires Dropped(s.items, Killed(s, v), s.links, s.count, v, s.iters) && 0 <= s.items[v].pair < |s.items|
    ensures forall u :: LiveIn(AfterHead(s, v), u) <==> LiveIn(s, u) && u != v
  {
    DropGood(s, v);
    var d, t := AfterDrop(s, v), AfterHead(s, v);
    PairsApart(d, t.items);
    forall u ensures LiveIn(t, u) <==> LiveIn(d, u) {}
  }

  /** Deleting the head and then the others is deleting all of them. */
  lemma {:induction false} HeadThenTail(s: State, v: int, rest: seq<int>, w: State)
    requires Core(s) && Deletable(s, v, rest) && rest != [] && s.items[v].pair != NIL
    requires LiveFactsHold(s, v) && Dropped(s.items, Killed(s, v), s.links, s.count, v, s.iters) && 0 <= s.items[v].pair < |s.items|
    requires Deleted(AfterHead(s, v), w, rest[1..])
    ensures Deleted(s, w, rest)
  {
    HeadPair(s, v, rest);
    HeadLives(s, v);
    KilledDead(s, v);
    assert rest == [v] + rest[1..];
    assert (set u | u in rest) == {v} + (set u | u in rest[1..]);
    WithoutBoth(s.ts, {v}, set u | u in rest[1..]);
    HeadFields(s, v, rest, w);
  }

  lemma {:induction false} HeadFields(s: State, v: int, rest: seq<int>, w: State)
    requires LiveFactsHold(s, v) && Dropped(s.items, Killed(s, v), s.links, s.count, v, s.iters) && 0 <= s.items[v].pair < |s.items|
    requires LiveIn(s, v) && rest != [] && rest[0] == v
    requires |rest| > 1 ==> s.items[v].pair == rest[1]
    requires |rest| == 1 ==> !LiveIn(s, s.items[v].pair)
    requires var t := AfterHead(s, v);
             Deleted(t, w, rest[1..]) && forall u :: LiveIn(t, u) <==> LiveIn(s, u) && u != v
    requires DeadKept(s, AfterDrop(s, v).items)
    ensures forall u :: LiveIn(w, u) ==>
              && w.items[u].fd == s.items[u].fd && w.items[u].modIter == s.items[u].modIter
              && w.items[u].pair == s.items[u].pair && w.items[u].tvMs == s.items[u].tvMs
    ensures forall u :: u in rest ==> 0 <= u < |w.items| && w.items[u].fd == -1 && w.items[u].modIter == s.iters && w.items[u].pair == NIL
    ensures forall u :: 0 <= u < |s.items| && !LiveIn(s, u) ==> SameButPair(s.items[u], w.items[u])
  {
    var t := AfterHead(s, v);
    assert rest == [v] + rest[1..];
    assert |rest| > 1 ==> rest[1] in rest[1..];
    assert !LiveIn(t, v) && t.items[v].pair == NIL && t.items[v].fd == -1 && t.items[v].modIter == s.iters;
  }

  /** Every live entry heads a cycle, so it may be deleted. */
  lemma {:induction false} OnCycle(s: State, v: int) returns (c: seq<int>)
    requires Good(s) && LiveIn(s, v)
    ensures Cycle(s.items, s.links, s.count, v, c) && Deletable(s, v, c)
  {
    assert Holds(TheSlots, s) && Holds(ThePairs, s);
    c := FindCycle(s.items, s.links, s.count, [v]);
  }

  /** A whole cycle has gone: the invariant holds again. */
  lemma {:induction false} CycleGone(s: State, v: int, c: seq<int>, t: State)
    requires Good(s) && Cycle(s.items, s.links, s.count, v, c) && Deleted(s, t, c) && Core(t)
    ensures Good(t)
  {
    assert Holds(TheSlots, s) && Holds(ThePairs, s);
    forall u ensures Live(t.items, t.links, t.count, u) <==> Live(s.items, s.links, s.count, u) && u !in c {
      assert LiveIn(t, u) <==> LiveIn(s, u) && u !in c;
    }
    forall u | Live(t.items, t.links, t.count, u) ensures u < |s.items| && t.items[u].pair == s.items[u].pair {
      assert LiveIn(t, u);
    }
    DropCycle(s.items, s.links, s.count, v, c, t.items, t.links, t.count);
    GoodCore(t);
  }

  // ----- collecting and dispatching events -----

  datatype Ready = Ready(ptr: int, events: int)

  ghost function LiveFds(s: State): map<int, int> {
    map v | 0 <= v < |s.items| && LiveIn(s, v) :: s.items[v].fd
  }

  /** Where the scan of the current batch stands: with poll it goes down the slots, with epoll down
      the reported entries, none of which has been dispatched yet. */
  ghost predicate Scanning(s: State, ready: seq<Ready>, offs: int) {
    && -1 <= offs < |s.links|
    && if !s.epoll then offs < s.high || offs == -1 else
       && offs < |ready|
       && (forall j :: 0 <= j <= offs ==> ready[j].ptr in s.polled && ready[j].ptr !in s.done)
       && (forall j, k :: 0 <= j < k <= offs ==> ready[j].ptr != ready[k].ptr)
  }

  ghost function NextBatch(s: State, pfds: seq<PollFd>): State {
    s.(iters := s.iters + 1, polled := LiveFds(s), done := {}, high := s.count, pfds := pfds)
  }

  lemma {:induction false} Sizes(s: State)
    requires Good(s)
    ensures 0 <= s.count <= |s.links| == |s.pfds| == |s.items|
  {
    assert Holds(TheSlots, s) && Holds(ThePolls, s);
  }

  /** A new batch: whatever is live was last changed before it. */
  lemma {:induction false} BatchGood(s: State, pfds: seq<PollFd>)
    requires Good(s) && |pfds| == |s.pfds| && forall i :: 0 <= i < |pfds| ==> pfds[i].fd == s.pfds[i].fd
    ensures Good(NextBatch(s, pfds))
    ensures forall v :: LiveIn(s, v) ==> s.items[v].modIter < s.iters + 1 && v in LiveFds(s)
  {
    GoodCore(s);
    CoreParts(s);
    NewBatch(s.items, s.links, s.count, s.iters, s.polled, s.high, LiveFds(s));
    var t := NextBatch(s, pfds);
    WatchKept(s, t);
    CoreFrom(t);
    GoodCore(t);
  }

  /** Clearing reported events, and noting a dispatch. */
  lemma {:induction false} ClearGood(s: State, pfds: seq<PollFd>, done: set<int>)
    requires Good(s) && |pfds| == |s.pfds|
    requires forall i :: 0 <= i < |pfds| ==> pfds[i] == s.pfds[i] || pfds[i] == s.pfds[i].(revents := 0)
    requires s.epoll || forall i :: 0 <= i < s.count <= |s.links| == |pfds| ==> s.links[i] in s.done || s.links[i] !in done || pfds[i].revents == 0
    ensures Good(s.(pfds := pfds, done := done))
  {
    GoodCore(s);
    CoreParts(s);
    var t := s.(pfds := pfds, done := done);
    WatchKept(s, t);
    CoreFrom(t);
    GoodCore(t);
  }

  /** An entry of the batch that has not been changed in it is live, and is what was polled. */
  lemma {:induction false} UnchangedLive(s: State, v: int)
    requires Good(s) && v in s.polled && 0 <= v < |s.items| && s.items[v].modIter != s.iters
    ensures LiveIn(s, v) && s.items[v].modIter < s.iters && s.polled[v] == s.items[v].fd
  {
    GoodCore(s);
    CoreParts(s);
  }

  /** The assertion on line 215 of conev.c. */
  lemma {:induction false} SlotScanned(s: State, i: int)
    requires Good(s) && 0 <= i < s.high
    ensures s.high <= |s.links| == |s.pfds| == |s.items| && 0 <= s.links[i] < |s.items|
    ensures i < s.count || s.items[s.links[i]].modIter == s.iters
    ensures s.items[s.links[i]].modIter != s.iters ==> s.items[s.links[i]].modIter < s.iters && s.links[i] in s.polled && s.polled[s.links[i]] == s.items[s.links[i]].fd && LiveIn(s, s.links[i])
    ensures s.items[s.links[i]].modIter != s.iters && !s.epoll && s.pfds[i].revents != 0 ==> s.links[i] !in s.done
    ensures forall j :: 0 <= j < |s.links| && j != i ==> s.links[j] != s.links[i]
  {
    GoodCore(s);
    CoreParts(s);
  }

  /** The head of the timer list is live and due no later than any other timer. */
  lemma {:induction false} EarliestFirst(s: State)
    requires Good(s)
    ensures s.tvStart == NIL <==> s.ts == []
    ensures s.tvStart == NIL ==> forall u :: LiveIn(s, u) ==> s.items[u].tvMs == 0
    ensures s.tvStart != NIL ==>
              && LiveIn(s, s.tvStart) && s.items[s.tvStart].tvMs != 0 && s.tvStart == s.ts[0] && Without(s.ts, {s.tvStart}) == s.ts[1..]
              && forall u :: LiveIn(s, u) && s.items[u].tvMs != 0 ==> s.items[s.tvStart].tvMs <= s.items[u].tvMs
  {
    GoodCore(s);
    CoreParts(s);
    if s.ts != [] {
      assert s.ts[0] in s.ts;
      WithoutAt(s.ts, 0);
      assert s.ts[..0] + s.ts[1..] == s.ts[1..];
    }
  }

  // ----- pairing -----

  /** proxy.c, lines 481-482: two unpaired live entries become a pair. */
  lemma {:induction false} CoupleGood(s: State, v: int, p: int)
    requires Good(s) && LiveIn(s, v) && LiveIn(s, p) && v != p && s.items[v].pair == s.items[p].pair == NIL
    ensures Good(s.(items := s.items[v := s.items[v].(pair := p)][p := s.items[p].(pair := v)]))
  {
    GoodCore(s);
    var items := s.items[v := s.items[v].(pair := p)][p := s.items[p].(pair := v)];
    PairsApart(s, items);
    PairUnlinked(s, v);
    PairUnlinked(s, p);
    var t := s.(items := items);
    forall u ensures PairLives(items, t.links, t.count, u) { assert PairLives(s.items, s.links, s.count, u); }
    forall u, w ensures PairDiffers(items, t.links, t.count, u, w) { assert PairDiffers(s.items, s.links, s.count, u, w); }
    GoodCore(t);
  }

  /** Nothing points at an unpaired entry. */
  lemma {:induction false} PairUnlinked(s: State, v: int)
    requires Good(s) && LiveIn(s, v) && s.items[v].pair == NIL
    ensures forall u :: Live(s.items, s.links, s.count, u) ==> s.items[u].pair != v
  {
    assert Holds(ThePairs, s);
    forall u | Live(s.items, s.links, s.count, u) ensures s.items[u].pair != v { assert PairLives(s.items, s.links, s.count, u); }
  }

  /** proxy.c, lines 541-543: three unpaired live entries become a cycle. */
  lemma {:induction false} TripleGood(s: State, v: int, c: int, p: int)
    requires Good(s) && LiveIn(s, v) && LiveIn(s, c) && LiveIn(s, p) && v != c && v != p && c != p
    requires s.items[v].pair == s.items[c].pair == s.items[p].pair == NIL
    ensures Good(s.(items := s.items[v := s.items[v].(pair := c)][c := s.items[c].(pair := p)][p := s.items[p].(pair := v)]))
  {
    GoodCore(s);
    var items := s.items[v := s.items[v].(pair := c)][c := s.items[c].(pair := p)][p := s.items[p].(pair := v)];
    PairsApart(s, items);
    PairUnlinked(s, v);
    PairUnlinked(s, c);
    PairUnlinked(s, p);
    var t := s.(items := items);
    forall u ensures PairLives(items, t.links, t.count, u) { assert PairLives(s.items, s.links, s.count, u); }
    forall u, w ensures PairDiffers(items, t.links, t.count, u, w) { assert PairDiffers(s.items, s.links, s.count, u, w); }
    GoodCore(t);
  }

  /** proxy.c, lines 481-482, then extend.c, line 218: a new connection `p` takes the place of `old` beside `v`. */
  lemma {:induction false} ReplaceGood(s: State, was: int, v: int, p: int)
    requires Good(s) && LiveIn(s, was) && LiveIn(s, v) && LiveIn(s, p) && s.items[was].pair == v && s.items[v].pair == was
    requires s.items[p].pair == NIL
    ensures was != v
    ensures Good(s.(items := s.items[v := s.items[v].(pair := p)][p := s.items[p].(pair := v)][was := s.items[was].(pair := NIL)]))
  {
    GoodCore(s);
    assert PairLives(s.items, s.links, s.count, v);
    var items := s.items[v := s.items[v].(pair := p)][p := s.items[p].(pair := v)][was := s.items[was].(pair := NIL)];
    PairsApart(s, items);
    PairUnlinked(s, p);
    var t := s.(items := items);
    forall u ensures PairLives(items, t.links, t.count, u) {
      assert PairLives(s.items, s.links, s.count, u) && PairDiffers(s.items, s.links, s.count, u, v) && PairDiffers(s.items, s.links, s.count, u, was);
    }
    forall u, w ensures PairDiffers(items, t.links, t.count, u, w) {
      assert PairDiffers(s.items, s.links, s.count, u, w) && PairDiffers(s.items, s.links, s.count, u, was) && PairDiffers(s.items, s.links, s.count, w, was);
    }
    GoodCore(t);
  }
}
