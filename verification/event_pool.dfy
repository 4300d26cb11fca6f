/** ByeDPI's event pool (conev.c) as an object: adding and deleting entries, timers, collecting and
    dispatching events with either back end, and the event loop with arbitrary callbacks. */
module EventPool {
  import opened Sequences
  import opened EventSlots
  import opened EventState
  import opened EventKnown

  const POLLTIMEOUT := 0

  /** What epoll_wait or poll answers. */
  datatype Wait = Timeout | Failed | Reported(evs: seq<Ready>, revents: seq<int>)

  /** A dispatch made by the loop: the entry, the batch, whether its timer ran out, whether it was
      live, whether it was last added or deleted before the batch was collected, whether its
      callback failed, and whether it was live at the end of the turn. */
  datatype Dispatch = Dispatch(val: int, batch: nat, timed: bool, live: bool, settled: bool, failed: bool, liveAfter: bool)

  /** Only live entries are dispatched; for an event only ones left alone since the batch was
      collected, and each at most once per batch.  An entry whose callback fails is not live
      afterwards. */
  ghost predicate Safe(trace: seq<Dispatch>) {
    && (forall k :: 0 <= k < |trace| ==> trace[k].live && (trace[k].timed || trace[k].settled) && (trace[k].failed ==> !trace[k].liveAfter))
    && (forall j, k :: 0 <= j < k < |trace| && !trace[j].timed && !trace[k].timed && trace[j].batch == trace[k].batch ==> trace[j].val != trace[k].val)
  }

  ghost predicate Recorded(trace: seq<Dispatch>, iters: nat, done: set<int>) {
    && Safe(trace)
    && (forall k :: 0 <= k < |trace| ==> trace[k].batch <= iters)
    && (forall k :: 0 <= k < |trace| && !trace[k].timed && trace[k].batch == iters ==> trace[k].val in done)
  }

  lemma {:induction false} RecordMore(trace: seq<Dispatch>, iters: nat, done: set<int>, iters': nat, done': set<int>)
    requires Recorded(trace, iters, done) && iters' >= iters && (iters' == iters ==> done <= done')
    ensures Recorded(trace, iters', done')
  {
  }

  lemma {:induction false} RecordOne(trace: seq<Dispatch>, iters: nat, done: set<int>, iters': nat, done': set<int>, d: Dispatch)
    requires Recorded(trace, iters, done) && iters' >= iters && (iters' == iters ==> done <= done')
    requires d.batch == iters' && d.live && (d.failed ==> !d.liveAfter) && (d.timed || (d.settled && d.val in done' && (iters' == iters ==> d.val !in done)))
    ensures Recorded(trace + [d], iters', done')
  {
    RecordMore(trace, iters, done, iters', done');
  }

  // ----- one turn of the loop -----

  /** What a turn meets: the kernel's answer, the clock, how much the callback does and what it
      returns, and whether a failed wait was an interruption. */
  datatype Moment = Moment(w: Wait, now: int, steps: nat, ret: int, eintr: bool)

  /** The pool and the loop's variables between turns. */
  datatype Snap = Snap(s: State, ready: seq<Ready>, offs: int, etype: int)

  /** A turn: its answer was none the kernel gives, or there was nothing to dispatch, or `val` was
      dispatched; then `before` and `after` are the pool around the callback, and `cut` is what was
      deleted because it failed. */
  datatype Turn = Skipped | Nothing | Ran(val: int, timed: bool, before: State, after: State, failed: bool, cut: seq<int>)

  /** What next_event_tv has taken. */
  ghost predicate Picked(b: Snap, m: Moment, t: State, ready: seq<Ready>, offs: int, etype: int, val: int, timed: bool) {
    && LiveIn(t, val) && t.links == b.s.links && t.count == b.s.count && t.iters >= b.s.iters && (t.iters == b.s.iters ==> b.s.done <= t.done)
    && (timed <==> TimeUp(b.s, b.ready, b.offs, b.etype, m.now, m.w))
    && if timed then
         && etype == POLLTIMEOUT && val == b.s.tvStart && Earliest(b.s, val)
         && b.s.ts == [val] + t.ts && OnlyTimers(b.s.items, t.items) && t.items[val].tvMs == 0
       else
         && t.items == b.s.items && t.ts == b.s.ts && t.items[val].modIter < t.iters
         && val in t.done && (t.iters == b.s.iters ==> val !in b.s.done)
         && Delivered(b.s, b.ready, b.offs, m.w, t, ready, offs, val, etype)
  }

  /** What a callback on `val` may do to the pool. */
  ghost predicate Called(s: State, t: State, val: int) {
    && Good(t) && |t.links| == |s.links| && Known(t, val)
    && (t.epoll, t.iters, t.polled, t.done, t.high) == (s.epoll, s.iters, s.polled, s.done, s.high)
  }

  /** The callback's failure counts; see LoopDeletesIff for the entries it is not taken for. */
  ghost predicate Fails(t: State, val: int, ret: int) { ret < 0 && (LiveIn(t, val) || (0 <= val < |t.items| && t.items[val].fd == -1)) }

  /** The end of a turn: a failed callback's entry has been deleted with its whole cycle, unless
      the callback has done so already. */
  ghost predicate Settled(s: State, t: State, val: int, failed: bool, cut: seq<int>) {
    if failed then Deleted(s, t, cut) && (if LiveIn(s, val) then Cycle(s.items, s.links, s.count, val, cut) else cut == [])
    else t == s && cut == []
  }

  ghost predicate Turned(b: Snap, m: Moment, turn: Turn, a: Snap) {
    if !PossibleIn(b.s, m.w) then turn == Skipped && a == b
    else if TimeUp(b.s, b.ready, b.offs, b.etype, m.now, m.w) || m.w.Reported? || !Exhausted(b.s, b.ready, b.offs) then
      && turn.Ran? && Picked(b, m, turn.before, a.ready, a.offs, a.etype, turn.val, turn.timed)
      && Called(turn.before, turn.after, turn.val) && (turn.failed <==> Fails(turn.after, turn.val, m.ret))
      && Settled(turn.after, a.s, turn.val, turn.failed, turn.cut)
    else
      turn == Nothing && a.s == b.s.(pfds := a.s.pfds) && a.ready == b.ready
  }

  ghost function DispatchOf(turn: Turn, a: Snap): Dispatch
    requires turn.Ran?
  {
    Dispatch(turn.val, turn.before.iters, turn.timed, LiveIn(turn.before, turn.val),
             LiveIn(turn.before, turn.val) && turn.before.items[turn.val].modIter < turn.before.iters, turn.failed, LiveIn(a.s, turn.val))
  }

  /** The dispatches of a run, in order. */
  ghost function Dispatches(turns: seq<Turn>, run: seq<Snap>): seq<Dispatch>
    requires |run| == |turns| + 1
    decreases |turns|
  {
    if turns == [] then [] else
      var n := |turns| - 1;
      Dispatches(turns[..n], run[..n + 1]) + if turns[n].Ran? then [DispatchOf(turns[n], run[n + 1])] else []
  }

  /** Every turn does what the moment asks for, and the run ends early only with nothing to
      dispatch and no interruption. */
  ghost predicate Follows(script: seq<Moment>, turns: seq<Turn>, run: seq<Snap>) {
    && |turns| <= |script| && |run| == |turns| + 1
    && (forall k :: 0 <= k < |turns| ==> Turned(run[k], script[k], turns[k], run[k + 1]))
    && (forall k :: 0 <= k < |turns| ==> (turns[k] == Nothing && !script[k].eintr ==> k == |turns| - 1))
  }

  /** Nothing has stopped the loop so far. */
  ghost predicate GoesOn(script: seq<Moment>, turns: seq<Turn>) {
    |turns| <= |script| && forall k :: 0 <= k < |turns| ==> turns[k] == Nothing ==> script[k].eintr
  }

  lemma {:induction false} FollowsMore(script: seq<Moment>, turns: seq<Turn>, run: seq<Snap>, turn: Turn, a: Snap)
    requires Follows(script, turns, run) && |turns| < |script| && Turned(run[|turns|], script[|turns|], turn, a)
    requires GoesOn(script, turns)
    ensures Follows(script, turns + [turn], run + [a])
    ensures (turn == Nothing ==> script[|turns|].eintr) ==> GoesOn(script, turns + [turn])
    ensures Dispatches(turns + [turn], run + [a]) == Dispatches(turns, run) + if turn.Ran? then [DispatchOf(turn, a)] else []
  {
    var ts, ss := turns + [turn], run + [a];
    var n := |turns|;
    assert ts[..n] == turns && ss[..n + 1] == run;
    forall k | 0 <= k < |ts| ensures Turned(ss[k], script[k], ts[k], ss[k + 1]) {}
  }

  /** What a dispatch of a failing callback leaves: nothing of its cycle is live, all else is. */
  lemma {:induction false} FailedGone(b: Snap, m: Moment, turn: Turn, a: Snap)
    requires Turned(b, m, turn, a) && turn.Ran?
    ensures turn.failed ==> && !LiveIn(a.s, turn.val) && a.s.count == turn.after.count - |turn.cut|
                            && forall u :: LiveIn(a.s, u) <==> LiveIn(turn.after, u) && u !in turn.cut
    ensures turn.failed && LiveIn(turn.after, turn.val) && 0 <= turn.after.items[turn.val].pair ==> !LiveIn(a.s, turn.after.items[turn.val].pair)
  {
    if turn.failed && LiveIn(turn.after, turn.val) {
      assert turn.val == turn.cut[0];
      if 0 <= turn.after.items[turn.val].pair { PairInCycle(turn.after, turn.val, turn.cut); }
    }
  }

  lemma {:induction false} PairInCycle(s: State, v: int, c: seq<int>)
    requires LiveIn(s, v) && Cycle(s.items, s.links, s.count, v, c) && 0 <= s.items[v].pair
    ensures s.items[v].pair in c
  {
    if |c| > 1 { assert Step(s.items, c, 1); }
  }

  lemma {:induction false} RecordTurn(trace: seq<Dispatch>, b: Snap, m: Moment, turn: Turn, a: Snap)
    requires Turned(b, m, turn, a) && Recorded(trace, b.s.iters, b.s.done)
    ensures Recorded(if turn.Ran? then trace + [DispatchOf(turn, a)] else trace, a.s.iters, a.s.done)
  {
    if turn.Ran? {
      FailedGone(b, m, turn, a);
      RecordOne(trace, b.s.iters, b.s.done, a.s.iters, a.s.done, DispatchOf(turn, a));
    }
  }

  /** Before turn k of the loop. */
  ghost predicate Looped(script: seq<Moment>, turns: seq<Turn>, run: seq<Snap>, trace: seq<Dispatch>, stop: bool, k: int, first: Snap, now: Snap) {
    && k == |turns| && Follows(script, turns, run) && run[0] == first && run[k] == now
    && trace == Dispatches(turns, run) && Recorded(trace, now.s.iters, now.s.done)
    && if stop then turns != [] && turns[k - 1] == Nothing && !script[k - 1].eintr else GoesOn(script, turns)
  }

  lemma {:induction false} LoopMore(script: seq<Moment>, turns: seq<Turn>, run: seq<Snap>, trace: seq<Dispatch>, turn: Turn, k: int, first: Snap, b: Snap, a: Snap)
    requires Looped(script, turns, run, trace, false, k, first, b) && k < |script| && Turned(b, script[k], turn, a)
    ensures Looped(script, turns + [turn], run + [a], if turn.Ran? then trace + [DispatchOf(turn, a)] else trace,
                   turn == Nothing && !script[k].eintr, k + 1, first, a)
  {
    FollowsMore(script, turns, run, turn, a);
    RecordTurn(trace, b, script[k], turn, a);
  }

  /** What the kernel may answer: epoll_wait reports registered entries, each once; poll gives
      the events of every slot in use, not all of them empty. */
  predicate Answer(epoll: bool, slots: int, count: int, watched: set<int>, w: Wait) {
    w.Reported? ==>
      if epoll then
        && 0 < |w.evs| <= slots && (forall k :: 0 <= k < |w.evs| ==> w.evs[k].ptr in watched)
        && (forall j, k :: 0 <= j < k < |w.evs| ==> w.evs[j].ptr != w.evs[k].ptr)
      else
        |w.revents| == count && exists k :: 0 <= k < |w.revents| && w.revents[k] != 0
  }

  ghost predicate PossibleIn(s: State, w: Wait) { Answer(s.epoll, |s.links|, s.count, s.watched, w) }

  class Pool {
    const epoll: bool
    var items: seq<Eval>
    var links: seq<int>
    var count: int
    var iters: nat
    var tvStart: int
    var tvEnd: int
    var pfds: seq<PollFd>
    var ready: seq<Ready>
    var watched: set<int>    // what is registered with epoll
    ghost var ts: seq<int>
    ghost var polled: map<int, int>
    ghost var done: set<int>
    ghost var high: int

    ghost function Now(): State reads this {
      State(epoll, items, links, count, iters, tvStart, tvEnd, pfds, watched, ts, polled, done, high)
    }

    ghost predicate Valid() reads this { Good(Now()) }

    predicate Alive(v: int) reads this { Live(items, links, count, v) }

    /** init_pool; `raw` is the uninitialised memory of the items, of which only the first is cleared. */
    constructor (epoll: bool, raw: seq<Eval>)
      requires |raw| > 0
      ensures Valid() && Scanning(Now(), ready, -1) && count == 0 && |links| == |raw| && this.epoll == epoll
    {
      this.epoll := epoll;
      items := raw[0 := Eval(0, 0, 0, 0, 0, 0, 0)];
      links := seq(|raw|, i => i);
      count, iters, tvStart, tvEnd := 0, 0, NIL, NIL;
      pfds := seq(|raw|, i => PollFd(0, 0));
      ready, watched := [], {};
      ts, polled, done, high := [], map[], {}, 0;
      new;
      forall v | 0 <= v < |items| ensures v in links { assert links[v] == v; }
    }

    /** add_event; `ctl` says whether epoll_ctl accepts the descriptor. */
    method AddEvent(fd: int, ctl: bool) returns (v: int)
      requires Valid() && fd > 0
      modifies this`items, this`count, this`pfds, this`watched
      ensures Valid()
      ensures v == NIL <==> old(count) >= |links| || (epoll && !ctl)
      ensures count == old(count) + if v == NIL then 0 else 1
      ensures v == NIL ==> forall u :: LiveIn(Now(), u) <==> LiveIn(old(Now()), u)
      ensures v != NIL ==> && 0 <= v < |items| && items[v] == Eval(fd, old(count), iters, NIL, 0, NIL, NIL) && !LiveIn(old(Now()), v)
                           && forall u :: LiveIn(Now(), u) <==> LiveIn(old(Now()), u) || u == v
      ensures forall u :: LiveIn(old(Now()), u) ==> u < |items| && items[u] == old(items)[u]
      ensures KnownKept(old(Now()), Now())
    {
      ghost var s := Now();
      if count >= |links| { return NIL; }
      FreeSlot(s);
      AddGood(s, fd);
      if epoll { RefusedGood(s, fd); }
      v := links[count];
      items := items[v := Eval(fd, count, iters, NIL, 0, NIL, NIL)];
      assert forall u :: LiveIn(s, u) ==> u != v;
      if epoll {
        if !ctl {
          assert Now() == NotAdded(s, fd);
          NotAddedKnown(s, fd);
          return NIL;
        }
        watched := watched + {v};
      } else {
        pfds := pfds[count := PollFd(fd, 0)];
      }
      count := count + 1;
      assert Now() == Added(s, fd);
      AddKnown(s, fd);
    }

    /** remove_timer.  It looks at nothing but the timer fields, and del_event calls it on an entry
        that is already closed, so its effect is stated on those. */
    method RemoveTimer(v: int)
      requires 0 <= v < |items| && Pointer(items, items[v].tvPrev) && Pointer(items, items[v].tvNext)
      modifies this`items, this`tvStart, this`tvEnd, this`ts
      ensures Now() == TimerRemoved(old(Now()), v)
    {
      var a := items[v];
      if a.tvPrev != NIL { items := items[a.tvPrev := items[a.tvPrev].(tvNext := a.tvNext)]; }
      if a.tvNext != NIL { items := items[a.tvNext := items[a.tvNext].(tvPrev := a.tvPrev)]; }
      if tvStart == v { tvStart := a.tvNext; }
      if tvEnd == v { tvEnd := a.tvPrev; }
      items := items[v := items[v].(tvMs := 0, tvNext := NIL, tvPrev := NIL)];
      ts := Without(ts, {v});
    }

    /** The loop of set_timer: the place for a deadline, after everything earlier. */
    method FindPlace(due: int) returns (prev: int, next: int, ghost k: int)
      requires Valid()
      ensures Place(items, ts, k, due) && next == At(ts, k) && prev == At(ts, k - 1)
    {
      assert Holds(TheTimers, Now());
      next, prev, k := NIL, tvEnd, |ts|;
      while prev != NIL && items[prev].tvMs >= due
        invariant 0 <= k <= |ts| && next == At(ts, k) && prev == At(ts, k - 1)
        invariant forall i :: k <= i < |ts| ==> items[ts[i]].tvMs >= due
        decreases k
      {
        assert Linked(items, ts, k - 1);
        next, prev := prev, items[prev].tvPrev;
        k := k - 1;
      }
    }

    /** The pointer updates of set_timer. */
    method LinkTimer(v: int, due: int, prev: int, next: int)
      requires 0 <= v < |items| && Pointer(items, prev) && Pointer(items, next)
      modifies this`items, this`tvStart, this`tvEnd
      ensures items == Set(old(items), v, due, prev, next)
      ensures tvStart == if old(tvStart) == NIL || next == old(tvStart) then v else old(tvStart)
      ensures tvEnd == if old(tvEnd) == NIL || prev == old(tvEnd) then v else old(tvEnd)
    {
      items := items[v := items[v].(tvMs := due, tvNext := next, tvPrev := prev)];
      if next != NIL { items := items[next := items[next].(tvPrev := v)]; }
      if prev != NIL { items := items[prev := items[prev].(tvNext := v)]; }
      if tvStart == NIL || next == tvStart { tvStart := v; }
      if tvEnd == NIL || prev == tvEnd { tvEnd := v; }
    }

    /** set_timer at time `now`; the clock is past its origin.  The timer goes where the order of
        deadlines puts it, before those with the same one; one that is already running is left
        alone. */
    method SetTimer(v: int, now: int, ms: int) returns (ghost k: int)
      requires Valid() && Alive(v) && now + ms > 0
      modifies this`items, this`tvStart, this`tvEnd, this`ts
      ensures Valid()
      ensures KnownKept(old(Now()), Now())
      ensures old(items)[v].tvMs != 0 ==> Now() == old(Now())
      ensures old(items)[v].tvMs == 0 ==>
                && SetOne(old(items), items, v, now + ms)
                && Place(old(items), old(ts), k, now + ms) && ts == old(ts)[..k] + [v] + old(ts)[k..]
    {
      k := 0;
      if items[v].tvMs != 0 { return; }
      ghost var s := Now();
      var due := now + ms;
      var prev, next;
      prev, next, k := FindPlace(due);
      SetGood(s, v, k, due);
      LinkTimer(v, due, prev, next);
      ts := ts[..k] + [v] + ts[k..];
      assert Now() == TimerSet(s, v, k, due);
      SetKnown(s, v, k, due);
    }

    /** Lines 117-129 of conev.c: the last live entry takes the place of `v`. */
    method SwapOut(v: int)
      requires 0 < count <= |links| == |pfds| && 0 <= v < |items| && 0 <= items[v].index < |links| && 0 <= links[count - 1] < |items|
      modifies this`items, this`links, this`count, this`pfds
      ensures Now() == AfterSwap(old(Now()), v)
    {
      count := count - 1;
      var ev := links[count];
      if ev != v {
        var index := items[v].index;
        links := links[index := ev][count := v];
        if !epoll { pfds := pfds[index := pfds[count]]; }
        items := items[ev := items[ev].(index := index)];
      }
    }

    /** Lines 93 and 113-116 of conev.c; nothing is registered with the poll back end. */
    method Close(v: int)
      requires 0 <= v < |items| && Pointer(items, items[v].tvPrev) && Pointer(items, items[v].tvNext)
      modifies this`items, this`tvStart, this`tvEnd, this`ts, this`watched
      ensures Now() == AfterClose(old(Now()), v)
    {
      watched := watched - {v};
      items := items[v := items[v].(fd := -1, modIter := iters)];
      RemoveTimer(v);
    }

    /** Lines 93 and 113-129 of conev.c. */
    method Drop(v: int)
      requires LiveFactsHold(Now(), v) && links[items[v].index] == v
      modifies this`items, this`links, this`count, this`tvStart, this`tvEnd, this`pfds, this`watched, this`ts
      ensures Now() == AfterDrop(old(Now()), v)
    {
      DropIs(Now(), v);
      Close(v);
      SwapOut(v);
    }

    /** del_event.  `rest` is what is left of the cycle of pair pointers from `v` on. */
    method DelEvent(v: int, ghost rest: seq<int>)
      requires Core(Now()) && Deletable(Now(), v, rest)
      modifies this`items, this`links, this`count, this`tvStart, this`tvEnd, this`pfds, this`watched, this`ts
      ensures Core(Now()) && Deleted(old(Now()), Now(), rest)
      decreases count
    {
      ghost var s := Now();
      DelFacts(s, v, rest);
      assert items[v].fd >= -1 && items[v].modIter <= iters;
      if items[v].fd == -1 {
        DeletedNone(s);
        return;
      }
      assert !epoll ==> items[v].fd == pfds[items[v].index].fd;
      HeadPair(s, v, rest);
      DropGood(s, v);
      if s.items[v].pair == NIL { DeletedHead(s, v); } else { HeadStep(s, v, rest); }
      Drop(v);
      assert items[v].pair == s.items[v].pair;
      if items[v].pair != NIL {
        var e := items[v].pair;
        if items[e].pair == v { items := items[e := items[e].(pair := NIL)]; }
        items := items[v := items[v].(pair := NIL)];
        assert Now() == AfterHead(s, v);
        DelEvent(e, rest[1..]);
        HeadThenTail(s, v, rest, Now());
      } else {
        assert rest == [v];
      }
      CountNat(Now());
      assert count >= 0;
    }

    /** del_event as callbacks and the loop use it: on a live entry it deletes exactly the cycle of
        that entry, on one already deleted it does nothing. */
    method Delete(v: int) returns (ghost c: seq<int>)
      requires Valid() && (Alive(v) || Gone(Now(), v))
      modifies this`items, this`links, this`count, this`tvStart, this`tvEnd, this`pfds, this`watched, this`ts
      ensures Valid() && Deleted(old(Now()), Now(), c)
      ensures if LiveIn(old(Now()), v) then Cycle(old(items), old(links), old(count), v, c) else c == []
    {
      ghost var s := Now();
      GoodCore(s);
      c := [];
      if Alive(v) { c := OnCycle(s, v); }
      DelEvent(v, c);
      if LiveIn(s, v) { CycleGone(s, v, c, Now()); } else { NoneGone(s, Now()); }
    }

    // ----- collecting events -----

    predicate Possible(w: Wait) reads this { Answer(epoll, |links|, count, watched, w) }

    /** Something the current batch may dispatch: live, not added or deleted in this batch, and
        still on the descriptor that was polled. */
    ghost predicate Current(v: int) reads this {
      Alive(v) && items[v].modIter < iters && v in polled && polled[v] == items[v].fd
    }

    /** next_event, epoll back end. */
    method NextEpoll(offs0: int, type0: int, w: Wait) returns (val: int, offs: int, etype: int)
      requires Valid() && epoll && Scanning(Now(), ready, offs0) && Possible(w)
      modifies this`ready, this`iters, this`polled, this`done, this`high
      ensures Valid() && Scanning(Now(), ready, offs)
      ensures val == NIL ==> !w.Reported? && etype == (if w.Timeout? then POLLTIMEOUT else type0)
      ensures val != NIL ==> Current(val) && val in done && (iters == old(iters) ==> val !in old(done))
      ensures iters >= old(iters) && (iters == old(iters) ==> old(done) <= done)
      ensures val == NIL <==> !w.Reported? && Exhausted(old(Now()), old(ready), offs0)
      ensures val == NIL ==> Now() == old(Now()) && ready == old(ready)
      ensures val != NIL ==> FromEpoll(old(iters), old(ready), offs0, w, Now(), ready, offs, val, etype)
    {
      offs, etype := offs0, type0;
      while true
        invariant Valid() && Scanning(Now(), ready, offs) && offs <= offs0 && etype == type0
        invariant Now() == old(Now()) && ready == old(ready) && StaleReady(items, ready, offs, offs0, iters)
        decreases offs
      {
        var i := offs;
        assert -1 <= i < |links|;
        if i < 0 {
          if w.Timeout? { etype := POLLTIMEOUT; }
          if !w.Reported? { return NIL, offs, etype; }
          i := CollectEpoll(w.evs);
        }
        var v := ready[i].ptr;
        offs := i - 1;
        InBatch(Now(), v);
        if items[v].modIter == iters { continue; }
        val, etype := TakeReady(i);
        return;
      }
    }

    /** Line 178. */
    method TakeReady(i: int) returns (val: int, etype: int)
      requires Valid() && epoll && Scanning(Now(), ready, i) && 0 <= i < |ready| && 0 <= ready[i].ptr < |items| && items[ready[i].ptr].modIter != iters
      modifies this`done
      ensures Valid() && Scanning(Now(), ready, i - 1) && ready[i] == Ready(val, etype)
      ensures Current(val) && val != NIL && val !in old(done) && done == old(done) + {val}
    {
      val, etype := ready[i].ptr, ready[i].events;
      UnchangedLive(Now(), val);
      DispatchGood(Now(), val);
      done := done + {val};
    }

    /** next_event, poll back end.  When poll reports nothing, the caller's place is left as it was. */
    method NextPoll(offs0: int, type0: int, w: Wait) returns (val: int, offs: int, etype: int)
      requires Valid() && !epoll && Scanning(Now(), ready, offs0) && Possible(w)
      modifies this`pfds, this`iters, this`polled, this`done, this`high
      ensures Valid() && Scanning(Now(), ready, offs)
      ensures val == NIL ==> !w.Reported? && etype == (if w.Timeout? then POLLTIMEOUT else type0)
      ensures val != NIL ==> Current(val) && val in done && (iters == old(iters) ==> val !in old(done))
      ensures iters >= old(iters) && (iters == old(iters) ==> old(done) <= done)
      ensures val == NIL <==> !w.Reported? && Exhausted(old(Now()), old(ready), offs0)
      ensures val == NIL ==> Now() == old(Now()).(pfds := pfds)
      ensures val != NIL ==> FromPoll(old(iters), old(pfds), offs0, w, Now(), offs, val, etype)
    {
      offs, etype := offs0, type0;
      var i := ScanSlots(offs0);
      if i < 0 {
        i := WaitPoll(w);
        if i < 0 {
          if w.Timeout? { etype := POLLTIMEOUT; }
          return NIL, offs, etype;
        }
      }
      val, etype := TakeSlot(i);
      offs := i - 1;
    }

    /** Lines 202-208 and the scan of the batch that follows: it meets an event, so poll is called
        only once. */
    method WaitPoll(w: Wait) returns (i: int)
      requires Valid() && !epoll && Possible(w)
      modifies this`pfds, this`iters, this`polled, this`done, this`high
      ensures Valid() && (i >= 0 <==> w.Reported?)
      ensures i >= 0 ==>
                && i < count == high && iters == old(iters) + 1 && Ripe(Now(), i) && StaleSlots(Now(), i, count - 1)
                && i < |w.revents| && pfds[i].revents == w.revents[i]
      ensures i < 0 ==> Now() == old(Now()).(pfds := pfds)
    {
      if !w.Reported? {
        if w.Timeout? { Quiet(); }
        return -1;
      }
      i := Collect(w.revents);
      i := ScanSlots(i);
      NotAllStale(Now(), i);
    }

    /** The loop over the slots, down to one to dispatch; -1 if there is none. */
    method ScanSlots(i0: int) returns (i: int)
      requires Valid() && !epoll && Scanning(Now(), ready, i0)
      ensures -1 <= i <= i0 && StaleSlots(Now(), i, i0)
      ensures i >= 0 ==> Ripe(Now(), i)
    {
      i := i0;
      while i >= 0
        invariant -1 <= i <= i0 && StaleSlots(Now(), i, i0)
      {
        SlotScanned(Now(), i);
        assert 0 <= i < |links|;
        if pfds[i].revents != 0 {
          var v := links[i];
          assert i < count || items[v].modIter == iters;
          if items[v].modIter != iters { return; }
        }
        i := i - 1;
      }
    }

    /** Lines 219-222. */
    method TakeSlot(i: int) returns (v: int, etype: int)
      requires Valid() && !epoll && Ripe(Now(), i) && i < high
      modifies this`pfds, this`done
      ensures Valid() && v == links[i] && v != NIL && etype == old(pfds)[i].revents && Current(v) && v !in old(done) && done == old(done) + {v}
      ensures pfds == old(pfds)[i := old(pfds)[i].(revents := 0)]
    {
      SlotScanned(Now(), i);
      TakeGood(Now(), i);
      v, etype := links[i], pfds[i].revents;
      pfds := pfds[i := pfds[i].(revents := 0)];
      done := done + {v};
    }

    /** epoll_wait has reported events: a new batch begins. */
    method CollectEpoll(evs: seq<Ready>) returns (i: int)
      requires Valid() && epoll && Possible(Reported(evs, []))
      modifies this`ready, this`iters, this`polled, this`done, this`high
      ensures Valid() && ready == evs && i == |evs| - 1 && iters == old(iters) + 1 && done == {}
      ensures Scanning(Now(), ready, i) && forall k :: 0 <= k < |evs| ==> 0 <= evs[k].ptr < |items| && items[evs[k].ptr].modIter < iters
    {
      ghost var s := Now();
      BatchGood(s, pfds);
      ReportedLive(s, evs);
      ready, i := evs, |evs| - 1;
      ghost var fds := LiveFds(s);
      iters, polled, done, high := iters + 1, fds, {}, count;
      assert Now() == NextBatch(s, pfds);
    }

    /** poll has timed out: no events. */
    method Quiet()
      requires Valid() && !epoll
      modifies this`pfds
      ensures Valid()
    {
      ghost var s := Now();
      Sizes(s);
      var p, n := pfds, count;
      pfds := seq(|p|, k requires 0 <= k < |p| => if k < n then p[k].(revents := 0) else p[k]);
      ClearGood(s, pfds, done);
    }

    /** poll has reported events: a new batch begins. */
    method Collect(revents: seq<int>) returns (i: int)
      requires Valid() && !epoll && |revents| == count && exists k :: 0 <= k < |revents| && revents[k] != 0
      modifies this`pfds, this`iters, this`polled, this`done, this`high
      ensures Valid() && Scanning(Now(), ready, i) && i == count - 1 && Pending(Now(), i) && iters == old(iters) + 1 && high == count && Reports(pfds, revents)
    {
      ghost var s := Now();
      Sizes(s);
      var p, n := pfds, count;
      pfds := seq(|p|, k requires 0 <= k < |p| => if k < n then p[k].(revents := revents[k]) else p[k]);
      BatchGood(s, pfds);
      PendingNow(s, revents, pfds);
      ghost var fds := LiveFds(s);
      i := count - 1;
      iters, polled, done, high := iters + 1, fds, {}, count;
      assert Now() == NextBatch(s, pfds);
    }

    /** next_event */
    method NextEvent(offs0: int, type0: int, w: Wait) returns (val: int, offs: int, etype: int)
      requires Valid() && Scanning(Now(), ready, offs0) && Possible(w)
      modifies this`ready, this`pfds, this`iters, this`polled, this`done, this`high
      ensures Valid() && Scanning(Now(), ready, offs)
      ensures val == NIL ==> !w.Reported? && etype == (if w.Timeout? then POLLTIMEOUT else type0)
      ensures val != NIL ==> Current(val) && val in done && (iters == old(iters) ==> val !in old(done))
      ensures iters >= old(iters) && (iters == old(iters) ==> old(done) <= done)
      ensures val == NIL <==> !w.Reported? && Exhausted(old(Now()), old(ready), offs0)
      ensures val == NIL ==> Now() == old(Now()).(pfds := pfds) && ready == old(ready)
      ensures val != NIL ==> Delivered(old(Now()), old(ready), offs0, w, Now(), ready, offs, val, etype)
    {
      if epoll {
        val, offs, etype := NextEpoll(offs0, type0, w);
      } else {
        val, offs, etype := NextPoll(offs0, type0, w);
      }
    }

    /** next_event_tv at time `now`.  A timeout dispatch takes the earliest deadline of all live
        entries.  It happens exactly when that deadline has come, or when the batch has nothing left
        to dispatch and the wait times out, or fails while the type left over from the previous call
        is a timeout; in the last case it comes early. */
    method NextEventTv(offs0: int, type0: int, now: int, w: Wait) returns (val: int, offs: int, etype: int, timed: bool)
      requires Valid() && Scanning(Now(), ready, offs0) && Possible(w)
      modifies this`items, this`tvStart, this`tvEnd, this`ts, this`ready, this`pfds, this`iters, this`polled, this`done, this`high
      ensures Valid() && Scanning(Now(), ready, offs)
      ensures timed <==> TimeUp(old(Now()), old(ready), offs0, type0, now, w)
      ensures timed ==> && etype == POLLTIMEOUT && val == old(tvStart) && Alive(val) && Earliest(old(Now()), val)
                        && old(ts) == [val] + ts && OnlyTimers(old(items), items) && items[val].tvMs == 0
      ensures !timed ==> items == old(items) && ts == old(ts)
      ensures !timed && val != NIL ==>
                && Current(val) && val in done && (iters == old(iters) ==> val !in old(done))
                && Delivered(old(Now()), old(ready), offs0, w, Now(), ready, offs, val, etype)
      ensures iters >= old(iters) && (iters == old(iters) ==> old(done) <= done)
      ensures val == NIL <==> !timed && !w.Reported? && Exhausted(old(Now()), old(ready), offs0)
      ensures val == NIL ==> Now() == old(Now()).(pfds := pfds) && ready == old(ready)
    {
      ghost var s0 := Now();
      timed := false;
      EarliestFirst(s0);
      if tvStart == NIL {
        val, offs, etype := NextEvent(offs0, type0, w);
        return;
      }
      val, offs, etype := NIL, offs0, type0;
      var ms := items[tvStart].tvMs - now;
      if ms > 0 {
        val, offs, etype := NextEvent(offs0, type0, w);
      } else {
        etype := POLLTIMEOUT;
      }
      if val == NIL && tvStart != NIL && etype == POLLTIMEOUT {
        val := TakeTimer();
        timed := true;
      }
    }

    /** The head of the timer list is taken off it. */
    method TakeTimer() returns (val: int)
      requires Valid() && tvStart != NIL
      modifies this`items, this`tvStart, this`tvEnd, this`ts
      ensures Valid() && val == old(tvStart) && Alive(val) && old(ts) == [val] + ts && OnlyTimers(old(items), items) && items[val].tvMs == 0
    {
      ghost var s := Now();
      EarliestFirst(s);
      val := tvStart;
      RemoveGood(s, val);
      RemoveTimer(val);
    }

    // ----- what callbacks do -----

    /** proxy.c, lines 481-482. */
    method Couple(v: int, p: int)
      requires Valid() && Alive(v) && Alive(p) && v != p && items[v].pair == items[p].pair == NIL
      modifies this`items
      ensures Valid() && OnlyPairs(old(items), items) && items[v].pair == p && items[p].pair == v
      ensures forall u :: 0 <= u < |items| && u != v && u != p ==> items[u] == old(items)[u]
      ensures KnownKept(old(Now()), Now())
    {
      ghost var s := Now();
      CoupleGood(s, v, p);
      items := items[v := items[v].(pair := p)];
      items := items[p := items[p].(pair := v)];
      PairKnown(s, Now());
    }

    /** proxy.c, lines 541-543. */
    method Triple(v: int, c: int, p: int)
      requires Valid() && Alive(v) && Alive(c) && Alive(p) && v != c && v != p && c != p
      requires items[v].pair == items[c].pair == items[p].pair == NIL
      modifies this`items
      ensures Valid() && OnlyPairs(old(items), items) && Cycle(items, links, count, v, [v, c, p])
      ensures forall u :: 0 <= u < |items| && u != v && u != c && u != p ==> items[u] == old(items)[u]
      ensures KnownKept(old(Now()), Now())
    {
      ghost var s := Now();
      TripleGood(s, v, c, p);
      items := items[v := items[v].(pair := c)];
      items := items[c := items[c].(pair := p)];
      items := items[p := items[p].(pair := v)];
      PairKnown(s, Now());
      assert Step(items, [v, c, p], 1) && Step(items, [v, c, p], 2);
    }

    /** proxy.c, lines 481-482, then extend.c, line 218: the new connection `p` replaces `was` beside `v`. */
    method Replace(was: int, v: int, p: int)
      requires Valid() && Alive(was) && Alive(v) && Alive(p) && items[was].pair == v && items[v].pair == was && items[p].pair == NIL
      modifies this`items
      ensures Valid() && OnlyPairs(old(items), items) && items[v].pair == p && items[p].pair == v && items[was].pair == NIL
      ensures forall u :: 0 <= u < |items| && u != v && u != p && u != was ==> items[u] == old(items)[u]
      ensures KnownKept(old(Now()), Now())
    {
      ghost var s := Now();
      ReplaceGood(s, was, v, p);
      items := items[v := items[v].(pair := p)];
      items := items[p := items[p].(pair := v)];
      items := items[was := items[was].(pair := NIL)];
      PairKnown(s, Now());
    }

    /** reconnect (extend.c): the client of `was` gets a new connection, unless connect_hook puts it
        off, and `was` is deleted.  The invariant survives if and only if it was not put off:
        otherwise the client keeps pointing at the deleted entry. */
    method Reconnect(was: int, fd: int, ctl: bool, filtered: bool, buffered: bool, delayConn: bool) returns (ok: bool, ghost p: int)
      requires Valid() && Alive(was) && fd > 0 && 0 <= items[was].pair < |items| && items[items[was].pair].pair == was
      modifies this`items, this`links, this`count, this`tvStart, this`tvEnd, this`pfds, this`watched, this`ts
      ensures |links| == |old(links)| && KnownKept(old(Now()), Now())
      ensures ok <==> Defers(filtered, buffered, delayConn) || (old(count) < |links| && (!epoll || ctl))
      ensures !ok ==> Valid()
      ensures ok ==> !Alive(was) && (Valid() <==> !Defers(filtered, buffered, delayConn))
      ensures var v := old(items)[was].pair;
              if ok && !Defers(filtered, buffered, delayConn) then
                && !LiveIn(old(Now()), p) && Alive(p) && Alive(v) && count == old(count)
                && items[p].fd == fd && items[v].fd == old(items)[v].fd && items[v].pair == p && items[p].pair == v
              else v < |items| && items[v].pair == was
    {
      p := NIL;
      var v := items[was].pair;
      PartnerLives(Now(), was, v);
      if filtered && !buffered && delayConn {
        Deserted(was, v);
        return true, p;
      }
      var e := AddEvent(fd, ctl);
      if e == NIL { return false, p; }
      p := e;
      Supersede(was, v, e);
      ok := true;
    }

    /** `p` takes the place of `was` beside `v`, and `was` is deleted. */
    method Supersede(was: int, v: int, p: int)
      requires Valid() && Alive(was) && Alive(v) && Alive(p) && items[was].pair == v && items[v].pair == was && items[p].pair == NIL
      modifies this`items, this`links, this`count, this`tvStart, this`tvEnd, this`pfds, this`watched, this`ts
      ensures Valid() && |links| == |old(links)| && count == old(count) - 1 && KnownKept(old(Now()), Now())
      ensures !Alive(was) && Alive(v) && Alive(p) && items[v].pair == p && items[p].pair == v
      ensures items[v].fd == old(items)[v].fd && items[p].fd == old(items)[p].fd
    {
      Replace(was, v, p);
      ghost var s := Now();
      assert LiveIn(s, v) && LiveIn(s, p);
      ghost var c := Delete(was);
      AloneCycle(s, was, c);
      DelKnown(s, Now(), c);
    }

    /** Lines 218-219 of extend.c after a connection that was put off. */
    method Deserted(was: int, v: int)
      requires Valid() && Alive(was) && Alive(v) && v != was && items[was].pair == v && items[v].pair == was
      modifies this`items, this`links, this`count, this`tvStart, this`tvEnd, this`pfds, this`watched, this`ts
      ensures |links| == |old(links)| && KnownKept(old(Now()), Now())
      ensures Alive(v) && items[v].pair == was && !Alive(was) && !Valid()
    {
      ghost var s0 := Now();
      GoodCore(s0);
      items := items[was := items[was].(pair := NIL)];
      ghost var s := Now();
      PairsApart(s0, items);
      PairKnown(s0, s);
      assert LiveIn(s, was) && LiveIn(s, v);
      AloneDeletable(s, was);
      DelEvent(was, [was]);
      DelKnown(s, Now(), [was]);
      Dangles(s, was, v, Now());
    }

    /** One step of a callback, chosen arbitrarily among the operations on live entries; a
        reconnection is not put off. */
    method CallbackStep()
      requires Valid()
      modifies this`items, this`links, this`count, this`tvStart, this`tvEnd, this`pfds, this`watched, this`ts
      ensures Valid() && |links| == |old(links)| && KnownKept(old(Now()), Now())
    {
      var op: int, v: int, p: int, c: int, now: int, ms: int, fd: int, ctl: bool := *, *, *, *, *, *, *, *;
      ghost var s := Now();
      if op == 0 && fd > 0 {
        var _ := AddEvent(fd, ctl);
      } else if op == 1 && Alive(v) {
        ghost var gone := Delete(v);
        DelKnown(s, Now(), gone);
      } else if op == 2 && Alive(v) && now + ms > 0 {
        ghost var _ := SetTimer(v, now, ms);
      } else if op == 3 && Alive(v) {
        RemoveGood(s, v);
        RemoveKnown(s, v);
        RemoveTimer(v);
      } else if op == 4 && Alive(v) && Alive(p) && v != p && items[v].pair == items[p].pair == NIL {
        Couple(v, p);
      } else if op == 5 && Alive(v) && Alive(c) && Alive(p) && v != c && v != p && c != p && items[v].pair == items[c].pair == items[p].pair == NIL {
        Triple(v, c, p);
      } else if op == 6 && Alive(v) && fd > 0 && 0 <= items[v].pair < |items| && items[items[v].pair].pair == v {
        var filtered: bool, buffered: bool, delayConn: bool := *, *, *;
        if !filtered || buffered || !delayConn { var _, _ := Reconnect(v, fd, ctl, filtered, buffered, delayConn); }
      }
    }

    /** A callback on the entry `val`: any number of such steps and any result, except that it does not
        fail once its own entry is neither live nor closed, which only a refused add_event after its
        deletion can bring about.  With the poll back end that cannot happen. */
    method Callback(steps: nat, val: int, want: int) returns (ret: int)
      requires Valid() && Known(Now(), val)
      modifies this`items, this`links, this`count, this`tvStart, this`tvEnd, this`pfds, this`watched, this`ts
      ensures Called(old(Now()), Now(), val)
      ensures (ret == want || (ret == 0 && epoll)) && (ret < 0 <==> Fails(Now(), val, want))
    {
      for k := 0 to steps
        invariant Valid() && |links| == |old(links)| && Known(Now(), val)
      {
        CallbackStep();
      }
      ret := want;
      if ret < 0 && !Alive(val) && items[val].fd != -1 {
        assert epoll;
        ret := 0;
      }
    }

    ghost function SnapNow(offs: int, etype: int): Snap reads this { Snap(Now(), ready, offs, etype) }

    /** The body of loop_event. */
    method LoopTurn(m: Moment, i0: int, etype0: int) returns (i: int, etype: int, stop: bool, ghost turn: Turn)
      requires Valid() && Scanning(Now(), ready, i0)
      modifies this
      ensures Valid() && Scanning(Now(), ready, i) && Turned(old(SnapNow(i0, etype0)), m, turn, SnapNow(i, etype))
      ensures stop <==> turn == Nothing && !m.eintr
    {
      i, etype, stop, turn := i0, etype0, false, Skipped;
      if !Possible(m.w) { return; }
      var val, timed;
      val, i, etype, timed := NextEventTv(i0, etype0, m.now, m.w);
      if val == NIL {
        stop, turn := !m.eintr, Nothing;
        return;
      }
      ghost var before := Now();
      var ret := Callback(m.steps, val, m.ret);
      ghost var after, cut := Now(), [];
      if ret < 0 { cut := Delete(val); }
      turn := Ran(val, timed, before, after, ret < 0, cut);
    }

    /** loop_event over any script of kernel answers, clock readings and callbacks of that kind.
        Each turn dispatches exactly what is due and deletes the entry of a failed callback with
        its cycle; every dispatch is of a live entry, and one made for an event is of an entry that
        was neither added nor deleted since the batch was collected. */
    method LoopEvent(script: seq<Moment>) returns (ghost trace: seq<Dispatch>, ghost turns: seq<Turn>, ghost run: seq<Snap>)
      requires Valid() && Scanning(Now(), ready, -1)
      modifies this
      ensures Valid() && Follows(script, turns, run) && run[0] == old(SnapNow(-1, -1)) && run[|turns|].s == Now()
      ensures |turns| == |script| || (turns != [] && turns[|turns| - 1] == Nothing && !script[|turns| - 1].eintr)
      ensures trace == Dispatches(turns, run) && Safe(trace)
    {
      var i, etype, stop := -1, -1, false;
      trace, turns, run := [], [], [SnapNow(i, etype)];
      var k := 0;
      while !stop && k < |script|
        invariant Valid() && Scanning(Now(), ready, i) && k <= |script|
        invariant Looped(script, turns, run, trace, stop, k, old(SnapNow(-1, -1)), SnapNow(i, etype))
        decreases |script| - k
      {
        ghost var b := SnapNow(i, etype);
        ghost var turn;
        i, etype, stop, turn := LoopTurn(script[k], i, etype);
        ghost var a := SnapNow(i, etype);
        LoopMore(script, turns, run, trace, turn, k, old(SnapNow(-1, -1)), b, a);
        trace, turns, run := if turn.Ran? then trace + [DispatchOf(turn, a)] else trace, turns + [turn], run + [a];
        k := k + 1;
      }
    }

    /** destroy_pool: deletes until nothing is left. */
    method Destroy()
      requires Valid()
      modifies this`items, this`links, this`count, this`tvStart, this`tvEnd, this`pfds, this`watched, this`ts
      ensures Valid() && count == 0
    {
      Sizes(Now());
      while count > 0
        invariant Valid() && 0 <= count
        decreases count
      {
        FirstLive(Now());
        ghost var _ := Delete(links[0]);
        Sizes(Now());
      }
    }
  }

  /** A pool of one entry whose timer, set at 1 for 10, has just run out. */
  method OneTimeout() returns (pool: Pool, v: int, offs: int, etype: int)
    ensures fresh(pool) && pool.Valid() && Scanning(pool.Now(), pool.ready, -1) && |pool.links| == 1
    ensures pool.Alive(v) && pool.items[v].tvMs == 0 && etype == POLLTIMEOUT
  {
    pool := new Pool(true, [Eval(0, 0, 0, 0, 0, 0, 0)]);
    v := pool.AddEvent(5, true);
    ghost var _ := pool.SetTimer(v, 1, 10);
    OnlyTimer(pool.Now(), v);
    var val, timed;
    val, offs, etype, timed := pool.NextEventTv(-1, -1, 11, Timeout);
  }

  /** A timer that fires before its time: after one timeout, an interrupted wait is taken for another. */
  method EarlyTimeout() returns (pool: Pool, val: int, timed: bool, now: int, ghost before: State)
    ensures timed && LiveIn(before, val) && now < before.items[val].tvMs && pool.Alive(val) && pool.items[val].tvMs == 0
  {
    var v, offs, etype;
    pool, v, offs, etype := OneTimeout();
    now := 12;
    ghost var _ := pool.SetTimer(v, 11, 10);
    before := pool.Now();
    OnlyTimer(before, v);
    val, offs, etype, timed := pool.NextEventTv(-1, etype, now, Failed);
  }

  lemma {:induction false} OnlyTimer(s: State, v: int)
    requires Good(s) && |s.links| == 1 && LiveIn(s, v) && s.items[v].tvMs != 0
    ensures s.tvStart == v
  {
    GoodCore(s);
    CoreParts(s);
    EarliestFirst(s);
  }

  lemma {:induction false} PartnerLives(s: State, was: int, v: int)
    requires Good(s) && LiveIn(s, was) && s.items[was].pair == v && v >= 0
    ensures LiveIn(s, v) && v != was
  {
    assert Holds(ThePairs, s);
    assert PairLives(s.items, s.links, s.count, was);
  }

  lemma {:induction false} AloneDeletable(s: State, v: int)
    requires LiveIn(s, v) && s.items[v].pair == NIL
    ensures Deletable(s, v, [v])
  {
  }

  lemma {:induction false} AloneCycle(s: State, v: int, c: seq<int>)
    requires LiveIn(s, v) && s.items[v].pair == NIL && Cycle(s.items, s.links, s.count, v, c)
    ensures c == [v]
  {
    if |c| > 1 { CycleMoves(s, v, c); }
  }

  lemma {:induction false} CycleMoves(s: State, v: int, c: seq<int>)
    requires Cycle(s.items, s.links, s.count, v, c) && |c| > 1
    ensures s.items[v].pair != NIL
  {
    assert Step(s.items, c, 1) && Live(s.items, s.links, s.count, c[1]);
  }

  ghost predicate Earliest(s: State, v: int) {
    0 <= v < |s.items| && forall u :: LiveIn(s, u) && s.items[u].tvMs != 0 ==> s.items[v].tvMs <= s.items[u].tvMs
  }

  lemma {:induction false} FirstLive(s: State)
    requires Good(s) && s.count > 0
    ensures |s.links| > 0 && LiveIn(s, s.links[0])
  {
    GoodCore(s);
    CoreParts(s);
  }

  /** The reported entries after place lo and up to hi were changed in this batch. */
  ghost predicate StaleReady(items: seq<Eval>, ready: seq<Ready>, lo: int, hi: int, iters: nat) {
    forall j :: lo < j <= hi ==> 0 <= j < |ready| && 0 <= ready[j].ptr < |items| && items[ready[j].ptr].modIter == iters
  }

  /** The current batch has nothing left to dispatch. */
  ghost predicate Exhausted(s: State, ready: seq<Ready>, offs: int) {
    if s.epoll then StaleReady(s.items, ready, -1, offs, s.iters) else StaleSlots(s, -1, offs)
  }

  /** The slots after lo and up to hi have no event or were changed in this batch. */
  ghost predicate StaleSlots(s: State, lo: int, hi: int) {
    forall j :: lo < j <= hi ==>
      && 0 <= j < |s.links| && j < |s.pfds| && 0 <= s.links[j] < |s.items|
      && (s.pfds[j].revents == 0 || s.items[s.links[j]].modIter == s.iters)
  }

  /** What next_event takes with epoll: the next reported entry, of the batch at hand or of a new
      one, that was left alone since the batch was collected, and its events. */
  ghost predicate FromEpoll(iters0: nat, ready0: seq<Ready>, offs0: int, w: Wait, t: State, ready: seq<Ready>, offs: int, val: int, etype: int) {
    && (if t.iters == iters0 then ready == ready0 else w.Reported? && ready == w.evs)
    && 0 <= offs + 1 < |ready| && ready[offs + 1] == Ready(val, etype)
    && StaleReady(t.items, ready, offs + 1, if t.iters == iters0 then offs0 else |ready| - 1, t.iters)
  }

  /** The same with poll: the entry of the next slot with events. */
  ghost predicate FromPoll(iters0: nat, pfds0: seq<PollFd>, offs0: int, w: Wait, t: State, offs: int, val: int, etype: int) {
    && 0 <= offs + 1 < |t.links| && t.links[offs + 1] == val && etype != 0
    && (if t.iters == iters0 then offs + 1 < |pfds0| && etype == pfds0[offs + 1].revents
        else w.Reported? && offs + 1 < |w.revents| && etype == w.revents[offs + 1])
    && StaleSlots(t, offs + 1, if t.iters == iters0 then offs0 else t.count - 1)
  }

  ghost predicate Delivered(s: State, ready0: seq<Ready>, offs0: int, w: Wait, t: State, ready: seq<Ready>, offs: int, val: int, etype: int) {
    if s.epoll then FromEpoll(s.iters, ready0, offs0, w, t, ready, offs, val, etype) else FromPoll(s.iters, s.pfds, offs0, w, t, offs, val, etype)
  }

  /** When next_event_tv dispatches a timeout. */
  ghost predicate TimeUp(s: State, ready: seq<Ready>, offs: int, type0: int, now: int, w: Wait) {
    && LiveIn(s, s.tvStart)
    && (s.items[s.tvStart].tvMs <= now || (Exhausted(s, ready, offs) && (w.Timeout? || (w.Failed? && type0 == POLLTIMEOUT))))
  }

  /** A slot with an event for an entry left alone in this batch. */
  ghost predicate Ripe(s: State, i: int) {
    0 <= i < |s.links| == |s.pfds| && 0 <= s.links[i] < |s.items| && s.pfds[i].revents != 0 && s.items[s.links[i]].modIter != s.iters
  }

  lemma {:induction false} NotAllStale(s: State, i: int)
    requires Pending(s, s.count - 1) && StaleSlots(s, i, s.count - 1)
    ensures i >= 0
  {
  }

  ghost predicate Reports(pfds: seq<PollFd>, revents: seq<int>) {
    |revents| <= |pfds| && forall k :: 0 <= k < |revents| ==> pfds[k].revents == revents[k]
  }

  /** The scan below slot i will meet an entry it may dispatch. */
  ghost predicate Pending(s: State, i: int) {
    exists j :: 0 <= j <= i && j < |s.pfds| && j < |s.links| && s.pfds[j].revents != 0 && 0 <= s.links[j] < |s.items| && s.items[s.links[j]].modIter != s.iters
  }

  lemma {:induction false} PendingNow(s: State, revents: seq<int>, pfds: seq<PollFd>)
    requires Good(s) && |revents| == s.count && (exists k :: 0 <= k < |revents| && revents[k] != 0) && |pfds| == |s.pfds|
    requires forall k :: 0 <= k < s.count && k < |pfds| ==> pfds[k].revents == revents[k]
    ensures Pending(NextBatch(s, pfds), s.count - 1)
  {
    GoodCore(s);
    CoreParts(s);
    var k :| 0 <= k < |revents| && revents[k] != 0;
    assert Live(s.items, s.links, s.count, s.links[k]);
    assert pfds[k].revents != 0;
  }

  lemma {:induction false} ReportedLive(s: State, evs: seq<Ready>)
    requires Good(s) && s.epoll && forall k :: 0 <= k < |evs| ==> evs[k].ptr in s.watched
    ensures forall k :: 0 <= k < |evs| ==> 0 <= evs[k].ptr < |s.items| && s.items[evs[k].ptr].modIter < s.iters + 1 && evs[k].ptr in LiveFds(s)
  {
    BatchGood(s, s.pfds);
    assert Holds(TheWatch, s);
    forall k | 0 <= k < |evs| ensures 0 <= evs[k].ptr < |s.items| && s.items[evs[k].ptr].modIter < s.iters + 1 && evs[k].ptr in LiveFds(s) {
      assert LiveIn(s, evs[k].ptr);
    }
  }

  lemma {:induction false} InBatch(s: State, v: int)
    requires Good(s) && v in s.polled
    ensures 0 <= v < |s.items|
  {
    GoodCore(s);
    CoreParts(s);
  }

  lemma {:induction false} DispatchGood(s: State, v: int)
    requires Good(s) && s.epoll
    ensures Good(s.(done := s.done + {v}))
  {
    ClearGood(s, s.pfds, s.done + {v});
    assert s.(pfds := s.pfds, done := s.done + {v}) == s.(done := s.done + {v});
  }

  lemma {:induction false} TakeGood(s: State, i: int)
    requires Good(s) && !s.epoll && 0 <= i < s.high && i < |s.links| == |s.pfds|
    ensures Good(s.(pfds := s.pfds[i := s.pfds[i].(revents := 0)], done := s.done + {s.links[i]}))
  {
    SlotScanned(s, i);
    ClearGood(s, s.pfds[i := s.pfds[i].(revents := 0)], s.done + {s.links[i]});
  }

  lemma {:induction false} CountNat(s: State)
    requires Core(s)
    ensures s.count >= 0
  {
    assert Holds(TheSlots, s);
  }

  lemma {:induction false} DelFacts(s: State, v: int, rest: seq<int>)
    requires Core(s) && Deletable(s, v, rest)
    ensures 0 <= v < |s.items| && s.items[v].fd >= -1 && s.items[v].modIter <= s.iters && (s.items[v].fd == -1 <==> rest == [])
    ensures rest != [] ==>
              && LiveIn(s, v) && 0 < s.count <= |s.links| == |s.pfds| && 0 <= s.items[v].index < |s.pfds|
              && (!s.epoll ==> s.items[v].fd == s.pfds[s.items[v].index].fd)
    ensures s.count >= 0
  {
    CoreParts(s);
    if rest != [] {
      HeadPair(s, v, rest);
      LiveFacts(s, v);
    }
  }

  lemma {:induction false} NoneGone(s: State, t: State)
    requires Good(s) && Core(t) && Deleted(s, t, [])
    ensures Good(t)
  {
    assert Holds(ThePairs, s);
    forall u ensures PairLives(t.items, t.links, t.count, u) {
      assert PairLives(s.items, s.links, s.count, u);
      assert LiveIn(t, u) <==> LiveIn(s, u);
      if LiveIn(s, u) { assert LiveIn(t, s.items[u].pair) <==> LiveIn(s, s.items[u].pair); }
    }
    forall u, w ensures PairDiffers(t.items, t.links, t.count, u, w) {
      assert PairDiffers(s.items, s.links, s.count, u, w);
      assert (LiveIn(t, u) <==> LiveIn(s, u)) && (LiveIn(t, w) <==> LiveIn(s, w));
    }
    GoodCore(t);
  }
}
