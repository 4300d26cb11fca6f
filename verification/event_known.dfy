/** What a callback may leave behind for the event loop of conev.c: the states in which an entry that
    was dispatched can be, for which of them the loop's del_event is sound, and when reconnecting
    (extend.c) keeps the pairs. */
module EventKnown {
  import opened Sequences
  import opened EventSlots
  import opened EventState

  /** Written by an add_event that epoll_ctl refused: an open descriptor outside the live slots. */
  ghost predicate Refused(s: State, v: int) {
    && s.epoll && 0 <= v < |s.items| && !LiveIn(s, v)
    && var e := s.items[v];
       e.fd > 0 && 0 <= e.index < |s.links| && e.modIter <= s.iters && e == Eval(e.fd, e.index, e.modIter, NIL, 0, NIL, NIL)
  }

  /** The states an entry can be in once it has been live. */
  ghost predicate Known(s: State, v: int) { LiveIn(s, v) || Gone(s, v) || Refused(s, v) }

  ghost predicate KnownKept(s: State, t: State) { forall u :: Known(s, u) ==> Known(t, u) }

  // ----- every operation keeps them -----

  lemma {:induction false} AddKnown(s: State, fd: int)
    requires 0 <= s.count < |s.links| == |s.pfds| && 0 <= s.links[s.count] < |s.items|
    requires forall u :: LiveIn(Added(s, fd), u) <==> LiveIn(s, u) || u == s.links[s.count]
    ensures KnownKept(s, Added(s, fd))
  {
  }

  lemma {:induction false} NotAddedKnown(s: State, fd: int)
    requires 0 <= s.count < |s.links| == |s.pfds| && 0 <= s.links[s.count] < |s.items| && s.epoll && fd > 0
    requires !LiveIn(s, s.links[s.count]) && forall u :: LiveIn(NotAdded(s, fd), u) <==> LiveIn(s, u)
    ensures KnownKept(s, NotAdded(s, fd)) && Refused(NotAdded(s, fd), s.links[s.count])
  {
  }

  lemma {:induction false} DeadKnown(s: State, t: State)
    requires DeadKept(s, t.items) && t.epoll == s.epoll && t.iters == s.iters && |t.links| == |s.links|
    requires forall u :: LiveIn(t, u) <==> LiveIn(s, u)
    ensures KnownKept(s, t)
  {
  }

  lemma {:induction false} PairKnown(s: State, t: State)
    requires t == s.(items := t.items) && OnlyPairs(s.items, t.items) && DeadKept(s, t.items)
    ensures KnownKept(s, t)
  {
    forall u ensures LiveIn(t, u) <==> LiveIn(s, u) {}
    DeadKnown(s, t);
  }

  lemma {:induction false} DelKnown(s: State, t: State, c: seq<int>)
    requires Deleted(s, t, c)
    ensures KnownKept(s, t)
  {
  }

  lemma {:induction false} RemoveKnown(s: State, v: int)
    requires Good(s) && LiveIn(s, v) && Pointer(s.items, s.items[v].tvPrev) && Pointer(s.items, s.items[v].tvNext)
    requires OnlyTimers(s.items, TimerRemoved(s, v).items) && Unlinked(s.items, TimerRemoved(s, v).items, v)
    ensures KnownKept(s, TimerRemoved(s, v))
  {
    GoodCore(s);
    TimerNeighboursLive(s, v);
    DeadKnown(s, TimerRemoved(s, v));
  }

  lemma {:induction false} SetKnown(s: State, v: int, k: int, due: int)
    requires Good(s) && LiveIn(s, v) && 0 <= k <= |s.ts| && Pointer(s.items, At(s.ts, k - 1)) && Pointer(s.items, At(s.ts, k))
    requires OnlyTimers(s.items, TimerSet(s, v, k, due).items)
    ensures KnownKept(s, TimerSet(s, v, k, due))
  {
    assert Holds(TheTimers, s);
    var p, n := At(s.ts, k - 1), At(s.ts, k);
    assert p == NIL || p in s.ts;
    assert n == NIL || n in s.ts;
    assert p == NIL || LiveIn(s, p);
    assert n == NIL || LiveIn(s, n);
    DeadKnown(s, TimerSet(s, v, k, due));
  }

  // ----- the loop's del_event -----

  /** del_event on a refused entry: one slot fewer, and the last live entry moved to the place the
      refused one was given.  (Without live entries the code reads before the slot array.) */
  ghost function RefusedDrop(s: State, v: int): State
    requires Refused(s, v) && 0 <= s.count <= |s.links| && (s.count > 0 ==> 0 <= s.links[s.count - 1] < |s.items|)
  {
    var k, last := s.items[v].index, s.count - 1;
    var items, watched := s.items[v := s.items[v].(fd := -1, modIter := s.iters)], s.watched - {v};
    if last < 0 then s.(items := items, watched := watched, count := last) else
      var ev := s.links[last];
      s.(items := items[ev := items[ev].(index := k)], watched := watched, links := s.links[k := ev][last := v], count := last)
  }

  lemma {:induction false} RefusedReady(s: State, v: int)
    requires Good(s) && Refused(s, v)
    ensures 0 <= s.count <= |s.links| && (s.count > 0 ==> 0 <= s.links[s.count - 1] < |s.items| && LiveIn(s, s.links[s.count - 1]))
    ensures v in s.links && v !in s.links[..s.count]
  {
    assert Holds(TheSlots, s);
    LiveIffLinked(s.items, s.links, s.count, v);
  }

  /** A live entry falls out of the slots, or one takes up two of them, while it stays registered. */
  lemma {:induction false} RefusedCorrupts(s: State, v: int)
    requires Good(s) && Refused(s, v)
    ensures 0 <= s.count <= |s.links| && (s.count > 0 ==> 0 <= s.links[s.count - 1] < |s.items|)
    ensures !Good(RefusedDrop(s, v))
  {
    RefusedReady(s, v);
    var t := RefusedDrop(s, v);
    if s.count == 0 {
      assert !Holds(TheSlots, t);
    } else {
      var ev, k := s.links[s.count - 1], s.items[v].index;
      assert ev in s.watched by { assert Holds(TheWatch, s); }
      assert ev in t.watched && t.items[ev].index == k;
      if LiveIn(t, ev) { TwiceLinked(s, v); } else { assert !Holds(TheWatch, t); }
    }
  }

  lemma {:induction false} PlaceAfter(links: seq<int>, count: int, v: int) returns (m: int)
    requires 0 <= count <= |links| && v in links && v !in links[..count]
    ensures count <= m < |links| && links[m] == v
  {
    assert links == links[..count] + links[count..];
    var j :| 0 <= j < |links| - count && links[count..][j] == v;
    m := count + j;
  }

  lemma {:induction false} TwiceLinked(s: State, v: int)
    requires Good(s) && Refused(s, v) && 0 < s.count <= |s.links| && 0 <= s.links[s.count - 1] < |s.items| && v in s.links && v !in s.links[..s.count]
    requires s.items[v].index < s.count - 1
    ensures !Holds(TheSlots, RefusedDrop(s, v))
  {
    var t := RefusedDrop(s, v);
    var m := PlaceAfter(s.links, s.count, v);
    assert t.links[m] == v && t.links[s.count - 1] == v;
  }

  /** What del_event leaves, for every state an entry can be in. */
  ghost predicate LoopDeleted(s: State, v: int, t: State)
    requires Known(s, v) && 0 <= s.count <= |s.links| && (s.count > 0 ==> 0 <= s.links[s.count - 1] < |s.items|)
  {
    if LiveIn(s, v) then Core(t) && exists c :: Cycle(s.items, s.links, s.count, v, c) && Deleted(s, t, c)
    else if s.items[v].fd == -1 then t == s
    else t == RefusedDrop(s, v)
  }

  /** The loop's del_event on the entry it has dispatched keeps the invariant if and only if the
      callback has left the entry live or closed. */
  lemma {:induction false} LoopDeletesIff(s: State, v: int, t: State)
    requires Good(s) && Known(s, v) && 0 <= s.count <= |s.links| && (s.count > 0 ==> 0 <= s.links[s.count - 1] < |s.items|)
    requires LoopDeleted(s, v, t)
    ensures Good(t) <==> LiveIn(s, v) || s.items[v].fd == -1
  {
    if LiveIn(s, v) {
      var c :| Cycle(s.items, s.links, s.count, v, c) && Deleted(s, t, c);
      CycleGone(s, v, c, t);
    } else if s.items[v].fd != -1 {
      RefusedCorrupts(s, v);
    }
  }

  /** How a callback gets there: it deletes its own unpaired entry, whose slot the next add_event is
      given; that one is refused, and the callback fails.  Another entry is then no longer live
      although its descriptor is open and registered. */
  lemma {:induction false} SelfDeleteThenRefused(s: State, v: int, fd: int)
    requires Good(s) && s.epoll && LiveIn(s, v) && s.items[v].pair == NIL && s.count >= 2 && fd > 0
    ensures LiveFactsHold(s, v)
    ensures var t := AfterDrop(s, v);
            && 0 <= t.count < |t.links| == |t.pfds| && t.links[t.count] == v && v < |t.items|
            && var u := NotAdded(t, fd);
               && Good(u) && Refused(u, v) && 0 < u.count <= |u.links| && 0 <= u.links[u.count - 1] < |u.items|
               && var a, w := u.links[u.count - 1], RefusedDrop(u, v);
                  LiveIn(u, a) && !LiveIn(w, a) && a in w.watched && w.items[a].fd > 0 && !Good(w)
  {
    SlotLeft(s, v);
    RefusedSteals(AfterDrop(s, v), v, fd);
  }

  /** A deleted entry is the next one to be handed out. */
  lemma {:induction false} SlotLeft(s: State, v: int)
    requires Good(s) && LiveIn(s, v) && s.items[v].pair == NIL
    ensures LiveFactsHold(s, v)
    ensures var t := AfterDrop(s, v);
            Good(t) && !LiveIn(t, v) && t.count == s.count - 1 && 0 <= t.count < |t.links| == |t.pfds| && t.links[t.count] == v && v < |t.items|
  {
    GoodCore(s);
    LiveFacts(s, v);
    DropGood(s, v);
    DeletedHead(s, v);
    var t := AfterDrop(s, v);
    AloneGone(s, v, t);
    assert Holds(ThePolls, t);
  }

  lemma {:induction false} RefusedSteals(t: State, v: int, fd: int)
    requires Good(t) && t.epoll && !LiveIn(t, v) && 0 < t.count < |t.links| == |t.pfds| && t.links[t.count] == v && 0 <= v < |t.items| && fd > 0
    ensures var u := NotAdded(t, fd);
            && Good(u) && Refused(u, v) && 0 < u.count <= |u.links| && 0 <= u.links[u.count - 1] < |u.items|
            && var a, w := u.links[u.count - 1], RefusedDrop(u, v);
               LiveIn(u, a) && !LiveIn(w, a) && a in w.watched && w.items[a].fd > 0 && !Good(w)
  {
    RefusedGood(t, fd);
    var u := NotAdded(t, fd);
    assert !LiveIn(u, v);
    RefusedReady(u, v);
    RefusedCorrupts(u, v);
    assert Holds(TheSlots, u) && Holds(TheWatch, u);
    var a := u.links[u.count - 1];
    assert a in u.watched && a != v;
  }

  lemma {:induction false} AloneGone(s: State, v: int, t: State)
    requires Good(s) && LiveIn(s, v) && s.items[v].pair == NIL && Core(t) && Deleted(s, t, [v])
    ensures Good(t)
  {
    assert Cycle(s.items, s.links, s.count, v, [v]);
    CycleGone(s, v, [v], t);
  }

  // ----- reconnecting -----

  /** When connect_hook puts the connection off (extend.c, line 615). */
  ghost predicate Defers(filtered: bool, buffered: bool, delayConn: bool) { filtered && !buffered && delayConn }

  /** Deleting an entry that another one still names as its pair leaves that one dangling. */
  lemma {:induction false} Dangles(s: State, was: int, v: int, t: State)
    requires LiveIn(s, was) && LiveIn(s, v) && v != was && s.items[v].pair == was && Deleted(s, t, [was])
    ensures LiveIn(t, v) && t.items[v].pair == was && !LiveIn(t, was) && !Good(t)
  {
    assert LiveIn(t, v) && !LiveIn(t, was);
    assert !PairLives(t.items, t.links, t.count, v);
    assert !Holds(ThePairs, t);
  }

  /** The next add_event is then given exactly the entry that is still named, and deleting the client
      deletes the stranger. */
  lemma {:induction false} DanglingReused(s: State, was: int, v: int, fd: int)
    requires Core(s) && LiveIn(s, was) && LiveIn(s, v) && v != was && s.items[v].pair == was && s.items[was].pair == NIL && fd > 0
    ensures LiveFactsHold(s, was)
    ensures var t := AfterDrop(s, was);
            && 0 <= t.count < |t.links| == |t.pfds| && t.links[t.count] == was < |t.items|
            && var u := Added(t, fd);
               LiveIn(u, was) && u.items[was].fd == fd && LiveIn(u, v) && u.items[v].pair == was && Deletable(u, v, [v, was])
  {
    LiveFacts(s, was);
    DropGood(s, was);
    var t := AfterDrop(s, was);
    assert Holds(TheSlots, t) && Holds(ThePolls, t);
    assert t.links[t.count] == was;
    var u := Added(t, fd);
    assert LiveIn(t, v) && t.items[v].pair == was;
    assert u.items[v] == t.items[v];
    assert Step(u.items, [v, was], 1);
  }
}
