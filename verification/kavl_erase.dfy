/** kavl_erase: search with a fake root, unlinking with or without a successor, and the walk
    back up that re-balances. */
module KavlErase {
  import Sequences
  import opened KavlModel
  import opened Kavl

  /** The address of the local `fake` node whose left child is the root. */
  const FAKE: Ptr := -1

  ghost function Fake(): Ctx { In(Frame(FAKE, false, Leaf, 0, 0), Top) }

  /** path[] and dir[] record the fake root and then the path of `c`. */
  ghost predicate Recorded(c: Ctx, path: seq<Ptr>, dir: seq<Dir>) {
    path == [FAKE] + PathOf(c) && dir == [false] + DirsOf(c)
  }

  lemma {:induction false} NotFound(cmp: Ptr -> int, s: seq<Ptr>, cnt: int)
    requires FoundAt(cmp, s, 0, cnt)
    ensures forall n :: n in s ==> cmp(n) != 0
  {
    assert s == s[..cnt] + s[cnt..];
  }

  /** State of the search loop. */
  ghost predicate Seeking(cmp: Ptr -> int, m: Store, t: Tree, c: Ctx, sub: Tree, p: Ptr, cnt: int, path: seq<Ptr>, dir: seq<Dir>) {
    At(cmp, m, t, c, sub, p, cnt) && Recorded(c, path, dir)
  }

  lemma {:induction false} SeekStep(cmp: Ptr -> int, m: Store, t: Tree, c: Ctx, sub: Tree, p: Ptr, cnt: int, path: seq<Ptr>, dir: seq<Dir>)
    requires Seeking(cmp, m, t, c, sub, p, cnt, path, dir) && p != 0 && cmp(p) != 0 && Monotone(cmp, InOrder(t))
    ensures p in m && sub.Bin? && |path| <= Height(t)
    ensures var d := cmp(p) > 0;
            Seeking(cmp, m, t, In(FrameOf(sub, d), c), Sub(sub, d), m[p].Child(d),
                    cnt + (if d then Size(sub.l) + 1 else 0), path + [p], dir + [d])
  {
    SearchStep(cmp, m, t, c, sub, p, cnt);
    CtxDepth(c, sub);
  }

  /** The search loop; `p` is 0 when no node compares equal. */
  method EraseSearch(cmp: Ptr -> int, m: Store, root: Ptr, ghost t: Tree)
    returns (p: Ptr, cnt: int, path: seq<Ptr>, dir: seq<Dir>, ghost c: Ctx, ghost sub: Tree)
    requires Holds(m, t) && root == RootOf(t) && Avl(t) && Size(t) < SIZE_LIMIT && Monotone(cmp, InOrder(t))
    ensures p == 0 ==> cnt == 0 && forall n :: n in InOrder(t) ==> cmp(n) != 0
    ensures p != 0 ==>
              && FoundAt(cmp, InOrder(t), p, cnt) && Plug(c, sub) == t && Recorded(c, path, dir)
              && sub.Bin? && sub.n == p && cnt == |Before(c)| + Size(sub.l) + 1
  {
    AvlDepth(t);
    path, dir, p, cnt, c, sub := [FAKE], [false], root, 0, Top, t;
    while p != 0
      invariant Seeking(cmp, m, t, c, sub, p, cnt, path, dir)
      decreases sub
    {
      NodeFacts(m, sub);
      var r := cmp(p);
      if r == 0 {
        SearchEnd(cmp, m, t, c, sub, p, cnt);
        cnt := cnt + SizeChild(m, p) + 1;
        return;
      }
      var which := r > 0;
      SeekStep(cmp, m, t, c, sub, p, cnt, path, dir);
      if which { cnt := cnt + SizeChild(m, p) + 1; }
      assert |path| < KAVL_MAX_DEPTH;
      dir := dir + [which];
      path := path + [p];
      c, sub := In(FrameOf(sub, which), c), Sub(sub, which);
      p := m[p].Child(which);
    }
    SearchEnd(cmp, m, t, c, sub, p, cnt);
    NotFound(cmp, InOrder(t), cnt);
    cnt := 0;
  }

  /** The search of kavl_erase_first: down the left spine. */
  method EraseFirstSearch(m: Store, root: Ptr, ghost t: Tree)
    returns (p: Ptr, path: seq<Ptr>, dir: seq<Dir>, ghost c: Ctx, ghost sub: Tree)
    requires Holds(m, t) && root == RootOf(t) && Avl(t) && Size(t) < SIZE_LIMIT && root != 0
    ensures Plug(c, sub) == t && sub.Bin? && sub.n == p
    ensures Before(c) == [] && sub.l == Leaf && Recorded(c, path, dir)
  {
    AvlDepth(t);
    path, dir, p, c, sub := [FAKE], [false], root, Top, t;
    while m[p].p0 != 0
      invariant Plug(c, sub) == t && Holds(m, sub) && sub.Bin? && sub.n == p
      invariant Before(c) == [] && Recorded(c, path, dir)
      decreases sub
    {
      CtxDepth(c, sub);
      assert |path| < KAVL_MAX_DEPTH;
      dir := dir + [false];
      path := path + [p];
      p := m[p].p0;
      c, sub := In(FrameOf(sub, false), c), sub.l;
    }
  }

  // ----- the walk back up -----

  /** One round of the re-balancing loop at q: the side `which` below it has lost a level. */
  method EraseStep(m0: Store, q: Ptr, which: Dir, ghost f: Frame, ghost h: Tree)
    returns (m: Store, top: Ptr, rotated: bool, stop: bool, ghost h': Tree)
    requires Holds(m0, Up(f, h)) && q == f.n && which == f.d
    requires Avl(h) && CtxBal(In(f, Top), Height(h) + 1) && CtxSize(In(f, Top), Size(h))
    ensures Holds(m, h') && top == RootOf(h') && (!rotated ==> top == q) && Frame0(m0, m, Ptrs(Up(f, h)))
    ensures Avl(h') && InOrder(h') == InOrder(Up(f, h)) && Ptrs(h') == Ptrs(Up(f, h)) && Size(h') == f.s
    ensures Height(h') == 1 + Max(Height(h) + 1, Height(f.sib)) - (if stop then 0 else 1)
  {
    var b1 := if which then -1 else 1;
    MkHolds(m0, q, which, h, f.sib, f.b, f.s);
    m := m0[q := m0[q].(balance := m0[q].balance + b1)];
    ghost var g := Lighten(f);
    h' := Up(g, h);
    HoldsFrame(m0, m, h);
    HoldsFrame(m0, m, f.sib);
    MkHolds(m, q, which, h, f.sib, g.b, f.s);
    MkFacts(q, which, h, f.sib, g.b, f.s);
    MkFacts(q, which, h, f.sib, f.b, f.s);
    EraseTop(f, h);
    top, rotated, stop := q, false, m[q].balance == b1;
    if m[q].balance == 2 * b1 {
      var r := m[q].Child(!which);
      MkHolds(m, r, which, Sub(f.sib, which), Sub(f.sib, !which), f.sib.b, f.sib.s);
      m, top, stop, h' := EraseRotate(m, q, which, r, b1, h');
      rotated := true;
    }
  }

  method EraseRotate(m0: Store, q: Ptr, which: Dir, r: Ptr, b1: int, ghost u: Tree)
    returns (m: Store, top: Ptr, stop: bool, ghost u': Tree)
    requires Holds(m0, u) && Heavy(u, which) && u.n == q && Sub(u, !which).Bin? && r == Sub(u, !which).n
    requires b1 == Toward(which) && r in m0 && m0[r].balance == Sub(u, !which).b
    ensures Holds(m, u') && top == RootOf(u') && Frame0(m0, m, Ptrs(u))
    ensures Avl(u') && InOrder(u') == InOrder(u) && Ptrs(u') == Ptrs(u) && Size(u') == Size(u)
    ensures Height(u') == Height(u) - (if stop then 0 else 1)
  {
    if m0[r].balance == -b1 {
      Rot2Avl(u, which);
      Rot2Facts(u, which);
      m, top := Rotate2(m0, q, which, u);
      u', stop := Rot2(u, which), false;
    } else {
      stop := m0[r].balance == 0;
      var pb := if stop then b1 else 0;
      Rot1Avl(u, which);
      Rot1Facts(u, which, pb, -pb);
      m, top := RotateOnce(m0, q, which, pb, -pb, u);
      u' := Rot1(u, which, pb, -pb);
    }
  }

  /** State of the loop: memory holds the path `c` below the fake root around `h`, whose height
      is `lost` levels short of what the balance factors above it say. */
  ghost predicate Climbing(m: Store, c: Ctx, h: Tree, lost: nat) {
    && Holds(m, Plug(Join(c, Fake()), h)) && Avl(h)
    && CtxBal(c, Height(h) + lost) && CtxSize(c, Size(h))
  }

  /** How far the loop has come from its start. */
  ghost predicate Climbed(m0: Store, c0: Ctx, h0: Tree, m: Store, c: Ctx, h: Tree) {
    && InOrder(Plug(c, h)) == InOrder(Plug(c0, h0))
    && Ptrs(Plug(Join(c, Fake()), h)) == Ptrs(Plug(Join(c0, Fake()), h0))
    && Frame0(m0, m, Ptrs(Plug(Join(c0, Fake()), h0)))
  }

  lemma {:induction false} JoinedParent(c: Ctx)
    ensures Join(c, Fake()).In?
    ensures Join(c, Fake()).f.n == (if c.Top? then FAKE else c.f.n)
    ensures Join(c, Fake()).f.d == (if c.Top? then false else c.f.d)
  {
  }

  /** The subtree at the hole was rebuilt on the same nodes, and its parent points to it. */
  lemma {:induction false} Reattach(m1: Store, m2: Store, m: Store, c: Ctx, u: Tree, u': Tree)
    requires c.In? && Holds(m1, Plug(c, u)) && Holds(m2, u') && Ptrs(u') == Ptrs(u) && Frame0(m1, m2, Ptrs(u))
    requires c.f.n in m2
    requires m == m2[c.f.n := m2[c.f.n].SetChild(c.f.d, RootOf(u'))] || (m == m2 && RootOf(u') == RootOf(u))
    ensures Holds(m, Plug(c, u')) && Ptrs(Plug(c, u')) == Ptrs(Plug(c, u)) && Frame0(m1, m, Ptrs(Plug(c, u)))
  {
    ParentFacts(m1, c, u);
    PlugPtrs(c, u);
    PtrsOfPlug(c, u);
    PtrsOfPlug(c, u');
    HoldsFrame(m2, m, u');
    Relink(m1, m, c, u, u');
  }

  lemma {:induction false} ClimbFrame(c: Ctx, h: Tree)
    requires c.In? && CtxBal(c, Height(h) + 1) && CtxSize(c, Size(h))
    ensures CtxBal(In(c.f, Top), Height(h) + 1) && CtxSize(In(c.f, Top), Size(h))
    ensures CtxBal(c.up, 1 + Max(Height(h) + 1, Height(c.f.sib))) && CtxSize(c.up, c.f.s)
  {
  }

  /** One round of the loop. */
  method ClimbRound(m1: Store, q: Ptr, which: Dir, parent: Ptr, side: Dir, ghost c: Ctx, ghost h: Tree)
    returns (m: Store, stop: bool, ghost h': Tree)
    requires Climbing(m1, c, h, 1) && c.In? && q == c.f.n && which == c.f.d
    requires parent == Join(c.up, Fake()).f.n && side == Join(c.up, Fake()).f.d
    ensures Climbing(m, c.up, h', if stop then 0 else 1)
    ensures Climbed(m1, c, h, m, c.up, h')
  {
    ghost var J, u := Join(c.up, Fake()), Up(c.f, h);
    ClimbFrame(c, h);
    m, stop, h' := RebuildAbove(m1, q, which, parent, side, c.f, J, h);
    SameOrder(c.up, u, h');
  }

  /** Rebuilds the node q over `h` and hangs the result below its parent. */
  method RebuildAbove(m1: Store, q: Ptr, which: Dir, parent: Ptr, side: Dir, ghost f: Frame, ghost J: Ctx, ghost h: Tree)
    returns (m: Store, stop: bool, ghost h': Tree)
    requires J.In? && Holds(m1, Plug(J, Up(f, h))) && q == f.n && which == f.d && parent == J.f.n && side == J.f.d
    requires Avl(h) && CtxBal(In(f, Top), Height(h) + 1) && CtxSize(In(f, Top), Size(h))
    ensures Holds(m, Plug(J, h')) && Ptrs(Plug(J, h')) == Ptrs(Plug(J, Up(f, h)))
    ensures Frame0(m1, m, Ptrs(Plug(J, Up(f, h))))
    ensures Avl(h') && InOrder(h') == InOrder(Up(f, h)) && Size(h') == f.s
    ensures Height(h') == 1 + Max(Height(h) + 1, Height(f.sib)) - (if stop then 0 else 1)
  {
    ghost var u := Up(f, h);
    PlugHoldsHole(m1, J, u);
    ParentFacts(m1, J, u);
    var top, rotated;
    m, top, rotated, stop, h' := EraseStep(m1, q, which, f, h);
    ghost var m2 := m;
    if rotated {
      m := m[parent := m[parent].SetChild(side, top)];
    }
    Reattach(m1, m2, m, J, u, h');
  }

  lemma {:induction false} SameOrder(c: Ctx, t: Tree, t': Tree)
    requires InOrder(t') == InOrder(t)
    ensures InOrder(Plug(c, t')) == InOrder(Plug(c, t))
  {
    PlugInOrder(c, t);
    PlugInOrder(c, t');
  }

  lemma {:induction false} ClimbDone(m: Store, c: Ctx, h: Tree, lost: nat)
    requires Climbing(m, c, h, lost) && (lost == 0 || c.Top?)
    ensures var t := Plug(c, h);
            && Avl(t) && Holds(m, t) && FAKE in m && m[FAKE].p0 == RootOf(t) && FAKE !in Ptrs(t)
  {
    PlugJoin(c, Fake(), h);
    PlugHoldsHole(m, Fake(), Plug(c, h));
    ParentFacts(m, Fake(), Plug(c, h));
    PlugAvl(c, h);
  }

  /** The way back up the path: rebalances until a subtree has kept its height. */
  method Climb(m0: Store, path: seq<Ptr>, dir: seq<Dir>, ghost c0: Ctx, ghost h0: Tree)
    returns (m: Store, ghost t: Tree)
    requires Climbing(m0, c0, h0, 1) && Recorded(c0, path, dir)
    ensures Avl(t) && Holds(m, t) && FAKE in m && m[FAKE].p0 == RootOf(t) && FAKE !in Ptrs(t)
    ensures InOrder(t) == InOrder(Plug(c0, h0)) && Frame0(m0, m, Ptrs(Plug(Join(c0, Fake()), h0)))
  {
    m := m0;
    var d := |path| - 1;
    ghost var c, h, lost := c0, h0, 1;
    while d > 0
      invariant 0 <= d == Depth(c) < |path| == |dir| && Climbing(m, c, h, 1) && lost == 1
      invariant Recorded(c, path[..d + 1], dir[..d + 1]) && Climbed(m0, c0, h0, m, c, h)
    {
      var stop;
      RecordedTop(c, path[..d + 1], dir[..d + 1]);
      assert path[..d] == path[..d + 1][..d] && dir[..d] == dir[..d + 1][..d];
      m, stop, h := ClimbRound(m, path[d], dir[d], path[d - 1], dir[d - 1], c, h);
      c, lost := c.up, if stop then 0 else 1;
      d := d - 1;
      if stop { break; }
    }
    ClimbDone(m, c, h, lost);
    t := Plug(c, h);
  }

  lemma {:induction false} RecordedTop(c: Ctx, path: seq<Ptr>, dir: seq<Dir>)
    requires c.In? && Recorded(c, path, dir)
    ensures var d := Depth(c);
            && d > 0 && |path| == |dir| == d + 1 && path[d] == c.f.n && dir[d] == c.f.d
            && path[d - 1] == Join(c.up, Fake()).f.n && dir[d - 1] == Join(c.up, Fake()).f.d
            && Recorded(c.up, path[..d], dir[..d])
  {
    assert path == ([FAKE] + PathOf(c.up)) + [c.f.n] && dir == ([false] + DirsOf(c.up)) + [c.f.d];
    if c.up.In? {
      assert PathOf(c.up) == PathOf(c.up.up) + [c.up.f.n] && DirsOf(c.up) == DirsOf(c.up.up) + [c.up.f.d];
    }
  }

  // ----- unlinking -----

  /** Every node on the path below the fake root counts one node less. */
  method DropSizes(m0: Store, path: seq<Ptr>, ghost dir: seq<Dir>, ghost c: Ctx, ghost t: Tree) returns (m: Store)
    requires Holds(m0, Plug(Join(c, Fake()), t)) && Recorded(c, path, dir)
    ensures Holds(m, Plug(Join(BumpAll(c, -1), Fake()), t))
    ensures Ptrs(Plug(Join(BumpAll(c, -1), Fake()), t)) == Ptrs(Plug(Join(c, Fake()), t))
    ensures Frame0(m0, m, Ptrs(Plug(Join(c, Fake()), t)))
  {
    ghost var c1 := BumpAll(c, -1);
    PlugJoin(c, Fake(), t);
    PlugJoin(c1, Fake(), t);
    PlugHoldsHole(m0, Fake(), Plug(c, t));
    PtrsOfPlug(Fake(), Plug(c, t));
    PtrsOfPlug(Fake(), Plug(c1, t));
    assert path[1..] == PathOf(c);
    m := ResizePath(m0, path[1..], -1, c, t);
    Replug(m0, m, Fake(), Plug(c, t), Plug(c1, t));
  }

  /** The loop that looks for the successor: the leftmost node r below q, its parent q, and the
      nodes from the right child down to that parent. */
  method FindSuccessor(m: Store, q0: Ptr, ghost have: nat, ghost t: Tree)
    returns (r: Ptr, q: Ptr, nodes: seq<Ptr>, ghost cc: Ctx, ghost s: Tree)
    requires Holds(m, t) && t.Bin? && t.n == q0 && t.l.Bin? && have + Height(t) <= KAVL_MAX_DEPTH
    ensures t == Plug(cc, s) && s.Bin? && s.l == Leaf && s.n == r && LeftSpine(cc)
    ensures cc.In? && cc.f.n == q && nodes == PathOf(cc)
  {
    q, nodes, cc, s := q0, [], Top, t;
    while true
      invariant t == Plug(cc, s) && Holds(m, s) && s.Bin? && s.n == q && s.l.Bin?
      invariant LeftSpine(cc) && nodes == PathOf(cc)
      decreases s
    {
      CtxDepth(cc, s);
      assert have + |nodes| < KAVL_MAX_DEPTH;
      nodes := nodes + [q];
      cc := In(FrameOf(s, false), cc);
      s := s.l;
      r := m[q].p0;
      NullRoot(m, s.l);
      if m[r].p0 == 0 { break; }
      q := r;
    }
  }

  lemma {:induction false} SpineDirs(cc: Ctx)
    requires LeftSpine(cc)
    ensures DirsOf(cc) == seq(Depth(cc), _ => false)
  {
    if cc.In? { SpineDirs(cc.up); }
  }

  /** The path recorded once the successor has moved up. */
  lemma {:induction false} SuccRecorded(c: Ctx, t: Tree, cc: Ctx, s: Tree, path: seq<Ptr>, dir: seq<Dir>)
    requires Recorded(c, path, dir) && Successor(t, cc, s)
    ensures Recorded(SuccPath(c, t, cc, s), path + ([s.n] + PathOf(cc)), dir + ([true] + seq(Depth(cc), _ => false)))
  {
    var f := SuccFrame(t, s);
    PathJoin(BumpAll(cc, -1), In(f, BumpAll(c, -1)));
    BumpPath(cc, -1);
    BumpPath(c, -1);
    SpineDirs(cc);
    var p1, d1 := PathOf(In(f, BumpAll(c, -1))), DirsOf(In(f, BumpAll(c, -1)));
    assert p1 == PathOf(c) + [s.n] && d1 == DirsOf(c) + [true];
    assert [FAKE] + ((PathOf(c) + [s.n]) + PathOf(cc)) == ([FAKE] + PathOf(c)) + ([s.n] + PathOf(cc));
    assert [false] + ((DirsOf(c) + [true]) + DirsOf(cc)) == ([false] + DirsOf(c)) + ([true] + DirsOf(cc));
  }

  /** The right subtree without its leftmost node, after the parent q of that node was pointed
      to what was below it and the sizes on the way were dropped. */
  method TakeOut(m0: Store, nodes: seq<Ptr>, q: Ptr, r: Ptr, ghost cc: Ctx, ghost s: Tree) returns (m: Store)
    requires Holds(m0, Plug(cc, s)) && s.Bin? && s.l == Leaf && s.n == r && LeftSpine(cc)
    requires cc.In? && cc.f.n == q && nodes == PathOf(cc)
    ensures Holds(m, Plug(BumpAll(cc, -1), s.r)) && RootOf(Plug(BumpAll(cc, -1), s.r)) == RootOf(Plug(cc, s))
    ensures Ptrs(Plug(BumpAll(cc, -1), s.r)) == Ptrs(Plug(cc, s)) - {r}
    ensures Frame0(m0, m, Ptrs(Plug(cc, s)) - {r})
  {
    ParentFacts(m0, cc, s);
    PlugHoldsHole(m0, cc, s);
    PtrsOfPlug(cc, s);
    PtrsOfPlug(cc, s.r);
    RDisjoint(m0, cc, s);
    m := m0[q := m0[q].SetChild(false, m0[r].p1)];
    HoldsFrame(m0, m, s.r);
    Relink(m0, m, cc, s, s.r);
    SameRoot(cc, s, s.r);
    m := ResizePath(m, nodes, -1, cc, s.r);
  }

  lemma {:induction false} RDisjoint(m: Store, c: Ctx, t: Tree)
    requires Holds(m, Plug(c, t))
    ensures CtxPtrs(c) !! Ptrs(t)
  {
    if c.In? {
      RDisjoint(m, c.up, Up(c.f, t));
      ParentFacts(m, c, t);
      MkFacts(c.f.n, c.f.d, t, c.f.sib, c.f.b, c.f.s);
    }
  }

  /** What unlinking leaves behind: a path with a hole one level short and no erased node. */
  ghost predicate Unlinked(m0: Store, m: Store, c: Ctx, t: Tree, c2: Ctx, h: Tree) {
    && t.Bin? && Climbing(m, c2, h, 1)
    && InOrder(Plug(c2, h)) == Before(c) + (InOrder(t.l) + InOrder(t.r)) + After(c)
    && Ptrs(Plug(Join(c2, Fake()), h)) <= Ptrs(Plug(Join(c, Fake()), t))
    && Frame0(m0, m, Ptrs(Plug(Join(c, Fake()), t)))
  }

  /** The erased node has no right child: its left child takes its place. */
  method UnlinkSimple(m0: Store, p: Ptr, parent: Ptr, side: Dir, ghost c: Ctx, ghost t: Tree) returns (m: Store)
    requires Holds(m0, Plug(Join(BumpAll(c, -1), Fake()), t)) && t.Bin? && t.n == p && t.r == Leaf && Avl(Plug(c, t))
    requires parent == Join(BumpAll(c, -1), Fake()).f.n && side == Join(BumpAll(c, -1), Fake()).f.d
    ensures Climbing(m, BumpAll(c, -1), t.l, 1)
    ensures Ptrs(Plug(Join(BumpAll(c, -1), Fake()), t.l)) <= Ptrs(Plug(Join(BumpAll(c, -1), Fake()), t))
    ensures Frame0(m0, m, Ptrs(Plug(Join(BumpAll(c, -1), Fake()), t)))
  {
    ghost var J := Join(BumpAll(c, -1), Fake());
    JoinedParent(BumpAll(c, -1));
    ParentFacts(m0, J, t);
    PlugHoldsHole(m0, J, t);
    PtrsOfPlug(J, t);
    PtrsOfPlug(J, t.l);
    m := m0[parent := m0[parent].SetChild(side, m0[p].p0)];
    HoldsFrame(m0, m, t.l);
    Relink(m0, m, J, t, t.l);
    NoSuccessorBalance(c, t);
  }

  /** The successor r, already taken out of the right subtree (memory m1), takes the place of p. */
  method PutUp(m0: Store, m1: Store, p: Ptr, r: Ptr, right: Ptr, parent: Ptr, side: Dir,
               ghost J: Ctx, ghost t: Tree, ghost v: Tree)
    returns (m: Store)
    requires Holds(m0, Plug(J, t)) && t.Bin? && t.n == p && J.In? && parent == J.f.n && side == J.f.d
    requires Holds(m1, v) && RootOf(v) == right && r in Ptrs(t.r) && Ptrs(v) == Ptrs(t.r) - {r}
    requires Frame0(m0, m1, Ptrs(t.r) - {r}) && r != 0 && r in m0
    ensures Holds(m, Plug(J, Mk(r, true, v, t.l, t.b, t.s - 1)))
    ensures Ptrs(Plug(J, Mk(r, true, v, t.l, t.b, t.s - 1))) <= Ptrs(Plug(J, t))
    ensures Frame0(m0, m, Ptrs(Plug(J, t)))
  {
    ghost var w := Mk(r, true, v, t.l, t.b, t.s - 1);
    ParentFacts(m0, J, t);
    PlugHoldsHole(m0, J, t);
    PtrsOfPlug(J, t);
    PtrsOfPlug(J, w);
    m := m1[r := Cell(m1[p].p0, right, m1[p].balance, m1[p].size - 1)];
    m := m[parent := m[parent].SetChild(side, r)];
    HoldsFrame(m0, m, t.l);
    HoldsFrame(m1, m, v);
    MkHolds(m, r, true, v, t.l, t.b, t.s - 1);
    Relink(m0, m, J, t, w);
  }

  /** The erased node has a right child: its successor takes its place. */
  method UnlinkDeep(m0: Store, p: Ptr, path0: seq<Ptr>, dir0: seq<Dir>, ghost c: Ctx, ghost t: Tree)
    returns (m: Store, path: seq<Ptr>, dir: seq<Dir>, ghost cc: Ctx, ghost s: Tree)
    requires Holds(m0, Plug(Join(BumpAll(c, -1), Fake()), t)) && t.Bin? && t.n == p && t.r.Bin?
    requires Recorded(c, path0, dir0) && |path0| + 1 + Height(t.r) <= KAVL_MAX_DEPTH
    ensures Successor(t, cc, s) && Recorded(SuccPath(c, t, cc, s), path, dir)
    ensures Holds(m, Plug(Join(SuccPath(c, t, cc, s), Fake()), s.r))
    ensures var J := Join(BumpAll(c, -1), Fake());
            && Ptrs(Plug(Join(SuccPath(c, t, cc, s), Fake()), s.r)) <= Ptrs(Plug(J, t))
            && Frame0(m0, m, Ptrs(Plug(J, t)))
  {
    ghost var J := Join(BumpAll(c, -1), Fake());
    PlugHoldsHole(m0, J, t);
    RecordedParent(c, path0, dir0);
    var d := |path0|;
    var parent, side := path0[d - 1], dir0[d - 1];
    var q := m0[p].p1;
    ghost var right := t.r;
    assert Holds(m0, right);
    NullRoot(m0, right.l);
    if m0[q].p0 == 0 {
      cc, s := Top, t.r;
      path, dir := path0 + ([q] + []), dir0 + ([true] + []);
      assert Plug(BumpAll(cc, -1), s.r) == s.r;
      m := PutUp(m0, m0, p, q, m0[q].p1, parent, side, J, t, s.r);
      assert seq(0, _ => false) == [];
    } else {
      var r, qq, nodes;
      r, qq, nodes, cc, s := FindSuccessor(m0, q, d + 1, t.r);
      PlugPtrs(cc, s);
      PlugHoldsHole(m0, cc, s);
      m := TakeOut(m0, nodes, qq, r, cc, s);
      m := PutUp(m0, m, p, r, q, parent, side, J, t, Plug(BumpAll(cc, -1), s.r));
      path, dir := path0 + ([r] + nodes), dir0 + ([true] + seq(|nodes|, _ => false));
    }
    SuccRecorded(c, t, cc, s, path0, dir0);
    SuccPlug(c, t, cc, s);
  }

  lemma {:induction false} RecordedParent(c: Ctx, path: seq<Ptr>, dir: seq<Dir>)
    requires Recorded(c, path, dir)
    ensures var J, d := Join(BumpAll(c, -1), Fake()), |path|;
            d == |dir| > 0 && J.In? && path[d - 1] == J.f.n && dir[d - 1] == J.f.d
  {
    JoinedParent(BumpAll(c, -1));
    if c.In? { assert PathOf(c) == PathOf(c.up) + [c.f.n] && DirsOf(c) == DirsOf(c.up) + [c.f.d]; }
  }

  lemma {:induction false} SuccPlug(c: Ctx, t: Tree, cc: Ctx, s: Tree)
    requires Successor(t, cc, s)
    ensures var v := Plug(BumpAll(cc, -1), s.r);
            Plug(Join(SuccPath(c, t, cc, s), Fake()), s.r) ==
            Plug(Join(BumpAll(c, -1), Fake()), Mk(s.n, true, v, t.l, t.b, t.s - 1))
  {
    var f, c1, cc1 := SuccFrame(t, s), BumpAll(c, -1), BumpAll(cc, -1);
    PlugJoin(SuccPath(c, t, cc, s), Fake(), s.r);
    PlugJoin(cc1, In(f, c1), s.r);
    PlugJoin(c1, Fake(), Up(f, Plug(cc1, s.r)));
  }

  /** Unlinks the root p of `t` from the tree and records the path from which to climb. */
  method Unlink(m0: Store, p: Ptr, path0: seq<Ptr>, dir0: seq<Dir>, ghost c: Ctx, ghost t: Tree)
    returns (m: Store, path: seq<Ptr>, dir: seq<Dir>, ghost c2: Ctx, ghost h: Tree)
    requires Holds(m0, Plug(Join(c, Fake()), t)) && t.Bin? && t.n == p && Avl(Plug(c, t))
    requires Recorded(c, path0, dir0) && Height(Plug(c, t)) <= 45
    ensures Unlinked(m0, m, c, t, c2, h) && Recorded(c2, path, dir)
  {
    m := DropSizes(m0, path0, dir0, c, t);
    RecordedParent(c, path0, dir0);
    CtxDepth(c, t);
    PlugHoldsHole(m, Join(BumpAll(c, -1), Fake()), t);
    if m[p].p1 == 0 {
      c2, h, path, dir := BumpAll(c, -1), t.l, path0, dir0;
      m := UnlinkSimple(m, p, path[|path| - 1], dir[|dir| - 1], c, t);
      NoSuccessorOrder(c, t);
      BumpPath(c, -1);
    } else {
      ghost var cc, s;
      m, path, dir, cc, s := UnlinkDeep(m, p, path0, dir0, c, t);
      c2, h := SuccPath(c, t, cc, s), s.r;
      SuccessorBalance(c, t, cc, s);
      SuccessorOrder(c, t, cc, s);
    }
  }

  // ----- erase -----

  lemma {:induction false} HoldsDistinct(m: Store, t: Tree)
    requires Holds(m, t)
    ensures Sequences.Distinct(InOrder(t))
  {
    if t.Bin? {
      HoldsDistinct(m, t.l);
      HoldsDistinct(m, t.r);
      InOrderFacts(t.l);
      InOrderFacts(t.r);
      var l, r := InOrder(t.l), InOrder(t.r);
      assert forall i :: 0 <= i < |l| ==> l[i] in Ptrs(t.l);
      assert forall i :: 0 <= i < |r| ==> r[i] in Ptrs(t.r);
    }
  }

  /** The common part of both forms of erasure: p, at place `k` in order, leaves the tree. */
  method EraseAt(m0: Store, root0: Ptr, p: Ptr, path0: seq<Ptr>, dir0: seq<Dir>, ghost c: Ctx, ghost t: Tree)
    returns (m: Store, root: Ptr, ghost t': Tree)
    requires Holds(m0, Plug(c, t)) && root0 == RootOf(Plug(c, t)) && Avl(Plug(c, t)) && Size(Plug(c, t)) < SIZE_LIMIT
    requires FAKE !in m0 && t.Bin? && t.n == p && Recorded(c, path0, dir0)
    ensures Holds(m, t') && root == RootOf(t') && Avl(t') && Frame0(m0, m, Ptrs(Plug(c, t)))
    ensures InOrder(t') == Before(c) + (InOrder(t.l) + InOrder(t.r)) + After(c)
  {
    ghost var all := Plug(c, t);
    AvlDepth(all);
    InStore(m0, all);
    m := m0[FAKE := Cell(root0, 0, 0, 0)];
    HoldsFrame(m0, m, all);
    MkHolds(m, FAKE, false, all, Leaf, 0, 0);
    PlugJoin(c, Fake(), t);
    PtrsOfPlug(Fake(), all);
    var path, dir;
    ghost var c2, h, m1 := Top, Leaf, m;
    m, path, dir, c2, h := Unlink(m, p, path0, dir0, c, t);
    m, t' := Climb(m, path, dir, c2, h);
    root := m[FAKE].p0;
    ghost var m2 := m;
    m := map n | n in m && n != FAKE :: m[n];
    HoldsFrame(m2, m, t');
  }

  lemma {:induction false} InStore(m: Store, t: Tree)
    requires Holds(m, t)
    ensures Ptrs(t) <= m.Keys && 0 !in Ptrs(t)
  {
    if t.Bin? {
      InStore(m, t.l);
      InStore(m, t.r);
    }
  }

  /** kavl_erase: the node found by the search leaves the tree; all others keep their order, and
      the tree stays AVL with exact fields.  `cnt` is its place in order. */
  method Erase(cmp: Ptr -> int, m0: Store, root0: Ptr, ghost t: Tree)
    returns (m: Store, root: Ptr, p: Ptr, cnt: int, ghost t': Tree)
    requires Holds(m0, t) && root0 == RootOf(t) && Avl(t) && Size(t) < SIZE_LIMIT && FAKE !in m0
    requires Monotone(cmp, InOrder(t))
    ensures Holds(m, t') && root == RootOf(t') && Avl(t') && Frame0(m0, m, Ptrs(t))
    ensures p == 0 ==> cnt == 0 && m == m0 && t' == t && forall n :: n in InOrder(t) ==> cmp(n) != 0
    ensures p != 0 ==> FoundAt(cmp, InOrder(t), p, cnt) && InOrder(t') == InOrder(t)[..cnt - 1] + InOrder(t)[cnt..]
  {
    var path, dir;
    ghost var c, sub;
    m, root, t' := m0, root0, t;
    p, cnt, path, dir, c, sub := EraseSearch(cmp, m0, root0, t);
    if p == 0 { return; }
    PlugHoldsHole(m0, c, sub);
    m, root, t' := EraseAt(m0, root0, p, path, dir, c, sub);
    ErasedOrder(c, sub, cnt);
  }

  lemma {:induction false} ErasedOrder(c: Ctx, t: Tree, cnt: int)
    requires t.Bin? && cnt == |Before(c)| + Size(t.l) + 1
    ensures var s := InOrder(Plug(c, t));
            && 0 < cnt <= |s| && s[cnt - 1] == t.n
            && Before(c) + (InOrder(t.l) + InOrder(t.r)) + After(c) == s[..cnt - 1] + s[cnt..]
  {
    PlugInOrder(c, t);
    InOrderFacts(t.l);
    SplitAt(Before(c), InOrder(t.l), t.n, InOrder(t.r), After(c));
  }

  lemma {:induction false} SplitAt(a: seq<Ptr>, l: seq<Ptr>, n: Ptr, r: seq<Ptr>, b: seq<Ptr>)
    ensures var s, k := a + (l + [n] + r) + b, |a| + |l|;
            s[k] == n && s[..k] + s[k + 1..] == a + (l + r) + b
  {
    var s, k := a + (l + [n] + r) + b, |a| + |l|;
    assert s[..k] == a + l && s[k + 1..] == r + b;
  }

  /** kavl_erase_first: the first node in order leaves the tree. */
  method EraseFirst(m0: Store, root0: Ptr, ghost t: Tree) returns (m: Store, root: Ptr, p: Ptr, ghost t': Tree)
    requires Holds(m0, t) && root0 == RootOf(t) && Avl(t) && Size(t) < SIZE_LIMIT && FAKE !in m0 && root0 != 0
    ensures Holds(m, t') && root == RootOf(t') && Avl(t') && Frame0(m0, m, Ptrs(t))
    ensures InOrder(t) == [p] + InOrder(t')
  {
    var path, dir;
    ghost var c, sub;
    p, path, dir, c, sub := EraseFirstSearch(m0, root0, t);
    m, root, t' := EraseAt(m0, root0, p, path, dir, c, sub);
    FirstOrder(c, sub);
  }

  lemma {:induction false} FirstOrder(c: Ctx, t: Tree)
    requires t.Bin? && t.l == Leaf && Before(c) == []
    ensures InOrder(Plug(c, t)) == [t.n] + (Before(c) + (InOrder(t.l) + InOrder(t.r)) + After(c))
  {
    PlugInOrder(c, t);
    assert InOrder(t) == [t.n] + InOrder(t.r) && InOrder(t.l) == [];
  }
}
