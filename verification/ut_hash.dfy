/** uthash (uthash.h) as an object: adding with expansion and out-of-memory rollback, finding and
    deleting, each proved against the finite map the table stands for. */
module UtHash {
  import opened Sequences
  import opened LinkedLists
  import opened UtChains
  import opened UtTable

  const INITIAL_BUCKETS := 32
  const BKT_CAPACITY := 10

  class HashTable {
    const hash: Key -> nat
    var elems: map<int, Elem>
    var app: map<int, Link>
    var head: int
    var tail: int
    var hh: map<int, Link>
    var buckets: seq<Bucket>
    var items: int
    var noexpand: bool
    var ineff: nat
    ghost var order: seq<int>
    ghost var chains: seq<seq<int>>

    ghost function Now(): Tab reads this {
      Tab(hash, elems, app, head, tail, hh, buckets, items, noexpand, ineff, order, chains)
    }

    ghost predicate Valid() reads this { Good(Now()) }

    ghost function Dict(): set<Entry> reads this { Entries(Now()) }

    constructor (hash: Key -> nat)
      ensures Valid() && Dict() == {} && order == []
    {
      this.hash := hash;
      elems, app, head, tail, hh, buckets, items, noexpand, ineff := map[], map[], NIL, NIL, map[], [], 0, false, 0;
      order, chains := [], [];
    }

    /** HASH_FIND: the one element with the key, or null if there is none. */
    method Find(key: Key) returns (p: int)
      requires Valid()
      ensures p != NIL ==> Entry(key, p) in Dict() && forall q :: Entry(key, q) in Dict() ==> q == p
      ensures p == NIL ==> forall q :: Entry(key, q) !in Dict()
    {
      if head == NIL { return NIL; }
      ghost var t := Now();
      FindReady(t, key);
      var b := ToBkt(hash(key), |buckets|);
      ghost var chain, k := chains[b], 0;
      p := buckets[b].head;
      ChainMembers(hh, buckets[b], chain);
      while p != NIL
        invariant 0 <= k <= |chain| && p == At(chain, k)
        invariant forall i :: 0 <= i < k ==> chain[i] in elems && elems[chain[i]].key != key
        decreases |chain| - k
      {
        assert Linked(hh, chain, k) && chain[k] in chain;
        if elems[p].hashv == hash(key) && elems[p].key == key {
          FoundOne(t, key, p, b);
          return;
        }
        FoundOther(t, p, b);
        p := hh[p].next;
        k := k + 1;
      }
      FoundNone(t, key, b);
    }

    /** HASH_MAKE_TABLE for the first element. */
    method MakeTable(p: int, ghost t: Tab, ghost key: Key)
      requires Now() == t.(elems := t.elems[p := Elem(key, t.hash(key))], app := t.app[p := Link(NIL, NIL)])
      modifies this`head, this`tail, this`buckets, this`items, this`noexpand, this`ineff, this`order, this`chains
      ensures Now() == Fresh(t, p, key, INITIAL_BUCKETS)
    {
      tail, items, noexpand, ineff := p, 0, false, 0;
      buckets := NoBuckets(INITIAL_BUCKETS);
      head := p;
      order, chains := [p], NoChains(INITIAL_BUCKETS);
    }

    /** HASH_APPEND_LIST */
    method AppendList(p: int, ghost t: Tab, ghost key: Key)
      requires Now() == t.(elems := t.elems[p := Elem(key, t.hash(key))]) && tail in app && tail != p
      modifies this`app, this`tail, this`order
      ensures Now() == Appended(t, p, key)
    {
      app := app[p := Link(tail, NIL)];
      app := app[tail := app[tail].(next := p)];
      tail := p;
      order := order + [p];
      assert app == t.app[t.tail := t.app[t.tail].(next := p)][p := Link(t.tail, NIL)];
    }

    /** The linking part of HASH_ADD_TO_BKT. */
    method PushBucket(p: int, b: nat)
      requires |buckets| == |chains| > 0 && p in elems && b == ToBkt(elems[p].hashv, |buckets|)
      requires (buckets[b].head == NIL || buckets[b].head in hh) && buckets[b].head != p
      modifies this`hh, this`buckets, this`chains
      ensures Now() == Pushed(old(Now()), p).(items := items)
    {
      var bkt := buckets[b];
      hh := hh[p := Link(NIL, bkt.head)];
      if bkt.head != NIL { hh := hh[bkt.head := hh[bkt.head].(prev := p)]; }
      buckets := buckets[b := Bucket(p, bkt.count + 1, bkt.mult)];
      chains := chains[b := [p] + chains[b]];
    }

    /** HASH_DEL_IN_BKT */
    method DelInBkt(b: nat, p: int)
      requires b < |buckets| && DelOk(hh, p)
      modifies this`hh, this`buckets
      ensures hh == AfterDel(old(hh), p)
      ensures buckets == old(buckets)[b := old(buckets)[b].(head := if old(buckets)[b].head == p then old(hh)[p].next else old(buckets)[b].head, count := old(buckets)[b].count - 1)]
    {
      var a := hh[p];
      buckets := buckets[b := buckets[b].(count := buckets[b].count - 1)];
      if buckets[b].head == p { buckets := buckets[b := buckets[b].(head := a.next)]; }
      if a.prev != NIL { hh := hh[a.prev := hh[a.prev].(next := a.next)]; }
      if a.next != NIL { hh := hh[a.next := hh[a.next].(prev := a.prev)]; }
    }

    /** HASH_DELETE_HH of an element that is not alone: out of the insertion order, out of its
        bucket, one item less. */
    method Unhook(p: int)
      requires |buckets| > 0 && p in elems && DelOk(app, p) && DelOk(hh, p)
      modifies this`app, this`head, this`tail, this`hh, this`buckets, this`items
      ensures app == AfterDel(old(app), p) && hh == AfterDel(old(hh), p) && items == old(items) - 1
      ensures head == (if old(app)[p].prev == NIL then old(app)[p].next else old(head))
      ensures tail == (if p == old(tail) then old(app)[p].prev else old(tail))
      ensures var b, bs := ToBkt(elems[p].hashv, |old(buckets)|), old(buckets);
              buckets == bs[b := bs[b].(head := if bs[b].head == p then old(hh)[p].next else bs[b].head, count := bs[b].count - 1)]
    {
      var a := app[p];
      if p == tail { tail := a.prev; }
      if a.prev != NIL { app := app[a.prev := app[a.prev].(next := a.next)]; } else { head := a.next; }
      if a.next != NIL { app := app[a.next := app[a.next].(prev := a.prev)]; }
      DelInBkt(ToBkt(elems[p].hashv, |buckets|), p);
      items := items - 1;
    }

    /** HASH_DELETE: exactly the element goes; the last one takes the table with it. */
    method Delete(p: int) returns (ghost k: int)
      requires Valid() && p in order
      modifies this
      ensures Valid() && p !in order && (head == NIL <==> |old(order)| == 1)
      ensures 0 <= k < |old(order)| && old(order)[k] == p && order == old(order)[..k] + old(order)[k + 1..]
      ensures p in elems && Dict() == old(Dict()) - {Entry(elems[p].key, p)}
    {
      ghost var t := Now();
      ghost var j;
      k, j := DelPlace(t, p);
      if app[p].prev == NIL && app[p].next == NIL {
        head, buckets := NIL, [];
        order, chains := [], [];
        LastGone(t, p);
        return;
      }
      DelGood(t, k, j);
      Unhook(p);
      ghost var b := ToBkt(elems[p].hashv, |t.buckets|);
      order := order[..k] + order[k + 1..];
      chains := chains[b := chains[b][..j] + chains[b][j + 1..]];
      assert Now() == Deleted(t, k, j);
    }

    /** HASH_ADD_KEYPTR of an element with a new key; `table` and `more` say whether memory for a
        table and for more buckets can be had.  Out of memory the table is as before. */
    method Add(p: int, key: Key, table: bool, more: bool) returns (oomed: bool)
      requires Valid() && p >= 0 && p !in order && forall q :: Entry(key, q) !in Dict()
      modifies this
      ensures Valid() && p in elems && elems[p] == Elem(key, hash(key))
      ensures oomed ==> order == old(order) && chains == old(chains) && buckets == old(buckets) && items == old(items) && Dict() == old(Dict())
      ensures !oomed ==> order == old(order) + [p] && Dict() == old(Dict()) + {Entry(key, p)}
      ensures if old(head) == NIL then oomed <==> !table else oomed ==> !more
    {
      ghost var t := Now();
      NewKey(t, p, key);
      oomed := Enlist(p, key, table);
      ghost var u := Now();
      if oomed {
        SameEntries(t, u, p, Elem(key, hash(key)));
        return;
      }
      oomed := AddToTable(p, more);
      AddedEntries(t, u, Now(), p, key, oomed);
    }

    /** The part of HASH_ADD_KEYPTR_BYHASHVALUE before HASH_ADD_TO_TABLE: the element joins the
        insertion order, if need be of a new table. */
    method Enlist(p: int, key: Key, table: bool) returns (oomed: bool)
      requires Valid() && p >= 0 && p !in order && forall q :: q in order && q in elems ==> elems[q].key != key
      modifies this
      ensures elems == old(elems)[p := Elem(key, hash(key))]
      ensures oomed ==> Good(Now()) && Now() == old(Now()).(elems := elems, app := app)
      ensures !oomed ==> Half(Now(), p) && order == old(order) + [p]
      ensures oomed <==> old(head) == NIL && !table
      ensures !oomed && old(head) != NIL ==> chains == old(chains) && buckets == old(buckets) && items == old(items)
      ensures !oomed && old(head) == NIL ==> |order| == 1
    {
      ghost var t := Now();
      elems := elems[p := Elem(key, hash(key))];
      oomed := false;
      if head == NIL {
        app := app[p := Link(NIL, NIL)];
        if !table { return true; }
        MakeTable(p, t, key);
        FreshHalf(t, p, key, INITIAL_BUCKETS);
      } else {
        AppendHalf(t, p, key);
        AppendList(p, t, key);
      }
    }

    /** HASH_ADD_TO_TABLE for an element that is in the insertion order already. */
    method AddToTable(p: int, more: bool) returns (oomed: bool)
      requires Half(Now(), p)
      modifies this`app, this`head, this`tail, this`hh, this`buckets, this`items, this`noexpand, this`ineff, this`order, this`chains
      ensures Good(Now()) && (oomed <==> Crowded(old(Now()), p) && !more) && (oomed ==> |old(order)| > 1)
      ensures |buckets| == if Crowded(old(Now()), p) && more then 2 * |old(buckets)| else |old(buckets)|
      ensures oomed ==> order == old(order)[..|old(order)| - 1] && chains == old(chains) && buckets == old(buckets) && items == old(items)
      ensures !oomed ==> order == old(order)
    {
      ghost var u := Now();
      HalfBucket(u, p);
      PushGood(u, p);
      items := items + 1;
      var b := ToBkt(elems[p].hashv, |buckets|);
      PushBucket(p, b);
      assert Now() == Pushed(u, p);
      oomed := false;
      if buckets[b].count >= (buckets[b].mult + 1) * BKT_CAPACITY && !noexpand {
        if more {
          var _ := Expand();
        } else {
          oomed := true;
          CrowdedHalf(u, p, b);
          RollbackGood(u, p);
          Undoable(u, p, b);
          Rollback(p, b, u);
        }
      }
    }

    /** HASH_EXPAND_BUCKETS: every element changes over to its bucket among twice as many.  The
        ideal chain length is the number of items per bucket, rounded up; when for the second time
        in a row more than half of the items are beyond it, there are no more expansions. */
    method Expand() returns (ghost ideal: int)
      requires Good(Now()) && head != NIL
      modifies this`hh, this`buckets, this`noexpand, this`ineff, this`chains
      ensures Good(Now()) && |buckets| == 2 * |old(buckets)|
      ensures Ceiling(items, |buckets|, ideal) && Tally(buckets, ideal, NonIdeal(buckets, ideal))
      ensures ineff == (if NonIdeal(buckets, ideal) > items / 2 then old(ineff) + 1 else 0) && noexpand == (old(noexpand) || ineff > 1)
    {
      ghost var t := Now();
      var n := |buckets|;
      SomeItems(t);
      CeilingOf(items, 2 * n);
      var maxlen := items / (2 * n) + if items % (2 * n) != 0 then 1 else 0;
      var nb, nonideal, nc, moved := MoveAll(t, maxlen);
      ideal, buckets, chains := maxlen, nb, nc;
      ineff := if nonideal > items / 2 then ineff + 1 else 0;
      if ineff > 1 { noexpand := true; }
      ExpFinish(t, hh, nb, nc, moved, noexpand, ineff);
    }

    /** The loop over the old buckets. */
    method MoveAll(ghost t: Tab, ideal: int) returns (nb: seq<Bucket>, nonideal: nat, ghost nc: seq<seq<int>>, ghost moved: set<int>)
      requires Good(t) && t.head != NIL && Now() == t && ideal >= 1
      modifies this`hh
      ensures Now() == t.(hh := hh) && Ahead(t, hh, nb, nc, moved, |t.chains|) && Tally(nb, ideal, nonideal)
    {
      var n := |buckets|;
      nb, nonideal, nc, moved := NoBuckets(2 * n), 0, NoChains(2 * n), {};
      ExpFirst(t);
      TallyNone(nb, ideal);
      for i := 0 to n
        invariant Now() == t.(hh := hh) && Ahead(t, hh, nb, nc, moved, i) && Tally(nb, ideal, nonideal)
      {
        nb, nonideal, nc, moved := MoveChain(t, i, nb, ideal, nonideal, nc, moved);
        ExpNext(t, hh, nb, nc, moved, i + 1);
      }
    }

    /** The inner loop: the chain of bucket i is taken apart element by element. */
    method MoveChain(ghost t: Tab, i: nat, nb0: seq<Bucket>, ideal: int, nonideal0: nat, ghost nc0: seq<seq<int>>, ghost moved0: set<int>)
      returns (nb: seq<Bucket>, nonideal: nat, ghost nc: seq<seq<int>>, ghost moved: set<int>)
      requires Good(t) && t.head != NIL && Now() == t.(hh := hh) && i < |t.buckets| == |t.chains| && Ahead(t, hh, nb0, nc0, moved0, i)
      requires ideal >= 1 && Tally(nb0, ideal, nonideal0)
      modifies this`hh
      ensures Exp(t, hh, nb, nc, moved, [], i) && Tally(nb, ideal, nonideal)
    {
      nb, nonideal, nc, moved := nb0, nonideal0, nc0, moved0;
      var thh := buckets[i].head;
      ghost var rest := t.chains[i];
      while thh != NIL
        invariant Now() == t.(hh := hh) && thh == At(rest, 0) && Exp(t, hh, nb, nc, moved, rest, i) && Tally(nb, ideal, nonideal)
        decreases |rest|
      {
        ExpFacts(t, hh, nb, nc, moved, rest, i);
        var next := hh[thh].next;
        var b := ToBkt(elems[thh].hashv, |nb|);
        var count, mult := nb[b].count + 1, nb[b].mult;
        ghost var non0 := nonideal;
        if count > ideal {
          nonideal := nonideal + 1;
          if count > mult * ideal { mult := mult + 1; }
        }
        ExpStep(t, hh, nb, nc, moved, rest, i, mult);
        var first := nb[b].head;
        hh := hh[thh := Link(NIL, first)];
        if first != NIL { hh := hh[first := hh[first].(prev := thh)]; }
        TallyMore(nb, ideal, non0, b, Bucket(thh, count, mult));
        nb := nb[b := Bucket(thh, count, mult)];
        nc, moved, rest := nc[b := [thh] + nc[b]], moved + {thh}, rest[1..];
        thh := next;
      }
      ExpEnd(t, hh, nb, nc, moved, rest, i);
    }

    /** HASH_DEL_IN_BKT, HASH_ROLLBACK_BKT and HASH_DELETE_HH after the failed expansion. */
    method Rollback(p: int, b: nat, ghost u: Tab)
      requires RollbackReady(u, p, b) && Now() == Pushed(u, p)
      modifies this`app, this`head, this`tail, this`hh, this`buckets, this`items, this`order, this`chains
      ensures Now() == RolledBack(u, p)
    {
      DelInBkt(b, p);
      RollbackBkt(b, p);
      assert hh == UndoneLinks(u.hh, u.buckets[b].head, p);
      assert buckets == u.buckets[b := u.buckets[b].(count := u.buckets[b].count + 1)];
      Unhook(p);
      order, chains := order[..|order| - 1], u.chains;
      assert buckets == u.buckets;
    }

    /** HASH_ROLLBACK_BKT */
    method RollbackBkt(b: nat, p: int)
      requires b < |buckets|
      modifies this`hh, this`buckets
      ensures hh == old(hh)[p := Link(NIL, NIL)] && buckets == old(buckets)[b := old(buckets)[b].(count := old(buckets)[b].count + 1)]
    {
      buckets := buckets[b := buckets[b].(count := buckets[b].count + 1)];
      hh := hh[p := Link(NIL, NIL)];
    }
  }

  // ----- the state of an expansion -----

  /** While the chain of bucket i is being moved, `rest` of it being left. */
  ghost predicate Exp(t: Tab, hh: map<int, Link>, nb: seq<Bucket>, nc: seq<seq<int>>, moved: set<int>, rest: seq<int>, i: int) {
    forall a :: Stage(a, t, hh, nb, nc, moved, rest, i)
  }

  datatype Aspect = NewChains | OldChains | Progress

  ghost predicate Stage(a: Aspect, t: Tab, hh: map<int, Link>, nb: seq<Bucket>, nc: seq<seq<int>>, moved: set<int>, rest: seq<int>, i: int) {
    && 0 <= i < |t.chains| == |t.buckets|
    && match a
       case NewChains => Chains(t.elems, hh, nb, nc) && |nb| == 2 * |t.buckets| && MovedOk(t.elems, nc, moved)
       case OldChains => Rest(hh, rest) && Apart(t.elems, rest, moved) && Later(t.elems, hh, t.buckets, t.chains, i + 1, moved)
       case Progress =>
         && Total(nc) + |rest| == Total(t.chains[..i + 1])
         && (forall p :: p in moved || p in rest ==> p in t.order)
         && (forall p :: p in rest ==> p in t.chains[i])
         && (forall c, p :: 0 <= c < i && p in t.chains[c] ==> p in moved)
         && (forall p :: p in t.chains[i] ==> p in moved || p in rest)
  }

  lemma {:induction false} Stages(t: Tab, hh: map<int, Link>, nb: seq<Bucket>, nc: seq<seq<int>>, moved: set<int>, rest: seq<int>, i: int)
    ensures Exp(t, hh, nb, nc, moved, rest, i) <==>
            Stage(NewChains, t, hh, nb, nc, moved, rest, i) && Stage(OldChains, t, hh, nb, nc, moved, rest, i) && Stage(Progress, t, hh, nb, nc, moved, rest, i)
  {
  }

  /** Before bucket i is taken apart, or when all have been. */
  ghost predicate Ahead(t: Tab, hh: map<int, Link>, nb: seq<Bucket>, nc: seq<seq<int>>, moved: set<int>, i: int) {
    && 0 <= i <= |t.chains| == |t.buckets|
    && if i < |t.chains| then Exp(t, hh, nb, nc, moved, t.chains[i], i) && t.buckets[i].head == At(t.chains[i], 0)
       else Exp(t, hh, nb, nc, moved, [], i - 1)
  }

  lemma {:induction false} ExpFacts(t: Tab, hh: map<int, Link>, nb: seq<Bucket>, nc: seq<seq<int>>, moved: set<int>, rest: seq<int>, i: int)
    requires Exp(t, hh, nb, nc, moved, rest, i) && rest != []
    ensures |nb| == |nc| > 0 && rest[0] in t.elems && rest[0] in hh && hh[rest[0]].next == At(rest[1..], 0)
    ensures var b := ToBkt(t.elems[rest[0]].hashv, |nb|); (nb[b].head == NIL || nb[b].head in hh) && nb[b].head != rest[0] && nb[b].count >= 0
  {
    Stages(t, hh, nb, nc, moved, rest, i);
    MoveOne(t.elems, hh, nb, nc, moved, rest, 0);
    var b := ToBkt(t.elems[rest[0]].hashv, |nb|);
    assert ChainOk(hh, nb[b], nc[b]);
    ChainMembers(hh, nb[b], nc[b]);
    assert rest[0] in rest && NextOk(hh, rest, 0);
    assert nb[b].head != NIL ==> nb[b].head in moved;
  }

  lemma {:induction false} ExpEnd(t: Tab, hh: map<int, Link>, nb: seq<Bucket>, nc: seq<seq<int>>, moved: set<int>, rest: seq<int>, i: int)
    requires Exp(t, hh, nb, nc, moved, rest, i) && At(rest, 0) == NIL
    ensures rest == []
  {
    Stages(t, hh, nb, nc, moved, rest, i);
    assert rest != [] ==> NextOk(hh, rest, 0);
  }

  lemma {:induction false} ExpFirst(t: Tab)
    requires Good(t) && t.head != NIL
    ensures |t.buckets| == |t.chains| > 0 && t.items >= 0
    ensures var n := 2 * |t.buckets|; Ahead(t, t.hh, NoBuckets(n), NoChains(n), {}, 0)
  {
    Parts(t);
    var n := 2 * |t.buckets|;
    ExpandStart(t, n);
    assert LaterChain(t.elems, t.hh, t.buckets, t.chains, 0, {});
    assert t.chains[..1] == [t.chains[0]] && t.chains[..1][..0] == [] && Total(t.chains[..1]) == Total([]) + |t.chains[0]|;
    assert t.chains[..0 + 1] == t.chains[..1];
    Stages(t, t.hh, NoBuckets(n), NoChains(n), {}, t.chains[0], 0);
  }

  lemma {:induction false} ExpNext(t: Tab, hh: map<int, Link>, nb: seq<Bucket>, nc: seq<seq<int>>, moved: set<int>, i: int)
    requires Good(t) && t.head != NIL && 0 < i <= |t.chains| && Exp(t, hh, nb, nc, moved, [], i - 1)
    ensures Ahead(t, hh, nb, nc, moved, i)
  {
    Stages(t, hh, nb, nc, moved, [], i - 1);
    if i == |t.chains| { return; }
    assert LaterChain(t.elems, hh, t.buckets, t.chains, i, moved);
    assert t.chains[..i + 1][..i] == t.chains[..i];
    assert Holds(TheMembers, t);
    Stages(t, hh, nb, nc, moved, t.chains[i], i);
  }

  lemma {:induction false} ExpStep(t: Tab, hh: map<int, Link>, nb: seq<Bucket>, nc: seq<seq<int>>, moved: set<int>, rest: seq<int>, i: int, mult: nat)
    requires Good(t) && t.head != NIL && Exp(t, hh, nb, nc, moved, rest, i) && rest != []
    ensures |nb| == |nc| > 0 && rest[0] in t.elems
    ensures var p := rest[0];
            var b := ToBkt(t.elems[p].hashv, |nb|);
            && (nb[b].head == NIL || nb[b].head in hh)
            && Exp(t, AfterPush(hh, nb[b].head, p), nb[b := Bucket(p, nb[b].count + 1, mult)], nc[b := [p] + nc[b]], moved + {p}, rest[1..], i)
  {
    Stages(t, hh, nb, nc, moved, rest, i);
    ExpFacts(t, hh, nb, nc, moved, rest, i);
    MoveOne(t.elems, hh, nb, nc, moved, rest, mult);
    var p := rest[0];
    var b := ToBkt(t.elems[p].hashv, |nb|);
    var hh' := AfterPush(hh, nb[b].head, p);
    PushNext(hh, nb[b].head, p);
    NotLater(t, i, p);
    LaterKept(t.elems, hh, hh', t.buckets, t.chains, i + 1, moved, p);
    assert rest == [p] + rest[1..];
    Stages(t, hh', nb[b := Bucket(p, nb[b].count + 1, mult)], nc[b := [p] + nc[b]], moved + {p}, rest[1..], i);
  }

  lemma {:induction false} NotLater(t: Tab, i: int, p: int)
    requires Good(t) && t.head != NIL && 0 <= i < |t.chains| && p in t.chains[i]
    ensures forall c :: i + 1 <= c < |t.chains| ==> p !in t.chains[c]
  {
    assert Holds(TheChains, t);
    assert Placed(t.elems, |t.chains|, i, p);
    forall c | i + 1 <= c < |t.chains| ensures p !in t.chains[c] {
      assert p in t.chains[c] ==> Placed(t.elems, |t.chains|, c, p);
    }
  }

  lemma {:induction false} ExpDone(t: Tab, hh: map<int, Link>, nb: seq<Bucket>, nc: seq<seq<int>>, moved: set<int>)
    requires Good(t) && t.head != NIL && Ahead(t, hh, nb, nc, moved, |t.chains|)
    ensures Chains(t.elems, hh, nb, nc) && MovedOk(t.elems, nc, moved) && Total(nc) == Total(t.chains) && |nb| == 2 * |t.buckets|
    ensures forall p :: p in moved <==> p in t.order
  {
    var n := |t.chains|;
    Stages(t, hh, nb, nc, moved, [], n - 1);
    assert t.chains[..n] == t.chains;
    assert Holds(TheMembers, t);
    forall p | p in t.order ensures p in moved {
      var c := ToBkt(t.elems[p].hashv, n);
      assert p in t.chains[c] && (c < n - 1 || c == n - 1);
    }
  }

  lemma {:induction false} SomeItems(t: Tab)
    requires Good(t) && t.head != NIL
    ensures t.items >= 1 && |t.buckets| > 0
  {
    Parts(t);
  }

  lemma {:induction false} ExpFinish(t: Tab, hh: map<int, Link>, nb: seq<Bucket>, nc: seq<seq<int>>, moved: set<int>, noexpand: bool, ineff: nat)
    requires Good(t) && t.head != NIL && Ahead(t, hh, nb, nc, moved, |t.chains|)
    ensures Good(t.(hh := hh, buckets := nb, chains := nc, noexpand := noexpand, ineff := ineff)) && |nb| == 2 * |t.buckets|
  {
    ExpDone(t, hh, nb, nc, moved);
    ExpandGood(t, hh, nb, nc, moved, noexpand, ineff);
  }

  lemma {:induction false} NewKey(t: Tab, p: int, key: Key)
    requires Good(t) && forall q :: Entry(key, q) !in Entries(t)
    ensures forall q :: q in t.order && q in t.elems ==> t.elems[q].key != key
  {
    forall q | q in t.order && q in t.elems ensures t.elems[q].key != key {
      assert Entry(t.elems[q].key, q) in Entries(t);
    }
  }

  lemma {:induction false} EntryIn(t: Tab, e: Entry)
    ensures e in Entries(t) <==> e.elem in t.order && e.elem in t.elems && t.elems[e.elem].key == e.key
  {
    if e.elem in t.order && e.elem in t.elems && t.elems[e.elem].key == e.key {
      assert Entry(t.elems[e.elem].key, e.elem) in Entries(t);
      assert e == Entry(t.elems[e.elem].key, e.elem);
    }
  }

  lemma {:induction false} SameEntries(t: Tab, u: Tab, p: int, x: Elem)
    requires u.order == t.order && p !in t.order && u.elems == t.elems[p := x]
    ensures Entries(u) == Entries(t)
  {
    forall e ensures e in Entries(u) <==> e in Entries(t) {
      EntryIn(t, e);
      EntryIn(u, e);
    }
  }

  lemma {:induction false} AddedEntries(t: Tab, u: Tab, v: Tab, p: int, key: Key, oomed: bool)
    requires u.order == t.order + [p] && p !in t.order && u.elems == t.elems[p := Elem(key, t.hash(key))] && v.elems == u.elems
    requires v.order == if oomed then u.order[..|u.order| - 1] else u.order
    ensures Entries(v) == if oomed then Entries(t) else Entries(t) + {Entry(key, p)}
  {
    assert u.order[..|u.order| - 1] == t.order;
    forall e ensures e in Entries(v) <==> e in Entries(t) || (!oomed && e == Entry(key, p)) {
      EntryIn(t, e);
      EntryIn(v, e);
    }
  }

  /** The pointers as the rollback finds them. */
  ghost predicate RollbackReady(u: Tab, p: int, b: nat) {
    && |u.buckets| == |u.chains| > 0 && p >= 0 && p in u.elems && b == ToBkt(u.elems[p].hashv, |u.buckets|) && u.order != []
    && (u.buckets[b].head == NIL || u.buckets[b].head in u.hh) && u.buckets[b].head != p
    && DelOk(u.app, p) && u.app[p].next == NIL && u.app[p].prev != NIL && u.tail == p
    && DelOk(AfterPush(u.hh, u.buckets[b].head, p), p) && AfterPush(u.hh, u.buckets[b].head, p)[p] == Link(NIL, u.buckets[b].head)
    && var undone := UndoneLinks(u.hh, u.buckets[b].head, p); DelOk(undone, p) && AfterDel(undone, p) == undone
  }

  lemma {:induction false} Undoable(u: Tab, p: int, b: nat)
    requires Half(u, p) && |u.order| > 1 && |u.buckets| > 0 && b == ToBkt(u.elems[p].hashv, |u.buckets|)
    ensures RollbackReady(u, p, b)
  {
    HalfBucket(u, p);
    LastLinks(u, p);
    UndoChain(u.hh, u.buckets[b], u.chains[b], p);
  }

  /** One more element in its bucket calls for an expansion. */
  ghost predicate Crowded(u: Tab, p: int) {
    && |u.buckets| > 0 && p in u.elems && !u.noexpand
    && var bkt := u.buckets[ToBkt(u.elems[p].hashv, |u.buckets|)]; bkt.count + 1 >= (bkt.mult + 1) * BKT_CAPACITY
  }

  /** A bucket that is due for expansion has held other elements before. */
  lemma {:induction false} CrowdedHalf(u: Tab, p: int, b: nat)
    requires Half(u, p) && b < |u.buckets| && u.buckets[b].count + 1 >= (u.buckets[b].mult + 1) * BKT_CAPACITY
    ensures |u.order| > 1
  {
    assert ChainOk(u.hh, u.buckets[b], u.chains[b]);
    assert u.chains[b][0] in u.chains[b] && u.chains[b][0] in u.order[..|u.order| - 1];
  }

  lemma {:induction false} FindReady(t: Tab, key: Key)
    requires Good(t) && t.head != NIL
    ensures |t.buckets| == |t.chains| > 0
    ensures var b := ToBkt(t.hash(key), |t.buckets|); ChainOk(t.hh, t.buckets[b], t.chains[b])
    ensures forall b, p :: 0 <= b < |t.chains| && p in t.chains[b] ==> p in t.elems
  {
    Parts(t);
    assert forall b, p :: 0 <= b < |t.chains| && p in t.chains[b] ==> Placed(t.elems, |t.chains|, b, p);
  }

  lemma {:induction false} FoundOne(t: Tab, key: Key, p: int, b: nat)
    requires Good(t) && t.head != NIL && b < |t.chains| && p in t.chains[b] && p in t.elems && t.elems[p].key == key
    ensures Entry(key, p) in Entries(t) && forall q :: Entry(key, q) in Entries(t) ==> q == p
    ensures p != NIL
  {
    Parts(t);
    assert Holds(TheMembers, t);
    assert p in t.order;
    ChainMembers(t.hh, t.buckets[b], t.chains[b]);
  }

  lemma {:induction false} FoundOther(t: Tab, p: int, b: nat)
    requires Good(t) && t.head != NIL && b < |t.chains| && p in t.chains[b] && p in t.elems
    ensures t.elems[p].hashv == t.hash(t.elems[p].key)
  {
    Parts(t);
    assert p in t.order;
  }

  lemma {:induction false} FoundNone(t: Tab, key: Key, b: nat)
    requires Good(t) && t.head != NIL && |t.chains| > 0 && b == ToBkt(t.hash(key), |t.chains|)
    requires forall i :: 0 <= i < |t.chains[b]| ==> t.chains[b][i] in t.elems && t.elems[t.chains[b][i]].key != key
    ensures forall q :: Entry(key, q) !in Entries(t)
  {
    Parts(t);
    forall q | q in t.order ensures q in t.elems && t.elems[q].key != key {
    }
  }

  lemma {:induction false} LastGone(t: Tab, p: int)
    requires Good(t) && p in t.order && |t.order| == 1
    ensures p in t.elems && Entries(t) == {Entry(t.elems[p].key, p)}
  {
    Parts(t);
    assert t.order == [p];
  }
}
