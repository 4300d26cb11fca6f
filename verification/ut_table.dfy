/** A uthash table as one value (uthash.h): its invariant, which is what HASH_FSCK checks together with
    unique keys, and what adding, deleting, expanding and rolling back do to it. */
module UtTable {
  import opened Sequences
  import opened LinkedLists
  import opened UtChains

  /** `app` holds the insertion-order links and `hh` the bucket links; head is null while there is no
      table.  `order` and `chains` spell out the two kinds of lists. */
  datatype Tab = Tab(hash: Key -> nat, elems: map<int, Elem>, app: map<int, Link>, head: int, tail: int, hh: map<int, Link>,
                     buckets: seq<Bucket>, items: int, noexpand: bool, ineff: nat, order: seq<int>, chains: seq<seq<int>>)

  datatype Part = TheOrder | TheChains | TheMembers | TheKeys

  ghost predicate Holds(part: Part, t: Tab) {
    match part
    case TheOrder => ListOk(t.app, t.order, t.head, t.tail) && t.order != [] && t.items == |t.order|
    case TheChains => Chains(t.elems, t.hh, t.buckets, t.chains)
    case TheMembers => Members(t, t.order)
    case TheKeys => Keyed(t, t.order)
  }

  /** The chains hold exactly these elements. */
  ghost predicate Members(t: Tab, s: seq<int>) {
    && |t.chains| > 0 && Total(t.chains) == |s|
    && (forall p :: p in s ==> p in t.elems && p in t.chains[ToBkt(t.elems[p].hashv, |t.chains|)])
    && (forall b, p :: 0 <= b < |t.chains| && p in t.chains[b] ==> p in s)
  }

  /** Elements carry the hash of their key, and no two have the same key. */
  ghost predicate Keyed(t: Tab, s: seq<int>) {
    && (forall p :: p in s ==> p in t.elems && t.elems[p].hashv == t.hash(t.elems[p].key))
    && (forall p, q :: p in s && q in s && t.elems[p].key == t.elems[q].key ==> p == q)
  }

  ghost predicate Good(t: Tab) { if t.head == NIL then t.order == [] else forall part :: Holds(part, t) }

  lemma {:induction false} Parts(t: Tab)
    ensures t.head != NIL ==> (Good(t) <==> Holds(TheOrder, t) && Holds(TheChains, t) && Holds(TheMembers, t) && Holds(TheKeys, t))
  {
  }

  datatype Entry = Entry(key: Key, elem: int)

  /** The finite map the table stands for, as its graph. */
  ghost function Entries(t: Tab): set<Entry> { set p | p in t.order && p in t.elems :: Entry(t.elems[p].key, p) }

  /** What HASH_FSCK computes: the counts of all buckets together are the number of items. */
  lemma {:induction false} CountsAddUp(t: Tab)
    requires Good(t) && t.head != NIL
    ensures SumCounts(t.buckets) == t.items == |t.order|
  {
    Parts(t);
    SumIsTotal(t.hh, t.buckets, t.chains);
  }

  ghost function SumCounts(bs: seq<Bucket>): int { if bs == [] then 0 else SumCounts(bs[..|bs| - 1]) + bs[|bs| - 1].count }

  lemma {:induction false} SumIsTotal(hh: map<int, Link>, bs: seq<Bucket>, cs: seq<seq<int>>)
    requires |bs| == |cs| && forall b :: 0 <= b < |bs| ==> ChainOk(hh, bs[b], cs[b])
    ensures SumCounts(bs) == Total(cs)
  {
    if bs != [] {
      var n := |bs| - 1;
      forall b | 0 <= b < n ensures ChainOk(hh, bs[..n][b], cs[..n][b]) { assert ChainOk(hh, bs[b], cs[b]); }
      SumIsTotal(hh, bs[..n], cs[..n]);
      assert ChainOk(hh, bs[n], cs[n]);
    }
  }

  // ----- adding -----

  /** An element has joined the insertion order but not its bucket yet. */
  ghost predicate Half(t: Tab, p: int) {
    && t.order != [] && t.order[|t.order| - 1] == p >= 0
    && var s := t.order[..|t.order| - 1];
       && ListOk(t.app, t.order, t.head, t.tail) && t.items == |s| && p !in s && p in t.elems
       && Chains(t.elems, t.hh, t.buckets, t.chains) && Members(t, s) && Keyed(t, t.order)
  }

  ghost function Appended(t: Tab, p: int, key: Key): Tab
    requires t.tail in t.app
  {
    t.(elems := t.elems[p := Elem(key, t.hash(key))], app := t.app[t.tail := t.app[t.tail].(next := p)][p := Link(t.tail, NIL)],
       tail := p, order := t.order + [p])
  }

  lemma {:induction false} AppendHalf(t: Tab, p: int, key: Key)
    requires Good(t) && t.head != NIL && p >= 0 && p !in t.order && forall q :: q in t.order && q in t.elems ==> t.elems[q].key != key
    ensures t.tail in t.app && t.tail != NIL && t.tail != p && Half(Appended(t, p, key), p)
  {
    Parts(t);
    assert Linked(t.app, t.order, |t.order| - 1);
    AddKeeps(t.app, t.order, t.head, t.tail, p);
    var u := Appended(t, p, key);
    assert u.order[..|u.order| - 1] == t.order;
    assert u.app == AfterAdd(t.app, t.tail, p);
    assert t.tail in t.order;
    AppendChains(t, u, p);
  }

  /** The chains do not notice a new element outside them. */
  lemma {:induction false} AppendChains(t: Tab, u: Tab, p: int)
    requires Chains(t.elems, t.hh, t.buckets, t.chains) && Members(t, t.order) && Keyed(t, t.order) && p !in t.order
    requires u.hash == t.hash && u.hh == t.hh && u.buckets == t.buckets && u.chains == t.chains && u.order == t.order + [p]
    requires exists key :: u.elems == t.elems[p := Elem(key, t.hash(key))] && forall q :: q in t.order && q in t.elems ==> t.elems[q].key != key
    ensures Chains(u.elems, u.hh, u.buckets, u.chains) && Members(u, t.order) && Keyed(u, u.order)
  {
    assert forall b, q :: 0 <= b < |t.chains| && q in t.chains[b] ==> q in t.order && Placed(t.elems, |t.chains|, b, q);
  }

  /** A new table with its first element. */
  ghost function Fresh(t: Tab, p: int, key: Key, n: nat): Tab {
    t.(elems := t.elems[p := Elem(key, t.hash(key))], app := t.app[p := Link(NIL, NIL)], head := p, tail := p,
       buckets := NoBuckets(n), items := 0, noexpand := false, ineff := 0, order := [p], chains := NoChains(n))
  }

  lemma {:induction false} FreshHalf(t: Tab, p: int, key: Key, n: nat)
    requires p >= 0 && n > 0
    ensures Half(Fresh(t, p, key, n), p)
  {
    TotalEmpty(n);
    var u := Fresh(t, p, key, n);
    assert u.order[..0] == [];
    assert Linked(u.app, u.order, 0);
  }

  /** The element has been put into its bucket. */
  ghost function Pushed(t: Tab, p: int): Tab
    requires |t.buckets| == |t.chains| > 0 && p in t.elems && var b := ToBkt(t.elems[p].hashv, |t.buckets|); t.buckets[b].head == NIL || t.buckets[b].head in t.hh
  {
    var b := ToBkt(t.elems[p].hashv, |t.buckets|);
    t.(items := t.items + 1, hh := AfterPush(t.hh, t.buckets[b].head, p),
       buckets := t.buckets[b := Bucket(p, t.buckets[b].count + 1, t.buckets[b].mult)], chains := t.chains[b := [p] + t.chains[b]])
  }

  lemma {:induction false} HalfBucket(t: Tab, p: int)
    requires Half(t, p)
    ensures |t.buckets| == |t.chains| > 0 && p in t.elems && p !in t.chains[ToBkt(t.elems[p].hashv, |t.buckets|)]
    ensures forall c :: 0 <= c < |t.chains| ==> p !in t.chains[c]
    ensures var b := ToBkt(t.elems[p].hashv, |t.buckets|);
            && (t.buckets[b].head == NIL || t.buckets[b].head in t.hh) && t.buckets[b].head != p
            && ChainOk(t.hh, t.buckets[b], t.chains[b])
  {
    var b := ToBkt(t.elems[p].hashv, |t.buckets|);
    ChainMembers(t.hh, t.buckets[b], t.chains[b]);
  }

  lemma {:induction false} PushGood(t: Tab, p: int)
    requires Half(t, p)
    ensures |t.buckets| == |t.chains| > 0 && p in t.elems && var b := ToBkt(t.elems[p].hashv, |t.buckets|); t.buckets[b].head == NIL || t.buckets[b].head in t.hh
    ensures Good(Pushed(t, p)) && Pushed(t, p).head != NIL
  {
    HalfBucket(t, p);
    var b := ToBkt(t.elems[p].hashv, |t.buckets|);
    PushKeeps(t.elems, t.hh, t.buckets, t.chains, p, t.buckets[b].mult);
    TotalSet(t.chains, b, [p] + t.chains[b]);
    var u := Pushed(t, p);
    assert Linked(t.app, t.order, 0);
    PushMembers(t, u, p, b);
    Parts(u);
  }

  lemma {:induction false} PushMembers(t: Tab, u: Tab, p: int, b: nat)
    requires Half(t, p) && b == ToBkt(t.elems[p].hashv, |t.chains|) && b < |t.chains|
    requires u.elems == t.elems && u.order == t.order && u.chains == t.chains[b := [p] + t.chains[b]] && Total(u.chains) == Total(t.chains) + 1
    ensures Members(u, u.order)
  {
    var s := t.order[..|t.order| - 1];
    assert t.order == s + [p];
    assert u.chains[b] == [p] + t.chains[b];
  }

  // ----- rolling back -----

  /** The bucket links after the element has been put in, taken out and cleared again. */
  ghost function UndoneLinks(hh: map<int, Link>, head: int, p: int): map<int, Link>
    requires (head == NIL || head in hh) && head != p && p >= 0
  {
    AfterDel(AfterPush(hh, head, p), p)[p := Link(NIL, NIL)]
  }

  lemma {:induction false} UndoChain(hh: map<int, Link>, b: Bucket, chain: seq<int>, p: int)
    requires ChainOk(hh, b, chain) && p !in chain && p >= 0 && (b.head == NIL || b.head in hh) && b.head != p
    ensures DelOk(AfterPush(hh, b.head, p), p) && AfterPush(hh, b.head, p)[p] == Link(NIL, b.head)
    ensures DelOk(UndoneLinks(hh, b.head, p), p) && AfterDel(UndoneLinks(hh, b.head, p), p) == UndoneLinks(hh, b.head, p)
    ensures forall q :: q in hh && q != p ==> q in UndoneLinks(hh, b.head, p) && UndoneLinks(hh, b.head, p)[q] == hh[q]
  {
    if chain != [] { assert Linked(hh, chain, 0); }
  }

  /** The table after an addition that ran out of memory while expanding. */
  ghost function RolledBack(t: Tab, p: int): Tab
    requires |t.buckets| > 0 && p in t.elems && p in t.app && t.order != [] && p >= 0
    requires var b := ToBkt(t.elems[p].hashv, |t.buckets|); (t.buckets[b].head == NIL || t.buckets[b].head in t.hh) && t.buckets[b].head != p
    requires DelOk(t.app, p)
  {
    var b := ToBkt(t.elems[p].hashv, |t.buckets|);
    t.(hh := UndoneLinks(t.hh, t.buckets[b].head, p), app := AfterDel(t.app, p), tail := t.app[p].prev, order := t.order[..|t.order| - 1])
  }

  lemma {:induction false} LastLinks(t: Tab, p: int)
    requires Half(t, p)
    ensures DelOk(t.app, p) && t.app[p].next == NIL && t.tail == p && (t.app[p].prev == NIL <==> |t.order| == 1)
  {
    var k := |t.order| - 1;
    DelLegal(t.app, t.order, t.head, t.tail, k);
    assert Linked(t.app, t.order, k);
    if k > 0 { assert Linked(t.app, t.order, k - 1); }
  }

  /** It is the old table again: the same order, chains and buckets, and a sound table. */
  lemma {:induction false} RollbackGood(t: Tab, p: int)
    requires Half(t, p) && |t.order| > 1
    ensures DelOk(t.app, p) && |t.buckets| > 0
    ensures var b := ToBkt(t.elems[p].hashv, |t.buckets|); (t.buckets[b].head == NIL || t.buckets[b].head in t.hh) && t.buckets[b].head != p
    ensures Good(RolledBack(t, p)) && RolledBack(t, p).head != NIL
  {
    HalfBucket(t, p);
    LastLinks(t, p);
    var b, k := ToBkt(t.elems[p].hashv, |t.buckets|), |t.order| - 1;
    UndoChain(t.hh, t.buckets[b], t.chains[b], p);
    var u := RolledBack(t, p);
    DelKeeps(t.app, t.order, t.head, t.tail, k);
    assert t.order[..k] + t.order[k + 1..] == u.order;
    forall c | 0 <= c < |u.buckets| ensures ChainOk(u.hh, u.buckets[c], u.chains[c]) {
      assert ChainOk(t.hh, t.buckets[c], t.chains[c]);
      ChainMembers(t.hh, t.buckets[c], t.chains[c]);
      ChainFrame(t.hh, u.hh, t.buckets[c], t.chains[c]);
    }
    assert forall q :: q in u.order ==> q in t.order;
    assert Linked(t.app, t.order, 0);
    Parts(u);
  }

  // ----- deleting -----

  ghost predicate DelReady(t: Tab, k: int, j: int) {
    && 0 <= k < |t.order| && DelOk(t.app, t.order[k]) && t.order[k] in t.elems && |t.buckets| == |t.chains| > 0 && DelOk(t.hh, t.order[k])
    && var c := t.chains[ToBkt(t.elems[t.order[k]].hashv, |t.buckets|)]; 0 <= j < |c| && c[j] == t.order[k]
  }

  /** The table after HASH_DELETE_HH of the k-th element, which is the j-th of its chain. */
  ghost function Deleted(t: Tab, k: int, j: int): Tab
    requires DelReady(t, k, j)
  {
    var p := t.order[k];
    var a, b := t.app[p], ToBkt(t.elems[p].hashv, |t.buckets|);
    t.(app := AfterDel(t.app, p), head := if a.prev == NIL then a.next else t.head, tail := if p == t.tail then a.prev else t.tail,
       order := t.order[..k] + t.order[k + 1..], hh := AfterDel(t.hh, p), items := t.items - 1,
       buckets := t.buckets[b := t.buckets[b].(head := if t.buckets[b].head == p then t.hh[p].next else t.buckets[b].head, count := t.buckets[b].count - 1)],
       chains := t.chains[b := t.chains[b][..j] + t.chains[b][j + 1..]])
  }

  lemma {:induction false} DelPlace(t: Tab, p: int) returns (k: int, j: int)
    requires Good(t) && p in t.order
    ensures DelReady(t, k, j) && t.order[k] == p
    ensures t.app[p].prev == NIL && t.app[p].next == NIL <==> |t.order| == 1
    ensures t.app[p].next == NIL <==> p == t.tail
    ensures t.head != NIL
  {
    Parts(t);
    k :| 0 <= k < |t.order| && t.order[k] == p;
    DelLegal(t.app, t.order, t.head, t.tail, k);
    AppEnds(t, k);
    var b := ToBkt(t.elems[p].hashv, |t.buckets|);
    j :| 0 <= j < |t.chains[b]| && t.chains[b][j] == p;
    DelInChain(t.elems, t.hh, t.buckets, t.chains, b, j);
  }

  lemma {:induction false} AppEnds(t: Tab, k: int)
    requires ListOk(t.app, t.order, t.head, t.tail) && 0 <= k < |t.order|
    ensures t.order[k] in t.app && (t.app[t.order[k]].prev == NIL <==> k == 0) && (t.app[t.order[k]].next == NIL <==> k == |t.order| - 1)
    ensures t.order[k] == t.tail <==> k == |t.order| - 1
  {
    assert Linked(t.app, t.order, k);
    if k > 0 { assert Linked(t.app, t.order, k - 1); }
    if k + 1 < |t.order| { assert Linked(t.app, t.order, k + 1); }
  }

  lemma {:induction false} DelGood(t: Tab, k: int, j: int)
    requires Good(t) && DelReady(t, k, j) && |t.order| > 1 && t.head != NIL
    ensures Good(Deleted(t, k, j)) && Deleted(t, k, j).head != NIL
    ensures forall q :: q in Deleted(t, k, j).order <==> q in t.order && q != t.order[k]
  {
    Parts(t);
    var p, u := t.order[k], Deleted(t, k, j);
    var b := ToBkt(t.elems[p].hashv, |t.buckets|);
    DelKeeps(t.app, t.order, t.head, t.tail, k);
    AppEnds(t, k);
    DelInChain(t.elems, t.hh, t.buckets, t.chains, b, j);
    Removed(t.order, k);
    DelMembers(t, u, k, j, b);
    assert Linked(u.app, u.order, 0);
    Parts(u);
  }

  lemma {:induction false} Removed(s: seq<int>, k: int)
    requires 0 <= k < |s| && Distinct(s)
    ensures forall q :: q in s[..k] + s[k + 1..] <==> q in s && q != s[k]
    ensures |s[..k] + s[k + 1..]| == |s| - 1
  {
    assert s == s[..k] + [s[k]] + s[k + 1..];
  }

  lemma {:induction false} DelMembers(t: Tab, u: Tab, k: int, j: int, b: nat)
    requires Chains(t.elems, t.hh, t.buckets, t.chains) && Members(t, t.order) && Distinct(t.order) && 0 <= k < |t.order|
    requires b < |t.chains| && 0 <= j < |t.chains[b]| && t.chains[b][j] == t.order[k]
    requires u.elems == t.elems && u.order == t.order[..k] + t.order[k + 1..] && u.chains == t.chains[b := t.chains[b][..j] + t.chains[b][j + 1..]]
    ensures Members(u, u.order)
  {
    Removed(t.order, k);
    assert ChainOk(t.hh, t.buckets[b], t.chains[b]);
    Removed(t.chains[b], j);
    TotalSet(t.chains, b, t.chains[b][..j] + t.chains[b][j + 1..]);
    var p := t.order[k];
    assert p in t.chains[b];
    forall c, q | 0 <= c < |u.chains| && q in u.chains[c] ensures q in u.order {
      DelOther(t, c, q, b, j);
    }
    forall q | q in u.order ensures q in u.elems && q in u.chains[ToBkt(u.elems[q].hashv, |u.chains|)] {
      assert q in t.order && q != p;
    }
  }

  lemma {:induction false} DelOther(t: Tab, c: nat, q: int, b: nat, j: int)
    requires Chains(t.elems, t.hh, t.buckets, t.chains) && c < |t.chains| && b < |t.chains| && 0 <= j < |t.chains[b]|
    requires Members(t, t.order) && q in if c == b then t.chains[b][..j] + t.chains[b][j + 1..] else t.chains[c]
    ensures q in t.order && q != t.chains[b][j]
  {
    assert ChainOk(t.hh, t.buckets[b], t.chains[b]);
    var p := t.chains[b][j];
    assert p in t.chains[b] && Placed(t.elems, |t.chains|, b, p);
    if c == b { Removed(t.chains[b], j); }
    assert q in t.chains[c] && Placed(t.elems, |t.chains|, c, q);
  }

  // ----- expanding -----

  /** When every element has changed over, the doubled table is sound and has the same contents. */
  lemma {:induction false} ExpandGood(t: Tab, hh: map<int, Link>, nb: seq<Bucket>, nc: seq<seq<int>>, moved: set<int>, noexpand: bool, ineff: nat)
    requires Good(t) && t.head != NIL && Chains(t.elems, hh, nb, nc) && MovedOk(t.elems, nc, moved) && Total(nc) == Total(t.chains)
    requires forall p :: p in moved <==> p in t.order
    ensures Good(t.(hh := hh, buckets := nb, chains := nc, noexpand := noexpand, ineff := ineff))
  {
    Parts(t);
    Parts(t.(hh := hh, buckets := nb, chains := nc, noexpand := noexpand, ineff := ineff));
  }

  /** Before the first element changes over. */
  lemma {:induction false} ExpandStart(t: Tab, n: nat)
    requires Good(t) && t.head != NIL && n > 0
    ensures var nb, nc := NoBuckets(n), NoChains(n);
            Chains(t.elems, t.hh, nb, nc) && MovedOk(t.elems, nc, {}) && Later(t.elems, t.hh, t.buckets, t.chains, 0, {}) && Total(nc) == 0
  {
    Parts(t);
    TotalEmpty(n);
    forall c | 0 <= c < |t.chains| ensures LaterChain(t.elems, t.hh, t.buckets, t.chains, c, {}) {
      ChainRest(t.hh, t.buckets[c], t.chains[c]);
    }
  }

  // ----- how well an expansion has done -----

  ghost function Excess(b: Bucket, ideal: int): int { if b.count > ideal then b.count - ideal else 0 }

  /** How many elements stand beyond the ideal length of their chains. */
  ghost function NonIdeal(bs: seq<Bucket>, ideal: int): int {
    if bs == [] then 0 else NonIdeal(bs[..|bs| - 1], ideal) + Excess(bs[|bs| - 1], ideal)
  }

  /** The multiple of the ideal length that a chain of `count` elements is granted before the next
      expansion: none up to the ideal length, one for one element more, then the quotient rounded up. */
  ghost predicate Granted(ideal: int, count: int, mult: int) {
    if count <= ideal then mult == 0
    else if ideal == 1 then mult == count - 1
    else if count == ideal + 1 then mult == 1
    else (mult - 1) * ideal < count <= mult * ideal
  }

  ghost predicate Tally(bs: seq<Bucket>, ideal: int, nonideal: int) {
    nonideal == NonIdeal(bs, ideal) && forall b :: 0 <= b < |bs| ==> Granted(ideal, bs[b].count, bs[b].mult)
  }

  lemma {:induction false} GrantMore(ideal: int, count: int, mult: int)
    requires ideal >= 1 && count >= 0 && Granted(ideal, count, mult)
    ensures Granted(ideal, count + 1, if count + 1 > ideal && count + 1 > mult * ideal then mult + 1 else mult)
  {
  }

  lemma {:induction false} NonIdealSet(bs: seq<Bucket>, ideal: int, b: nat, x: Bucket)
    requires b < |bs|
    ensures NonIdeal(bs[b := x], ideal) == NonIdeal(bs, ideal) - Excess(bs[b], ideal) + Excess(x, ideal)
  {
    var n := |bs| - 1;
    var bs' := bs[b := x];
    if b < n {
      NonIdealSet(bs[..n], ideal, b, x);
      assert bs'[..n] == bs[..n][b := x];
    } else {
      assert bs'[..n] == bs[..n];
    }
  }

  lemma {:induction false} TallyMore(bs: seq<Bucket>, ideal: int, nonideal: int, b: nat, x: Bucket)
    requires Tally(bs, ideal, nonideal) && b < |bs| && ideal >= 1 && bs[b].count >= 0 && x.count == bs[b].count + 1
    requires x.mult == if x.count > ideal && x.count > bs[b].mult * ideal then bs[b].mult + 1 else bs[b].mult
    ensures Tally(bs[b := x], ideal, if x.count > ideal then nonideal + 1 else nonideal)
  {
    GrantMore(ideal, bs[b].count, bs[b].mult);
    NonIdealSet(bs, ideal, b, x);
  }

  lemma {:induction false} TallyNone(bs: seq<Bucket>, ideal: int)
    requires ideal >= 0 && forall b :: 0 <= b < |bs| ==> bs[b] == EMPTY_BUCKET
    ensures Tally(bs, ideal, 0)
  {
    if bs != [] { TallyNone(bs[..|bs| - 1], ideal); }
  }

  /** n/b rounded up. */
  ghost predicate Ceiling(n: int, b: int, q: int) { (q - 1) * b < n <= q * b }

  lemma {:induction false} CeilingOf(n: int, b: int)
    requires b > 0
    ensures Ceiling(n, b, n / b + if n % b != 0 then 1 else 0)
    ensures n >= 1 ==> n / b + (if n % b != 0 then 1 else 0) >= 1
  {
    var q, r := n / b, n % b;
    assert n == q * b + r;
    assert (q - 1) * b == q * b - b && (q + 1) * b == q * b + b;
  }
}
