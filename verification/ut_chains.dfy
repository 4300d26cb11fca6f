/** The bucket chains of uthash.h: doubly linked lists of elements with the same bucket number, what
    adding, deleting and redistributing do to them, and the invariant its own integrity check states. */
module UtChains {
  import opened Sequences
  import opened LinkedLists

  type Key = seq<int>

  datatype Elem = Elem(key: Key, hashv: nat)

  datatype Bucket = Bucket(head: int, count: int, mult: nat)

  const EMPTY_BUCKET := Bucket(NIL, 0, 0)

  /** hashv & (n - 1), n being a power of two. */
  function ToBkt(hashv: nat, n: nat): (b: nat)
    requires n > 0
    ensures b < n && hashv == n * (hashv / n) + b
  {
    hashv % n
  }

  ghost predicate ChainOk(hh: map<int, Link>, b: Bucket, chain: seq<int>) {
    ListOk(hh, chain, b.head, At(chain, |chain| - 1)) && b.count == |chain|
  }

  /** The bucket an element belongs to. */
  ghost predicate Placed(elems: map<int, Elem>, n: nat, b: nat, p: int) {
    n > 0 && p in elems && ToBkt(elems[p].hashv, n) == b
  }

  /** Every bucket is a well-linked chain of `count` elements that belong there. */
  ghost predicate Chains(elems: map<int, Elem>, hh: map<int, Link>, bs: seq<Bucket>, cs: seq<seq<int>>) {
    && |bs| == |cs| > 0
    && (forall b :: 0 <= b < |bs| ==> ChainOk(hh, bs[b], cs[b]))
    && (forall b, p :: 0 <= b < |cs| && p in cs[b] ==> Placed(elems, |cs|, b, p))
  }

  ghost function Total(cs: seq<seq<int>>): nat { if cs == [] then 0 else Total(cs[..|cs| - 1]) + |cs[|cs| - 1]| }

  lemma {:induction false} TotalSet(cs: seq<seq<int>>, b: nat, c: seq<int>)
    requires b < |cs|
    ensures Total(cs[b := c]) == Total(cs) - |cs[b]| + |c|
  {
    var n := |cs| - 1;
    if b == n {
      assert cs[b := c][..n] == cs[..n];
    } else {
      TotalSet(cs[..n], b, c);
      assert cs[b := c][..n] == cs[..n][b := c];
    }
  }

  /** Freshly cleared buckets. */
  function NoBuckets(n: nat): (r: seq<Bucket>)
    ensures |r| == n && forall i :: 0 <= i < n ==> r[i] == EMPTY_BUCKET
  {
    seq(n, i => EMPTY_BUCKET)
  }

  const NO_ELEMENTS: seq<int> := []

  ghost function NoChains(n: nat): (r: seq<seq<int>>)
    ensures |r| == n && forall i :: 0 <= i < n ==> r[i] == []
  {
    seq(n, i => NO_ELEMENTS)
  }

  lemma {:induction false} TotalEmpty(n: nat)
    ensures Total(NoChains(n)) == 0
  {
    if n > 0 {
      TotalEmpty(n - 1);
      assert NoChains(n)[..n - 1] == NoChains(n - 1);
    }
  }

  // ----- one chain -----

  /** The links after an element has been put in front of a chain. */
  ghost function AfterPush(hh: map<int, Link>, head: int, p: int): map<int, Link>
    requires head == NIL || head in hh
  {
    var a := hh[p := Link(NIL, head)];
    if head != NIL then a[head := hh[head].(prev := p)] else a
  }

  lemma {:induction false} PushChain(hh: map<int, Link>, b: Bucket, chain: seq<int>, p: int)
    requires ChainOk(hh, b, chain) && p !in chain && p >= 0
    ensures b.head == NIL || b.head in hh
    ensures ChainOk(AfterPush(hh, b.head, p), b.(head := p, count := b.count + 1), [p] + chain)
  {
    var r := [p] + chain;
    if chain != [] { assert Linked(hh, chain, 0); }
    var hh' := AfterPush(hh, b.head, p);
    forall k | 0 <= k < |r| ensures Linked(hh', r, k) {
      if k > 0 {
        assert Linked(hh, chain, k - 1) && chain[k - 1] in chain;
        assert r[k] == chain[k - 1] && At(r, k + 1) == At(chain, k);
        assert k > 1 ==> At(r, k - 1) == At(chain, k - 2);
      } else {
        assert At(r, 1) == At(chain, 0);
      }
    }
    assert At(r, |r| - 1) == if chain == [] then p else At(chain, |chain| - 1);
  }

  /** Links of elements outside a chain do not matter to it. */
  lemma {:induction false} ChainFrame(hh: map<int, Link>, hh': map<int, Link>, b: Bucket, chain: seq<int>)
    requires ChainOk(hh, b, chain) && forall p :: p in chain ==> p in hh && p in hh' && hh'[p] == hh[p]
    ensures ChainOk(hh', b, chain)
  {
    forall k | 0 <= k < |chain| ensures Linked(hh', chain, k) { assert Linked(hh, chain, k) && chain[k] in chain; }
  }

  lemma {:induction false} ChainMembers(hh: map<int, Link>, b: Bucket, chain: seq<int>)
    requires ChainOk(hh, b, chain)
    ensures forall p :: p in chain ==> p in hh && p >= 0
    ensures b.head != NIL ==> b.head in chain
    ensures b.head == NIL <==> chain == []
  {
    forall p | p in chain ensures p in hh && p >= 0 {
      var k :| 0 <= k < |chain| && chain[k] == p;
      assert Linked(hh, chain, k);
    }
  }

  // ----- adding -----

  /** An element is put in front of the chain of its bucket. */
  lemma {:induction false} PushKeeps(elems: map<int, Elem>, hh: map<int, Link>, bs: seq<Bucket>, cs: seq<seq<int>>, p: int, mult: nat)
    requires Chains(elems, hh, bs, cs) && p >= 0 && p in elems && forall c :: 0 <= c < |cs| ==> p !in cs[c]
    ensures var b := ToBkt(elems[p].hashv, |bs|);
            && (bs[b].head == NIL || bs[b].head in hh)
            && Chains(elems, AfterPush(hh, bs[b].head, p), bs[b := Bucket(p, bs[b].count + 1, mult)], cs[b := [p] + cs[b]])
  {
    var b := ToBkt(elems[p].hashv, |bs|);
    PushChain(hh, bs[b], cs[b], p);
    ChainMembers(hh, bs[b], cs[b]);
    var hh' := AfterPush(hh, bs[b].head, p);
    var bs', cs' := bs[b := Bucket(p, bs[b].count + 1, mult)], cs[b := [p] + cs[b]];
    forall c | 0 <= c < |bs'| ensures ChainOk(hh', bs'[c], cs'[c]) {
      if c != b {
        ChainMembers(hh, bs[c], cs[c]);
        assert bs[b].head != NIL ==> bs[b].head !in cs[c];
        ChainFrame(hh, hh', bs[c], cs[c]);
      }
    }
  }

  // ----- deleting -----

  /** HASH_DEL_IN_BKT on the k-th element of bucket b. */
  lemma {:induction false} DelInChain(elems: map<int, Elem>, hh: map<int, Link>, bs: seq<Bucket>, cs: seq<seq<int>>, b: nat, k: nat)
    requires Chains(elems, hh, bs, cs) && b < |cs| && k < |cs[b]|
    ensures DelOk(hh, cs[b][k])
    ensures var p := cs[b][k];
            Chains(elems, AfterDel(hh, p), bs[b := bs[b].(head := if bs[b].head == p then hh[p].next else bs[b].head, count := bs[b].count - 1)],
                   cs[b := cs[b][..k] + cs[b][k + 1..]])
  {
    var p, chain := cs[b][k], cs[b];
    DelKeeps(hh, chain, bs[b].head, At(chain, |chain| - 1), k);
    assert Linked(hh, chain, k);
    var hh', r := AfterDel(hh, p), chain[..k] + chain[k + 1..];
    var bs' := bs[b := bs[b].(head := if bs[b].head == p then hh[p].next else bs[b].head, count := bs[b].count - 1)];
    DelHead(hh, chain, bs[b].head, k);
    assert ChainOk(hh', bs'[b], r);
    DelNeighbours(hh, chain, k);
    forall c | 0 <= c < |bs'| && c != b ensures ChainOk(hh', bs'[c], cs[c]) {
      ChainMembers(hh, bs[c], cs[c]);
      DelOthers(elems, hh, bs, cs, b, k, c);
      ChainFrame(hh, hh', bs[c], cs[c]);
    }
    assert forall q :: q in r ==> q in chain;
  }

  lemma {:induction false} DelHead(hh: map<int, Link>, chain: seq<int>, head: int, k: nat)
    requires ListOk(hh, chain, head, At(chain, |chain| - 1)) && k < |chain|
    ensures chain[k] in hh && (head == chain[k] <==> hh[chain[k]].prev == NIL)
    ensures var r := chain[..k] + chain[k + 1..];
            At(r, |r| - 1) == (if hh[chain[k]].next == NIL then hh[chain[k]].prev else At(chain, |chain| - 1))
  {
    assert Linked(hh, chain, k);
    if k > 0 { assert Linked(hh, chain, k - 1); }
    if k + 1 < |chain| { assert Linked(hh, chain, k + 1); }
  }

  lemma {:induction false} DelNeighbours(hh: map<int, Link>, chain: seq<int>, k: nat)
    requires k < |chain| && Linked(hh, chain, k)
    ensures var a := hh[chain[k]]; (a.prev == NIL || a.prev in chain) && (a.next == NIL || a.next in chain)
  {
  }

  lemma {:induction false} DelOthers(elems: map<int, Elem>, hh: map<int, Link>, bs: seq<Bucket>, cs: seq<seq<int>>, b: nat, k: nat, c: nat)
    requires Chains(elems, hh, bs, cs) && b < |cs| && k < |cs[b]| && c < |cs| && c != b && DelOk(hh, cs[b][k]) && Linked(hh, cs[b], k)
    ensures forall q :: q in cs[c] && q in hh ==> q in AfterDel(hh, cs[b][k]) && AfterDel(hh, cs[b][k])[q] == hh[q]
  {
    DelNeighbours(hh, cs[b], k);
    forall q | q in cs[c] ensures q !in cs[b] {}
  }

  // ----- redistributing -----

  /** What is left of an old chain while it is being taken apart: only its forward links count. */
  ghost predicate NextOk(hh: map<int, Link>, s: seq<int>, k: int) {
    0 <= k < |s| && s[k] in hh && s[k] >= 0 && hh[s[k]].next == At(s, k + 1)
  }

  ghost predicate Rest(hh: map<int, Link>, s: seq<int>) { Distinct(s) && forall k :: 0 <= k < |s| ==> NextOk(hh, s, k) }

  /** The elements already moved are exactly those in the new chains. */
  ghost predicate MovedOk(elems: map<int, Elem>, nc: seq<seq<int>>, moved: set<int>) {
    && (forall p :: p in moved ==> p in elems && |nc| > 0 && p in nc[ToBkt(elems[p].hashv, |nc|)])
    && (forall b, p :: 0 <= b < |nc| && p in nc[b] ==> p in moved)
  }

  ghost predicate Apart(elems: map<int, Elem>, s: seq<int>, moved: set<int>) { forall p :: p in s ==> p in elems && p !in moved }

  ghost predicate Later(elems: map<int, Elem>, hh: map<int, Link>, bs: seq<Bucket>, cs: seq<seq<int>>, i: int, moved: set<int>) {
    forall c :: i <= c < |cs| ==> LaterChain(elems, hh, bs, cs, c, moved)
  }

  ghost predicate LaterChain(elems: map<int, Elem>, hh: map<int, Link>, bs: seq<Bucket>, cs: seq<seq<int>>, c: int, moved: set<int>) {
    0 <= c < |cs| == |bs| && Rest(hh, cs[c]) && Apart(elems, cs[c], moved) && bs[c].head == At(cs[c], 0)
  }

  lemma {:induction false} ChainRest(hh: map<int, Link>, b: Bucket, chain: seq<int>)
    requires ChainOk(hh, b, chain)
    ensures Rest(hh, chain)
  {
    forall k | 0 <= k < |chain| ensures NextOk(hh, chain, k) { assert Linked(hh, chain, k); }
  }

  lemma {:induction false} RestFrame(hh: map<int, Link>, hh': map<int, Link>, s: seq<int>)
    requires Rest(hh, s) && forall q :: q in s && q in hh ==> q in hh' && hh'[q].next == hh[q].next
    ensures Rest(hh', s)
  {
    forall k | 0 <= k < |s| ensures NextOk(hh', s, k) { assert NextOk(hh, s, k) && s[k] in s; }
  }

  lemma {:induction false} RestTail(hh: map<int, Link>, s: seq<int>)
    requires Rest(hh, s) && s != []
    ensures s[0] in hh && s[0] >= 0 && hh[s[0]].next == At(s[1..], 0) && Rest(hh, s[1..]) && s[0] !in s[1..]
  {
    assert NextOk(hh, s, 0);
    var t := s[1..];
    forall k | 0 <= k < |t| ensures NextOk(hh, t, k) { assert NextOk(hh, s, k + 1) && t[k] == s[k + 1]; }
  }

  /** One element changes over: the new chains take it, what is left of the old ones is untouched. */
  lemma {:induction false} MoveOne(elems: map<int, Elem>, hh: map<int, Link>, nb: seq<Bucket>, nc: seq<seq<int>>, moved: set<int>, rest: seq<int>, mult: nat)
    requires Chains(elems, hh, nb, nc) && MovedOk(elems, nc, moved) && Rest(hh, rest) && rest != [] && Apart(elems, rest, moved)
    ensures rest[0] in elems && rest[0] in hh && hh[rest[0]].next == At(rest[1..], 0)
    ensures var p := rest[0];
            var b := ToBkt(elems[p].hashv, |nb|);
            && (nb[b].head == NIL || nb[b].head in hh)
            && var hh', nc' := AfterPush(hh, nb[b].head, p), nc[b := [p] + nc[b]];
               && Chains(elems, hh', nb[b := Bucket(p, nb[b].count + 1, mult)], nc') && MovedOk(elems, nc', moved + {p})
               && Rest(hh', rest[1..]) && Apart(elems, rest[1..], moved + {p}) && Total(nc') == Total(nc) + 1
  {
    var p := rest[0];
    assert p in rest;
    RestTail(hh, rest);
    var b := ToBkt(elems[p].hashv, |nb|);
    assert forall c :: 0 <= c < |nc| ==> p !in nc[c];
    PushKeeps(elems, hh, nb, nc, p, mult);
    PushNext(hh, nb[b].head, p);
    RestFrame(hh, AfterPush(hh, nb[b].head, p), rest[1..]);
    TotalSet(nc, b, [p] + nc[b]);
    MovedMore(elems, nc, moved, p);
    forall q | q in rest[1..] ensures q in rest && q != p {}
  }

  lemma {:induction false} PushNext(hh: map<int, Link>, head: int, p: int)
    requires head == NIL || head in hh
    ensures forall q :: q in hh && q != p && (q == head ==> p != head) ==> q in AfterPush(hh, head, p) && AfterPush(hh, head, p)[q].next == hh[q].next
  {
  }

  lemma {:induction false} MovedMore(elems: map<int, Elem>, nc: seq<seq<int>>, moved: set<int>, p: int)
    requires MovedOk(elems, nc, moved) && p in elems && |nc| > 0
    ensures var b := ToBkt(elems[p].hashv, |nc|); MovedOk(elems, nc[b := [p] + nc[b]], moved + {p})
  {
    var b := ToBkt(elems[p].hashv, |nc|);
    var nc' := nc[b := [p] + nc[b]];
    assert nc'[b] == [p] + nc[b];
  }

  /** The chains after the current one are untouched by the move. */
  lemma {:induction false} LaterKept(elems: map<int, Elem>, hh: map<int, Link>, hh': map<int, Link>, bs: seq<Bucket>, cs: seq<seq<int>>, i: int, moved: set<int>, p: int)
    requires i >= 0 && Later(elems, hh, bs, cs, i, moved) && (forall q :: q in hh && q != p ==> q in hh' && hh'[q].next == hh[q].next)
    requires forall c :: i <= c < |cs| ==> p !in cs[c]
    ensures Later(elems, hh', bs, cs, i, moved + {p})
  {
    forall c | i <= c < |cs| ensures LaterChain(elems, hh', bs, cs, c, moved + {p}) {
      assert LaterChain(elems, hh, bs, cs, c, moved);
      RestFrame(hh, hh', cs[c]);
    }
  }
}
