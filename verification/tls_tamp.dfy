/** The tlsrec loop of tamp (desync.c): which splits the list of parts asks for, and where in the
    original payload they fall. */
module TlsTamp {
  import opened Bytes
  import opened TlsObserver
  import opened TlsSplit

  /** One entry of the tlsrec list: an offset with flags, a repeat count and a stride. */
  datatype Part = Part(flag: int, pos: int, r: int, s: int)

  /** A split the list asks for: the repeat `nth` of a part. */
  datatype Request = Request(part: Part, nth: nat)

  /** The repeats of a part from `nth` on; a part is used at least once. */
  ghost function Repeats(part: Part, nth: nat): (rs: seq<Request>)
    ensures rs != [] <==> nth < part.r || nth == 0
    decreases if nth == 0 then (if part.r > 0 then part.r + 1 else 1) else if nth < part.r then part.r - nth else 0
  {
    if nth < part.r || nth == 0 then [Request(part, nth)] + Repeats(part, nth + 1) else []
  }

  ghost function Requests(parts: seq<Part>): seq<Request> {
    if parts == [] then [] else Repeats(parts[0], 0) + Requests(parts[1..])
  }

  /** How many payload bytes of the original record lie before the split that is asked for, given
      the value of gen_offset; an offset found in the buffer or counted from its end includes the
      record's header. */
  ghost function Place(q: Request, offset: int): int {
    (if q.part.pos < 0 || q.part.flag != 0 then offset - 5 else offset) + q.part.s * q.nth
  }

  /** The buffer when the payloads `ps` have been split off. */
  ghost function BufferAfter(h3: seq<Byte>, s0: seq<Byte>, r0: int, ps: seq<seq<Byte>>): seq<Byte>
    requires Total(ps) <= |s0| <= r0
  {
    Layout(h3, ps, r0 - Total(ps), s0[Total(ps)..])
  }

  /** What gen_offset says for request `q` when the payloads `ps` have been split off. */
  ghost function OffsetOf(off: (int, Part, seq<Byte>, int) -> int, q: Request, h3: seq<Byte>, s0: seq<Byte>, r0: int, ps: seq<seq<Byte>>): int
    requires Total(ps) <= |s0| <= r0
  {
    off(|ps|, q.part, BufferAfter(h3, s0, r0, ps), |EncodeAll(h3, ps)|)
  }

  /** The k-th piece ends where the k-th request puts the split. */
  ghost predicate PlacedAt(off: (int, Part, seq<Byte>, int) -> int, reqs: seq<Request>, h3: seq<Byte>, s0: seq<Byte>, r0: int, ps: seq<seq<Byte>>, k: nat)
    requires k < |ps| <= |reqs|
  {
    && Total(ps[..k]) <= Total(ps[..k + 1]) <= |s0| <= r0
    && Total(ps[..k + 1]) == Place(reqs[k], OffsetOf(off, reqs[k], h3, s0, r0, ps[..k]))
  }

  ghost predicate Placed(off: (int, Part, seq<Byte>, int) -> int, reqs: seq<Request>, h3: seq<Byte>, s0: seq<Byte>, r0: int, ps: seq<seq<Byte>>) {
    |ps| <= |reqs| && forall k: nat :: k < |ps| ==> PlacedAt(off, reqs, h3, s0, r0, ps, k)
  }

  lemma {:induction false} PlacedSnoc(off: (int, Part, seq<Byte>, int) -> int, reqs: seq<Request>, h3: seq<Byte>, s0: seq<Byte>, r0: int, ps: seq<seq<Byte>>, p: seq<Byte>)
    requires Placed(off, reqs, h3, s0, r0, ps) && |ps| < |reqs| && Total(ps) + |p| <= |s0| <= r0
    requires Total(ps) + |p| == Place(reqs[|ps|], OffsetOf(off, reqs[|ps|], h3, s0, r0, ps))
    ensures Placed(off, reqs, h3, s0, r0, ps + [p])
  {
    var qs := ps + [p];
    ConcatSnoc(ps, p);
    forall k: nat | k < |qs| ensures PlacedAt(off, reqs, h3, s0, r0, qs, k) {
      assert qs[..k] == ps[..k];
      if k < |ps| {
        assert PlacedAt(off, reqs, h3, s0, r0, ps, k) && qs[..k + 1] == ps[..k + 1];
      } else {
        assert qs[..k + 1] == qs && ps[..k] == ps;
      }
    }
  }

  /** Three splits ten bytes apart; a split one byte after a name found at 80, that is after 76
      payload bytes; a repeat count of zero is one split. */
  lemma {:induction false} PlacesOfParts(name: int, last: int)
    ensures var q := Requests([Part(0, 1, 3, 10)]); |q| == 3 && Place(q[0], 1) == 1 && Place(q[1], 1) == 11 && Place(q[2], 1) == 21
    ensures var q := Requests([Part(4, 1, 0, 0), Part(0, -1, 0, 7)]);
            |q| == 2 && q[0].part.flag == 4 && Place(q[0], name + 1) == name - 4 && Place(q[1], last) == last - 5
  {
    var a, b, c := Part(0, 1, 3, 10), Part(4, 1, 0, 0), Part(0, -1, 0, 7);
    assert Repeats(a, 3) == [] && Repeats(a, 2) == [Request(a, 2)] && Repeats(a, 1) == [Request(a, 1), Request(a, 2)];
    assert [a][1..] == [] && [b, c][1..] == [c] && [c][1..] == [];
    assert Requests([a]) == Repeats(a, 0) + [] && Requests([c]) == Repeats(c, 0) + [];
    assert Repeats(b, 0) == [Request(b, 0)] + Repeats(b, 1) && Repeats(c, 0) == [Request(c, 0)] + Repeats(c, 1);
    assert Requests([b, c]) == Repeats(b, 0) + Requests([c]);
  }

  /** Why the loop gives up request `q`: the split would lie before the last one or past the
      data, or there is no room for another header. */
  ghost predicate Refused(place: int, ps: seq<seq<Byte>>, s0: seq<Byte>, room: int) {
    place < Total(ps) || place > |s0| || room < 5
  }

  /** What the loop keeps: what the buffer holds, and that every split lies where it was asked for. */
  ghost predicate Kept(side: bool, w: seq<Byte>, off: (int, Part, seq<Byte>, int) -> int, reqs: seq<Request>,
                       h3: seq<Byte>, s0: seq<Byte>, r0: nat, ps: seq<seq<Byte>>, lp: nat, r: nat, tail: seq<Byte>) {
    if side then Held(w, h3, s0, r0, ps, lp, r, tail) else Placed(off, reqs, h3, s0, r0, ps)
  }

  ghost predicate Sound(w: seq<Byte>, off: (int, Part, seq<Byte>, int) -> int, reqs: seq<Request>,
                        h3: seq<Byte>, s0: seq<Byte>, r0: nat, ps: seq<seq<Byte>>, lp: nat, r: nat, tail: seq<Byte>) {
    forall side :: Kept(side, w, off, reqs, h3, s0, r0, ps, lp, r, tail)
  }

  lemma {:induction false} SoundParts(w: seq<Byte>, off: (int, Part, seq<Byte>, int) -> int, reqs: seq<Request>,
                                      h3: seq<Byte>, s0: seq<Byte>, r0: nat, ps: seq<seq<Byte>>, lp: nat, r: nat, tail: seq<Byte>)
    requires Sound(w, off, reqs, h3, s0, r0, ps, lp, r, tail)
    ensures Held(w, h3, s0, r0, ps, lp, r, tail) && Placed(off, reqs, h3, s0, r0, ps)
  {
    assert Kept(true, w, off, reqs, h3, s0, r0, ps, lp, r, tail) && Kept(false, w, off, reqs, h3, s0, r0, ps, lp, r, tail);
  }

  lemma {:induction false} SoundFrom(w: seq<Byte>, off: (int, Part, seq<Byte>, int) -> int, reqs: seq<Request>,
                                     h3: seq<Byte>, s0: seq<Byte>, r0: nat, ps: seq<seq<Byte>>, lp: nat, r: nat, tail: seq<Byte>)
    requires Held(w, h3, s0, r0, ps, lp, r, tail) && Placed(off, reqs, h3, s0, r0, ps)
    ensures Sound(w, off, reqs, h3, s0, r0, ps, lp, r, tail)
  {
  }

  /** The place of the next split in the buffer, which has grown by `rc` headers. */
  method Position(part: Part, rc: nat, rep: int, offset: int) returns (pos: int)
    requires rep <= part.r
    ensures pos == 5 * rc + Place(Request(part, part.r - rep), offset)
  {
    pos := rc * 5;
    pos := pos + offset;
    if part.pos < 0 || part.flag != 0 { pos := pos - 5; }
    pos := pos + part.s * (part.r - rep);
  }

  /** The body of the loop for the next request; `ok` is false where the loop breaks off. */
  method SplitNext(buf: array<Byte>, lp: nat, n: nat, rc: nat, part: Part, rep: int, off: (int, Part, seq<Byte>, int) -> int,
                   ghost parts: seq<Part>, ghost i: int, ghost reqs: seq<Request>, ghost h3: seq<Byte>, ghost s0: seq<Byte>, ghost r0: nat, ghost ps: seq<seq<Byte>>, ghost r: nat, ghost tail: seq<Byte>)
    returns (ok: bool, cut: int, ghost ps': seq<seq<Byte>>, ghost r': nat, ghost tail': seq<Byte>)
    requires n <= buf.Length && Sound(buf[..n], off, reqs, h3, s0, r0, ps, lp, r, tail)
    requires rc == |ps| && Next(reqs, rc, part, rep, parts, i)
    modifies buf
    ensures Total(ps) <= |s0| <= r0
    ensures !ok ==> && buf[..n] == old(buf[..n]) && ps' == ps && r' == r && tail' == tail
                    && Refused(Place(reqs[rc], OffsetOf(off, reqs[rc], h3, s0, r0, ps)), ps, s0, buf.Length - n)
    ensures ok ==> && 0 <= cut && n + 5 <= buf.Length && |ps'| == |ps| + 1 && Ahead(reqs, rc + 1, part, rep - 1, parts, i)
                   && Sound(buf[..n + 5], off, reqs, h3, s0, r0, ps', lp + 5 + cut, r', tail')
  {
    SoundParts(buf[..n], off, reqs, h3, s0, r0, ps, lp, r, tail);
    AheadTake(reqs, rc, part, rep, parts, i);
    ps', r', tail' := ps, r, tail;
    HeldRest(buf[..n], h3, s0, r0, ps, lp, r, tail);
    var pos := Position(part, rc, rep, off(rc, part, buf[..n], lp));
    cut := pos - lp;
    ok := pos >= lp;
    if !ok { return; }
    ok := SplitOnce(buf, lp, n, cut, h3, s0, r0, ps, r, tail);
    if ok {
      PlacedSnoc(off, reqs, h3, s0, r0, ps, tail[..cut]);
      ps', r', tail' := ps + [tail[..cut]], r - cut, tail[cut..];
      SoundFrom(buf[..n + 5], off, reqs, h3, s0, r0, ps', lp + 5 + cut, r', tail');
    }
  }

  /** The tlsrec loop for any parts and any offsets (`off` stands for gen_offset, which also looks
      at the buffer and may draw random numbers).  The buffer holds one record that reaches at
      least to its end.  The loop stays inside the buffer and ends; the payloads of the records
      it leaves are the original payload, their declared lengths add up to the original one,
      every split lies where the list asks for it in the original payload, and a split is left
      out only with all that follow it, when it is refused. */
  method SplitRecords(buf: array<Byte>, n0: nat, parts: seq<Part>, off: (int, Part, seq<Byte>, int) -> int)
    returns (n: nat, splits: nat, ghost ps: seq<seq<Byte>>, ghost r: nat, ghost tail: seq<Byte>)
    requires 5 <= n0 <= buf.Length && n0 - 5 <= Be16(buf[3], buf[4])
    modifies buf
    ensures n == n0 + 5 * splits <= buf.Length && splits == |ps|
    ensures var s := old(buf[..n0]);
            Held(buf[..n], s[..3], s[5..], Be16(s[3], s[4]), ps, |EncodeAll(s[..3], ps)|, r, tail)
    ensures var s := old(buf[..n0]);
            var reqs, h3, s0, r0 := Requests(parts), s[..3], s[5..], Be16(s[3], s[4]);
            && Placed(off, reqs, h3, s0, r0, ps) && Total(ps) <= |s0|
            && (splits < |reqs| ==> Refused(Place(reqs[splits], OffsetOf(off, reqs[splits], h3, s0, r0, ps)), ps, s0, buf.Length - n))
  {
    ghost var w0 := buf[..n0];
    ghost var h3, s0, r0 := w0[..3], w0[5..], Be16(w0[3], w0[4]);
    ghost var lp;
    Begin(w0, off, parts);
    n, splits, ps, lp, r, tail := SplitLoop(buf, n0, parts, off, h3, s0, r0);
    SoundParts(buf[..n], off, Requests(parts), h3, s0, r0, ps, lp, r, tail);
    HeldRest(buf[..n], h3, s0, r0, ps, lp, r, tail);
  }

  method SplitLoop(buf: array<Byte>, n0: nat, parts: seq<Part>, off: (int, Part, seq<Byte>, int) -> int, ghost h3: seq<Byte>, ghost s0: seq<Byte>, ghost r0: nat)
    returns (n: nat, splits: nat, ghost ps: seq<seq<Byte>>, ghost at: nat, ghost r: nat, ghost tail: seq<Byte>)
    requires n0 <= buf.Length && Sound(buf[..n0], off, Requests(parts), h3, s0, r0, [], 0, r0, s0)
    modifies buf
    ensures n == n0 + 5 * splits <= buf.Length && splits == |ps| && Sound(buf[..n], off, Requests(parts), h3, s0, r0, ps, at, r, tail)
    ensures var reqs := Requests(parts);
            splits < |reqs| ==> && Total(ps) <= |s0| <= r0
                                && Refused(Place(reqs[splits], OffsetOf(off, reqs[splits], h3, s0, r0, ps)), ps, s0, buf.Length - n)
  {
    ghost var reqs := Requests(parts);
    n, ps, r, tail := n0, [], r0, s0;
    var lp: nat, i, rep, rc: nat := 0, 0, 0, 0;
    var part := Part(0, 0, 0, 0);
    AheadFirst(parts);
    while rep > 0 || i < |parts|
      invariant n0 + 5 * rc == n <= buf.Length && rc == |ps|
      invariant Sound(buf[..n], off, reqs, h3, s0, r0, ps, lp, r, tail)
      invariant Ahead(reqs, rc, part, rep, parts, i)
      decreases |parts| - i, rep
    {
      AheadFetch(reqs, rc, part, rep, parts, i);
      if rep <= 0 {
        part := parts[i];
        rep, i := part.r, i + 1;
      }
      var ok, cut;
      ok, cut, ps, r, tail := SplitNext(buf, lp, n, rc, part, rep, off, parts, i, reqs, h3, s0, r0, ps, r, tail);
      if !ok { return n, rc, ps, lp, r, tail; }
      n := n + 5;
      lp := lp + 5 + cut;
      rc, rep := rc + 1, rep - 1;
    }
    AheadFetch(reqs, rc, part, rep, parts, i);
    splits, at := rc, lp;
  }

  /** What is still asked for after `rc` splits: the repeats of the current part, of which `rep`
      are left, then the rest. */
  ghost predicate Ahead(reqs: seq<Request>, rc: int, part: Part, rep: int, parts: seq<Part>, i: int) {
    && 0 <= i <= |parts| && 0 <= rc <= |reqs| && rep <= part.r
    && reqs[rc..] == (if rep > 0 then Repeats(part, part.r - rep) else []) + Requests(parts[i..])
  }

  lemma {:induction false} Begin(w: seq<Byte>, off: (int, Part, seq<Byte>, int) -> int, parts: seq<Part>)
    requires |w| >= 5 && |w| - 5 <= Be16(w[3], w[4])
    ensures var r0 := Be16(w[3], w[4]); Sound(w, off, Requests(parts), w[..3], w[5..], r0, [], 0, r0, w[5..])
  {
    InitialHeld(w);
  }

  lemma {:induction false} AheadFirst(parts: seq<Part>)
    ensures Ahead(Requests(parts), 0, Part(0, 0, 0, 0), 0, parts, 0)
  {
    assert parts[0..] == parts;
  }

  /** The next request is for `part`. */
  ghost predicate Next(reqs: seq<Request>, rc: int, part: Part, rep: int, parts: seq<Part>, i: int) {
    && 0 <= i <= |parts| && 0 <= rc < |reqs| && rep <= part.r && (rep > 0 || rep == part.r)
    && reqs[rc..] == Repeats(part, part.r - rep) + Requests(parts[i..])
  }

  lemma {:induction false} AheadFetch(reqs: seq<Request>, rc: int, part: Part, rep: int, parts: seq<Part>, i: int)
    requires Ahead(reqs, rc, part, rep, parts, i)
    ensures 0 <= rc <= |reqs| && 0 <= i <= |parts|
    ensures if rep > 0 then Next(reqs, rc, part, rep, parts, i)
            else if i < |parts| then Next(reqs, rc, parts[i], parts[i].r, parts, i + 1)
            else rc == |reqs|
  {
    if rep <= 0 && i < |parts| {
      assert parts[i..][0] == parts[i] && parts[i..][1..] == parts[i + 1..];
      assert reqs[rc..] == Repeats(parts[i], 0) + Requests(parts[i + 1..]);
    }
  }

  lemma {:induction false} AheadTake(reqs: seq<Request>, rc: int, part: Part, rep: int, parts: seq<Part>, i: int)
    requires Next(reqs, rc, part, rep, parts, i)
    ensures reqs[rc] == Request(part, part.r - rep) && Ahead(reqs, rc + 1, part, rep - 1, parts, i)
  {
    var nth := part.r - rep;
    var more := Repeats(part, nth + 1);
    assert Repeats(part, nth) == [Request(part, nth)] + more;
    assert reqs[rc] == reqs[rc..][0] && reqs[rc + 1..] == reqs[rc..][1..];
  }

  lemma {:induction false} HeldRest(w: seq<Byte>, h3: seq<Byte>, s0: seq<Byte>, r0: nat, ps: seq<seq<Byte>>, lp: nat, r: nat, tail: seq<Byte>)
    requires Held(w, h3, s0, r0, ps, lp, r, tail)
    ensures Total(ps) <= |s0| <= r0 && w == BufferAfter(h3, s0, r0, ps) && lp == 5 * |ps| + Total(ps) && |s0| == Total(ps) + |tail|
  {
    LayoutLen(w, h3, s0, r0, ps, lp, r, tail);
    assert s0[Total(ps)..] == tail;
  }
}
