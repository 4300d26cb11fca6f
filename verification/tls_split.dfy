/** ByeDPI's splitting of one TLS record into several: part_tls (packets.c), which works in place on
    the send buffer, and what is left after any number of splits. */
module TlsSplit {
  import opened Bytes
  import opened TlsObserver

  function Hi(n: nat): Byte { (n / 256) % 256 }
  function Lo(n: nat): Byte { n % 256 }

  lemma {:induction false} HiLo(n: nat)
    requires n < 65536
    ensures Be16(Hi(n), Lo(n)) == n
  {
  }

  /** A record: type and version (three bytes), length, payload. */
  ghost function Encode(h3: seq<Byte>, p: seq<Byte>): seq<Byte> {
    h3 + [Hi(|p|), Lo(|p|)] + p
  }

  ghost function EncodeAll(h3: seq<Byte>, ps: seq<seq<Byte>>): seq<Byte> {
    if ps == [] then [] else EncodeAll(h3, ps[..|ps| - 1]) + Encode(h3, ps[|ps| - 1])
  }

  ghost function Total(ps: seq<seq<Byte>>): nat { |Concat(ps)| }

  /** The bytes of a buffer: finished records, then a record of declared length `r` of which the
      bytes `tail` are at hand. */
  ghost function Layout(h3: seq<Byte>, ps: seq<seq<Byte>>, r: nat, tail: seq<Byte>): seq<Byte> {
    EncodeAll(h3, ps) + (h3 + [Hi(r), Lo(r)] + tail)
  }

  /** Moves the bytes from `at` to `n` up by the length of a record header. */
  method MoveUp(buf: array<Byte>, at: nat, n: nat)
    requires at <= n && n + 5 <= buf.Length
    modifies buf
    ensures forall i :: 0 <= i < at ==> buf[i] == old(buf[i])
    ensures buf[at + 5..n + 5] == old(buf[at..n])
    ensures buf[n + 5..] == old(buf[n + 5..])
  {
    forall i | at <= i < n { buf[i + 5] := buf[i]; }
    ghost var moved, was := buf[at + 5..n + 5], old(buf[at..n]);
    forall j | 0 <= j < n - at ensures moved[j] == was[j] {
      assert buf[(at + j) + 5] == old(buf[at + j]);
    }
  }

  /** The bytes after a cut at `at` of the record at `lp` with declared length `r`. */
  ghost function CutBytes(s: seq<Byte>, lp: nat, at: nat, r: nat): (b: seq<Byte>)
    requires lp + 5 <= at <= |s| && at - lp - 5 <= r
    ensures |b| == |s| + 5
  {
    var pos := at - lp - 5;
    s[..lp + 3] + [Hi(pos), Lo(pos)] + s[lp + 5..at] + s[lp..lp + 3] + [Hi(r - pos), Lo(r - pos)] + s[at..]
  }

  lemma {:induction false} Assemble(b: seq<Byte>, s: seq<Byte>, lp: nat, at: nat, r: nat)
    requires lp + 5 <= at <= |s| && |b| == |s| + 5 && at - lp - 5 <= r
    requires b[..lp + 3] == s[..lp + 3] && b[lp + 5..at] == s[lp + 5..at] && b[at + 5..] == s[at..]
    requires b[at..at + 3] == s[lp..lp + 3]
    requires var pos := at - lp - 5;
             b[lp + 3] == Hi(pos) && b[lp + 4] == Lo(pos) && b[at + 3] == Hi(r - pos) && b[at + 4] == Lo(r - pos)
    ensures b == CutBytes(s, lp, at, r)
  {
    assert b == b[..lp + 3] + b[lp + 3..lp + 5] + b[lp + 5..at] + b[at..at + 3] + b[at + 3..at + 5] + b[at + 5..];
  }

  lemma {:induction false} SamePrefix(b: seq<Byte>, s: seq<Byte>, lp: nat, at: nat)
    requires lp + 5 <= at <= |s| <= |b| && forall i :: 0 <= i < at ==> b[i] == s[i]
    ensures b[..lp + 3] == s[..lp + 3] && b[lp + 5..at] == s[lp + 5..at] && b[lp..lp + 3] == s[lp..lp + 3]
  {
  }

  /** part_tls on buffer + lp: the record there is cut after `pos` payload bytes by moving the
      rest up and writing a second header. */
  method PartTls(buf: array<Byte>, lp: nat, n: nat, pos: int) returns (res: int)
    requires lp <= n <= buf.Length
    modifies buf
    ensures res == 0 <==> n - lp < 3 || buf.Length - n < 5 || pos < 0 || pos + 5 > n - lp
    ensures res == 0 ==> buf[..] == old(buf[..])
    ensures res != 0 ==>
              && 0 <= pos && lp + 5 + pos <= n && n + 5 <= buf.Length
              && var s := old(buf[..n]);
                 var r := Be16(s[lp + 3], s[lp + 4]);
                 if r < pos then res == n - lp && buf[..] == old(buf[..])
                 else res == 5 && buf[..n + 5] == CutBytes(s, lp, lp + 5 + pos, r)
  {
    if n - lp < 3 || buf.Length - n < 5 || pos < 0 || pos + 5 > n - lp { return 0; }
    var r := Be16(buf[lp + 3], buf[lp + 4]);
    if r < pos { return n - lp; }
    ghost var s := buf[..n];
    var at := lp + 5 + pos;
    MoveUp(buf, at, n);
    SamePrefix(buf[..], s, lp, at);
    assert buf[at + 5..n + 5] == s[at..];
    WriteHeaders(buf, lp, at, n, pos, r - pos);
    ghost var b := buf[..n + 5];
    assert b[at + 5..] == buf[at + 5..n + 5] && b[at..at + 3] == buf[at..at + 3];
    assert b[..lp + 3] == buf[..lp + 3] && b[lp + 5..at] == buf[lp + 5..at];
    Assemble(b, s, lp, at, r);
    res := 5;
  }

  method WriteHeaders(buf: array<Byte>, lp: nat, at: nat, n: nat, first: nat, second: nat)
    requires lp + 5 <= at <= n && n + 5 <= buf.Length
    modifies buf
    ensures buf[..lp + 3] == old(buf[..lp + 3]) && buf[lp + 5..at] == old(buf[lp + 5..at])
    ensures buf[at + 5..n + 5] == old(buf[at + 5..n + 5])
    ensures buf[at..at + 3] == old(buf[lp..lp + 3])
    ensures buf[lp + 3] == Hi(first) && buf[lp + 4] == Lo(first)
    ensures buf[at + 3] == Hi(second) && buf[at + 4] == Lo(second)
  {
    buf[at], buf[at + 1], buf[at + 2] := buf[lp], buf[lp + 1], buf[lp + 2];
    buf[lp + 3], buf[lp + 4] := Hi(first), Lo(first);
    buf[at + 3], buf[at + 4] := Hi(second), Lo(second);
  }

  // ----- between splits -----

  /** What the buffer holds between splits, `s0` being the original record's payload and `r0` its
      declared length. */
  ghost predicate Held(w: seq<Byte>, h3: seq<Byte>, s0: seq<Byte>, r0: nat, ps: seq<seq<Byte>>, lp: nat, r: nat, tail: seq<Byte>) {
    && |h3| == 3 && w == Layout(h3, ps, r, tail) && lp == |EncodeAll(h3, ps)|
    && Concat(ps) + tail == s0 && Total(ps) + r == r0 && |tail| <= r < 65536
    && |w| == 5 + |s0| + 5 * |ps|
  }

  lemma {:induction false} ConcatSnoc(ps: seq<seq<Byte>>, p: seq<Byte>)
    ensures Concat(ps + [p]) == Concat(ps) + p
  {
    if ps == [] {
      assert [p][1..] == [] && Concat([p]) == p + Concat([p][1..]);
    } else {
      ConcatSnoc(ps[1..], p);
      assert (ps + [p])[1..] == ps[1..] + [p];
    }
  }

  lemma {:induction false} CutOpen(done: seq<Byte>, h3: seq<Byte>, r: nat, tail: seq<Byte>, pos: nat)
    requires |h3| == 3 && pos <= |tail| && pos <= r
    ensures var w, lp := done + (h3 + [Hi(r), Lo(r)] + tail), |done|;
            && w[lp + 3] == Hi(r) && w[lp + 4] == Lo(r)
            && CutBytes(w, lp, lp + 5 + pos, r) ==
               (done + Encode(h3, tail[..pos])) + (h3 + [Hi(r - pos), Lo(r - pos)] + tail[pos..])
  {
    var open, lp, p := h3 + [Hi(r), Lo(r)] + tail, |done|, tail[..pos];
    var w, at := done + open, lp + 5 + pos;
    assert w[..lp + 3] == done + h3 && w[lp..lp + 3] == h3;
    assert w[lp + 5..at] == p;
    assert w[at..] == tail[pos..];
    CutLayout(done, h3, p, r - pos, tail[pos..]);
  }

  lemma {:induction false} CutLayout(done: seq<Byte>, h3: seq<Byte>, p: seq<Byte>, r: nat, rest: seq<Byte>)
    ensures (done + h3) + [Hi(|p|), Lo(|p|)] + p + h3 + [Hi(r), Lo(r)] + rest ==
            (done + Encode(h3, p)) + (h3 + [Hi(r), Lo(r)] + rest)
  {
  }

  /** A cut turns the open record into a finished one and a shorter open one. */
  lemma {:induction false} CutHeld(w: seq<Byte>, h3: seq<Byte>, s0: seq<Byte>, r0: nat, ps: seq<seq<Byte>>, lp: nat, r: nat, tail: seq<Byte>, pos: nat)
    requires Held(w, h3, s0, r0, ps, lp, r, tail) && pos <= |tail|
    ensures |w| >= lp + 5 && Be16(w[lp + 3], w[lp + 4]) == r && lp + 5 + pos <= |w|
    ensures Held(CutBytes(w, lp, lp + 5 + pos, r), h3, s0, r0, ps + [tail[..pos]], lp + 5 + pos, r - pos, tail[pos..])
  {
    CutOpen(EncodeAll(h3, ps), h3, r, tail, pos);
    HiLo(r);
    EncodeSnoc(h3, ps, tail[..pos]);
    PayloadCut(ps, tail, pos);
    var w', qs := CutBytes(w, lp, lp + 5 + pos, r), ps + [tail[..pos]];
    assert w' == Layout(h3, qs, r - pos, tail[pos..]);
    assert lp + 5 + pos == |EncodeAll(h3, qs)|;
    assert |tail[pos..]| <= r - pos && Total(qs) + (r - pos) == r0;
    assert Concat(qs) + tail[pos..] == s0;
    assert |w'| == 5 + |s0| + 5 * |qs|;
  }

  lemma {:induction false} EncodeSnoc(h3: seq<Byte>, ps: seq<seq<Byte>>, p: seq<Byte>)
    ensures EncodeAll(h3, ps + [p]) == EncodeAll(h3, ps) + Encode(h3, p)
  {
    var qs := ps + [p];
    assert qs[..|qs| - 1] == ps && qs[|qs| - 1] == p;
  }

  lemma {:induction false} PayloadCut(ps: seq<seq<Byte>>, tail: seq<Byte>, pos: nat)
    requires pos <= |tail|
    ensures var qs := ps + [tail[..pos]]; Concat(qs) + tail[pos..] == Concat(ps) + tail && Total(qs) == Total(ps) + pos
  {
    ConcatSnoc(ps, tail[..pos]);
    assert tail[..pos] + tail[pos..] == tail;
    assert (Concat(ps) + tail[..pos]) + tail[pos..] == Concat(ps) + (tail[..pos] + tail[pos..]);
  }

  /** One split of the open record; `ok` says that part_tls accepted it. */
  method SplitOnce(buf: array<Byte>, lp: nat, n: nat, cut: int,
                   ghost h3: seq<Byte>, ghost s0: seq<Byte>, ghost r0: nat, ghost ps: seq<seq<Byte>>, ghost r: nat, ghost tail: seq<Byte>)
    returns (ok: bool)
    requires n <= buf.Length && Held(buf[..n], h3, s0, r0, ps, lp, r, tail)
    modifies buf
    ensures !ok ==> buf[..n] == old(buf[..n]) && (cut < 0 || cut > |tail| || buf.Length - n < 5)
    ensures ok ==> && 0 <= cut <= |tail| && n + 5 <= buf.Length
                   && Held(buf[..n + 5], h3, s0, r0, ps + [tail[..cut]], lp + 5 + cut, r - cut, tail[cut..])
  {
    ghost var w := buf[..n];
    LayoutLen(w, h3, s0, r0, ps, lp, r, tail);
    if 0 <= cut <= |tail| { CutHeld(w, h3, s0, r0, ps, lp, r, tail, cut); }
    var res := PartTls(buf, lp, n, cut);
    ok := res != 0;
    if !ok { assert buf[..n] == buf[..][..n]; }
  }

  lemma {:induction false} LayoutLen(w: seq<Byte>, h3: seq<Byte>, s0: seq<Byte>, r0: nat, ps: seq<seq<Byte>>, lp: nat, r: nat, tail: seq<Byte>)
    requires Held(w, h3, s0, r0, ps, lp, r, tail)
    ensures |w| == lp + 5 + |tail|
  {
  }

  lemma {:induction false} InitialHeld(w: seq<Byte>)
    requires |w| >= 5 && |w| - 5 <= Be16(w[3], w[4])
    ensures Held(w, w[..3], w[5..], Be16(w[3], w[4]), [], 0, Be16(w[3], w[4]), w[5..])
  {
    var r := Be16(w[3], w[4]);
    assert Hi(r) == w[3] && Lo(r) == w[4];
    assert w == [] + (w[..3] + [w[3], w[4]] + w[5..]);
    assert [] + w[5..] == w[5..];
  }

  // ----- the counter on the output -----

  lemma {:induction false} EncodeCons(h3: seq<Byte>, qs: seq<seq<Byte>>)
    requires qs != []
    ensures EncodeAll(h3, qs) == Encode(h3, qs[0]) + EncodeAll(h3, qs[1..])
  {
    var n := |qs| - 1;
    if n > 0 {
      var front, rest := qs[..n], qs[1..];
      EncodeCons(h3, front);
      assert front[0] == qs[0] && front[1..] == rest[..n - 1] && rest[n - 1] == qs[n] && |rest| == n;
      Regroup(Encode(h3, qs[0]), EncodeAll(h3, rest[..n - 1]), Encode(h3, qs[n]));
    } else {
      EncodeLone(h3, qs);
    }
  }

  lemma {:induction false} EncodeLone(h3: seq<Byte>, qs: seq<seq<Byte>>)
    requires |qs| == 1
    ensures EncodeAll(h3, qs) == Encode(h3, qs[0]) + EncodeAll(h3, qs[1..])
  {
    assert qs[..0] == [] && qs[1..] == [] && [] + Encode(h3, qs[0]) == Encode(h3, qs[0]) + [];
  }

  lemma {:induction false} Regroup(a: seq<Byte>, b: seq<Byte>, c: seq<Byte>)
    ensures (a + b) + c == a + (b + c)
  {
  }

  ghost predicate GoodPiece(h3: seq<Byte>, q: seq<Byte>) {
    |h3| == 3 && h3[2] <= 4 && 0 < |q| <= MAX_RECORD
  }

  /** Encoding and parsing records are inverse, for records the counter accepts. */
  lemma {:induction false} PayloadsOfEncode(h3: seq<Byte>, qs: seq<seq<Byte>>)
    requires |h3| == 3 && h3[0] == 22 && h3[1] == 3 && forall i :: 0 <= i < |qs| ==> |qs[i]| < 65536
    ensures Payloads(EncodeAll(h3, qs), |qs|) ==
            if forall i :: 0 <= i < |qs| ==> GoodPiece(h3, qs[i]) then Some(qs) else None
    decreases qs
  {
    if qs != [] {
      PayloadsOfEncode(h3, qs[1..]);
      PayloadsStep(h3, qs);
      AllGood(h3, qs);
      assert [qs[0]] + qs[1..] == qs;
    }
  }

  lemma {:induction false} PayloadsStep(h3: seq<Byte>, qs: seq<seq<Byte>>)
    requires |h3| == 3 && h3[0] == 22 && h3[1] == 3 && qs != [] && |qs[0]| < 65536
    ensures var rest := Payloads(EncodeAll(h3, qs[1..]), |qs[1..]|);
            Payloads(EncodeAll(h3, qs), |qs|) == if GoodPiece(h3, qs[0]) && rest.Some? then Some([qs[0]] + rest.value) else None
  {
    EncodeHead(h3, qs);
  }

  lemma {:induction false} AllGood(h3: seq<Byte>, qs: seq<seq<Byte>>)
    requires qs != []
    ensures (forall i :: 0 <= i < |qs| ==> GoodPiece(h3, qs[i])) <==> GoodPiece(h3, qs[0]) && forall i :: 0 <= i < |qs[1..]| ==> GoodPiece(h3, qs[1..][i])
  {
    assert forall i :: 1 <= i < |qs| ==> qs[i] == qs[1..][i - 1];
  }

  /** What the parser sees first. */
  lemma {:induction false} EncodeHead(h3: seq<Byte>, qs: seq<seq<Byte>>)
    requires |h3| == 3 && h3[0] == 22 && h3[1] == 3 && qs != [] && |qs[0]| < 65536
    ensures var w, q := EncodeAll(h3, qs), qs[0];
            && |w| >= 5 + |q| && Be16(w[3], w[4]) == |q| && (GoodHeader(w) <==> GoodPiece(h3, q))
            && w[5..5 + |q|] == q && w[5 + |q|..] == EncodeAll(h3, qs[1..])
  {
    var w, q := EncodeAll(h3, qs), qs[0];
    EncodeCons(h3, qs);
    HiLo(|q|);
    assert w[..5] == h3 + [Hi(|q|), Lo(|q|)] && w[0] == h3[0] && w[1] == h3[1] && w[2] == h3[2];
  }

  /** A ClientHello that exactly fills the record is counted as one record more than there were
      splits, however the output is cut into small chunks, if and only if the minor version is one
      the counter knows, there are at most 63 splits, and no piece is empty or too long. */
  lemma {:induction false} SplitCounted(w: seq<Byte>, h3: seq<Byte>, s0: seq<Byte>, ps: seq<seq<Byte>>, lp: nat, tail: seq<Byte>, chunks: seq<seq<Byte>>)
    requires Held(w, h3, s0, |s0|, ps, lp, |tail|, tail) && h3[0] == 22 && h3[1] == 3
    requires 4 < |s0| < 65536 && s0[0] == 1 && Expected(s0) == |s0|
    requires Concat(chunks) == w && forall i :: 0 <= i < |chunks| ==> |chunks[i]| <= MAX_HELLO - 4
    ensures FeedAll(INITIAL, chunks).1 == [Count(1 + |ps|, |s0|)] <==>
            |ps| <= 63 && forall i :: 0 <= i <= |ps| ==> GoodPiece(h3, (ps + [tail])[i])
  {
    var qs := ps + [tail];
    assert qs[..|qs| - 1] == ps && qs[|ps|] == tail;
    assert w == EncodeAll(h3, qs);
    ConcatSnoc(ps, tail);
    PieceLens(qs);
    PayloadsOfEncode(h3, qs);
    SmallChunksGuarded(INITIAL, chunks);
    ChunksDontMatter(INITIAL, chunks);
    assert INITIAL.wire + w == w;
    ResultMeaning(INITIAL.(wire := w), |qs|, |s0|);
    assert Concat(qs) == s0 && HoldsHello(s0, |s0|);
    assert GoodPiece(h3, qs[|ps|]) ==> |Concat(ps)| < |s0|;
    CarriesPieces(w, qs, s0, ps);
  }

  lemma {:induction false} PieceLens(qs: seq<seq<Byte>>)
    ensures forall i :: 0 <= i < |qs| ==> |qs[i]| <= |Concat(qs)|
  {
    if qs != [] {
      PieceLens(qs[1..]);
      assert forall i :: 1 <= i < |qs| ==> qs[i] == qs[1..][i - 1];
    }
  }

  lemma {:induction false} CarriesPieces(w: seq<Byte>, qs: seq<seq<Byte>>, s0: seq<Byte>, ps: seq<seq<Byte>>)
    requires qs != [] && ps == qs[..|qs| - 1] && Concat(qs) == s0 && HoldsHello(s0, |s0|)
    requires Payloads(w, |qs|).Some? ==> Payloads(w, |qs|) == Some(qs) && |Concat(ps)| < |s0|
    ensures Carries([], 0, w, |qs|, |s0|) <==> |qs| <= 64 && Payloads(w, |qs|).Some?
  {
    assert [] + Concat(qs) == Concat(qs);
  }
}
