/** The three-zone ring buffer of hev-ring-buffer.c and its two clients in hev-socks5-session-tcp.c:
    bytes read from a socket are handed to lwIP by reference and stay in place until acknowledged. */
module RingBuffer {
  import opened Bytes

  /** A piece of the buffer. */
  datatype Iov = Iov(at: nat, len: nat)

  /** (i % max) for i below 2 * max. */
  function Wrap(i: nat, max: nat): nat { if i < max then i else i - max }

  lemma {:induction false} ModIsWrap(i: nat, max: nat)
    requires 0 < max && i < 2 * max
    ensures i % max == Wrap(i, max)
  {
    var q, r := i / max, i % max;
    assert i == max * q + r;
    Multiples(max, q);
  }

  lemma {:induction false} Multiples(max: nat, q: int)
    ensures (q >= 2 ==> max * q >= 2 * max) && (q <= 0 ==> max * q <= 0) && max * 1 == max && max * 0 == 0
  {
    if q >= 2 { assert max * (q - 2) >= 0; }
    if q <= 0 { assert max * (-q) >= 0; }
  }

  /** Where the k-th byte not yet released is, the oldest being at `base`. */
  ghost function Slot(base: nat, k: nat, max: nat): nat { Wrap(base + k, max) }

  ghost function BytesOf(data: seq<Byte>, iov: seq<Iov>): seq<Byte>
    requires forall i :: 0 <= i < |iov| ==> iov[i].at + iov[i].len <= |data|
    decreases |iov|
  {
    if iov == [] then [] else
      var n := |iov| - 1;
      BytesOf(data, iov[..n]) + data[iov[n].at..iov[n].at + iov[n].len]
  }

  /** The pieces that cover `size` bytes from `from` on, around the end. */
  ghost function Pieces(from: nat, size: nat, max: nat): (r: seq<Iov>)
    requires from < max && size <= max
    ensures |r| <= 2 && forall i :: 0 <= i < |r| ==> r[i].len > 0 && r[i].at + r[i].len <= max
  {
    if size == 0 then []
    else if size <= max - from then [Iov(from, size)]
    else [Iov(from, max - from), Iov(0, size - (max - from))]
  }

  ghost predicate Covers(iov: seq<Iov>, x: nat) { exists i :: 0 <= i < |iov| && iov[i].at <= x < iov[i].at + iov[i].len }

  class Ring {
    const max: nat
    const data: array<Byte>
    var rp: nat
    var wp: nat
    var rda: nat
    var used: nat
    ghost var base: nat
    /** Everything that was ever written to the ring. */
    ghost var stream: seq<Byte>

    ghost predicate Valid() reads this, data {
      && 0 < max == data.Length && rda <= used <= max && used <= |stream| && base < max
      && rp == Wrap(base + used - rda, max) && wp == Wrap(base + used, max)
      && forall k :: 0 <= k < used ==> data[Slot(base, k, max)] == stream[|stream| - used + k]
    }

    /** The bytes not yet read out, and all bytes not yet released. */
    ghost function Unread(): seq<Byte> reads this requires rda <= |stream| { stream[|stream| - rda..] }
    ghost function Held(): seq<Byte> reads this requires used <= |stream| { stream[|stream| - used..] }

    constructor (size: nat)
      requires size > 0
      ensures Valid() && fresh(data) && max == size && used == 0 && rda == 0 && rp == 0 && stream == []
    {
      max := size;
      data := new Byte[size](_ => 0);
      rp, wp, rda, used, base, stream := 0, 0, 0, 0, 0, [];
    }

    /** hev_ring_buffer_reading: the pieces hold exactly the unread bytes, in order. */
    method Reading() returns (iov: seq<Iov>)
      requires Valid()
      ensures iov == Pieces(rp, rda, max) && BytesOf(data[..], iov) == Unread()
    {
      var upper := max - rp;
      if rda == 0 {
        iov := [];
      } else if rda <= upper {
        iov := [Iov(rp, rda)];
      } else {
        iov := [Iov(rp, upper), Iov(0, rda - upper)];
      }
      ReadBytes(data[..], stream, rp, rda, max, base, used);
    }

    /** hev_ring_buffer_read_finish */
    method ReadFinish(size: nat)
      requires Valid() && size <= rda
      modifies this`rp, this`rda
      ensures Valid() && rda == old(rda) - size && rp == Wrap(old(rp) + size, max)
    {
      ModIsWrap(rp + size, max);
      rp := (rp + size) % max;
      rda := rda - size;
    }

    /** hev_ring_buffer_read_release: only bytes that have been read out are released. */
    method ReadRelease(size: nat)
      requires Valid() && size <= used - rda
      modifies this`rp, this`wp, this`used, this`base
      ensures Valid() && used == old(used) - size && (used == 0 ==> rp == 0 && wp == 0) && (used > 0 ==> rp == old(rp) && wp == old(wp))
    {
      ghost var first := Wrap(base + size, max);
      forall k | 0 <= k < used - size ensures data[Slot(first, k, max)] == stream[|stream| - (used - size) + k] {
        assert Slot(first, k, max) == Slot(base, k + size, max);
      }
      used := used - size;
      base := first;
      if used == 0 {
        rp, wp, base := 0, 0, 0;
      }
    }

    /** hev_ring_buffer_writing: the pieces cover all the free space and nothing else. */
    method Writing() returns (iov: seq<Iov>)
      requires Valid()
      ensures iov == Pieces(wp, max - used, max)
      ensures forall k :: 0 <= k < used ==> !Covers(iov, Slot(base, k, max))
    {
      if used == max { return []; }
      var upper, spc := max - wp, max - used;
      if spc <= upper {
        iov := [Iov(wp, spc)];
      } else {
        iov := [Iov(wp, upper), Iov(0, spc - upper)];
      }
    }

    /** readv into the first pieces, then hev_ring_buffer_write_finish: the bytes join the stream and
        nothing that is held changes. */
    method Fill(iov: seq<Iov>, bytes: seq<Byte>)
      requires Valid() && iov == Pieces(wp, max - used, max) && |bytes| <= max - used
      modifies this`wp, this`used, this`rda, this`stream, data
      ensures Valid() && stream == old(stream) + bytes && used == old(used) + |bytes| && rda == old(rda) + |bytes|
      ensures forall x :: 0 <= x < max && !Covers(iov, x) ==> data[x] == old(data[x])
    {
      HeldUncovered(base, wp, used, max);
      Scatter(data, wp, max - used, iov, bytes);
      WriteFinish(|bytes|, bytes);
    }

    /** hev_ring_buffer_write_finish; `bytes` are what now stands in the free space. */
    method WriteFinish(size: nat, ghost bytes: seq<Byte>)
      requires Valid() && |bytes| == size <= max - used && forall k :: 0 <= k < size ==> data[Slot(wp, k, max)] == bytes[k]
      modifies this`wp, this`used, this`rda, this`stream
      ensures Valid() && stream == old(stream) + bytes && used == old(used) + size && rda == old(rda) + size
    {
      ModIsWrap(wp + size, max);
      forall k | used <= k < used + size ensures Slot(base, k, max) == Slot(wp, k - used, max) {}
      wp := (wp + size) % max;
      used := used + size;
      rda := rda + size;
      stream := stream + bytes;
    }
  }

  /** What readv does to the memory of the pieces. */
  method Scatter(data: array<Byte>, wp: nat, size: nat, ghost iov: seq<Iov>, bytes: seq<Byte>)
    requires |bytes| <= size <= data.Length && wp < data.Length && iov == Pieces(wp, size, data.Length)
    modifies data
    ensures forall k :: 0 <= k < |bytes| ==> data[Slot(wp, k, data.Length)] == bytes[k]
    ensures forall x :: 0 <= x < data.Length && !Covers(iov, x) ==> data[x] == old(data[x])
  {
    var max := data.Length;
    SlotsCovered(wp, size, max);
    for k := 0 to |bytes|
      invariant forall j :: 0 <= j < k ==> data[Slot(wp, j, max)] == bytes[j]
      invariant forall x :: 0 <= x < max && !Covers(iov, x) ==> data[x] == old(data[x])
    {
      data[if k < max - wp then wp + k else k - (max - wp)] := bytes[k];
    }
  }

  lemma {:induction false} ReadBytes(data: seq<Byte>, stream: seq<Byte>, rp: nat, rda: nat, max: nat, base: nat, used: nat)
    requires 0 < max == |data| && rda <= used <= max && used <= |stream| && base < max && rp == Wrap(base + used - rda, max)
    requires forall k :: 0 <= k < used ==> data[Slot(base, k, max)] == stream[|stream| - used + k]
    ensures BytesOf(data, Pieces(rp, rda, max)) == stream[|stream| - rda..]
  {
    var iov, from := Pieces(rp, rda, max), |stream| - rda;
    if |iov| == 1 {
      RunBytes(data, stream, rp, rda, 0, max, base, used, rp, rda);
      OnePiece(data, iov);
    } else if |iov| == 2 {
      var upper := max - rp;
      RunBytes(data, stream, rp, upper, 0, max, base, used, rp, rda);
      RunBytes(data, stream, 0, rda - upper, upper, max, base, used, rp, rda);
      TwoPieces(data, iov);
      Rejoin(stream, from, upper);
    }
  }

  lemma {:induction false} Rejoin(stream: seq<Byte>, from: nat, n: nat)
    requires from + n <= |stream|
    ensures stream[from..] == stream[from..from + n] + stream[from + n..]
  {
  }

  lemma {:induction false} OnePiece(data: seq<Byte>, iov: seq<Iov>)
    requires |iov| == 1 && iov[0].at + iov[0].len <= |data|
    ensures BytesOf(data, iov) == data[iov[0].at..iov[0].at + iov[0].len]
  {
    assert iov[..0] == [] && BytesOf(data, iov) == [] + data[iov[0].at..iov[0].at + iov[0].len];
  }

  lemma {:induction false} TwoPieces(data: seq<Byte>, iov: seq<Iov>)
    requires |iov| == 2 && forall i :: 0 <= i < |iov| ==> iov[i].at + iov[i].len <= |data|
    ensures BytesOf(data, iov) == data[iov[0].at..iov[0].at + iov[0].len] + data[iov[1].at..iov[1].at + iov[1].len]
  {
    OnePiece(data, iov[..1]);
  }

  /** One piece of the unread bytes, the ones from `skip` on. */
  lemma {:induction false} RunBytes(data: seq<Byte>, stream: seq<Byte>, at: nat, len: nat, skip: nat, max: nat, base: nat, used: nat, rp: nat, rda: nat)
    requires 0 < max == |data| && rda <= used <= max && used <= |stream| && base < max && rp == Wrap(base + used - rda, max)
    requires at + len <= max && skip + len <= rda && (if skip == 0 then at == rp else at == 0 && skip == max - rp)
    requires forall k :: 0 <= k < used ==> data[Slot(base, k, max)] == stream[|stream| - used + k]
    ensures data[at..at + len] == stream[|stream| - rda + skip..|stream| - rda + skip + len]
  {
    var a, b := data[at..at + len], stream[|stream| - rda + skip..|stream| - rda + skip + len];
    forall j | 0 <= j < len ensures a[j] == b[j] {
      assert at + j == Slot(base, used - rda + skip + j, max);
    }
  }

  lemma {:induction false} HeldUncovered(base: nat, wp: nat, used: nat, max: nat)
    requires base < max && used <= max && wp == Wrap(base + used, max) && wp < max
    ensures forall k :: 0 <= k < used ==> !Covers(Pieces(wp, max - used, max), Slot(base, k, max))
  {
  }

  lemma {:induction false} SlotsCovered(wp: nat, size: nat, max: nat)
    requires wp < max && size <= max
    ensures forall k :: 0 <= k < size ==> Covers(Pieces(wp, size, max), Slot(wp, k, max))
  {
    var iov := Pieces(wp, size, max);
    forall k | 0 <= k < size ensures Covers(iov, Slot(wp, k, max)) {
      var i := if k < max - wp then 0 else 1;
      assert iov[i].at <= Slot(wp, k, max) < iov[i].at + iov[i].len;
    }
  }

  // ----- the session -----

  /** What readv on the socket gives. */
  datatype Input = Data(bytes: seq<Byte>) | Again | Ended

  /** The places first, first + 1, ... of the stream. */
  ghost function Places(first: nat, n: nat): (r: seq<int>)
    ensures |r| == n && forall i :: 0 <= i < n ==> r[i] == first + i
  {
    seq(n, i => first + i)
  }

  lemma {:induction false} PlacesJoin(a: nat, b: nat)
    ensures Places(0, a) + Places(a, b) == Places(0, a + b)
  {
  }

  /** The places handed to lwIP by writing the two pieces `iov` that begin at `first`. */
  ghost function HandedBy(first: nat, iov: seq<Iov>, ok0: bool, ok1: bool): seq<int> {
    (if |iov| > 0 && ok0 then Places(first, iov[0].len) else []) +
    (if |iov| > 1 && ok1 then Places(first + iov[0].len, iov[1].len) else [])
  }

  /** If the first write fails and the second does not, a gap is left; otherwise what lwIP has is
      the stream from its beginning, each byte once and in order. */
  lemma {:induction false} PrefixUnlessGap(first: nat, iov: seq<Iov>, ok0: bool, ok1: bool)
    requires |iov| <= 2 && forall i :: 0 <= i < |iov| ==> iov[i].len > 0
    ensures var h := Places(0, first) + HandedBy(first, iov, ok0, ok1);
            && (h == Places(0, |h|) <==> !(|iov| == 2 && !ok0 && ok1))
            && (iov == [] || (ok0 && (|iov| == 1 || ok1)) ==> h == Places(0, first + (if |iov| > 0 then iov[0].len else 0) + (if |iov| > 1 then iov[1].len else 0)))
  {
    var h := Places(0, first) + HandedBy(first, iov, ok0, ok1);
    if |iov| == 2 && !ok0 && ok1 {
      assert h[first] == first + iov[0].len;
      assert h != Places(0, |h|);
    } else if |iov| > 0 && ok0 {
      PlacesJoin(first, iov[0].len);
      if |iov| > 1 && ok1 {
        PlacesJoin(first + iov[0].len, iov[1].len);
        assert h == (Places(0, first) + Places(first, iov[0].len)) + Places(first + iov[0].len, iov[1].len);
      } else {
        assert h == Places(0, first) + Places(first, iov[0].len);
      }
    } else {
      assert h == Places(0, first);
    }
  }

  lemma {:induction false} PiecesTotal(from: nat, size: nat, max: nat)
    requires from < max && size <= max
    ensures var iov := Pieces(from, size, max);
            size == (if |iov| > 0 then iov[0].len else 0) + (if |iov| > 1 then iov[1].len else 0) && (iov == [] <==> size == 0)
  {
  }

  /** Every piece was accepted, and so was the output call if there was anything. */
  ghost predicate AllWritten(iov: seq<Iov>, ok0: bool, ok1: bool, out: bool) {
    iov == [] || (ok0 && (|iov| == 1 || ok1) && out)
  }

  predicate Fits(ring: Ring, input: Input) reads ring {
    input.Data? ==> 0 < |input.bytes| && (ring.used < ring.max ==> |input.bytes| <= ring.max - ring.used)
  }

  /** Lines 92-105: what the socket gives goes into the free space. */
  method Receive(ring: Ring, input: Input) returns (res: int)
    requires ring.Valid() && Fits(ring, input)
    modifies ring`wp, ring`used, ring`rda, ring`stream, ring.data
    ensures ring.Valid()
    ensures var got := if old(ring.used) < ring.max && input.Data? then input.bytes else [];
            ring.stream == old(ring.stream) + got && ring.used == old(ring.used) + |got| && ring.rda == old(ring.rda) + |got|
    ensures res == if old(ring.used) == ring.max || input.Again? then 0 else if input.Data? then 1 else -1
  {
    res := 1;
    var iov := ring.Writing();
    if iov != [] {
      match input
      case Data(bytes) => ring.Fill(iov, bytes);
      case Again => res := 0;
      case Ended => res := -1;
    } else {
      res := 0;
    }
  }

  /** Lines 109-121: the unread bytes are written to the connection, piece by piece, and all of them
      count as read out. */
  method HandOver(ring: Ring, ok0: bool, ok1: bool, out: bool, ghost handed: seq<int>) returns (any: bool, err: bool, ghost handed': seq<int>)
    requires ring.Valid() && handed == Places(0, |ring.stream| - ring.rda)
    modifies ring`rp, ring`rda
    ensures ring.Valid() && ring.rda == 0 && (any <==> old(ring.rda) > 0) && ring.rp == Wrap(old(ring.rp) + old(ring.rda), ring.max)
    ensures var iov := Pieces(old(ring.rp), old(ring.rda), ring.max);
            && handed' == handed + HandedBy(|handed|, iov, ok0, ok1)
            && (!err ==> handed' == Places(0, |ring.stream|))
            && (handed' == Places(0, |handed'|) <==> !(|iov| == 2 && !ok0 && ok1))
            && (err <==> !AllWritten(iov, ok0, ok1, out))
  {
    any, err := false, false;
    var iov := ring.Reading();
    PiecesTotal(ring.rp, ring.rda, ring.max);
    PrefixUnlessGap(|handed|, iov, ok0, ok1);
    handed' := handed + HandedBy(|handed|, iov, ok0, ok1);
    if iov != [] {
      var s := iov[0].len;
      err := !ok0;
      if |iov| > 1 {
        s := s + iov[1].len;
        err := err || !ok1;
      }
      ring.ReadFinish(s);
      err := err || !out;
      any := true;
    }
  }

  /** tcp_splice_b.  `handed` are the places of the stream given to lwIP so far; `ok0`, `ok1` and
      `out` say which of tcp_write and tcp_output succeed. */
  method SpliceB(ring: Ring, input: Input, pcb: bool, ok0: bool, ok1: bool, out: bool, ghost handed: seq<int>)
    returns (res: int, ghost handed': seq<int>)
    requires ring.Valid() && handed == Places(0, |ring.stream| - ring.rda) && Fits(ring, input)
    modifies ring`wp, ring`rp, ring`used, ring`rda, ring`stream, ring.data
    ensures ring.Valid() && |ring.stream| - ring.used == old(|ring.stream| - ring.used)
    ensures ring.stream == old(ring.stream) + if old(ring.used) < ring.max && input.Data? then input.bytes else []
    ensures !pcb ==> handed' == handed && res == -1 && ring.rp == old(ring.rp) && ring.rda == |ring.stream| - |handed|
    ensures pcb ==> ring.rp == Wrap(old(ring.rp) + (|ring.stream| - |handed|), ring.max)
    ensures pcb ==> var iov := Pieces(old(ring.rp), |ring.stream| - |handed|, ring.max);
                    && ring.rda == 0 && handed' == handed + HandedBy(|handed|, iov, ok0, ok1)
                    && (!AllWritten(iov, ok0, ok1, out) ==> res == -1)
                    && (AllWritten(iov, ok0, ok1, out) ==>
                          res == if |ring.stream| > |handed| then 1 else if old(ring.used) == ring.max || input.Again? then 0 else -1)
    ensures res >= 0 ==> handed' == Places(0, |ring.stream| - ring.rda)
  {
    handed' := handed;
    res := Receive(ring, input);
    assert ring.rda == |ring.stream| - |handed|;
    var err := false;
    if pcb {
      var any;
      any, err, handed' := HandOver(ring, ok0, ok1, out, handed);
      if any { res := 1; }
    }
    if !pcb || err { res := -1; }
  }

  /** What happens to a session: a call of tcp_splice_b, or tcp_sent_handler for `len` bytes. */
  datatype Event = Splice(input: Input, pcb: bool, ok0: bool, ok1: bool, out: bool) | Sent(len: nat)

  /** A session by its totals: all bytes received, how many of them are acknowledged and how many
      read out, where the reader stands, and the last result of splicing. */
  datatype Flow = Flow(stream: seq<Byte>, acked: nat, read: nat, rp: nat, res: int)

  ghost predicate Room(input: Input, free: int) { input.Data? ==> 0 < |input.bytes| && (free > 0 ==> |input.bytes| <= free) }

  /** One event, in terms of the totals.  After a failure nothing is spliced; an acknowledgement is
      of bytes that have been read out. */
  ghost function FlowStep(f: Flow, max: nat, e: Event): Flow {
    match e
    case Sent(len) =>
      if 0 < len <= f.read - f.acked then
        f.(acked := f.acked + len, rp := if f.acked + len == |f.stream| then 0 else f.rp)
      else f
    case Splice(input, pcb, ok0, ok1, out) =>
      var free := max - (|f.stream| - f.acked);
      if f.res < 0 || !Room(input, free) then f
      else
        var stream := if free > 0 && input.Data? then f.stream + input.bytes else f.stream;
        var n := |stream| - f.read;
        if !pcb || n < 0 then f.(stream := stream, res := -1)
        else
          Flow(stream, f.acked, |stream|, Wrap(f.rp + n, max),
               if n == 0 then (if free == 0 || input.Again? then 0 else -1) else if ok0 && (f.rp + n <= max || ok1) && out then 1 else -1)
  }

  ghost function FlowOf(max: nat, script: seq<Event>): Flow {
    if script == [] then Flow([], 0, 0, 0, 1) else FlowStep(FlowOf(max, script[..|script| - 1]), max, script[|script| - 1])
  }

  /** The ring and the result are those of the totals. */
  ghost predicate Matches(ring: Ring, f: Flow, res: int, handed: seq<int>)
    reads ring, ring.data
  {
    && ring.Valid() && f.acked <= f.read <= |f.stream| && ring.stream == f.stream && ring.used == |f.stream| - f.acked && ring.rda == |f.stream| - f.read
    && ring.rp == f.rp && res == f.res && (res >= 0 ==> handed == Places(0, f.read))
  }

  method TakeSplice(ring: Ring, e: Event, res: int, ghost handed: seq<int>, ghost f: Flow) returns (res': int, ghost handed': seq<int>)
    requires Matches(ring, f, res, handed) && e.Splice?
    modifies ring, ring.data
    ensures Matches(ring, FlowStep(f, ring.max, e), res', handed')
  {
    res', handed' := res, handed;
    if res >= 0 && Fits(ring, e.input) {
      res', handed' := SpliceB(ring, e.input, e.pcb, e.ok0, e.ok1, e.out, handed);
    }
  }

  /** Any run of a session: splicing and acknowledgements in any order, until splicing has failed.
      Every event changes the totals as it should.  As long as splicing goes on, lwIP has been given
      the stream from its beginning, each byte once and in order, up to the unread bytes; what the
      ring holds is what is not acknowledged yet followed by what is not read out yet. */
  method Session(ring: Ring, script: seq<Event>) returns (res: int, ghost handed: seq<int>)
    requires ring.Valid() && ring.stream == [] && ring.used == 0 && ring.rp == 0
    modifies ring, ring.data
    ensures var f := FlowOf(ring.max, script);
            && Matches(ring, f, res, handed)
            && ring.Held() == f.stream[f.acked..f.read] + f.stream[f.read..] && ring.Unread() == f.stream[f.read..]
  {
    handed, res := [], 1;
    for k := 0 to |script|
      invariant Matches(ring, FlowOf(ring.max, script[..k]), res, handed)
    {
      ghost var f := FlowOf(ring.max, script[..k]);
      assert script[..k + 1][..k] == script[..k];
      match script[k]
      case Sent(len) =>
        if len > 0 && len <= ring.used - ring.rda { ring.ReadRelease(len); }
      case Splice(_, _, _, _, _) =>
        res, handed := TakeSplice(ring, script[k], res, handed, f);
    }
    assert script[..|script|] == script;
  }
}
