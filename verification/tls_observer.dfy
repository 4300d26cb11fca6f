/** tools/tls_record_observer.py: counting the TLS records that carry a ClientHello (record layout
    of section 5.1 of RFC 8446). */
module TlsObserver {
  import opened Bytes

  const MAX_HELLO := 65536
  const MAX_RECORD := 18432
  const LIMIT := MAX_HELLO + MAX_RECORD

  datatype Option<T> = None | Some(value: T)
  datatype Count = Count(records: nat, bytes: nat)

  function Be24(a: Byte, b: Byte, c: Byte): nat { 65536 * a + 256 * b + c }

  // ----- the counter -----

  /** The fields of the counter object. */
  datatype State = State(wire: seq<Byte>, hello: seq<Byte>, records: nat, finished: bool, invalid: bool)

  const INITIAL := State([], [], 0, false, false)

  function Stopped(st: State, invalid: bool): State {
    State([], [], st.records, true, invalid)
  }

  predicate GoodHeader(w: seq<Byte>)
    requires |w| >= 5
  {
    w[0] == 22 && w[1] == 3 && w[2] <= 4 && 0 < Be16(w[3], w[4]) <= MAX_RECORD
  }

  /** What one round of the loop does with the bytes at hand. */
  datatype Round = Wait | Verdict(invalid: bool, count: Option<Count>, records: nat) | Go(next: State)

  function Look(hello: seq<Byte>, records: nat): Option<Round> {
    if records > 64 || |hello| > MAX_HELLO || (|hello| > 0 && hello[0] != 1) then Some(Verdict(true, None, records))
    else if |hello| < 4 then None
    else if !(4 < Expected(hello) <= MAX_HELLO) then Some(Verdict(true, None, records))
    else if |hello| < Expected(hello) then None
    else Some(Verdict(false, Some(Count(records, Expected(hello))), records))
  }

  function OneRound(st: State): (r: Round)
    ensures r.Go? ==> |r.next.wire| < |st.wire| && !r.next.finished && r.next.records == st.records + 1
  {
    if st.finished || |st.wire| < 5 then Wait
    else if !GoodHeader(st.wire) then Verdict(true, None, st.records)
    else
      var size := Be16(st.wire[3], st.wire[4]);
      if |st.wire| < size + 5 then Wait
      else
        var records, hello := st.records + 1, st.hello + st.wire[5..5 + size];
        var look := Look(hello, records);
        if look.Some? then look.value
        else Go(State(st.wire[5 + size..], hello, records, false, st.invalid))
  }

  /** The loop as a function: one record after another until there is a verdict or more bytes
      are needed. */
  function Drain(st: State): (State, Option<Count>)
    decreases |st.wire|
  {
    match OneRound(st)
    case Wait => (st, None)
    case Verdict(invalid, count, records) => (State([], [], records, true, invalid), count)
    case Go(next) => Drain(next)
  }

  function Expected(hello: seq<Byte>): nat
    requires |hello| >= 4
  {
    4 + Be24(hello[1], hello[2], hello[3])
  }

  function FeedOnce(st: State, data: seq<Byte>): (State, Option<Count>) {
    if st.finished then (st, None)
    else if |st.wire| + |data| > LIMIT then (Stopped(st, true), None)
    else Drain(st.(wire := st.wire + data))
  }

  class ClientHelloCounter {
    var wire: seq<Byte>
    var hello: seq<Byte>
    var records: nat
    var finished: bool
    var invalid: bool

    ghost function Fields(): State
      reads this
    {
      State(wire, hello, records, finished, invalid)
    }

    constructor ()
      ensures Fields() == INITIAL
    {
      wire, hello, records, finished, invalid := [], [], 0, false, false;
    }

    method Stop(inv: bool)
      modifies this
      ensures Fields() == Stopped(old(Fields()), inv)
    {
      finished, invalid, wire, hello := true, inv, [], [];
    }

    method Feed(data: seq<Byte>) returns (result: Option<Count>)
      modifies this
      ensures (Fields(), result) == FeedOnce(old(Fields()), data)
    {
      result := None;
      if finished { return; }
      if |wire| + |data| > LIMIT {
        Stop(true);
        return;
      }
      wire := wire + data;
      ghost var goal := Drain(Fields());
      while |wire| >= 5
        invariant !finished && result == None && Drain(Fields()) == goal
        decreases |wire|
      {
        var returned;
        returned, result := FeedRound();
        if returned { return; }
      }
    }

    /** The body of the loop; `returned` says that it ended the call. */
    method FeedRound() returns (returned: bool, result: Option<Count>)
      requires !finished && |wire| >= 5
      modifies this
      ensures match OneRound(old(Fields()))
              case Wait => returned && result == None && Fields() == old(Fields())
              case Verdict(inv, count, n) => returned && result == count && Fields() == State([], [], n, true, inv)
              case Go(next) => !returned && result == None && Fields() == next
    {
      returned, result := true, None;
      var size := Be16(wire[3], wire[4]);
      if wire[0] != 22 || wire[1] != 3 || wire[2] > 4 || !(0 < size <= MAX_RECORD) {
        Stop(true);
        return;
      }
      if |wire| < size + 5 { return; }
      records := records + 1;
      hello := hello + wire[5..5 + size];
      wire := wire[5 + size..];
      returned, result := Examine();
    }

    /** The checks on the bytes collected so far. */
    method Examine() returns (returned: bool, result: Option<Count>)
      modifies this
      ensures match Look(old(hello), old(records))
              case None => !returned && result == None && Fields() == old(Fields())
              case Some(v) => returned && v.Verdict? && result == v.count && Fields() == State([], [], old(records), true, v.invalid)
    {
      returned, result := true, None;
      if records > 64 || |hello| > MAX_HELLO {
        Stop(true);
        return;
      }
      if |hello| > 0 && hello[0] != 1 {
        Stop(true);
        return;
      }
      if |hello| >= 4 {
        var expected := 4 + Be24(hello[1], hello[2], hello[3]);
        if !(4 < expected <= MAX_HELLO) {
          Stop(true);
          return;
        }
        if |hello| >= expected {
          result := Some(Count(records, expected));
          Stop(false);
          return;
        }
      }
      returned := false;
    }
  }

  // ----- feeding in pieces -----

  ghost function Concat(chunks: seq<seq<Byte>>): seq<Byte> {
    if chunks == [] then [] else chunks[0] + Concat(chunks[1..])
  }

  /** The state after the chunks and every result on the way. */
  ghost function FeedAll(st: State, chunks: seq<seq<Byte>>): (State, seq<Count>)
    decreases chunks
  {
    if chunks == [] then (st, [])
    else
      var (st1, r) := FeedOnce(st, chunks[0]);
      var (st2, rs) := FeedAll(st1, chunks[1..]);
      (st2, (if r.Some? then [r.value] else []) + rs)
  }

  ghost predicate Guarded(st: State, chunks: seq<seq<Byte>>)
    decreases chunks
  {
    chunks != [] ==>
      && (st.finished || |st.wire| + |chunks[0]| <= LIMIT)
      && Guarded(FeedOnce(st, chunks[0]).0, chunks[1..])
  }

  /** A round that did not wait goes the same way when more bytes follow. */
  lemma {:induction false} RoundAppend(st: State, more: seq<Byte>)
    requires !OneRound(st).Wait?
    ensures var r, r' := OneRound(st), OneRound(st.(wire := st.wire + more));
            if r.Go? then r' == Go(r.next.(wire := r.next.wire + more)) else r' == r
  {
    var w := st.wire + more;
    var size := Be16(st.wire[3], st.wire[4]);
    assert w[0] == st.wire[0] && w[1] == st.wire[1] && w[2] == st.wire[2] && w[3] == st.wire[3] && w[4] == st.wire[4];
    if GoodHeader(st.wire) { SliceAppend(st.wire, more, 5, 5 + size); }
  }

  lemma {:induction false} SliceAppend(a: seq<Byte>, more: seq<Byte>, i: nat, j: nat)
    requires i <= j <= |a|
    ensures (a + more)[i..j] == a[i..j] && (a + more)[j..] == a[j..] + more
  {
  }

  /** More bytes only continue where draining stopped. */
  lemma {:induction false} DrainAppend(st: State, more: seq<Byte>)
    requires !st.finished
    ensures var (s1, r1) := Drain(st);
            Drain(st.(wire := st.wire + more)) == (if s1.finished then (s1, r1) else Drain(s1.(wire := s1.wire + more)))
    ensures Drain(st).1.Some? ==> Drain(st).0.finished
    decreases |st.wire|
  {
    var r := OneRound(st);
    if !r.Wait? { RoundAppend(st, more); }
    if r.Go? { DrainAppend(r.next, more); }
  }

  lemma {:induction false} FinishedStays(st: State, chunks: seq<seq<Byte>>)
    requires st.finished
    ensures FeedAll(st, chunks) == (st, [])
    decreases chunks
  {
    if chunks != [] {
      FinishedStays(st, chunks[1..]);
      var none: seq<Count> := [];
      assert none + none == none;
      assert FeedOnce(st, chunks[0]) == (st, None);
    }
  }

  /** Between calls the counter holds less than one record and at most one hello. */
  lemma {:induction false} DrainRest(st: State)
    requires !st.finished && |st.hello| <= MAX_HELLO
    ensures var s := Drain(st).0;
            if s.finished then s.wire == [] && s.hello == []
            else |s.wire| < MAX_RECORD + 5 && |s.hello| <= MAX_HELLO && Drain(s) == (s, None)
    decreases |st.wire|
  {
    var r := OneRound(st);
    if r.Go? { DrainRest(r.next); }
  }

  /** Any way of cutting the stream gives the verdict and the results of the stream as a whole. */
  lemma {:induction false} ChunksDontMatter(st: State, chunks: seq<seq<Byte>>)
    requires !st.finished && Guarded(st, chunks) && Drain(st) == (st, None) && |st.hello| <= MAX_HELLO
    ensures var (s, r) := Drain(st.(wire := st.wire + Concat(chunks)));
            FeedAll(st, chunks) == (s, if r.Some? then [r.value] else [])
    decreases chunks
  {
    if chunks == [] {
      assert st.wire + [] == st.wire;
    } else {
      var rest := chunks[1..];
      var (s1, r1) := Drain(st.(wire := st.wire + chunks[0]));
      DrainFirst(st, chunks);
      FirstChunk(st, chunks);
      if s1.finished {
        FinishedStays(s1, rest);
        assert r1.Some? ==> [r1.value] + [] == [r1.value];
      } else {
        ChunksDontMatter(s1, rest);
      }
    }
  }

  lemma {:induction false} DrainFirst(st: State, chunks: seq<seq<Byte>>)
    requires !st.finished && |st.hello| <= MAX_HELLO && chunks != []
    ensures var (s1, r1) := Drain(st.(wire := st.wire + chunks[0]));
            && Drain(st.(wire := st.wire + Concat(chunks))) == (if s1.finished then (s1, r1) else Drain(s1.(wire := s1.wire + Concat(chunks[1..]))))
            && (!s1.finished ==> r1.None? && |s1.hello| <= MAX_HELLO && Drain(s1) == (s1, None))
  {
    DrainRest(st.(wire := st.wire + chunks[0]));
    DrainThen(st, chunks[0], Concat(chunks[1..]));
  }

  lemma {:induction false} DrainThen(st: State, c: seq<Byte>, more: seq<Byte>)
    requires !st.finished
    ensures var (s1, r1) := Drain(st.(wire := st.wire + c));
            && Drain(st.(wire := st.wire + (c + more))) == (if s1.finished then (s1, r1) else Drain(s1.(wire := s1.wire + more)))
            && (r1.Some? ==> s1.finished)
  {
    DrainAppend(st.(wire := st.wire + c), more);
    assert (st.wire + c) + more == st.wire + (c + more);
  }

  lemma {:induction false} FirstChunk(st: State, chunks: seq<seq<Byte>>)
    requires !st.finished && Guarded(st, chunks) && chunks != []
    ensures var (s1, r1) := Drain(st.(wire := st.wire + chunks[0]));
            var (s, rs) := FeedAll(s1, chunks[1..]);
            FeedAll(st, chunks) == (s, if r1.Some? then [r1.value] + rs else rs) && Guarded(s1, chunks[1..])
  {
    var (s1, r1) := Drain(st.(wire := st.wire + chunks[0]));
    assert r1.None? ==> [] + FeedAll(s1, chunks[1..]).1 == FeedAll(s1, chunks[1..]).1;
  }

  lemma {:induction false} DrainShrinks(st: State)
    ensures |Drain(st).0.wire| <= |st.wire|
    decreases |st.wire|
  {
    var r := OneRound(st);
    if r.Go? { DrainShrinks(r.next); }
  }

  lemma {:induction false} ShortStreamGuarded(st: State, chunks: seq<seq<Byte>>)
    requires st.finished || |st.wire| + |Concat(chunks)| <= LIMIT
    ensures Guarded(st, chunks)
    decreases chunks
  {
    if chunks != [] {
      if !st.finished {
        DrainShrinks(st.(wire := st.wire + chunks[0]));
      }
      ShortStreamGuarded(FeedOnce(st, chunks[0]).0, chunks[1..]);
    }
  }

  lemma {:induction false} SmallChunksGuarded(st: State, chunks: seq<seq<Byte>>)
    requires |st.wire| < MAX_RECORD + 5 && |st.hello| <= MAX_HELLO
    requires forall i :: 0 <= i < |chunks| ==> |chunks[i]| <= MAX_HELLO - 4
    ensures Guarded(st, chunks)
    decreases chunks
  {
    if chunks != [] {
      if !st.finished { DrainRest(st.(wire := st.wire + chunks[0])); }
      SmallChunksGuarded(FeedOnce(st, chunks[0]).0, chunks[1..]);
    }
  }

  /** A stream of at most MAX_HELLO + MAX_RECORD bytes may be cut in any way: the final state and
      the results are those of feeding it whole, and there is at most one result. */
  lemma {:induction false} AnyCutSameVerdict(chunks: seq<seq<Byte>>)
    requires |Concat(chunks)| <= LIMIT
    ensures FeedAll(INITIAL, chunks) == FeedAll(INITIAL, [Concat(chunks)])
    ensures |FeedAll(INITIAL, chunks).1| <= 1
  {
    var all := [Concat(chunks)];
    assert all[1..] == [] && Concat(all) == Concat(chunks) + [];
    ShortStreamGuarded(INITIAL, chunks);
    ShortStreamGuarded(INITIAL, all);
    ChunksDontMatter(INITIAL, chunks);
    ChunksDontMatter(INITIAL, all);
  }

  /** In every run the counter retains fewer than MAX_HELLO + MAX_RECORD + 5 bytes. */
  lemma {:induction false} RetainedBound(st: State, chunks: seq<seq<Byte>>)
    requires |st.wire| < MAX_RECORD + 5 && |st.hello| <= MAX_HELLO
    ensures var s := FeedAll(st, chunks).0; |s.wire| + |s.hello| < LIMIT + 5
    decreases chunks
  {
    if chunks != [] {
      var s1 := FeedOnce(st, chunks[0]).0;
      if !st.finished { DrainRest(st.(wire := st.wire + chunks[0])); }
      RetainedBound(s1, chunks[1..]);
    }
  }

  // ----- what a result means -----

  /** The payloads of the first `n` records of the stream, if it starts with that many. */
  ghost function Payloads(w: seq<Byte>, n: nat): (r: Option<seq<seq<Byte>>>)
    ensures r.Some? ==> |r.value| == n
  {
    if n == 0 then Some([])
    else if |w| < 5 || !GoodHeader(w) || |w| < Be16(w[3], w[4]) + 5 then None
    else
      var size := Be16(w[3], w[4]);
      var rest := Payloads(w[5 + size..], n - 1);
      if rest.None? then None else Some([w[5..5 + size]] + rest.value)
  }

  /** `h` starts with a complete ClientHello of `b` bytes. */
  ghost predicate HoldsHello(h: seq<Byte>, b: nat) {
    4 <= |h| <= MAX_HELLO && h[0] == 1 && b == Expected(h) && 4 < b <= |h|
  }

  /** The stream starts with `n` records, no fewer of which carry a ClientHello of `b` bytes;
      `h` and `k` are what came before. */
  ghost predicate Carries(h: seq<Byte>, k: nat, w: seq<Byte>, n: nat, b: nat) {
    && n > 0 && k + n <= 64 && Payloads(w, n).Some?
    && HoldsHello(h + Concat(Payloads(w, n).value), b)
    && |h| + |Concat(Payloads(w, n).value[..n - 1])| < b
  }

  /** Collected bytes that still wait for the rest of a ClientHello. */
  ghost predicate Open(h: seq<Byte>) {
    |h| <= MAX_HELLO && (|h| > 0 ==> h[0] == 1) && (|h| >= 4 ==> 4 < Expected(h) <= MAX_HELLO && |h| < Expected(h))
  }

  /** Moving the first record from the wire to the collected bytes. */
  lemma {:induction false} CarriesStep(h: seq<Byte>, k: nat, w: seq<Byte>, n: nat, b: nat)
    requires |w| >= 5 && GoodHeader(w) && |w| >= Be16(w[3], w[4]) + 5 && n >= 2
    ensures var size := Be16(w[3], w[4]);
            Carries(h, k, w, n, b) <==> Carries(h + w[5..5 + size], k + 1, w[5 + size..], n - 1, b)
  {
    var size := Be16(w[3], w[4]);
    var p, rest := w[5..5 + size], Payloads(w[5 + size..], n - 1);
    if rest.Some? {
      var ps := [p] + rest.value;
      assert ps[0] == p && ps[1..] == rest.value;
      assert h + Concat(ps) == (h + p) + Concat(rest.value);
      var qs := ps[..n - 1];
      assert qs[0] == p && qs[1..] == rest.value[..n - 2];
    }
  }

  lemma {:induction false} CarriesOne(h: seq<Byte>, k: nat, w: seq<Byte>, b: nat)
    requires |w| >= 5 && GoodHeader(w) && |w| >= Be16(w[3], w[4]) + 5 && Open(h)
    ensures Carries(h, k, w, 1, b) <==> k + 1 <= 64 && HoldsHello(h + w[5..5 + Be16(w[3], w[4])], b)
  {
    var size := Be16(w[3], w[4]);
    var p := w[5..5 + size];
    assert Payloads(w[5 + size..], 0) == Some([]);
    assert Payloads(w, 1).value == [p];
    var ps := [p];
    assert ps[0] == p && ps[1..] == [] && Concat(ps) == p + Concat(ps[1..]);
    assert h + Concat(ps) == h + p;
    assert ps[..0] == [] && Concat(ps[..0]) == [];
  }

  /** What is collected already decides the rest. */
  lemma {:induction false} CarriesAbsorbs(h: seq<Byte>, k: nat, w: seq<Byte>, n: nat, b: nat)
    requires Carries(h, k, w, n, b)
    ensures |h| <= MAX_HELLO && (|h| > 0 ==> h[0] == 1) && k < 64
    ensures |h| >= 4 ==> Expected(h) == b && 4 < b <= MAX_HELLO && |h| < b
  {
    var all := h + Concat(Payloads(w, n).value);
    assert forall i :: 0 <= i < |h| ==> all[i] == h[i];
  }

  lemma {:induction false} LookShape(h: seq<Byte>, k: nat)
    ensures match Look(h, k)
            case None => true
            case Some(v) => v.Verdict? && (v.count.Some? ==> v == Verdict(false, v.count, k) && v.count.value.records == k)
  {
  }

  /** A verdict on the first record settles which (n, b) the stream carries. */
  lemma {:induction false} VerdictMeaning(h: seq<Byte>, k: nat, w: seq<Byte>, n: nat, b: nat)
    requires |w| >= 5 && GoodHeader(w) && |w| >= Be16(w[3], w[4]) + 5 && Open(h)
    requires Look(h + w[5..5 + Be16(w[3], w[4])], k + 1).Some?
    ensures Carries(h, k, w, n, b) <==>
            n == 1 && Look(h + w[5..5 + Be16(w[3], w[4])], k + 1) == Some(Verdict(false, Some(Count(k + 1, b)), k + 1))
  {
    var size := Be16(w[3], w[4]);
    var h' := h + w[5..5 + size];
    if n == 1 {
      CarriesOne(h, k, w, b);
    } else if n >= 2 && Carries(h, k, w, n, b) {
      CarriesStep(h, k, w, n, b);
      CarriesAbsorbs(h', k + 1, w[5 + size..], n - 1, b);
    }
  }

  /** When the first record leaves the matter open, so it stays for the rest. */
  lemma {:induction false} GoMeaning(h: seq<Byte>, k: nat, w: seq<Byte>, n: nat, b: nat)
    requires |w| >= 5 && GoodHeader(w) && |w| >= Be16(w[3], w[4]) + 5 && Open(h)
    requires Look(h + w[5..5 + Be16(w[3], w[4])], k + 1).None?
    ensures var size := Be16(w[3], w[4]);
            && Open(h + w[5..5 + size])
            && (Carries(h, k, w, n, b) <==> n >= 2 && Carries(h + w[5..5 + size], k + 1, w[5 + size..], n - 1, b))
  {
    CarriesOne(h, k, w, b);
    if n >= 2 { CarriesStep(h, k, w, n, b); }
  }

  /** The first record is on the wire in full. */
  ghost predicate RecordReady(w: seq<Byte>) {
    |w| >= 5 && GoodHeader(w) && |w| >= Be16(w[3], w[4]) + 5
  }

  ghost function AfterRecord(st: State): State
    requires RecordReady(st.wire)
  {
    var size := Be16(st.wire[3], st.wire[4]);
    State(st.wire[5 + size..], st.hello + st.wire[5..5 + size], st.records + 1, false, st.invalid)
  }

  lemma {:induction false} DrainReady(st: State)
    requires !st.finished && RecordReady(st.wire)
    ensures var next := AfterRecord(st);
            match Look(next.hello, next.records)
            case None => OneRound(st) == Go(next) && Drain(st) == Drain(next)
            case Some(v) => v.Verdict? && Drain(st).1 == v.count
  {
    LookShape(AfterRecord(st).hello, st.records + 1);
  }

  lemma {:induction false} DrainUnready(st: State, n: nat, b: nat)
    requires !st.finished && !RecordReady(st.wire)
    ensures Drain(st).1 == None && !Carries(st.hello, st.records, st.wire, n, b)
  {
  }

  lemma {:induction false} VerdictResult(st: State, n: nat, b: nat)
    requires !st.finished && Open(st.hello) && RecordReady(st.wire)
    requires Look(AfterRecord(st).hello, st.records + 1).Some?
    ensures Drain(st).1 == Some(Count(st.records + n, b)) <==> Carries(st.hello, st.records, st.wire, n, b)
  {
    DrainReady(st);
    VerdictMeaning(st.hello, st.records, st.wire, n, b);
    LookShape(AfterRecord(st).hello, st.records + 1);
  }

  /** The counter reports (n, b) exactly when the stream starts with n records, the fewest that
      carry a ClientHello of b bytes. */
  lemma {:induction false} ResultMeaning(st: State, n: nat, b: nat)
    requires !st.finished && Open(st.hello)
    ensures Drain(st).1 == Some(Count(st.records + n, b)) <==> Carries(st.hello, st.records, st.wire, n, b)
  {
    AlwaysRight(st, n, b);
  }

  /** The counter is right about (n, b). */
  ghost predicate Right(st: State, n: nat, b: nat) {
    Drain(st).1 == Some(Count(st.records + n, b)) <==> Carries(st.hello, st.records, st.wire, n, b)
  }

  lemma {:induction false} AlwaysRight(st: State, n: nat, b: nat)
    requires !st.finished && Open(st.hello)
    ensures Right(st, n, b)
    decreases |st.wire|, 1
  {
    if !RecordReady(st.wire) {
      DrainUnready(st, n, b);
    } else if Look(AfterRecord(st).hello, st.records + 1).Some? {
      VerdictResult(st, n, b);
    } else {
      GoResult(st, n, b);
    }
  }

  lemma {:induction false} GoResult(st: State, n: nat, b: nat)
    requires !st.finished && Open(st.hello) && RecordReady(st.wire) && Look(AfterRecord(st).hello, st.records + 1).None?
    ensures Right(st, n, b)
    decreases |st.wire|, 0
  {
    OpenNext(st);
    if n >= 2 { AlwaysRight(AfterRecord(st), n - 1, b); }
    GoStep(st, n, b);
  }

  lemma {:induction false} GoStep(st: State, n: nat, b: nat)
    requires !st.finished && Open(st.hello) && RecordReady(st.wire) && Look(AfterRecord(st).hello, st.records + 1).None?
    requires n >= 2 ==> Right(AfterRecord(st), n - 1, b)
    ensures Right(st, n, b)
  {
    GoDrain(st, n, b);
    GoCarries(st, n, b);
  }

  lemma {:induction false} GoCarries(st: State, n: nat, b: nat)
    requires Open(st.hello) && RecordReady(st.wire) && Look(AfterRecord(st).hello, st.records + 1).None?
    ensures var next := AfterRecord(st);
            Carries(st.hello, st.records, st.wire, n, b) <==> n >= 2 && Carries(next.hello, next.records, next.wire, n - 1, b)
  {
    GoMeaning(st.hello, st.records, st.wire, n, b);
  }

  lemma {:induction false} OpenNext(st: State)
    requires RecordReady(st.wire) && Look(AfterRecord(st).hello, st.records + 1).None?
    ensures Open(AfterRecord(st).hello) && !AfterRecord(st).finished && |AfterRecord(st).wire| < |st.wire|
  {
  }

  lemma {:induction false} GoDrain(st: State, n: nat, b: nat)
    requires !st.finished && RecordReady(st.wire) && Look(AfterRecord(st).hello, st.records + 1).None?
    ensures Drain(st).1 == Some(Count(st.records + n, b)) <==> n >= 2 && Drain(AfterRecord(st)).1 == Some(Count(st.records + n, b))
  {
    DrainReady(st);
    NoZero(AfterRecord(st), b);
  }

  /** A result counts at least one record beyond those already seen. */
  lemma {:induction false} NoZero(st: State, b: nat)
    ensures Drain(st).1.Some? ==> Drain(st).1.value.records > st.records
    decreases |st.wire|
  {
    var r := OneRound(st);
    if r.Go? { NoZero(r.next, b); }
  }

  /** The same for a whole stream, however it was cut. */
  lemma {:induction false} StreamResult(chunks: seq<seq<Byte>>, n: nat, b: nat)
    requires |Concat(chunks)| <= LIMIT
    ensures FeedAll(INITIAL, chunks).1 == [Count(n, b)] <==> Carries([], 0, Concat(chunks), n, b)
  {
    ShortStreamGuarded(INITIAL, chunks);
    ChunksDontMatter(INITIAL, chunks);
    assert INITIAL.wire + Concat(chunks) == Concat(chunks);
    ResultMeaning(INITIAL.(wire := Concat(chunks)), n, b);
  }

  // ----- what a rejection means -----

  /** Collected bytes with which no ClientHello of a size the counter takes can start. */
  ghost predicate Malformed(h: seq<Byte>) {
    |h| > MAX_HELLO || (|h| > 0 && h[0] != 1) || (|h| >= 4 && !(4 < Expected(h) <= MAX_HELLO))
  }

  /** What follows the first `n` records of the stream. */
  ghost function AfterRecords(w: seq<Byte>, n: nat): seq<Byte> {
    if n == 0 || !RecordReady(w) then w else AfterRecords(w[5 + Be16(w[3], w[4])..], n - 1)
  }

  /** After `n` records that leave the matter open, the bytes go wrong: the next header is bad, or
      the next record is there and is one too many or makes the collected bytes malformed.
      `h` and `k` are the bytes and the number of records that came before. */
  ghost predicate WrongAfter(h: seq<Byte>, k: nat, w: seq<Byte>, n: nat) {
    && k + n <= 64 && Payloads(w, n).Some?
    && var got, rest := h + Concat(Payloads(w, n).value), AfterRecords(w, n);
       && Open(got) && |rest| >= 5
       && (!GoodHeader(rest) || (RecordReady(rest) && (k + n == 64 || Malformed(got + rest[5..5 + Be16(rest[3], rest[4])]))))
  }

  lemma {:induction false} WrongLater(h: seq<Byte>, k: nat, w: seq<Byte>, n: nat)
    requires RecordReady(w) && n >= 1
    ensures var size := Be16(w[3], w[4]);
            WrongAfter(h, k, w, n) <==> WrongAfter(h + w[5..5 + size], k + 1, w[5 + size..], n - 1)
  {
    var size := Be16(w[3], w[4]);
    var p, rest := w[5..5 + size], Payloads(w[5 + size..], n - 1);
    if rest.Some? {
      var ps := [p] + rest.value;
      assert ps[0] == p && ps[1..] == rest.value;
      assert h + Concat(ps) == (h + p) + Concat(rest.value);
    }
  }

  lemma {:induction false} WrongNow(h: seq<Byte>, k: nat, w: seq<Byte>)
    requires Open(h) && k <= 64
    ensures WrongAfter(h, k, w, 0) <==>
            |w| >= 5 && (!GoodHeader(w) || (RecordReady(w) && (k == 64 || Malformed(h + w[5..5 + Be16(w[3], w[4])]))))
  {
    assert Concat(Payloads(w, 0).value) == [] && h + [] == h;
  }

  /** What is open with more bytes is open without them. */
  lemma {:induction false} OpenPrefix(h: seq<Byte>, more: seq<Byte>)
    requires Open(h + more)
    ensures Open(h)
  {
    assert forall i :: 0 <= i < |h| ==> (h + more)[i] == h[i];
  }

  /** Where the records that were enough to decide come into it, no later record does. */
  lemma {:induction false} WrongNoLater(h: seq<Byte>, k: nat, w: seq<Byte>, n: nat)
    requires RecordReady(w) && Look(h + w[5..5 + Be16(w[3], w[4])], k + 1).Some? && n >= 1
    ensures !WrongAfter(h, k, w, n)
  {
    var size := Be16(w[3], w[4]);
    WrongLater(h, k, w, n);
    var h' := h + w[5..5 + size];
    if WrongAfter(h', k + 1, w[5 + size..], n - 1) {
      OpenPrefix(h', Concat(Payloads(w[5 + size..], n - 1).value));
    }
  }

  /** The counter rejects exactly when the bytes go wrong somewhere. */
  lemma {:induction false} RejectionMeaning(st: State)
    requires !st.finished && !st.invalid && Open(st.hello) && st.records <= 64
    ensures Drain(st).0.invalid <==> exists n: nat :: WrongAfter(st.hello, st.records, st.wire, n)
    decreases |st.wire|
  {
    var h, k, w := st.hello, st.records, st.wire;
    WrongNow(h, k, w);
    if !RecordReady(w) {
      assert forall n: nat :: n >= 1 ==> Payloads(w, n).None?;
    } else if Look(AfterRecord(st).hello, k + 1).Some? {
      forall n: nat | n >= 1 ensures !WrongAfter(h, k, w, n) { WrongNoLater(h, k, w, n); }
    } else {
      var next := AfterRecord(st);
      OpenNext(st);
      DrainReady(st);
      RejectionMeaning(next);
      RejectionStep(st);
    }
  }

  lemma {:induction false} RejectionStep(st: State)
    requires Open(st.hello) && st.records <= 64 && RecordReady(st.wire) && Look(AfterRecord(st).hello, st.records + 1).None?
    ensures var next := AfterRecord(st);
            (exists n: nat :: WrongAfter(st.hello, st.records, st.wire, n)) <==>
            (exists n: nat :: WrongAfter(next.hello, next.records, next.wire, n))
  {
    var h, k, w, next := st.hello, st.records, st.wire, AfterRecord(st);
    WrongNow(h, k, w);
    forall n: nat ensures WrongAfter(next.hello, next.records, next.wire, n) <==> WrongAfter(h, k, w, n + 1) {
      WrongLater(h, k, w, n + 1);
    }
    if n: nat :| WrongAfter(h, k, w, n) {
      assert n >= 1 && n == (n - 1) + 1;
      assert WrongAfter(next.hello, next.records, next.wire, n - 1);
    }
  }

  ghost predicate GoesWrong(stream: seq<Byte>) { exists n: nat :: WrongAfter([], 0, stream, n) }

  ghost function Judged(out: (State, seq<Count>)): (bool, bool, seq<Count>) {
    (out.0.finished, out.0.invalid, out.1)
  }

  /** For streams of any length, chunks of up to 65532 bytes (the relay reads 4096) give the same
      verdict as feeding the stream whole exactly when the stream fits the buffer bound or its
      bytes go wrong somewhere. */
  lemma {:induction false} SmallChunksVerdict(chunks: seq<seq<Byte>>)
    requires forall i :: 0 <= i < |chunks| ==> |chunks[i]| <= MAX_HELLO - 4
    ensures var stream := Concat(chunks);
            Judged(FeedAll(INITIAL, chunks)) == Judged(FeedAll(INITIAL, [stream])) <==>
            |stream| <= LIMIT || GoesWrong(stream)
  {
    var stream := Concat(chunks);
    SmallChunksGuarded(INITIAL, chunks);
    ChunksDontMatter(INITIAL, chunks);
    assert INITIAL.wire + stream == stream;
    if |stream| <= LIMIT {
      AnyCutSameVerdict(chunks);
    } else {
      WholeTooLong(stream);
      InvalidSilent(INITIAL.(wire := stream));
      RejectionMeaning(INITIAL.(wire := stream));
    }
  }

  lemma {:induction false} InvalidSilent(st: State)
    requires !st.invalid
    ensures Drain(st).0.invalid ==> Drain(st).0.finished && Drain(st).1 == None
    decreases |st.wire|
  {
    var r := OneRound(st);
    if r.Go? { InvalidSilent(r.next); }
  }

  /** A ClientHello of five bytes in one record, then more than the buffer bound of other bytes:
      counted when it comes in pieces, rejected when it is fed whole. */
  lemma {:induction false} CountedInPieces() returns (chunks: seq<seq<Byte>>)
    ensures forall i :: 0 <= i < |chunks| ==> |chunks[i]| <= MAX_HELLO - 4
    ensures FeedAll(INITIAL, chunks).1 == [Count(1, 5)] && !FeedAll(INITIAL, chunks).0.invalid
    ensures FeedAll(INITIAL, [Concat(chunks)]).1 == [] && FeedAll(INITIAL, [Concat(chunks)]).0.invalid
  {
    var filler: seq<Byte> := seq(42000, i => 0);
    var hello, rest := SmallHello(), [filler, filler];
    chunks := [hello] + rest;
    ConcatLength(hello, filler, filler);
    SmallHelloCounted();
    var done := State([], [], 1, true, false);
    assert chunks[0] == hello && chunks[1..] == rest;
    FinishedStays(done, rest);
    assert [Count(1, 5)] + [] == [Count(1, 5)];
    WholeTooLong(Concat(chunks));
  }

  ghost function SmallHello(): seq<Byte> { [22, 3, 1, 0, 5, 1, 0, 0, 1, 0] }

  lemma {:induction false} SmallHelloCounted()
    ensures FeedOnce(INITIAL, SmallHello()) == (State([], [], 1, true, false), Some(Count(1, 5)))
  {
    var w := SmallHello();
    var h := w[5..10];
    assert w[0] == 22 && w[1] == 3 && w[2] == 1 && w[3] == 0 && w[4] == 5;
    assert w[5] == 1 && w[6] == 0 && w[7] == 0 && w[8] == 1;
    assert h[0] == w[5] && h[1] == w[6] && h[2] == w[7] && h[3] == w[8];
    assert INITIAL.wire + w == w && [] + h == h;
    assert Look(h, 1) == Some(Verdict(false, Some(Count(1, 5)), 1));
    assert OneRound(INITIAL.(wire := w)) == Verdict(false, Some(Count(1, 5)), 1);
  }

  lemma {:induction false} ConcatLength(a: seq<Byte>, b: seq<Byte>, c: seq<Byte>)
    ensures |Concat([a] + [b, c])| == |a| + |b| + |c|
  {
    var z, y := [c], [b, c];
    var x := [a] + y;
    assert x[0] == a && x[1..] == y && y[0] == b && y[1..] == z && z[0] == c && z[1..] == [];
    assert Concat(z) == c + Concat(z[1..]) && Concat(y) == b + Concat(y[1..]) && Concat(x) == a + Concat(x[1..]);
  }

  lemma {:induction false} WholeTooLong(stream: seq<Byte>)
    requires |stream| > LIMIT
    ensures FeedAll(INITIAL, [stream]) == (Stopped(INITIAL, true), [])
  {
    var all, none: seq<Count> := [stream], [];
    assert all[1..] == [] && FeedOnce(INITIAL, stream) == (Stopped(INITIAL, true), None);
    assert none + none == none;
  }

  // ----- one hello, byte by byte -----

  lemma {:induction false} Be24Inverse(n: nat)
    requires n < 16777216
    ensures Be24(n / 65536, n / 256 % 256, n % 256) == n
  {
    assert n / 256 / 256 == n / 65536 && n / 65536 < 256;
    assert n == 256 * (n / 256) + n % 256 && n / 256 == 256 * (n / 256 / 256) + n / 256 % 256;
  }

  /** A handshake message: its type, its length in three bytes, the most significant first, its body. */
  function Handshake(kind: Byte, body: seq<Byte>): (m: seq<Byte>)
    requires |body| < 16777216
    ensures |m| == 4 + |body|
  {
    [kind, |body| / 65536, |body| / 256 % 256, |body| % 256] + body
  }

  /** A record: its type, two version bytes, its length in two bytes, its payload. */
  function Record(kind: Byte, major: Byte, minor: Byte, p: seq<Byte>): (m: seq<Byte>)
    requires |p| < 65536
    ensures |m| == 5 + |p|
  {
    [kind, major, minor, |p| / 256, |p| % 256] + p
  }

  /** What the counter is to say about a stream of one record that carries one message. */
  ghost predicate Countable(kind: Byte, major: Byte, minor: Byte, message: Byte, n: nat) {
    kind == 22 && major == 3 && minor <= 4 && message == 1 && 0 < n && n + 4 <= 18432
  }

  /** One handshake message that fills one record is counted as one record and its length with
      the four bytes in front exactly when the record is a TLS handshake record of a known
      version and of at most 18432 bytes, and the message a ClientHello with a body; otherwise
      the stream is rejected. */
  lemma {:induction false} MessageCounted(kind: Byte, major: Byte, minor: Byte, message: Byte, body: seq<Byte>)
    requires |body| + 4 < 65536
    ensures var w := Record(kind, major, minor, Handshake(message, body));
            var (st, r) := FeedOnce(INITIAL, w);
            && st.finished && st.wire == [] && st.hello == []
            && if Countable(kind, major, minor, message, |body|) then !st.invalid && r == Some(Count(1, |body| + 4)) else st.invalid && r == None
  {
    var p := Handshake(message, body);
    var w := Record(kind, major, minor, p);
    RecordFields(kind, major, minor, p);
    assert INITIAL.wire + w == w;
    if GoodHeader(w) {
      MessageLook(message, body);
      RecordRound(w, p);
    }
  }

  lemma {:induction false} MessageLook(message: Byte, body: seq<Byte>)
    requires |body| + 4 <= 18432
    ensures Look(Handshake(message, body), 1) ==
            Some(if message == 1 && |body| > 0 then Verdict(false, Some(Count(1, |body| + 4)), 1) else Verdict(true, None, 1))
  {
    HandshakeFields(message, body);
  }

  lemma {:induction false} RecordRound(w: seq<Byte>, p: seq<Byte>)
    requires |w| == |p| + 5 && GoodHeader(w) && Be16(w[3], w[4]) == |p| && w[5..5 + |p|] == p && Look(p, 1).Some?
    ensures OneRound(INITIAL.(wire := w)) == Look(p, 1).value
  {
    assert [] + p == p;
  }

  lemma {:induction false} RecordFields(kind: Byte, major: Byte, minor: Byte, p: seq<Byte>)
    requires |p| < 65536
    ensures var w := Record(kind, major, minor, p);
            w[0] == kind && w[1] == major && w[2] == minor && Be16(w[3], w[4]) == |p| && w[5..5 + |p|] == p
  {
  }

  lemma {:induction false} HandshakeFields(message: Byte, body: seq<Byte>)
    requires |body| < 16777216
    ensures var p := Handshake(message, body); p[0] == message && Expected(p) == |p|
  {
    Be24Inverse(|body|);
  }

  /** The same through the counter object. */
  method CountMessage(kind: Byte, major: Byte, minor: Byte, message: Byte, body: seq<Byte>) returns (r: Option<Count>, bad: bool)
    requires |body| + 4 < 65536
    ensures var good := kind == 22 && major == 3 && minor <= 4 && message == 1 && 0 < |body| <= 18428;
            bad == !good && r == if good then Some(Count(1, |body| + 4)) else None
  {
    var counter := new ClientHelloCounter();
    MessageCounted(kind, major, minor, message, body);
    r := counter.Feed(Record(kind, major, minor, Handshake(message, body)));
    bad := counter.invalid;
  }
}
