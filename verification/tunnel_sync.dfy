/** The stop/fini handshake of hev-socks5-tunnel.c: one tunnel thread that initialises, runs and
    finalises repeatedly, and any number of stop callers, interleaved at every atomic operation on
    the four-bit word, the event descriptor and the run flag. */
module TunnelSync {
  /** The tunnel thread: before init; after socketpair; between init, runs and fini; past run's
      check; in the scheduler; the event byte read; the run flag cleared; in fini's loop; past it. */
  datatype Tunnel = Down | Opened | Ready | Starting | Looping | GotByte | Ending | Finishing | Closing

  /** A stop caller: outside; spinning for WAIT; holding it, having seen SEND or not; about to
      write; about to drop WAIT.  `due` says that nothing has answered the call yet, `saw` that it
      saw SEND. */
  datatype Caller = Outside | Spinning | Holding(sawSend: bool) | Writing | Leaving(due: bool, saw: bool)

  /** `open`: the event descriptors are open; `pending`: unread event bytes; `asked`: some stop
      has returned that no run has answered yet; `owner`: the caller that set WAIT, or -1. */
  datatype State = State(send: bool, sent: bool, wait: bool, stop: bool, run: bool,
                         open: bool, pending: nat, tunnel: Tunnel, callers: seq<Caller>, asked: bool, owner: int)

  ghost predicate InBody(c: Caller) { c.Holding? || c.Writing? || c.Leaving? }

  ghost predicate Initial(s: State) {
    && !s.send && !s.sent && !s.wait && !s.stop && !s.run && !s.open && s.pending == 0 && s.tunnel == Down && !s.asked && s.owner == -1
    && forall i :: 0 <= i < |s.callers| ==> s.callers[i] == Outside
  }

  /** A run has ended or been refused: every call made so far is answered. */
  ghost function Answered(cs: seq<Caller>): (r: seq<Caller>)
    ensures |r| == |cs|
  {
    seq(|cs|, i requires 0 <= i < |cs| => if cs[i].Leaving? then cs[i].(due := false) else cs[i])
  }

  /** What the tunnel thread may do next. */
  datatype Act = Open | Publish | GiveUp | RunCheck | SetRun | ReadEvent | ClearRun | ClearSent | CallFini | TryFini | Close

  ghost predicate Enabled(s: State, act: Act) {
    match act
    case Open => s.tunnel == Down
    case Publish => s.tunnel == Opened
    case GiveUp => s.tunnel == Down || s.tunnel == Opened
    case RunCheck => s.tunnel == Ready
    case SetRun => s.tunnel == Starting
    case ReadEvent => s.tunnel == Looping && s.pending > 0
    case ClearRun => s.tunnel == GotByte
    case ClearSent => s.tunnel == Ending
    case CallFini => s.tunnel == Ready
    case TryFini => s.tunnel == Finishing
    case Close => s.tunnel == Closing
  }

  ghost function TunnelNext(s: State, act: Act): State {
    match act
    case Open => s.(tunnel := Opened, open := true, pending := 0)
    case Publish => s.(tunnel := Ready, send := true)
    // an init that fails, before or after the descriptors are open, goes to fini
    case GiveUp => s.(tunnel := Finishing)
    case RunCheck => if s.stop then s.(stop := false, asked := false, callers := Answered(s.callers)) else s.(tunnel := Starting)
    case SetRun => s.(tunnel := Looping, run := true)
    // the read asks for four bytes and takes what is there
    case ReadEvent => s.(tunnel := GotByte, pending := if s.pending <= 4 then 0 else s.pending - 4)
    case ClearRun => s.(tunnel := Ending, run := false)
    case ClearSent => s.(tunnel := Ready, sent := false, asked := false, callers := Answered(s.callers))
    case CallFini => s.(tunnel := Finishing)
    case TryFini => s.(send := false, sent := false, tunnel := if s.wait then Finishing else Closing)
    case Close => s.(tunnel := Down, open := false, pending := 0, asked := s.asked && s.stop)
  }

  /** Where a caller goes next. */
  ghost function Moved(s: State, c: Caller): Caller {
    match c
    case Outside => Spinning
    case Spinning => if s.wait then Spinning else Holding(s.send)
    case Holding(sawSend) => if sawSend && !s.sent then Writing else Leaving(true, sawSend)
    case Writing => Leaving(true, true)
    case Leaving(_, _) => Outside
  }

  /** What it does to the word and the descriptor on the way. */
  ghost function Effect(s: State, c: Caller): State {
    match c
    case Outside => s
    case Spinning => s.(wait := true)
    case Holding(sawSend) => if sawSend then s.(sent := true) else s.(stop := true)
    case Writing => s.(pending := s.pending + 1)
    case Leaving(due, _) => s.(wait := false, asked := s.asked || due)
  }

  /** What caller i does next. */
  ghost function CallerNext(s: State, i: int): State
    requires 0 <= i < |s.callers|
  {
    var c := s.callers[i];
    Effect(s, c).(callers := s.callers[i := Moved(s, c)], owner := if c == Spinning && !s.wait then i else if c.Leaving? then -1 else s.owner)
  }

  ghost predicate Step(s: State, t: State) {
    || (exists act :: Enabled(s, act) && t == TunnelNext(s, act))
    || (exists i :: 0 <= i < |s.callers| && t == CallerNext(s, i))
  }

  /** Any finite interleaving from the initial state. */
  ghost predicate Run(r: seq<State>) {
    && r != [] && Initial(r[0])
    && forall k :: 0 <= k < |r| - 1 ==> Next(r, k)
  }

  ghost predicate Next(r: seq<State>, k: int) { 0 <= k < |r| - 1 && Step(r[k], r[k + 1]) }

  // ----- the invariant -----

  /** A call that has returned, or is about to, leaves a trace, or the run is already ending. */
  ghost predicate Kept(s: State) { s.stop || s.pending > 0 || s.tunnel == GotByte || s.tunnel == Ending }

  ghost predicate Up(s: State) {
    s.tunnel == Ready || s.tunnel == Starting || s.tunnel == Looping || s.tunnel == GotByte || s.tunnel == Ending
  }

  /** Exactly the owner of WAIT is inside the body of stop. */
  ghost predicate Exclusive(s: State) {
    && (s.wait <==> s.owner != -1) && -1 <= s.owner < |s.callers|
    && forall i :: 0 <= i < |s.callers| ==> (InBody(s.callers[i]) <==> i == s.owner)
  }

  ghost function Current(s: State): Caller { if 0 <= s.owner < |s.callers| then s.callers[s.owner] else Outside }

  /** What the caller inside the body can rely on. */
  ghost predicate CallerOk(s: State, c: Caller) {
    && (c == Holding(true) || c == Writing ==> s.open && (Up(s) || s.tunnel == Finishing))
    && (c == Holding(true) && s.tunnel == Finishing && !s.send ==> s.pending <= 1)
    && (c == Writing ==> (s.sent || !s.send) && s.pending <= (if s.send then 0 else 1) && s.tunnel != GotByte && s.tunnel != Ending)
    && (c == Leaving(true, true) ==> (Up(s) || s.tunnel == Finishing) && (s.pending > 0 || s.tunnel == GotByte || s.tunnel == Ending))
    && (c == Leaving(true, false) ==> s.stop)
  }

  /** How the bits, the descriptor and the pending bytes go together. */
  ghost predicate Consistent(s: State, c: Caller) {
    && (Up(s) ==> s.open && s.send) && (s.tunnel == Opened ==> s.open)
    && (s.send ==> s.open && (Up(s) || s.tunnel == Finishing))
    && (s.sent ==> s.open && (Up(s) || s.tunnel == Finishing))
    && (s.sent ==> s.pending > 0 || c == Writing || s.tunnel == GotByte || s.tunnel == Ending)
    && (s.tunnel == GotByte || s.tunnel == Ending ==> s.pending == 0 && s.sent)
    && s.pending <= 2 && (s.send ==> s.pending <= 1 && (s.pending > 0 ==> s.sent))
    && (s.pending > 0 ==> Up(s) || s.tunnel == Finishing || s.tunnel == Closing)
    && (s.run <==> s.tunnel == Looping || s.tunnel == GotByte)
    && (s.asked ==> Kept(s))
  }

  ghost predicate Inv(s: State) { Exclusive(s) && CallerOk(s, Current(s)) && Consistent(s, Current(s)) }

  lemma {:induction false} InitialInv(s: State)
    requires Initial(s)
    ensures Inv(s)
  {
  }

  ghost predicate Answers(s: State, act: Act) { (act == RunCheck && s.stop) || act == ClearSent }

  lemma {:induction false} TunnelExclusive(s: State, act: Act)
    requires Exclusive(s)
    ensures var t := TunnelNext(s, act);
            Exclusive(t) && Current(t) == if Answers(s, act) && Current(s).Leaving? then Current(s).(due := false) else Current(s)
  {
  }

  lemma {:induction false} TunnelKeeps(s: State, act: Act)
    requires Inv(s) && Enabled(s, act)
    ensures Inv(TunnelNext(s, act))
  {
    TunnelExclusive(s, act);
    assert Current(s) != Outside ==> s.wait;
    TunnelFacts(s, act, Current(s), Current(TunnelNext(s, act)));
  }

  lemma {:induction false} TunnelFacts(s: State, act: Act, c: Caller, d: Caller)
    requires CallerOk(s, c) && Consistent(s, c) && Enabled(s, act) && (c != Outside ==> s.wait)
    requires d == if Answers(s, act) && c.Leaving? then c.(due := false) else c
    ensures CallerOk(TunnelNext(s, act), d) && Consistent(TunnelNext(s, act), d)
  {
  }

  lemma {:induction false} CallerExclusive(s: State, i: int)
    requires Exclusive(s) && 0 <= i < |s.callers|
    ensures Exclusive(CallerNext(s, i))
  {
    assert InBody(s.callers[i]) <==> i == s.owner;
    OneMoves(s.callers, i, Moved(s, s.callers[i]), s.owner, CallerNext(s, i).owner);
  }

  lemma {:induction false} OneMoves(cs: seq<Caller>, i: int, c: Caller, owner: int, owner': int)
    requires 0 <= i < |cs| && forall j :: 0 <= j < |cs| ==> (InBody(cs[j]) <==> j == owner)
    requires (InBody(c) <==> i == owner') && (owner' == owner || (owner == -1 && owner' == i) || (owner == i && owner' == -1))
    ensures var cs' := cs[i := c]; forall j :: 0 <= j < |cs'| ==> (InBody(cs'[j]) <==> j == owner')
  {
  }

  lemma {:induction false} CallerCurrent(s: State, i: int)
    requires Exclusive(s) && 0 <= i < |s.callers|
    ensures var c, d := Current(s), Current(CallerNext(s, i));
            && (InBody(s.callers[i]) ==> c == s.callers[i] && d == if c.Leaving? then Outside else CallerNext(s, i).callers[i])
            && (s.callers[i] == Outside ==> d == c)
            && (s.callers[i] == Spinning ==> if s.wait then d == c else c == Outside && d == Holding(s.send))
  {
    assert InBody(s.callers[i]) <==> i == s.owner;
  }

  lemma {:induction false} CallerKeeps(s: State, i: int)
    requires Inv(s) && 0 <= i < |s.callers|
    ensures Inv(CallerNext(s, i))
  {
    CallerExclusive(s, i);
    CallerCurrent(s, i);
    CallerFacts(s, i, Current(s), Current(CallerNext(s, i)));
  }

  lemma {:induction false} CallerFacts(s: State, i: int, c: Caller, d: Caller)
    requires CallerOk(s, c) && Consistent(s, c) && 0 <= i < |s.callers|
    requires InBody(s.callers[i]) ==> c == s.callers[i] && d == if c.Leaving? then Outside else CallerNext(s, i).callers[i]
    requires s.callers[i] == Outside ==> d == c
    requires s.callers[i] == Spinning ==> if s.wait then d == c else c == Outside && d == Holding(s.send)
    ensures CallerOk(CallerNext(s, i), d) && Consistent(CallerNext(s, i), d)
  {
    if s.callers[i].Holding? { HoldingFacts(s, i, d); } else if InBody(s.callers[i]) { BodyFacts(s, i, d); }
  }

  lemma {:induction false} HoldingFacts(s: State, i: int, d: Caller)
    requires 0 <= i < |s.callers| && s.callers[i].Holding? && CallerOk(s, s.callers[i]) && Consistent(s, s.callers[i])
    requires d == CallerNext(s, i).callers[i]
    ensures CallerOk(CallerNext(s, i), d) && Consistent(CallerNext(s, i), d)
  {
  }

  lemma {:induction false} BodyFacts(s: State, i: int, d: Caller)
    requires 0 <= i < |s.callers| && (s.callers[i].Writing? || s.callers[i].Leaving?) && CallerOk(s, s.callers[i]) && Consistent(s, s.callers[i])
    requires d == if s.callers[i].Leaving? then Outside else CallerNext(s, i).callers[i]
    ensures CallerOk(CallerNext(s, i), d) && Consistent(CallerNext(s, i), d)
  {
  }

  /** Every reachable state satisfies the invariant. */
  lemma {:induction false} RunInv(r: seq<State>, k: nat)
    requires Run(r) && k < |r|
    ensures Inv(r[k])
  {
    if k == 0 { InitialInv(r[0]); } else {
      RunInv(r, k - 1);
      assert Next(r, k - 1);
      StepKeeps(r[k - 1], r[k]);
    }
  }

  lemma {:induction false} StepKeeps(s: State, t: State)
    requires Inv(s) && Step(s, t)
    ensures Inv(t)
  {
    if act :| Enabled(s, act) && t == TunnelNext(s, act) { TunnelKeeps(s, act); } else {
      var i :| 0 <= i < |s.callers| && t == CallerNext(s, i);
      CallerKeeps(s, i);
    }
  }

  // ----- what it gives -----

  /** The event descriptor is written only while it is open and nearly empty, so the write succeeds. */
  lemma {:induction false} WriteWhileOpen(r: seq<State>, k: nat, i: int)
    requires Run(r) && k < |r| && 0 <= i < |r[k].callers| && r[k].callers[i] == Writing
    ensures r[k].open && r[k].pending <= 1 && r[k].tunnel != Closing && r[k].tunnel != Down
  {
    RunInv(r, k);
    assert InBody(r[k].callers[i]);
  }

  /** Stop bodies exclude each other. */
  lemma {:induction false} OneBody(r: seq<State>, k: nat, i: int, j: int)
    requires Run(r) && k < |r| && 0 <= i < |r[k].callers| && 0 <= j < |r[k].callers|
    requires InBody(r[k].callers[i]) && InBody(r[k].callers[j])
    ensures i == j
  {
    RunInv(r, k);
  }

  /** A stop that has returned before run's check, and that no earlier run has answered, has left
      the STOP bit or an unread event byte. */
  lemma {:induction false} StopRemembered(r: seq<State>, k: nat)
    requires Run(r) && k < |r| && r[k].tunnel == Ready && r[k].asked
    ensures r[k].stop || (r[k].pending > 0 && r[k].open)
  {
    RunInv(r, k);
  }

  /** A stop that has returned stays on record until run refuses to start because of it, or a run
      ends, or fini closes the descriptors over the unread byte. */
  lemma {:induction false} OnlyCloseForgets(r: seq<State>, k: nat)
    requires Run(r) && k < |r| - 1 && r[k].asked && !r[k + 1].asked
    ensures (r[k].tunnel == Ready && r[k].stop && !r[k + 1].stop && r[k + 1].tunnel == Ready)
         || (r[k].tunnel == Ending && !r[k + 1].run)
         || (r[k].tunnel == Closing && !r[k].stop && r[k].pending > 0)
  {
    RunInv(r, k);
    assert Next(r, k);
    Forgetting(r[k], r[k + 1]);
  }

  lemma {:induction false} Forgetting(s: State, t: State)
    requires Consistent(s, Current(s)) && Step(s, t) && s.asked && !t.asked
    ensures exists act :: Enabled(s, act) && t == TunnelNext(s, act) && (Answers(s, act) || (act == Close && !s.stop && s.pending > 0))
  {
    if i :| 0 <= i < |s.callers| && t == CallerNext(s, i) {
      CallerAsks(s, i);
    } else {
      var act :| Enabled(s, act) && t == TunnelNext(s, act);
      ActForgets(s, act);
    }
  }

  lemma {:induction false} ActForgets(s: State, act: Act)
    requires s.asked && Kept(s) && Enabled(s, act) && !TunnelNext(s, act).asked
    ensures Answers(s, act) || (act == Close && !s.stop && s.pending > 0)
  {
  }

  lemma {:induction false} CallerAsks(s: State, i: int)
    requires 0 <= i < |s.callers|
    ensures s.asked ==> CallerNext(s, i).asked
  {
  }

  // ----- which stops reach a run -----

  /** What a stop leaves depends only on whether it saw SEND: a byte for the run, which is there to
      be read or has just been read, or the STOP bit for run's check. */
  lemma {:induction false} TraceOfStop(r: seq<State>, k: nat, i: int)
    requires Run(r) && k < |r| && 0 <= i < |r[k].callers| && r[k].callers[i].Leaving? && r[k].callers[i].due
    ensures if r[k].callers[i].saw then r[k].pending > 0 || r[k].tunnel == GotByte || r[k].tunnel == Ending else r[k].stop
  {
    RunInv(r, k);
    assert InBody(r[k].callers[i]);
  }

  /** A stop that saw SEND does its part. */
  ghost predicate Acts(s: State, t: State) {
    exists i :: 0 <= i < |s.callers| == |t.callers| && s.callers[i] == Holding(true) && t.callers[i] != Holding(true)
  }

  /** A run ends, or the descriptors are closed. */
  ghost predicate Settles(s: State, t: State) { (s.tunnel == Ending && t.tunnel == Ready) || (s.tunnel == Closing && t.tunnel == Down) }

  /** Some stop that saw SEND has acted since a run last ended or the descriptors were last closed. */
  ghost predicate Owed(r: seq<State>, k: nat)
    requires k < |r|
  {
    k > 0 && !Settles(r[k - 1], r[k]) && (Acts(r[k - 1], r[k]) || Owed(r, k - 1))
  }

  /** A byte is unread or being written, or has been read by a run that is about to end. */
  ghost predicate Reached(s: State) { s.pending > 0 || Current(s) == Writing || s.tunnel == GotByte || s.tunnel == Ending }

  lemma {:induction false} TunnelReach(s: State, act: Act)
    requires Inv(s) && Enabled(s, act)
    ensures var t := TunnelNext(s, act); !Acts(s, t) && (Reached(t) <==> !Settles(s, t) && Reached(s))
  {
    var t := TunnelNext(s, act);
    TunnelExclusive(s, act);
    forall i | 0 <= i < |s.callers| && s.callers[i] == Holding(true) ensures t.callers[i] == Holding(true) {}
    TunnelReachFacts(s, act, Current(s), Current(t));
  }

  lemma {:induction false} TunnelReachFacts(s: State, act: Act, c: Caller, d: Caller)
    requires CallerOk(s, c) && Consistent(s, c) && Enabled(s, act) && (c == Writing <==> d == Writing)
    ensures var t := TunnelNext(s, act);
            (t.pending > 0 || d == Writing || t.tunnel == GotByte || t.tunnel == Ending) <==>
            !Settles(s, t) && (s.pending > 0 || c == Writing || s.tunnel == GotByte || s.tunnel == Ending)
  {
  }

  lemma {:induction false} CallerReach(s: State, i: int)
    requires Inv(s) && 0 <= i < |s.callers|
    ensures var t := CallerNext(s, i);
            !Settles(s, t) && (s.callers[i] == Holding(true) <==> Acts(s, t)) && (Reached(t) <==> Acts(s, t) || Reached(s))
  {
    CallerCurrent(s, i);
    CallerActs(s, i);
  }

  lemma {:induction false} CallerActs(s: State, i: int)
    requires 0 <= i < |s.callers|
    ensures s.callers[i] == Holding(true) <==> Acts(s, CallerNext(s, i))
  {
    OnlyOneMoves(s, i);
    MoverActs(s, CallerNext(s, i), i);
  }

  lemma {:induction false} OnlyOneMoves(s: State, i: int)
    requires 0 <= i < |s.callers|
    ensures var cs := CallerNext(s, i).callers;
            |cs| == |s.callers| && cs == s.callers[i := cs[i]] && (s.callers[i] == Holding(true) ==> cs[i] != Holding(true))
  {
  }

  lemma {:induction false} MoverActs(s: State, t: State, i: int)
    requires 0 <= i < |s.callers| == |t.callers| && t.callers == s.callers[i := t.callers[i]]
    requires s.callers[i] == Holding(true) ==> t.callers[i] != Holding(true)
    ensures s.callers[i] == Holding(true) <==> Acts(s, t)
  {
  }

  /** A byte ends the run exactly when some stop that saw SEND has acted since the last one ended. */
  lemma {:induction false} ReachedIff(r: seq<State>, k: nat)
    requires Run(r) && k < |r|
    ensures Owed(r, k) <==> Reached(r[k])
    decreases k
  {
    if k > 0 {
      ReachedIff(r, k - 1);
      RunInv(r, k - 1);
      assert Next(r, k - 1);
      StepReach(r[k - 1], r[k]);
    }
  }

  lemma {:induction false} StepReach(s: State, t: State)
    requires Inv(s) && Step(s, t)
    ensures Reached(t) <==> !Settles(s, t) && (Acts(s, t) || Reached(s))
  {
    if act :| Enabled(s, act) && t == TunnelNext(s, act) { TunnelReach(s, act); } else {
      var i :| 0 <= i < |s.callers| && t == CallerNext(s, i);
      CallerReach(s, i);
    }
  }

  /** A run that has started is missed by the stops so far exactly when none that saw SEND has acted
      since the last run: then nothing is there for its event task to read, or about to be. */
  lemma {:induction false} MissedIff(r: seq<State>, k: nat)
    requires Run(r) && k < |r| && (r[k].tunnel == Starting || r[k].tunnel == Looping)
    ensures !Owed(r, k) <==> r[k].pending == 0 && forall i :: 0 <= i < |r[k].callers| ==> r[k].callers[i] != Writing
    ensures !Owed(r, k) ==> !Enabled(r[k], ReadEvent)
  {
    ReachedIff(r, k);
    RunInv(r, k);
    forall i | 0 <= i < |r[k].callers| && r[k].callers[i] == Writing ensures Current(r[k]) == Writing {
      assert InBody(r[k].callers[i]);
    }
  }

  lemma {:induction false} Extend(r: seq<State>, t: State)
    requires Run(r) && Step(r[|r| - 1], t)
    ensures Run(r + [t])
  {
    var r' := r + [t];
    forall k | 0 <= k < |r'| - 1 ensures Next(r', k) {
      if k < |r| - 1 { assert Next(r, k); }
    }
  }

  lemma {:induction false} ExtendTunnel(r: seq<State>, act: Act) returns (r': seq<State>)
    requires Run(r) && Enabled(r[|r| - 1], act)
    ensures Run(r') && r'[|r'| - 1] == TunnelNext(r[|r| - 1], act)
  {
    r' := r + [TunnelNext(r[|r| - 1], act)];
    Extend(r, TunnelNext(r[|r| - 1], act));
  }

  lemma {:induction false} ExtendCaller(r: seq<State>) returns (r': seq<State>)
    requires Run(r) && |r[|r| - 1].callers| == 1
    ensures Run(r') && r'[|r'| - 1] == CallerNext(r[|r| - 1], 0)
  {
    var t := CallerNext(r[|r| - 1], 0);
    assert Step(r[|r| - 1], t);
    r' := r + [t];
    Extend(r, t);
  }

  ghost function Start(): State { State(false, false, false, false, false, false, 0, Down, [Outside], false, -1) }

  /** A stop that saw no SEND and returns after run's check does not reach the run that has
      started: the STOP bit waits for the next one. */
  lemma {:induction false} LateStop() returns (r: seq<State>)
    ensures Run(r) && var s := r[|r| - 1]; s.tunnel == Looping && s.run && s.asked && s.stop && s.pending == 0
  {
    r := [Start()];
    r := ExtendCaller(r);
    r := ExtendCaller(r);
    r := ExtendTunnel(r, Open);
    r := ExtendTunnel(r, Publish);
    r := ExtendTunnel(r, RunCheck);
    r := ExtendTunnel(r, SetRun);
    r := ExtendCaller(r);
    r := ExtendCaller(r);
  }

  lemma {:induction false} StopWhileReady() returns (r: seq<State>)
    ensures Run(r) && r[|r| - 1] == State(true, true, false, false, false, true, 1, Ready, [Outside], true, -1)
  {
    r := [Start()];
    r := ExtendTunnel(r, Open);
    r := ExtendTunnel(r, Publish);
    r := ExtendCaller(r);
    r := ExtendCaller(r);
    r := ExtendCaller(r);
    r := ExtendCaller(r);
    r := ExtendCaller(r);
  }

  /** A stop between the last run and fini is forgotten: its byte goes with the descriptors. */
  lemma {:induction false} LostStop() returns (r: seq<State>)
    ensures Run(r) && |r| > 1
    ensures var s, t := r[|r| - 2], r[|r| - 1]; s.asked && s.tunnel == Closing && !t.asked && !t.stop && t.pending == 0 && t.tunnel == Down
  {
    r := StopWhileReady();
    r := ExtendTunnel(r, CallFini);
    r := ExtendTunnel(r, TryFini);
    var s := r[|r| - 1];
    Extend(r, TunnelNext(s, Close));
    r := r + [TunnelNext(s, Close)];
  }
}
