/** The mock AutoNAT v2 server as a state machine: any number of dial-request
    handlers, each advancing one step at a time, over one shared dialer host. */
module MockServer {
  import opened Text

  type Peer = string

  const TWO_TO_THE_64 := 0x1_0000_0000_0000_0000

  /** Behaviours that only answer, that dial back, and the random choice. */
  datatype Behavior =
    | Reject | Refuse | ForceUnreachable | InternalError | Timeout
    | ForceReachable | WrongNonce | NoDialbackMsg
    | Probabilistic
  {
    predicate NeedsDialBack() {
      ForceReachable? || WrongNonce? || NoDialbackMsg? || Probabilistic?
    }
  }

  datatype Config = Config(
    behavior: Behavior,
    probability: real,
    tcp: Option<Behavior>,
    quic: Option<Behavior>
  ) {
    predicate NeedsDialBack() {
      || behavior.NeedsDialBack()
      || (tcp.Some? && tcp.value.NeedsDialBack())
      || (quic.Some? && quic.value.NeedsDialBack())
    }
  }

  /** A parsed multiaddr, as far as the server looks at it. */
  datatype Addr = Addr(text: string, isTcp: bool, isQuic: bool)

  function DetermineBehavior(cfg: Config, addr: Option<Addr>, draw: real): Behavior {
    if addr.Some? && cfg.tcp.Some? && addr.value.isTcp then cfg.tcp.value
    else if addr.Some? && cfg.quic.Some? && addr.value.isQuic then cfg.quic.value
    else if cfg.behavior.Probabilistic? then
      var p := if cfg.probability <= 0.0 then 0.5 else cfg.probability;
      if draw < p then ForceReachable else ForceUnreachable
    else cfg.behavior
  }

  // ------------------------------------------------------------- messages

  datatype Incoming =
    | Unreadable
    | NotADialRequest
    | DialRequest(nonce: nat, firstAddr: Option<Addr>)

  datatype ResponseStatus = OK | RequestRejected | DialRefused | InternalFailure

  datatype DialStatus = Unused | DialError | DialBackError | DialOK

  /** What a handler puts on the wire: a DialBack message whose write succeeded,
      or one attempt to write a DialResponse. */
  datatype Event =
    | DialBackWritten(nonce: nat)
    | ResponseAttempted(status: ResponseStatus, addrIdx: nat, dialStatus: DialStatus)

  /** `nonce - 1` on a 64-bit unsigned integer. */
  function PreviousNonce(nonce: nat): nat {
    (nonce + TWO_TO_THE_64 - 1) % TWO_TO_THE_64
  }

  // -------------------------------------------------------------- handlers

  /** A dial-back: where to, and the nonce to send (`None` to connect only). */
  datatype Job = Job(addr: Addr, nonce: Option<nat>)

  datatype Phase =
    | Reading
    | Deciding
    | AddingAddr(job: Job)
    | Connecting(job: Job)
    | OpeningStream(job: Job)
    | Writing(job: Job)
    | Holding(job: Job)
    | AwaitingRead(job: Job)
    | ClosingPeer(verdict: DialStatus)
    | ClearingAddrs(verdict: DialStatus)
    | RemovingPeer(verdict: DialStatus)
    | Responding(status: ResponseStatus, dialStatus: DialStatus)
    | Hanging
    | Done
  {
    /** Between AddAddr and the last of the three deferred clean-ups. */
    predicate InDialSection() {
      Connecting? || OpeningStream? || Writing? || Holding? || AwaitingRead?
      || ClosingPeer? || ClearingAddrs? || RemovingPeer?
    }

    predicate TouchesDialer() { AddingAddr? || InDialSection() }

    function Rank(): nat {
      match this
      case Reading => 12
      case Deciding => 11
      case AddingAddr(_) => 10
      case Connecting(_) => 9
      case OpeningStream(_) => 8
      case Writing(_) => 7
      case Holding(_) => 6
      case AwaitingRead(_) => 6
      case ClosingPeer(_) => 5
      case ClearingAddrs(_) => 4
      case RemovingPeer(_) => 3
      case Responding(_, _) => 2
      case Hanging => 1
      case Done => 0
    }
  }

  datatype Handler = Handler(
    peer: Peer,
    incoming: Incoming,
    phase: Phase,
    effective: Option<Behavior>,
    log: seq<Event>
  )

  /** The dialer host: addresses and other peerstore records by peer, and open connections. */
  datatype Dialer = Dialer(addrs: set<Peer>, records: set<Peer>, conns: set<Peer>) {
    function Known(): set<Peer> { addrs + records + conns }
  }

  const EMPTY_DIALER := Dialer({}, {}, {})

  /** What the libraries and the random source make of one step. `linked` says
      that a connection exists afterwards even though the call failed. */
  datatype Outcome = Outcome(
    draw: real,
    connected: bool, linked: bool,
    streamed: bool, relinked: bool,
    written: bool,
    released: bool
  )

  datatype StepResult = StepResult(handler: Handler, dialer: Dialer)

  function Decide(cfg: Config, h: Handler, draw: real): Handler
    requires h.incoming.DialRequest?
  {
    var b := DetermineBehavior(cfg, h.incoming.firstAddr, draw);
    var next :=
      match b
      case Reject => Responding(RequestRejected, Unused)
      case Refuse => Responding(DialRefused, Unused)
      case ForceUnreachable => Responding(OK, DialError)
      case InternalError => Responding(InternalFailure, Unused)
      case Timeout => Hanging
      case ForceReachable => DialOrFail(h.incoming.firstAddr, Some(h.incoming.nonce))
      case WrongNonce => DialOrFail(h.incoming.firstAddr, Some(PreviousNonce(h.incoming.nonce)))
      case NoDialbackMsg => DialOrFail(h.incoming.firstAddr, None)
      case Probabilistic => Done;
    h.(effective := Some(b), phase := next)
  }

  function DialOrFail(addr: Option<Addr>, nonce: Option<nat>): Phase {
    match addr
    case None => Responding(OK, DialError)
    case Some(a) => AddingAddr(Job(a, nonce))
  }

  /** The status the handler reports when the dial stops with `verdict`;
      connect-only jobs report success whatever happened. */
  function Verdict(job: Job, verdict: DialStatus): DialStatus {
    if job.nonce.None? then DialOK else verdict
  }

  function With(peers: set<Peer>, p: Peer, present: bool): set<Peer> {
    if present then peers + {p} else peers
  }

  /** One step of a handler, given the dialer host it shares. */
  function StepHandler(cfg: Config, h: Handler, d: Dialer, o: Outcome): StepResult {
    match h.phase
    case Reading =>
      StepResult(h.(phase := if h.incoming.DialRequest? then Deciding else Done), d)
    case Deciding =>
      StepResult(if h.incoming.DialRequest? then Decide(cfg, h, o.draw) else h.(phase := Done), d)
    case AddingAddr(job) =>
      StepResult(h.(phase := Connecting(job)), d.(addrs := d.addrs + {h.peer}))
    case Connecting(job) =>
      StepResult(h.(phase := if o.connected then OpeningStream(job) else ClosingPeer(Verdict(job, DialError))),
                 d.(records := d.records + {h.peer}, conns := With(d.conns, h.peer, o.connected || o.linked)))
    case OpeningStream(job) =>
      StepResult(h.(phase := if !o.streamed then ClosingPeer(Verdict(job, DialBackError))
                             else if job.nonce.Some? then Writing(job) else Holding(job)),
                 d.(records := d.records + {h.peer}, conns := With(d.conns, h.peer, o.streamed || o.relinked)))
    case Writing(job) =>
      if o.written && job.nonce.Some? then
        StepResult(h.(phase := AwaitingRead(job), log := h.log + [DialBackWritten(job.nonce.value)]), d)
      else StepResult(h.(phase := ClosingPeer(Verdict(job, DialBackError))), d)
    case Holding(job) => StepResult(h.(phase := ClosingPeer(DialOK)), d)
    case AwaitingRead(job) => StepResult(h.(phase := ClosingPeer(DialOK)), d)
    case ClosingPeer(v) => StepResult(h.(phase := ClearingAddrs(v)), d.(conns := d.conns - {h.peer}))
    case ClearingAddrs(v) => StepResult(h.(phase := RemovingPeer(v)), d.(addrs := d.addrs - {h.peer}))
    case RemovingPeer(v) => StepResult(h.(phase := Responding(OK, v)), d.(records := d.records - {h.peer}))
    case Responding(status, dialStatus) =>
      StepResult(h.(phase := Done, log := h.log + [ResponseAttempted(status, 0, dialStatus)]), d)
    case Hanging => StepResult(if o.released then h.(phase := Done) else h, d)
    case Done => StepResult(h, d)
  }

  // ------------------------------------------------------------- the server

  /** `crashed` records a method call on the nil dialer host. */
  datatype World = World(cfg: Config, dialer: Option<Dialer>, handlers: seq<Handler>, crashed: bool)

  datatype Action =
    | Arrive(peer: Peer, incoming: Incoming)
    | Advance(handler: nat, outcome: Outcome)
    | ConnectionLost(peer: Peer)
    | AddrsExpired(peer: Peer)

  function Start(cfg: Config): World {
    World(cfg, if cfg.NeedsDialBack() then Some(EMPTY_DIALER) else None, [], false)
  }

  function NewHandler(peer: Peer, incoming: Incoming): Handler {
    Handler(peer, incoming, Reading, None, [])
  }

  function Next(w: World, a: Action): World {
    match a
    case Arrive(peer, incoming) => w.(handlers := w.handlers + [NewHandler(peer, incoming)])
    case ConnectionLost(peer) =>
      if w.dialer.None? then w
      else w.(dialer := Some(w.dialer.value.(conns := w.dialer.value.conns - {peer})))
    case AddrsExpired(peer) =>
      if w.dialer.None? then w
      else w.(dialer := Some(w.dialer.value.(addrs := w.dialer.value.addrs - {peer})))
    case Advance(i, o) =>
      if |w.handlers| <= i then w
      else if w.dialer.None? && w.handlers[i].phase.TouchesDialer() then w.(crashed := true)
      else
        var d := if w.dialer.Some? then w.dialer.value else EMPTY_DIALER;
        var r := StepHandler(w.cfg, w.handlers[i], d, o);
        World(w.cfg, if w.dialer.Some? then Some(r.dialer) else None, w.handlers[i := r.handler], w.crashed)
  }

  function Run(w: World, actions: seq<Action>): World {
    if actions == [] then w
    else Next(Run(w, actions[..|actions| - 1]), actions[|actions| - 1])
  }

  // -------------------------------------------------------------- invariant

  /** The behaviours the configuration allows for an address. */
  predicate Possible(cfg: Config, addr: Option<Addr>, b: Behavior) {
    if addr.Some? && cfg.tcp.Some? && addr.value.isTcp then b == cfg.tcp.value
    else if addr.Some? && cfg.quic.Some? && addr.value.isQuic then b == cfg.quic.value
    else if cfg.behavior.Probabilistic? then b == ForceReachable || b == ForceUnreachable
    else b == cfg.behavior
  }

  function NonceToSend(b: Behavior, nonce: nat): Option<nat> {
    match b
    case ForceReachable => Some(nonce)
    case WrongNonce => Some(PreviousNonce(nonce))
    case _ => None
  }

  predicate DialsBack(b: Behavior) { b.ForceReachable? || b.WrongNonce? || b.NoDialbackMsg? }

  predicate Decided(cfg: Config, h: Handler) {
    && h.incoming.DialRequest?
    && h.effective.Some?
    && Possible(cfg, h.incoming.firstAddr, h.effective.value)
  }

  predicate JobOf(cfg: Config, h: Handler, job: Job) {
    && Decided(cfg, h)
    && DialsBack(h.effective.value)
    && h.incoming.firstAddr == Some(job.addr)
    && job.nonce == NonceToSend(h.effective.value, h.incoming.nonce)
  }

  /** A dial that ended with `verdict`: success is reported exactly for a written
      DialBack, and always by the connect-only behaviour. */
  predicate Dialled(cfg: Config, h: Handler, verdict: DialStatus) {
    && Decided(cfg, h)
    && DialsBack(h.effective.value)
    && h.incoming.firstAddr.Some?
    && var n := NonceToSend(h.effective.value, h.incoming.nonce);
       if n.None? then verdict.DialOK? && h.log == []
       else if verdict.DialOK? then h.log == [DialBackWritten(n.value)]
       else !verdict.Unused? && h.log == []
  }

  predicate ResponseDue(cfg: Config, h: Handler, status: ResponseStatus, dialStatus: DialStatus) {
    && Decided(cfg, h)
    && match h.effective.value
       case Reject => status.RequestRejected? && dialStatus.Unused? && h.log == []
       case Refuse => status.DialRefused? && dialStatus.Unused? && h.log == []
       case InternalError => status.InternalFailure? && dialStatus.Unused? && h.log == []
       case ForceUnreachable => status.OK? && dialStatus.DialError? && h.log == []
       case Timeout => false
       case Probabilistic => false
       case _ =>
         && status.OK?
         && if h.incoming.firstAddr.None? then dialStatus.DialError? && h.log == []
            else Dialled(cfg, h, dialStatus)
  }

  ghost predicate Answered(cfg: Config, h: Handler) {
    && |h.log| > 0
    && h.log[|h.log| - 1].ResponseAttempted?
    && var r := h.log[|h.log| - 1];
       r.addrIdx == 0 && ResponseDue(cfg, h.(log := h.log[..|h.log| - 1]), r.status, r.dialStatus)
  }

  ghost predicate HandlerOk(cfg: Config, h: Handler) {
    match h.phase
    case Reading => h.effective.None? && h.log == []
    case Deciding => h.effective.None? && h.log == [] && h.incoming.DialRequest?
    case AddingAddr(job) => JobOf(cfg, h, job) && h.log == []
    case Connecting(job) => JobOf(cfg, h, job) && h.log == []
    case OpeningStream(job) => JobOf(cfg, h, job) && h.log == []
    case Writing(job) => JobOf(cfg, h, job) && h.log == [] && job.nonce.Some?
    case Holding(job) => JobOf(cfg, h, job) && h.log == [] && job.nonce.None?
    case AwaitingRead(job) =>
      JobOf(cfg, h, job) && job.nonce.Some? && h.log == [DialBackWritten(job.nonce.value)]
    case ClosingPeer(v) => Dialled(cfg, h, v)
    case ClearingAddrs(v) => Dialled(cfg, h, v)
    case RemovingPeer(v) => Dialled(cfg, h, v)
    case Responding(status, dialStatus) => ResponseDue(cfg, h, status, dialStatus)
    case Hanging => Decided(cfg, h) && h.effective.value.Timeout? && h.log == []
    case Done =>
      || (!h.incoming.DialRequest? && h.effective.None? && h.log == [])
      || (Decided(cfg, h) && (h.effective.value.Timeout? || h.effective.value.Probabilistic?) && h.log == [])
      || Answered(cfg, h)
  }

  /** Some handler for `p` has connected, or tried to, and not yet closed the peer. */
  predicate MayBeLinked(h: Handler, p: Peer) {
    h.peer == p && (h.phase.OpeningStream? || h.phase.Writing? || h.phase.Holding?
                    || h.phase.AwaitingRead? || h.phase.ClosingPeer?)
  }

  predicate MayHaveAddrs(h: Handler, p: Peer) {
    h.peer == p && h.phase.InDialSection() && !h.phase.RemovingPeer?
  }

  predicate MayHaveRecords(h: Handler, p: Peer) {
    h.peer == p && h.phase.InDialSection() && !h.phase.Connecting?
  }

  predicate LinkOwed(handlers: seq<Handler>, p: Peer) {
    exists i :: 0 <= i < |handlers| && MayBeLinked(handlers[i], p)
  }

  predicate AddrsOwed(handlers: seq<Handler>, p: Peer) {
    exists i :: 0 <= i < |handlers| && MayHaveAddrs(handlers[i], p)
  }

  predicate RecordsOwed(handlers: seq<Handler>, p: Peer) {
    exists i :: 0 <= i < |handlers| && MayHaveRecords(handlers[i], p)
  }

  ghost predicate DialerOk(d: Dialer, handlers: seq<Handler>) {
    && (forall p :: p in d.conns ==> LinkOwed(handlers, p))
    && (forall p :: p in d.addrs ==> AddrsOwed(handlers, p))
    && (forall p :: p in d.records ==> RecordsOwed(handlers, p))
  }

  ghost predicate Inv(w: World) {
    && !w.crashed
    && (w.dialer.Some? <==> w.cfg.NeedsDialBack())
    && (forall i :: 0 <= i < |w.handlers| ==> HandlerOk(w.cfg, w.handlers[i]))
    && (w.dialer.Some? ==> DialerOk(w.dialer.value, w.handlers))
  }

  lemma DeterminedIsPossible(cfg: Config, addr: Option<Addr>, draw: real)
    ensures Possible(cfg, addr, DetermineBehavior(cfg, addr, draw))
  {
  }

  lemma DialNeedsHost(cfg: Config, addr: Option<Addr>, b: Behavior)
    requires Possible(cfg, addr, b) && DialsBack(b)
    ensures cfg.NeedsDialBack()
  {
  }

  /** A dialer host is set up exactly when some request would dial back, or would be
      left to a probabilistic override. */
  lemma HostWhenUsed(cfg: Config)
    ensures cfg.NeedsDialBack()
       <==> exists addr, draw :: var b := DetermineBehavior(cfg, addr, draw); DialsBack(b) || b.Probabilistic?
  {
    if cfg.NeedsDialBack() {
      if cfg.behavior.NeedsDialBack() {
        var b := DetermineBehavior(cfg, None, 0.0);
        assert DialsBack(b);
      } else if cfg.tcp.Some? && cfg.tcp.value.NeedsDialBack() {
        var b := DetermineBehavior(cfg, Some(Addr("", true, false)), 0.0);
        assert b == cfg.tcp.value;
      } else {
        var b := DetermineBehavior(cfg, Some(Addr("", false, true)), 0.0);
        assert b == cfg.quic.value;
      }
    }
  }

  // ------------------------------------------------------- probabilistic draws

  predicate Overridden(cfg: Config, addr: Option<Addr>) {
    addr.Some? && ((cfg.tcp.Some? && addr.value.isTcp) || (cfg.quic.Some? && addr.value.isQuic))
  }

  /** The configured probability, or one half when none is set. */
  function Threshold(cfg: Config): real {
    if cfg.probability > 0.0 then cfg.probability else 0.5
  }

  predicate ByChance(cfg: Config, h: Handler) {
    h.incoming.DialRequest? && cfg.behavior.Probabilistic? && !Overridden(cfg, h.incoming.firstAddr)
  }

  /** A draw below the threshold means reachable, any other unreachable. */
  lemma DrawDecides(cfg: Config, addr: Option<Addr>, draw: real)
    requires cfg.behavior.Probabilistic? && !Overridden(cfg, addr)
    ensures DetermineBehavior(cfg, addr, draw) == ForceReachable <==> draw < Threshold(cfg)
    ensures DetermineBehavior(cfg, addr, draw) == ForceUnreachable <==> draw >= Threshold(cfg)
  {
  }

  /** Action `k` is the step in which handler `i` decides. */
  predicate DecidesAt(cfg: Config, actions: seq<Action>, k: int, i: nat) {
    && 0 <= k < |actions|
    && actions[k].Advance? && actions[k].handler == i
    && var before := Run(Start(cfg), actions[..k]).handlers;
       i < |before| && before[i].phase.Deciding?
  }

  /** What handler `h` decided, given the draw of the step in which it did. */
  predicate DrawnAs(cfg: Config, h: Handler, draw: real) {
    h.effective == Some(if draw < Threshold(cfg) then ForceReachable else ForceUnreachable)
  }

  predicate Drawn(cfg: Config, actions: seq<Action>, k: int, i: nat, h: Handler) {
    DecidesAt(cfg, actions, k, i) && DrawnAs(cfg, h, actions[k].outcome.draw)
  }

  lemma DrawnEarlier(cfg: Config, actions: seq<Action>, k: int, i: nat, h: Handler)
    requires actions != [] && Drawn(cfg, actions[..|actions| - 1], k, i, h)
    ensures Drawn(cfg, actions, k, i, h)
  {
    assert actions[..|actions| - 1][..k] == actions[..k];
  }

  lemma StepKeepsDecision(cfg: Config, h: Handler, d: Dialer, o: Outcome)
    requires HandlerOk(cfg, h)
    ensures var h' := StepHandler(cfg, h, d, o).handler;
            && h'.incoming == h.incoming
            && (h.effective.Some? ==> h'.effective == h.effective)
            && (h.effective.None? && h'.effective.Some? ==>
                  && h.phase.Deciding? && h.incoming.DialRequest?
                  && h'.effective == Some(DetermineBehavior(cfg, h.incoming.firstAddr, o.draw)))
  {
  }

  /** In every run, a handler whose behaviour is left to chance has decided in one of
      its own steps, and that step's draw alone says how. */
  lemma {:induction false} DrawsDecide(cfg: Config, actions: seq<Action>, i: nat)
    requires i < |Run(Start(cfg), actions).handlers|
    requires var h := Run(Start(cfg), actions).handlers[i];
             h.effective.Some? && ByChance(cfg, h)
    ensures exists k :: Drawn(cfg, actions, k, i, Run(Start(cfg), actions).handlers[i])
  {
    if actions != [] {
      var n := |actions| - 1;
      var w, h := Run(Start(cfg), actions[..n]), Run(Start(cfg), actions).handlers[i];
      InvRun(cfg, actions[..n]);
      if i < |w.handlers| && w.handlers[i].effective.Some? {
        DecisionStays(w, actions[n], i);
        DrawsDecide(cfg, actions[..n], i);
        var k :| Drawn(cfg, actions[..n], k, i, w.handlers[i]);
        DrawnEarlier(cfg, actions, k, i, w.handlers[i]);
        assert Drawn(cfg, actions, k, i, h);
      } else {
        DecidedNow(w, actions[n], i);
        DrawDecides(cfg, h.incoming.firstAddr, actions[n].outcome.draw);
        assert Drawn(cfg, actions, n, i, h);
      }
    }
  }

  /** A decision, once made, stays. */
  lemma DecisionStays(w: World, a: Action, i: nat)
    requires Inv(w) && i < |w.handlers| && w.handlers[i].effective.Some?
    ensures i < |Next(w, a).handlers|
    ensures Next(w, a).handlers[i].effective == w.handlers[i].effective
    ensures Next(w, a).handlers[i].incoming == w.handlers[i].incoming
  {
    if a.Advance? && a.handler == i {
      var d := if w.dialer.Some? then w.dialer.value else EMPTY_DIALER;
      StepKeepsDecision(w.cfg, w.handlers[i], d, a.outcome);
    }
  }

  /** A handler that is decided now and was not before took its deciding step. */
  lemma DecidedNow(w: World, a: Action, i: nat)
    requires Inv(w) && i < |Next(w, a).handlers| && Next(w, a).handlers[i].effective.Some?
    requires i < |w.handlers| ==> w.handlers[i].effective.None?
    requires Next(w, a).handlers[i].incoming.DialRequest?
    ensures a.Advance? && a.handler == i && i < |w.handlers| && w.handlers[i].phase.Deciding?
    ensures var h := Next(w, a).handlers[i];
            h.effective == Some(DetermineBehavior(w.cfg, h.incoming.firstAddr, a.outcome.draw))
  {
    if a.Advance? && a.handler < |w.handlers| {
      var d := if w.dialer.Some? then w.dialer.value else EMPTY_DIALER;
      StepKeepsDecision(w.cfg, w.handlers[a.handler], d, a.outcome);
    }
  }

  predicate UnitDraws(actions: seq<Action>) {
    forall k :: 0 <= k < |actions| && actions[k].Advance? ==> 0.0 <= actions[k].outcome.draw < 1.0
  }

  /** With probability one every request left to chance is treated as reachable. */
  lemma CertainlyReachable(cfg: Config, actions: seq<Action>, i: nat)
    requires UnitDraws(actions) && cfg.probability >= 1.0
    requires i < |Run(Start(cfg), actions).handlers|
    requires var h := Run(Start(cfg), actions).handlers[i];
             h.effective.Some? && ByChance(cfg, h)
    ensures Run(Start(cfg), actions).handlers[i].effective == Some(ForceReachable)
  {
    DrawsDecide(cfg, actions, i);
  }

  lemma HandlerStep(cfg: Config, h: Handler, d: Dialer, o: Outcome)
    requires HandlerOk(cfg, h)
    ensures HandlerOk(cfg, StepHandler(cfg, h, d, o).handler)
    ensures h.phase.TouchesDialer() ==> cfg.NeedsDialBack()
  {
    var h' := StepHandler(cfg, h, d, o).handler;
    if h.phase.Deciding? {
      DeterminedIsPossible(cfg, h.incoming.firstAddr, o.draw);
    } else if h.phase.Responding? {
      assert h'.log[..|h'.log| - 1] == h.log;
      assert h'.(log := h.log) == h.(phase := Done);
      assert Answered(cfg, h');
    }
    if h.effective.Some? && h.incoming.DialRequest? && DialsBack(h.effective.value)
       && Possible(cfg, h.incoming.firstAddr, h.effective.value) {
      DialNeedsHost(cfg, h.incoming.firstAddr, h.effective.value);
    }
  }

  lemma ConnsStep(cfg: Config, handlers: seq<Handler>, i: nat, d: Dialer, o: Outcome, p: Peer)
    requires i < |handlers|
    requires p in d.conns ==> LinkOwed(handlers, p)
    ensures var r := StepHandler(cfg, handlers[i], d, o);
            p in r.dialer.conns ==>
              LinkOwed(handlers[i := r.handler], p)
  {
    var r := StepHandler(cfg, handlers[i], d, o);
    var after := handlers[i := r.handler];
    if p in r.dialer.conns {
      if MayBeLinked(r.handler, p) {
        assert MayBeLinked(after[i], p);
      } else {
        var j :| 0 <= j < |handlers| && MayBeLinked(handlers[j], p);
        assert MayBeLinked(after[j], p);
      }
    }
  }

  lemma AddrsStep(cfg: Config, handlers: seq<Handler>, i: nat, d: Dialer, o: Outcome, p: Peer)
    requires i < |handlers|
    requires p in d.addrs ==> AddrsOwed(handlers, p)
    ensures var r := StepHandler(cfg, handlers[i], d, o);
            p in r.dialer.addrs ==>
              AddrsOwed(handlers[i := r.handler], p)
  {
    var r := StepHandler(cfg, handlers[i], d, o);
    var after := handlers[i := r.handler];
    if p in r.dialer.addrs {
      if MayHaveAddrs(r.handler, p) {
        assert MayHaveAddrs(after[i], p);
      } else {
        var j :| 0 <= j < |handlers| && MayHaveAddrs(handlers[j], p);
        assert MayHaveAddrs(after[j], p);
      }
    }
  }

  lemma RecordsStep(cfg: Config, handlers: seq<Handler>, i: nat, d: Dialer, o: Outcome, p: Peer)
    requires i < |handlers|
    requires p in d.records ==> RecordsOwed(handlers, p)
    ensures var r := StepHandler(cfg, handlers[i], d, o);
            p in r.dialer.records ==>
              RecordsOwed(handlers[i := r.handler], p)
  {
    var r := StepHandler(cfg, handlers[i], d, o);
    var after := handlers[i := r.handler];
    if p in r.dialer.records {
      if MayHaveRecords(r.handler, p) {
        assert MayHaveRecords(after[i], p);
      } else {
        var j :| 0 <= j < |handlers| && MayHaveRecords(handlers[j], p);
        assert MayHaveRecords(after[j], p);
      }
    }
  }

  /** Everything the dialer host knows after a step is still owed to some handler. */
  lemma DialerStep(cfg: Config, handlers: seq<Handler>, i: nat, d: Dialer, o: Outcome)
    requires i < |handlers| && DialerOk(d, handlers)
    ensures var r := StepHandler(cfg, handlers[i], d, o);
            DialerOk(r.dialer, handlers[i := r.handler])
  {
    var r := StepHandler(cfg, handlers[i], d, o);
    forall p ensures p in r.dialer.conns ==> LinkOwed(handlers[i := r.handler], p) {
      ConnsStep(cfg, handlers, i, d, o, p);
    }
    forall p ensures p in r.dialer.addrs ==> AddrsOwed(handlers[i := r.handler], p) {
      AddrsStep(cfg, handlers, i, d, o, p);
    }
    forall p ensures p in r.dialer.records ==> RecordsOwed(handlers[i := r.handler], p) {
      RecordsStep(cfg, handlers, i, d, o, p);
    }
  }

  lemma DialerArrival(d: Dialer, handlers: seq<Handler>, h: Handler)
    requires DialerOk(d, handlers)
    ensures DialerOk(d, handlers + [h])
  {
    var after := handlers + [h];
    assert forall i :: 0 <= i < |handlers| ==> after[i] == handlers[i];
    assert forall p :: LinkOwed(handlers, p) ==> LinkOwed(after, p);
    assert forall p :: AddrsOwed(handlers, p) ==> AddrsOwed(after, p);
    assert forall p :: RecordsOwed(handlers, p) ==> RecordsOwed(after, p);
  }

  lemma InvStep(w: World, a: Action)
    requires Inv(w)
    ensures Inv(Next(w, a)) && Next(w, a).cfg == w.cfg
  {
    match a {
      case Arrive(peer, incoming) =>
        if w.dialer.Some? {
          DialerArrival(w.dialer.value, w.handlers, NewHandler(peer, incoming));
        }
      case Advance(i, o) =>
        if i < |w.handlers| {
          var d := if w.dialer.Some? then w.dialer.value else EMPTY_DIALER;
          HandlerStep(w.cfg, w.handlers[i], d, o);
          if w.dialer.Some? {
            DialerStep(w.cfg, w.handlers, i, d, o);
          }
        }
      case ConnectionLost(_) =>
      case AddrsExpired(_) =>
    }
  }

  lemma {:induction false} InvRun(cfg: Config, actions: seq<Action>)
    ensures Inv(Run(Start(cfg), actions)) && Run(Start(cfg), actions).cfg == cfg
  {
    if actions != [] {
      InvRun(cfg, actions[..|actions| - 1]);
      InvStep(Run(Start(cfg), actions[..|actions| - 1]), actions[|actions| - 1]);
    }
  }

  // ------------------------------------------------------------ main results

  /** In every interleaving, whatever the dialer host knows about a peer belongs
      to a handler for that peer inside its dial section, so nothing is left
      behind when no handler is; and no configuration calls a nil dialer host. */
  lemma DialerSafety(cfg: Config, actions: seq<Action>)
    ensures var w := Run(Start(cfg), actions);
            && !w.crashed
            && (w.dialer.Some? ==>
                  && (forall p :: p in w.dialer.value.Known() ==>
                        exists i :: 0 <= i < |w.handlers| && w.handlers[i].peer == p && w.handlers[i].phase.InDialSection())
                  && ((forall i :: 0 <= i < |w.handlers| ==> !w.handlers[i].phase.InDialSection()) ==>
                        w.dialer.value == EMPTY_DIALER))
  {
    InvRun(cfg, actions);
    var w := Run(Start(cfg), actions);
    if w.dialer.Some? {
      var d := w.dialer.value;
      forall p | p in d.Known()
        ensures exists i :: 0 <= i < |w.handlers| && w.handlers[i].peer == p && w.handlers[i].phase.InDialSection()
      {
        assert LinkOwed(w.handlers, p) || AddrsOwed(w.handlers, p) || RecordsOwed(w.handlers, p);
        var i :| 0 <= i < |w.handlers|
              && (MayBeLinked(w.handlers[i], p) || MayHaveAddrs(w.handlers[i], p) || MayHaveRecords(w.handlers[i], p));
      }
      if forall i :: 0 <= i < |w.handlers| ==> !w.handlers[i].phase.InDialSection() {
        assert d.Known() == {};
        assert d.addrs == {} && d.records == {} && d.conns == {};
      }
    }
  }

  function Responses(log: seq<Event>): nat {
    if log == [] then 0
    else Responses(log[..|log| - 1]) + (if log[|log| - 1].ResponseAttempted? then 1 else 0)
  }

  predicate WroteDialBack(log: seq<Event>, k: nat, nonce: nat)
    requires k <= |log|
  {
    exists m :: 0 <= m < k && log[m] == DialBackWritten(nonce)
  }

  predicate Silent(b: Behavior) { b.Timeout? || b.Probabilistic? }

  /** The wire log of a handler for a well-formed request, judged from outside. */
  ghost predicate Causal(h: Handler) {
    && Responses(h.log) <= 1
    && (h.phase.Done? && h.incoming.DialRequest? ==>
          h.effective.Some? && Responses(h.log) == if Silent(h.effective.value) then 0 else 1)
    && (!h.incoming.DialRequest? ==> h.log == [])
    && (h.effective.Some? && h.incoming.DialRequest? ==>
          var own := h.incoming.nonce;
          && (forall k :: 0 <= k < |h.log| && h.log[k].DialBackWritten? ==>
                && (h.effective.value.ForceReachable? || h.effective.value.WrongNonce?)
                && (h.log[k].nonce == own <==> h.effective.value.ForceReachable?))
          && (forall k :: 0 <= k < |h.log| && h.log[k].ResponseAttempted? ==>
                && k == |h.log| - 1
                && (h.effective.value.ForceReachable? ==>
                      (h.log[k].dialStatus.DialOK? <==> WroteDialBack(h.log, k, own)))
                && (h.effective.value.WrongNonce? ==>
                      (h.log[k].dialStatus.DialOK? <==> WroteDialBack(h.log, k, PreviousNonce(own))))
                && (h.effective.value.NoDialbackMsg? ==>
                      (h.log[k].dialStatus.DialOK? <==> h.incoming.firstAddr.Some?))
                && (h.log[k].status.OK? <==>
                      h.effective.value.ForceUnreachable? || DialsBack(h.effective.value))))
  }

  lemma WrongNonceDiffers(nonce: nat)
    requires nonce < TWO_TO_THE_64
    ensures PreviousNonce(nonce) != nonce && PreviousNonce(nonce) < TWO_TO_THE_64
    ensures nonce > 0 ==> PreviousNonce(nonce) == nonce - 1
    ensures nonce == 0 ==> PreviousNonce(nonce) == TWO_TO_THE_64 - 1
  {
  }

  lemma ResponsesOf(log: seq<Event>)
    ensures |log| == 1 ==> Responses(log) == if log[0].ResponseAttempted? then 1 else 0
    ensures |log| == 2 ==> Responses(log) == (if log[0].ResponseAttempted? then 1 else 0) + if log[1].ResponseAttempted? then 1 else 0
  {
    if |log| == 2 {
      assert log[..1] == [log[0]];
    }
  }

  lemma OkIsCausal(cfg: Config, h: Handler)
    requires HandlerOk(cfg, h)
    requires h.incoming.DialRequest? ==> h.incoming.nonce < TWO_TO_THE_64
    ensures Causal(h)
  {
    ResponsesOf(h.log);
    if h.incoming.DialRequest? {
      WrongNonceDiffers(h.incoming.nonce);
    }
    if h.phase.Done? && h.log != [] {
      var front := h.log[..|h.log| - 1];
      assert h.log == front + [h.log[|h.log| - 1]];
      assert |front| <= 1;
      assert front != [] ==> h.log[0] == front[0] && front[0].DialBackWritten?;
    }
  }

  predicate WideNonces(actions: seq<Action>) {
    forall a :: a in actions && a.Arrive? && a.incoming.DialRequest? ==> a.incoming.nonce < TWO_TO_THE_64
  }

  lemma {:induction false} NoncesStayWide(cfg: Config, actions: seq<Action>)
    requires WideNonces(actions)
    ensures forall i :: 0 <= i < |Run(Start(cfg), actions).handlers| ==>
              var h := Run(Start(cfg), actions).handlers[i];
              h.incoming.DialRequest? ==> h.incoming.nonce < TWO_TO_THE_64
  {
    if actions != [] {
      var n := |actions| - 1;
      assert forall a :: a in actions[..n] ==> a in actions;
      NoncesStayWide(cfg, actions[..n]);
      assert actions[n] in actions;
    }
  }

  /** Response causality, in every reachable state of every interleaving. */
  lemma ResponseCausality(cfg: Config, actions: seq<Action>)
    requires WideNonces(actions)
    ensures forall i :: 0 <= i < |Run(Start(cfg), actions).handlers| ==>
              Causal(Run(Start(cfg), actions).handlers[i])
  {
    InvRun(cfg, actions);
    NoncesStayWide(cfg, actions);
    var w := Run(Start(cfg), actions);
    forall i | 0 <= i < |w.handlers| ensures Causal(w.handlers[i]) {
      OkIsCausal(cfg, w.handlers[i]);
    }
  }

  /** Only a per-transport override can leave a request without any answer for
      being probabilistic; the server-wide setting is resolved by a draw. */
  lemma SilenceIsConfigured(cfg: Config, actions: seq<Action>, i: nat)
    requires i < |Run(Start(cfg), actions).handlers|
    ensures var h := Run(Start(cfg), actions).handlers[i];
            h.phase.Done? && h.incoming.DialRequest? && h.log == [] ==>
              var addr := h.incoming.firstAddr;
              var tcp := addr.Some? && addr.value.isTcp && cfg.tcp.Some?;
              var quic := !tcp && addr.Some? && addr.value.isQuic && cfg.quic.Some?;
              || (tcp && Silent(cfg.tcp.value))
              || (quic && Silent(cfg.quic.value))
              || (!tcp && !quic && cfg.behavior.Timeout?)
  {
    InvRun(cfg, actions);
    assert HandlerOk(cfg, Run(Start(cfg), actions).handlers[i]);
  }

  // --------------------------------------------------------------- progress

  function Turns(actions: seq<Action>, i: nat): nat {
    if actions == [] then 0
    else Turns(actions[..|actions| - 1], i)
         + (if actions[|actions| - 1].Advance? && actions[|actions| - 1].handler == i then 1 else 0)
  }

  lemma StepDescends(cfg: Config, h: Handler, d: Dialer, o: Outcome)
    ensures var h' := StepHandler(cfg, h, d, o).handler;
            h'.phase.Rank() < h.phase.Rank() || h'.phase.Done? || h'.phase.Hanging?
  {
  }

  lemma {:induction false} TurnsDescend(w: World, actions: seq<Action>, i: nat)
    requires Inv(w) && i < |w.handlers|
    ensures var w' := Run(w, actions);
            && Inv(w') && w'.cfg == w.cfg && i < |w'.handlers|
            && (|| w'.handlers[i].phase.Done?
                || w'.handlers[i].phase.Hanging?
                || w'.handlers[i].phase.Rank() + Turns(actions, i) <= w.handlers[i].phase.Rank())
  {
    if actions != [] {
      var n := |actions| - 1;
      TurnsDescend(w, actions[..n], i);
      var mid := Run(w, actions[..n]);
      InvStep(mid, actions[n]);
      if actions[n].Advance? && actions[n].handler == i {
        var d := if mid.dialer.Some? then mid.dialer.value else EMPTY_DIALER;
        HandlerStep(mid.cfg, mid.handlers[i], d, actions[n].outcome);
        StepDescends(mid.cfg, mid.handlers[i], d, actions[n].outcome);
      }
    }
  }

  /** However the other handlers are scheduled, twelve turns of its own finish a
      request unless it hangs on purpose. */
  lemma TwelveTurnsSuffice(cfg: Config, before: seq<Action>, after: seq<Action>, i: nat)
    requires i < |Run(Start(cfg), before).handlers| && Turns(after, i) >= 12
    ensures var h := Run(Run(Start(cfg), before), after).handlers;
            i < |h| && (h[i].phase.Done? || (h[i].phase.Hanging? && h[i].effective == Some(Timeout)))
  {
    InvRun(cfg, before);
    TurnsDescend(Run(Start(cfg), before), after, i);
    assert HandlerOk(cfg, Run(Run(Start(cfg), before), after).handlers[i]);
  }
}
