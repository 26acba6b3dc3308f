/** The mock server's handler methods in their own, imperative form, each proved
    to do what the state machine does when one handler runs uninterrupted. */
module MockHandler {
  import opened Text
  import opened MockServer

  /** The separate host used for dial-backs. */
  class DialerHost {
    var addrs: set<Peer>
    var records: set<Peer>
    var conns: set<Peer>

    constructor ()
      ensures View() == EMPTY_DIALER
    {
      addrs, records, conns := {}, {}, {};
    }

    function View(): Dialer
      reads this
    {
      Dialer(addrs, records, conns)
    }

    method AddAddr(p: Peer)
      modifies this
      ensures View() == old(View()).(addrs := old(addrs) + {p})
    {
      addrs := addrs + {p};
    }

    method Connect(p: Peer, o: Outcome) returns (ok: bool)
      modifies this
      ensures ok == o.connected
      ensures View() == old(View()).(records := old(records) + {p}, conns := With(old(conns), p, o.connected || o.linked))
    {
      records := records + {p};
      if o.connected || o.linked {
        conns := conns + {p};
      }
      ok := o.connected;
    }

    method NewStream(p: Peer, o: Outcome) returns (ok: bool)
      modifies this
      ensures ok == o.streamed
      ensures View() == old(View()).(records := old(records) + {p}, conns := With(old(conns), p, o.streamed || o.relinked))
    {
      records := records + {p};
      if o.streamed || o.relinked {
        conns := conns + {p};
      }
      ok := o.streamed;
    }

    /** The deferred clean-up of both dial functions. */
    method Forget(p: Peer)
      modifies this
      ensures View() == Dialer(old(addrs) - {p}, old(records) - {p}, old(conns) - {p})
    {
      conns := conns - {p};
      addrs := addrs - {p};
      records := records - {p};
    }
  }

  /** A handler left to run alone from its current phase to its end. */
  function Solo(cfg: Config, h: Handler, d: Dialer, o: Outcome): StepResult
    requires o.released
    decreases h.phase.Rank()
  {
    if h.phase.Done? then StepResult(h, d)
    else
      SoloDescends(cfg, h, d, o);
      var r := StepHandler(cfg, h, d, o);
      Solo(cfg, r.handler, r.dialer, o)
  }

  lemma SoloDescends(cfg: Config, h: Handler, d: Dialer, o: Outcome)
    requires o.released && !h.phase.Done?
    ensures StepHandler(cfg, h, d, o).handler.phase.Rank() < h.phase.Rank()
  {
  }

  /** The clean-up steps and the answer, taken together. */
  lemma SoloCleanup(cfg: Config, h: Handler, d: Dialer, o: Outcome)
    requires o.released && h.phase.ClosingPeer?
    ensures Solo(cfg, h, d, o)
         == Solo(cfg, h.(phase := Responding(OK, h.phase.verdict)),
                 Dialer(d.addrs - {h.peer}, d.records - {h.peer}, d.conns - {h.peer}), o)
  {
    var r := StepHandler(cfg, h, d, o);
    var r' := StepHandler(cfg, r.handler, r.dialer, o);
    assert Solo(cfg, h, d, o) == Solo(cfg, r.handler, r.dialer, o) == Solo(cfg, r'.handler, r'.dialer, o);
  }

  class Server {
    const cfg: Config
    var dialerHost: DialerHost?

    /** What `startMockServer` sets up. */
    ghost predicate Valid()
      reads this
    {
      dialerHost != null <==> cfg.NeedsDialBack()
    }

    constructor (cfg: Config)
      ensures Valid() && this.cfg == cfg
      ensures dialerHost != null ==> fresh(dialerHost) && dialerHost.View() == EMPTY_DIALER
    {
      this.cfg := cfg;
      if cfg.NeedsDialBack() {
        var host := new DialerHost();
        dialerHost := host;
      } else {
        dialerHost := null;
      }
    }

    /** The dialer as the state machine sees it; empty when there is none. */
    function DialerView(): Dialer
      reads this, dialerHost
    {
      if dialerHost == null then EMPTY_DIALER else dialerHost.View()
    }

    method PerformDialBack(ghost h: Handler, remotePeer: Peer, nonce: nat, o: Outcome)
      returns (status: DialStatus, ghost wire: seq<Event>)
      requires dialerHost != null && o.released
      requires h.phase.AddingAddr? && h.peer == remotePeer && h.phase.job.nonce == Some(nonce)
      modifies dialerHost
      ensures wire == if status.DialOK? then [DialBackWritten(nonce)] else []
      ensures Solo(cfg, h, old(dialerHost.View()), o)
           == Solo(cfg, h.(phase := Responding(OK, status), log := h.log + wire), dialerHost.View(), o)
    {
      ghost var job := h.phase.job;
      wire := [];
      assert h.log + [] == h.log;
      dialerHost.AddAddr(remotePeer);
      assert Solo(cfg, h, old(dialerHost.View()), o) == Solo(cfg, h.(phase := Connecting(job)), dialerHost.View(), o);
      var connected := dialerHost.Connect(remotePeer, o);
      if !connected {
        status := DialError;
      } else {
        assert Solo(cfg, h, old(dialerHost.View()), o) == Solo(cfg, h.(phase := OpeningStream(job)), dialerHost.View(), o);
        var streamed := dialerHost.NewStream(remotePeer, o);
        if !streamed {
          status := DialBackError;
        } else {
          assert Solo(cfg, h, old(dialerHost.View()), o) == Solo(cfg, h.(phase := Writing(job)), dialerHost.View(), o);
          if !o.written {
            status := DialBackError;
          } else {
            wire := [DialBackWritten(nonce)];
            assert Solo(cfg, h, old(dialerHost.View()), o)
                == Solo(cfg, h.(phase := AwaitingRead(job), log := h.log + wire), dialerHost.View(), o);
            status := DialOK;
          }
        }
      }
      assert Solo(cfg, h, old(dialerHost.View()), o)
          == Solo(cfg, h.(phase := ClosingPeer(status), log := h.log + wire), dialerHost.View(), o);
      SoloCleanup(cfg, h.(phase := ClosingPeer(status), log := h.log + wire), dialerHost.View(), o);
      dialerHost.Forget(remotePeer);
    }

    method PerformConnectOnly(ghost h: Handler, remotePeer: Peer, o: Outcome)
      requires dialerHost != null && o.released
      requires h.phase.AddingAddr? && h.peer == remotePeer && h.phase.job.nonce == None
      modifies dialerHost
      ensures Solo(cfg, h, old(dialerHost.View()), o)
           == Solo(cfg, h.(phase := Responding(OK, DialOK)), dialerHost.View(), o)
    {
      ghost var job := h.phase.job;
      dialerHost.AddAddr(remotePeer);
      assert Solo(cfg, h, old(dialerHost.View()), o) == Solo(cfg, h.(phase := Connecting(job)), dialerHost.View(), o);
      var connected := dialerHost.Connect(remotePeer, o);
      if connected {
        assert Solo(cfg, h, old(dialerHost.View()), o) == Solo(cfg, h.(phase := OpeningStream(job)), dialerHost.View(), o);
        var streamed := dialerHost.NewStream(remotePeer, o);
        if streamed {
          assert Solo(cfg, h, old(dialerHost.View()), o) == Solo(cfg, h.(phase := Holding(job)), dialerHost.View(), o);
        }
      }
      assert Solo(cfg, h, old(dialerHost.View()), o) == Solo(cfg, h.(phase := ClosingPeer(DialOK)), dialerHost.View(), o);
      SoloCleanup(cfg, h.(phase := ClosingPeer(DialOK)), dialerHost.View(), o);
      dialerHost.Forget(remotePeer);
    }

    /** The switch over the effective behaviour: what to answer, if anything. */
    method ActOn(ghost h: Handler, behavior: Behavior, remotePeer: Peer, nonce: nat, firstAddr: Option<Addr>, o: Outcome)
      returns (answer: Option<(ResponseStatus, DialStatus)>, ghost wire: seq<Event>)
      requires Valid() && o.released
      requires h == Decide(cfg, Handler(remotePeer, DialRequest(nonce, firstAddr), Deciding, None, []), o.draw)
      requires h.effective == Some(behavior)
      modifies dialerHost
      ensures wire == [] || (|wire| == 1 && wire[0].DialBackWritten?)
      ensures answer.Some? ==>
                Solo(cfg, h, old(DialerView()), o)
                == Solo(cfg, h.(phase := Responding(answer.value.0, answer.value.1), log := wire), DialerView(), o)
      ensures answer.None? ==>
                wire == [] && Solo(cfg, h, old(DialerView()), o) == StepResult(h.(phase := Done), DialerView())
    {
      wire := [];
      DeterminedIsPossible(cfg, firstAddr, o.draw);
      match behavior {
        case Reject => answer := Some((RequestRejected, Unused));
        case Refuse => answer := Some((DialRefused, Unused));
        case ForceUnreachable => answer := Some((OK, DialError));
        case InternalError => answer := Some((InternalFailure, Unused));
        case Timeout => answer := None;
        case ForceReachable =>
          if firstAddr.None? {
            return Some((OK, DialError)), [];
          }
          DialNeedsHost(cfg, firstAddr, behavior);
          var dialStatus;
          dialStatus, wire := PerformDialBack(h, remotePeer, nonce, o);
          assert h.log + wire == wire;
          answer := Some((OK, dialStatus));
        case WrongNonce =>
          if firstAddr.None? {
            return Some((OK, DialError)), [];
          }
          DialNeedsHost(cfg, firstAddr, behavior);
          var dialStatus;
          dialStatus, wire := PerformDialBack(h, remotePeer, PreviousNonce(nonce), o);
          assert h.log + wire == wire;
          answer := Some((OK, dialStatus));
        case NoDialbackMsg =>
          if firstAddr.None? {
            return Some((OK, DialError)), [];
          }
          DialNeedsHost(cfg, firstAddr, behavior);
          PerformConnectOnly(h, remotePeer, o);
          answer := Some((OK, DialOK));
        case Probabilistic => answer := None;
      }
    }

    /** One dial request served from start to finish: the wire log and the dialer
        host end as the state machine says they do. */
    method HandleDialRequest(remotePeer: Peer, incoming: Incoming, o: Outcome) returns (ghost log: seq<Event>, responded: bool)
      requires Valid() && o.released
      modifies dialerHost
      ensures var end := Solo(cfg, NewHandler(remotePeer, incoming), old(DialerView()), o);
              && log == end.handler.log
              && DialerView() == end.dialer
              && (responded <==> Responses(log) == 1)
    {
      ghost var before := DialerView();
      if !incoming.DialRequest? {
        assert Solo(cfg, NewHandler(remotePeer, incoming), before, o)
            == StepResult(NewHandler(remotePeer, incoming).(phase := Done), before);
        return [], false;
      }
      SoloDecides(cfg, remotePeer, incoming, before, o);
      ghost var decided := Decide(cfg, NewHandler(remotePeer, incoming).(phase := Deciding), o.draw);
      var behavior := DetermineBehavior(cfg, incoming.firstAddr, o.draw);
      var answer;
      answer, log := ActOn(decided, behavior, remotePeer, incoming.nonce, incoming.firstAddr, o);
      responded := answer.Some?;
      if answer.Some? {
        ghost var answering := decided.(phase := Responding(answer.value.0, answer.value.1), log := log);
        SoloAnswers(cfg, answering, DialerView(), o);
        log := log + [ResponseAttempted(answer.value.0, 0, answer.value.1)];
      }
      ResponsesOf(log);
    }
  }

  lemma SoloDecides(cfg: Config, peer: Peer, incoming: Incoming, d: Dialer, o: Outcome)
    requires o.released && incoming.DialRequest?
    ensures Solo(cfg, NewHandler(peer, incoming), d, o)
         == Solo(cfg, Decide(cfg, NewHandler(peer, incoming).(phase := Deciding), o.draw), d, o)
  {
    var h := NewHandler(peer, incoming);
    assert Solo(cfg, h, d, o) == Solo(cfg, h.(phase := Deciding), d, o);
  }

  lemma SoloAnswers(cfg: Config, h: Handler, d: Dialer, o: Outcome)
    requires o.released && h.phase.Responding?
    ensures Solo(cfg, h, d, o)
         == StepResult(h.(phase := Done, log := h.log + [ResponseAttempted(h.phase.status, 0, h.phase.dialStatus)]), d)
  {
  }

  lemma {:induction false} RunFirst(w: World, a: Action, actions: seq<Action>)
    ensures Run(w, [a] + actions) == Run(Next(w, a), actions)
  {
    if actions == [] {
      assert [a] + actions == [a] && [a][..0] == [];
      assert Run(w, [a]) == Next(Run(w, [a][..0]), [a][0]);
    } else {
      var n := |actions| - 1;
      assert ([a] + actions)[..|actions|] == [a] + actions[..n];
      RunFirst(w, a, actions[..n]);
    }
  }

  /** A step that needs no dialer host leaves an absent one absent. */
  lemma HostlessStep(cfg: Config, h: Handler, o: Outcome)
    ensures !h.phase.TouchesDialer() ==> StepHandler(cfg, h, EMPTY_DIALER, o).dialer == EMPTY_DIALER
  {
  }

  /** Running alone is one of the interleavings: some run that only advances
      handler `i` ends with that handler and the dialer host, if there is one, as
      `Solo` says, and with every other handler untouched. */
  lemma {:induction false} SoloIsARun(w: World, i: nat, o: Outcome) returns (actions: seq<Action>)
    requires Inv(w) && i < |w.handlers| && o.released
    ensures forall a :: a in actions ==> a == Advance(i, o)
    ensures var end := Solo(w.cfg, w.handlers[i], w.dialer.GetOr(EMPTY_DIALER), o);
            Run(w, actions)
            == w.(dialer := if w.dialer.Some? then Some(end.dialer) else None, handlers := w.handlers[i := end.handler])
    decreases w.handlers[i].phase.Rank()
  {
    var h := w.handlers[i];
    if h.phase.Done? {
      assert w.handlers[i := h] == w.handlers;
      return [];
    }
    var d := w.dialer.GetOr(EMPTY_DIALER);
    SoloDescends(w.cfg, h, d, o);
    InvStep(w, Advance(i, o));
    HandlerStep(w.cfg, h, d, o);
    var r := StepHandler(w.cfg, h, d, o);
    var next := Next(w, Advance(i, o));
    assert next.handlers == w.handlers[i := r.handler];
    assert next.dialer.GetOr(EMPTY_DIALER) == r.dialer by {
      HostlessStep(w.cfg, h, o);
    }
    var rest := SoloIsARun(next, i, o);
    RunFirst(w, Advance(i, o), rest);
    actions := [Advance(i, o)] + rest;
  }
}
