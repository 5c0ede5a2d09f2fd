/**
 * All connections of the service, the service lock `mu`, the wait group and Shutdown.  A connection's
 * identity is its index in `conns`, which keeps every connection ever registered; `registered` and
 * `closing` are the service's two maps.  `Locked` is Shutdown's region under `mu`, during which it
 * visits connections one `stateMu` region at a time while their other steps go on.
 */
module MqttService {
  import opened Common
  import opened MqttSections
  import opened MqttConnection
  import opened MqttInvariants

  datatype Phase = Serving | Locked | Draining | WorkersDone | Drained

  /** What a unit of the wait group stands for. */
  datatype Token = RunToken(id: nat) | CloseToken(cid: nat) | ScanToken(sid: nat, scan: nat)

  datatype Service = Service(
    phase: Phase, toClose: set<nat>, toVisit: set<nat>,
    conns: seq<Conn>, registered: set<nat>, closing: set<nat>,
    wg: int, tokens: set<Token>)

  const INITIAL: Service := Service(Serving, {}, {}, [], {}, {}, 0, {})

  datatype SStep =
    | Register
    | Local(id: nat, step: Step)
    | UnderMu(mid: nat, mstep: Step)
    | ShutdownLock | VisitC(vid: nat) | VisitR(rid: nat) | ShutdownUnlock
    | Done(token: Token)
    | WorkersWaited | GroupWaited

  /** The steps that take `mu`. */
  predicate NeedsMu(s: Step) {
    s == SS(Reserve) || s == SX(Detach) || s == SX(CloseRemove) || s == SR(RunRemove)
  }

  predicate IsVisit(s: Step) { s == SX(VisitClosing) || s == SX(VisitConn) }

  /** The work that a token stands for is over. */
  predicate Finished(s: Service, t: Token) {
    match t
    case RunToken(id) => id < |s.conns| && s.conns[id].run == RunDone
    case CloseToken(id) => id < |s.conns| && s.conns[id].close == CloseDone
    case ScanToken(id, i) => id < |s.conns| && i < |s.conns[id].runs| && s.conns[id].runs[i].starter == StDone
  }

  predicate SEnabled(s: Service, st: SStep) {
    match st
    case Register => s.phase == Serving
    case Local(id, step) => id < |s.conns| && !NeedsMu(step) && !IsVisit(step) && Enabled(s.conns[id], step)
    case UnderMu(id, step) =>
      && s.phase != Locked && id < |s.conns| && NeedsMu(step) && Enabled(s.conns[id], step)
      && (step == SS(Reserve) ==> s.phase == Serving && id in s.registered)
      && (step == SX(Detach) ==> id in s.registered)
    case ShutdownLock => s.phase == Serving
    case VisitC(id) => s.phase == Locked && id in s.toClose && id < |s.conns| && Enabled(s.conns[id], SX(VisitClosing))
    case VisitR(id) =>
      s.phase == Locked && s.toClose == {} && id in s.toVisit && id < |s.conns| && Enabled(s.conns[id], SX(VisitConn))
    case ShutdownUnlock => s.phase == Locked && s.toClose == {} && s.toVisit == {}
    case Done(t) => t in s.tokens && Finished(s, t)
    case WorkersWaited =>
      s.phase == Draining &&
      forall id :: 0 <= id < |s.conns| ==>
        (s.conns[id].drain == DrainNone || s.conns[id].drain == DrainDone) && s.conns[id].drainScan == None
    case GroupWaited => s.phase == WorkersDone && s.wg == 0
  }

  function With(s: Service, id: nat, step: Step): Service
    requires id < |s.conns| && Enabled(s.conns[id], step)
  {
    s.(conns := s.conns[id := Apply(s.conns[id], step)])
  }

  function SApply(s: Service, st: SStep): Service
    requires SEnabled(s, st)
  {
    match st
    case Register =>
      s.(conns := s.conns + [FRESH], registered := s.registered + {|s.conns|},
         wg := s.wg + 1, tokens := s.tokens + {RunToken(|s.conns|)})
    case Local(id, step) => With(s, id, step)
    case UnderMu(id, step) =>
      var t := With(s, id, step);
      if step == SS(Reserve) then
        t.(wg := s.wg + 1, tokens := s.tokens + {ScanToken(id, |s.conns[id].runs|)})
      else if step == SX(Detach) then
        t.(registered := s.registered - {id}, closing := s.closing + {id},
           wg := s.wg + 1, tokens := s.tokens + {CloseToken(id)})
      else if step == SX(CloseRemove) then t.(closing := s.closing - {id})
      else t.(registered := s.registered - {id})
    case ShutdownLock => s.(phase := Locked, toClose := s.closing, toVisit := s.registered)
    case VisitC(id) => With(s, id, SX(VisitClosing)).(toClose := s.toClose - {id})
    case VisitR(id) => With(s, id, SX(VisitConn)).(toVisit := s.toVisit - {id})
    case ShutdownUnlock => s.(phase := Draining, registered := {})
    case Done(t) => s.(wg := s.wg - 1, tokens := s.tokens - {t})
    case WorkersWaited => s.(phase := WorkersDone)
    case GroupWaited => s.(phase := Drained)
  }

  // ---------------------------------------------------------------- invariants

  ghost predicate Closing(c: Conn) {
    c.close.CloseScan? || c.close == CloseWait || c.close == CloseHold || c.close == CloseFinish
  }

  /** Which connections Shutdown has still to reach. */
  ghost predicate Pending(s: Service, id: nat) {
    match s.phase
    case Serving => id in s.registered || id in s.closing
    case Locked => id in s.toVisit || id in s.toClose
    case _ => false
  }

  ghost predicate ConnOk(s: Service, id: nat)
    requires id < |s.conns|
  {
    var c := s.conns[id];
    && ConnInv(c)
    && (id in s.registered ==> c.close == CloseNone)
    && (id in s.closing <==> Closing(c))
    && (!Pending(s, id) ==> Silent(c))
    && (id in s.closing ==> Terminal(c.sh.life))
    && (s.phase == Serving || (s.phase == Locked && id in s.toVisit) ==> c.drain == DrainNone && c.drainScan == None)
    && (s.phase == WorkersDone || s.phase == Drained ==>
          (c.drain == DrainNone || c.drain == DrainDone) && c.drainScan == None)
  }

  /** Every goroutine that the wait group must wait for has its token. */
  ghost predicate TokensOk(s: Service, id: nat)
    requires id < |s.conns|
  {
    var c := s.conns[id];
    && (RunToken(id) in s.tokens || c.run == RunDone)
    && (CloseToken(id) in s.tokens || c.close == CloseNone || c.close == CloseDone)
    && (CloseToken(id) in s.tokens ==> c.close != CloseNone)
    && (forall i: nat :: i < |c.runs| ==> ScanToken(id, i) in s.tokens || c.runs[i].starter == StDone)
    && (forall i: nat :: ScanToken(id, i) in s.tokens ==> i < |c.runs|)
  }

  ghost predicate KnownToken(s: Service, t: Token) {
    match t
    case RunToken(id) => id < |s.conns|
    case CloseToken(id) => id < |s.conns|
    case ScanToken(id, _) => id < |s.conns|
  }

  ghost predicate SInv(s: Service) {
    && s.wg == |s.tokens|
    && (forall t :: t in s.tokens ==> KnownToken(s, t))
    && (forall id :: id in s.registered || id in s.closing ==> id < |s.conns|)
    && s.toVisit <= s.registered && s.toClose <= s.closing
    && (s.phase != Locked ==> s.toVisit == {} && s.toClose == {})
    && (s.phase != Serving && s.phase != Locked ==> s.registered == {})
    && (s.phase == Drained ==> s.wg == 0)
    && (forall id: nat :: id < |s.conns| ==> ConnOk(s, id))
    && (forall id: nat :: id < |s.conns| ==> TokensOk(s, id))
  }

  lemma InitialInv()
    ensures SInv(INITIAL)
  {
  }

  /** What a step of a connection does to the program counters the service looks at. */
  ghost predicate Tracks(c: Conn, step: Step, d: Conn) {
    && (c.drain == DrainNone || c.drain == DrainDone ==> d.drain == c.drain)
    && (c.drainScan == None ==> d.drainScan == None)
    && (step == SX(Detach) ==> Closing(d))
    && (step == SX(CloseRemove) ==> d.close == CloseDone)
    && (step != SX(Detach) && step != SX(CloseRemove) ==>
          (Closing(c) <==> Closing(d)) && (c.close == CloseNone <==> d.close == CloseNone))
    && (c.run == RunDone ==> d.run == RunDone)
    && |d.runs| == |c.runs| + (if step == SS(Reserve) then 1 else 0)
    && (forall i: nat :: i < |c.runs| && c.runs[i].starter == StDone ==> d.runs[i].starter == StDone)
  }

  lemma TracksClient(c: Conn, x: ClientStep)
    requires ConnInv(c) && ClientEnabled(c, x)
    ensures Tracks(c, SC(x), ClientApply(c, x))
  {
  }

  lemma TracksRun(c: Conn, x: RunStep)
    requires ConnInv(c) && RunEnabled(c, x)
    ensures Tracks(c, SR(x), RunApply(c, x))
  {
  }

  lemma TracksOp(c: Conn, x: OpStep)
    requires ConnInv(c) && OpEnabled(c, x)
    ensures Tracks(c, SO(x), OpApply(c, x))
  {
  }

  lemma TracksClose(c: Conn, x: CloseStep)
    requires ConnInv(c) && CloseEnabled(c, x) && x != VisitClosing && x != VisitConn
    ensures Tracks(c, SX(x), CloseApply(c, x))
  {
  }

  lemma TracksScan(c: Conn, x: ScanStep)
    requires ConnInv(c) && ScanEnabled(c, x)
    ensures Tracks(c, SS(x), ScanApply(c, x))
  {
  }

  lemma TracksStep(c: Conn, step: Step)
    requires ConnInv(c) && Enabled(c, step) && !IsVisit(step)
    ensures Tracks(c, step, Apply(c, step))
    ensures Silent(c) ==> Silent(Apply(c, step)) && Apply(c, step).sh.events == c.sh.events
  {
    if Silent(c) { SilentStep(c, step); }
    match step
    case SC(x) => TracksClient(c, x);
    case SR(x) => TracksRun(c, x);
    case SO(x) => TracksOp(c, x);
    case SX(x) => TracksClose(c, x);
    case SS(x) => TracksScan(c, x);
  }

  function OwnerOf(t: Token): nat {
    match t
    case RunToken(id) => id
    case CloseToken(id) => id
    case ScanToken(id, _) => id
  }

  /** From `s` to `d` only connection `x` and what the service records about it changed. */
  ghost predicate OnlyAbout(s: Service, d: Service, x: nat) {
    && d.phase == s.phase && x < |s.conns| == |d.conns|
    && (forall id: nat :: id < |s.conns| && id != x ==> d.conns[id] == s.conns[id])
    && d.registered - {x} == s.registered - {x} && d.closing - {x} == s.closing - {x}
    && d.toVisit - {x} == s.toVisit - {x} && d.toClose - {x} == s.toClose - {x}
    && d.toVisit <= d.registered && d.toClose <= d.closing
    && (d.phase != Locked ==> d.toVisit == {} && d.toClose == {})
    && (d.phase != Serving && d.phase != Locked ==> d.registered == {})
    && ((d.tokens == s.tokens && d.wg == s.wg)
        || (d.phase != Drained && d.wg == s.wg + 1
            && exists t :: t !in s.tokens && OwnerOf(t) == x && d.tokens == s.tokens + {t}))
  }

  lemma OneConnection(s: Service, d: Service, x: nat)
    requires SInv(s) && OnlyAbout(s, d, x)
    requires ConnOk(d, x) && TokensOk(d, x)
    ensures SInv(d)
  {
    forall t | t in d.tokens ensures KnownToken(d, t) { if t in s.tokens { assert KnownToken(s, t); } }
    forall id: nat | id in d.registered || id in d.closing ensures id < |d.conns| {
      if id != x { assert id in d.registered - {x} || id in d.closing - {x}; }
    }
    forall id: nat | id < |d.conns| ensures ConnOk(d, id) && TokensOk(d, id) {
      if id != x {
        assert ConnOk(s, id) && TokensOk(s, id);
        assert id in d.registered - {x} <==> id in d.registered;
        assert id in d.closing - {x} <==> id in d.closing;
        assert id in d.toVisit - {x} <==> id in d.toVisit;
        assert id in d.toClose - {x} <==> id in d.toClose;
        assert RunToken(id) in d.tokens <==> RunToken(id) in s.tokens;
        assert CloseToken(id) in d.tokens <==> CloseToken(id) in s.tokens;
        assert forall i: nat :: ScanToken(id, i) in d.tokens <==> ScanToken(id, i) in s.tokens;
      }
    }
  }

  lemma LocalKeeps(s: Service, st: SStep)
    requires SInv(s) && st.Local? && SEnabled(s, st)
    ensures SInv(SApply(s, st))
  {
    LocalOk(s, st);
    OneConnection(s, SApply(s, st), st.id);
  }

  lemma LocalOk(s: Service, st: SStep)
    requires SInv(s) && st.Local? && SEnabled(s, st)
    ensures ConnOk(SApply(s, st), st.id) && TokensOk(SApply(s, st), st.id)
  {
    assert ConnOk(s, st.id) && TokensOk(s, st.id);
    ConnStep(s.conns[st.id], st.step);
    TracksStep(s.conns[st.id], st.step);
  }

  lemma MuConnOk(s: Service, st: SStep)
    requires SInv(s) && st.UnderMu? && SEnabled(s, st)
    ensures ConnOk(SApply(s, st), st.mid)
  {
    assert ConnOk(s, st.mid);
    ConnStep(s.conns[st.mid], st.mstep);
    TracksStep(s.conns[st.mid], st.mstep);
  }

  lemma MuTokensOk(s: Service, st: SStep)
    requires SInv(s) && st.UnderMu? && SEnabled(s, st)
    ensures TokensOk(SApply(s, st), st.mid)
  {
    assert ConnOk(s, st.mid) && TokensOk(s, st.mid);
    TracksStep(s.conns[st.mid], st.mstep);
  }

  lemma MuKeeps(s: Service, st: SStep)
    requires SInv(s) && st.UnderMu? && SEnabled(s, st)
    ensures SInv(SApply(s, st))
  {
    var x := st.mid;
    MuConnOk(s, st);
    MuTokensOk(s, st);
    assert ConnOk(s, x) && TokensOk(s, x);
    if st.mstep == SS(Reserve) {
      assert ScanToken(x, |s.conns[x].runs|) !in s.tokens && OwnerOf(ScanToken(x, |s.conns[x].runs|)) == x;
    } else if st.mstep == SX(Detach) {
      assert CloseToken(x) !in s.tokens && OwnerOf(CloseToken(x)) == x;
    }
    OneConnection(s, SApply(s, st), x);
  }

  lemma VisitClosingKeeps(s: Service, x: nat)
    requires SInv(s) && SEnabled(s, VisitC(x))
    ensures SInv(SApply(s, VisitC(x)))
  {
    assert ConnOk(s, x) && TokensOk(s, x);
    ConnStep(s.conns[x], SX(VisitClosing));
    OneConnection(s, SApply(s, VisitC(x)), x);
  }

  lemma VisitRegisteredKeeps(s: Service, x: nat)
    requires SInv(s) && SEnabled(s, VisitR(x))
    ensures SInv(SApply(s, VisitR(x)))
  {
    assert ConnOk(s, x) && TokensOk(s, x);
    ConnStep(s.conns[x], SX(VisitConn));
    OneConnection(s, SApply(s, VisitR(x)), x);
  }

  lemma PhaseKeeps(s: Service, st: SStep)
    requires SInv(s) && SEnabled(s, st)
    requires st.ShutdownLock? || st.ShutdownUnlock? || st.WorkersWaited? || st.GroupWaited?
    ensures SInv(SApply(s, st))
  {
    var d := SApply(s, st);
    forall id: nat | id < |d.conns| ensures ConnOk(d, id) && TokensOk(d, id) {
      assert ConnOk(s, id) && TokensOk(s, id);
    }
  }

  lemma RegisterKeeps(s: Service)
    requires SInv(s) && SEnabled(s, Register)
    ensures SInv(SApply(s, Register))
  {
    var d := SApply(s, Register);
    FreshInv();
    forall id: nat | id < |d.conns| ensures ConnOk(d, id) && TokensOk(d, id) {
      if id < |s.conns| { assert ConnOk(s, id) && TokensOk(s, id); }
    }
  }

  lemma DoneKeeps(s: Service, t: Token)
    requires SInv(s) && SEnabled(s, Done(t))
    ensures SInv(SApply(s, Done(t)))
  {
    var d := SApply(s, Done(t));
    forall id: nat | id < |d.conns| ensures ConnOk(d, id) && TokensOk(d, id) {
      assert ConnOk(s, id) && TokensOk(s, id);
    }
  }

  lemma SStepKeeps(s: Service, st: SStep)
    requires SInv(s) && SEnabled(s, st)
    ensures SInv(SApply(s, st))
  {
    match st
    case Local(_, _) => LocalKeeps(s, st);
    case UnderMu(_, _) => MuKeeps(s, st);
    case VisitC(x) => VisitClosingKeeps(s, x);
    case VisitR(x) => VisitRegisteredKeeps(s, x);
    case Done(t) => DoneKeeps(s, t);
    case Register => RegisterKeeps(s);
    case _ => PhaseKeeps(s, st);
  }

  // ---------------------------------------------------------------- whole runs

  /** A run of the service: it starts empty and every state follows from the one before by one step. */
  ghost predicate IsRun(states: seq<Service>, steps: seq<SStep>) {
    && |states| == |steps| + 1
    && states[0] == INITIAL
    && forall i :: 0 <= i < |steps| ==> SEnabled(states[i], steps[i]) && states[i + 1] == SApply(states[i], steps[i])
  }

  lemma {:induction false} RunInvariant(states: seq<Service>, steps: seq<SStep>, n: nat)
    requires IsRun(states, steps) && n < |states|
    ensures SInv(states[n])
  {
    if n == 0 {
      InitialInv();
    } else {
      RunInvariant(states, steps, n - 1);
      SStepKeeps(states[n - 1], steps[n - 1]);
    }
  }

  ghost predicate Stopped(s: Service) { s.phase != Serving && s.phase != Locked }

  /** After Shutdown's locked region no connection emits anything, the region stays behind us, the wait
      group never grows, and no connection is added. */
  lemma StoppedStep(s: Service, st: SStep)
    requires SInv(s) && SEnabled(s, st) && Stopped(s)
    ensures Stopped(SApply(s, st)) && |SApply(s, st).conns| == |s.conns|
    ensures forall id: nat :: id < |s.conns| ==> SApply(s, st).conns[id].sh.events == s.conns[id].sh.events
    ensures s.phase == Drained ==> SApply(s, st).phase == Drained
  {
    if st.Local? || st.UnderMu? {
      var x := if st.Local? then st.id else st.mid;
      assert ConnOk(s, x);
      TracksStep(s.conns[x], if st.Local? then st.step else st.mstep);
    }
  }

  lemma GroupStep(s: Service, st: SStep)
    requires SInv(s) && SEnabled(s, st) && s.phase != Serving
    ensures SApply(s, st).wg <= s.wg && SApply(s, st).phase != Serving
  {
  }

  lemma GroupAt(states: seq<Service>, steps: seq<SStep>, n: nat)
    requires IsRun(states, steps) && n < |steps| && states[n].phase != Serving
    ensures states[n + 1].phase != Serving && states[n + 1].wg <= states[n].wg
  {
    RunInvariant(states, steps, n);
    GroupStep(states[n], steps[n]);
  }

  /** Once closed is set, the wait group only shrinks. */
  lemma {:induction false} GroupNeverGrows(states: seq<Service>, steps: seq<SStep>, m: nat, n: nat)
    requires IsRun(states, steps) && m <= n < |states| && states[m].phase != Serving
    ensures states[n].phase != Serving && states[n].wg <= states[m].wg
    decreases n
  {
    if m < n {
      GroupNeverGrows(states, steps, m, n - 1);
      GroupAt(states, steps, n - 1);
    }
  }

  /** In every state of every run: once the onConnected of the open session is through and no operation is
      running, every listed subscription is one the broker holds. */
  lemma NoSubscriptionMissing(states: seq<Service>, steps: seq<SStep>, n: nat, id: nat, r: Sub)
    requires IsRun(states, steps) && n < |states| && id < |states[n].conns|
    requires var c := states[n].conns[id]; Up(c) && r in c.sh.subs && c.client.epoch !in c.client.owed && c.op == OpFree
    ensures Held(states[n].conns[id].client, r)
  {
    RunInvariant(states, steps, n);
    assert ConnOk(states[n], id);
    assert Covered(states[n].conns[id], r);
  }

  /** Every state of every run: each connection's events follow the grammar; a listed subscription of a
      connection that is up is held by the broker, owed, or in hand; scans are disconnected at most
      once and deliver exactly what they received. */
  lemma EveryState(states: seq<Service>, steps: seq<SStep>, n: nat, id: nat)
    requires IsRun(states, steps) && n < |states| && id < |states[n].conns|
    ensures var c := states[n].conns[id];
      && Grammar(c.sh.events)
      && (Up(c) ==> forall r :: r in c.sh.subs ==> Covered(c, r))
      && |c.runs| == |c.sh.scans|
      && forall i: nat :: i < |c.runs| ==>
           && c.runs[i].disconnects <= 1
           && Delivered(c.sh.events, i) == (if c.sh.scans[i].started then c.runs[i].received else [])
  {
    RunInvariant(states, steps, n);
    assert ConnOk(states[n], id);
    var c := states[n].conns[id];
    forall i: nat | i < |c.runs|
      ensures c.runs[i].disconnects <= 1
      ensures Delivered(c.sh.events, i) == if c.sh.scans[i].started then c.runs[i].received else []
    {
      ScanDisconnectedOnce(c, i);
      ScanTopicsExact(c, i);
    }
  }

  /** No event of any connection is emitted after Shutdown's locked region. */
  lemma {:induction false} SilenceAfterShutdown(states: seq<Service>, steps: seq<SStep>, m: nat, n: nat, id: nat)
    requires IsRun(states, steps) && m <= n < |states|
    requires Stopped(states[m]) && id < |states[m].conns|
    ensures Stopped(states[n]) && |states[n].conns| == |states[m].conns|
    ensures states[n].conns[id].sh.events == states[m].conns[id].sh.events
    decreases n
  {
    if m < n {
      SilenceAfterShutdown(states, steps, m, n - 1, id);
      RunInvariant(states, steps, n - 1);
      StoppedStep(states[n - 1], steps[n - 1]);
    }
  }

  /** When the drain is complete: every goroutine of every connection is over, every main client whose
      Connect ever succeeded has been disconnected after that, and every scan that was still starting
      has had its client disconnected. */
  lemma DrainComplete(states: seq<Service>, steps: seq<SStep>, n: nat, id: nat)
    requires IsRun(states, steps) && n < |states| && states[n].phase == Drained && id < |states[n].conns|
    ensures var c := states[n].conns[id];
      && c.run == RunDone && !Closing(c) && Terminal(c.sh.life) && c.sh.scan == None
      && (c.client.attempt == Succeeded ==> c.client.disconnectedSinceSuccess)
      && |c.runs| == |c.sh.scans|
      && forall i: nat :: i < |c.runs| ==>
           && c.runs[i].starter == StDone
           && (!c.sh.scans[i].started ==> c.runs[i].disconnects == 1)
           && (c.runs[i].disconnects == 1 <==> c.runs[i].holder != Some(ByStop) && c.runs[i].holder != Some(ByLost))
  {
    RunInvariant(states, steps, n);
    var s := states[n];
    assert s.tokens == {};
    assert ConnOk(s, id) && TokensOk(s, id);
    var c := s.conns[id];
    forall i: nat | i < |c.runs|
      ensures c.runs[i].starter == StDone
      ensures !c.sh.scans[i].started ==> c.runs[i].disconnects == 1
      ensures c.runs[i].disconnects == 1 <==> c.runs[i].holder != Some(ByStop) && c.runs[i].holder != Some(ByLost)
    {
      assert ScanOwned(c, i);
      assert c.run != RunFailScan(Some(i)) && c.drainScan != Some(i);
      assert c.close != CloseScan(Some(i));
      match c.runs[i].holder { case Some(p) => assert p != ByRun && p != ByClose && p != ByDrain; case None => }
    }
  }

  /** A running scan that StopTopicScan or the lost callback has taken away and not disconnected yet. */
  predicate InFlight(c: Conn, i: nat) {
    i < |c.runs| && (c.runs[i].holder == Some(ByStop) || c.runs[i].holder == Some(ByLost))
  }

  lemma NoneTaken(c: Conn, step: Step, i: nat)
    requires Silent(c) && c.sh.scan == None && Enabled(c, step) && i < |c.runs|
    ensures |Apply(c, step).runs| == |c.runs| && (InFlight(Apply(c, step), i) ==> InFlight(c, i))
  {
  }

  lemma NoneTakenService(s: Service, st: SStep, id: nat, i: nat)
    requires SInv(s) && SEnabled(s, st) && Stopped(s) && id < |s.conns| && i < |s.conns[id].runs|
    ensures id < |SApply(s, st).conns| && |SApply(s, st).conns[id].runs| == |s.conns[id].runs|
    ensures InFlight(SApply(s, st).conns[id], i) ==> InFlight(s.conns[id], i)
  {
    assert ConnOk(s, id);
    if st.Local? && st.id == id { NoneTaken(s.conns[id], st.step, i); }
    if st.UnderMu? && st.mid == id { NoneTaken(s.conns[id], st.mstep, i); }
  }

  /** After the locked region of Shutdown no scan is taken away any more. */
  lemma {:induction false} InFlightOnlyLeave(states: seq<Service>, steps: seq<SStep>, m: nat, n: nat, id: nat, i: nat)
    requires IsRun(states, steps) && m <= n < |states| && Stopped(states[m])
    requires id < |states[m].conns| && i < |states[m].conns[id].runs|
    ensures Stopped(states[n]) && id < |states[n].conns| && |states[n].conns[id].runs| == |states[m].conns[id].runs|
    ensures InFlight(states[n].conns[id], i) ==> InFlight(states[m].conns[id], i)
    decreases n
  {
    if m < n {
      InFlightOnlyLeave(states, steps, m, n - 1, id, i);
      RunInvariant(states, steps, n - 1);
      StoppedStep(states[n - 1], steps[n - 1]);
      NoneTakenService(states[n - 1], steps[n - 1], id, i);
    }
  }

  /** So the drain leaves a scan client open exactly when it was already in flight at the end of the locked
      region and still is: if no StopTopicScan and no lost callback is at work then, every scan client is
      disconnected when the drain completes. */
  lemma DrainLeavesNone(states: seq<Service>, steps: seq<SStep>, m: nat, n: nat, id: nat, i: nat)
    requires IsRun(states, steps) && m <= n < |states| && Stopped(states[m]) && states[n].phase == Drained
    requires id < |states[m].conns| && i < |states[m].conns[id].runs|
    ensures id < |states[n].conns| && i < |states[n].conns[id].runs|
    ensures states[n].conns[id].runs[i].disconnects == 1
       <==> !(InFlight(states[m].conns[id], i) && InFlight(states[n].conns[id], i))
    ensures !InFlight(states[m].conns[id], i) ==> states[n].conns[id].runs[i].disconnects == 1
  {
    InFlightOnlyLeave(states, steps, m, n, id, i);
    DrainComplete(states, steps, n, id);
  }

  ghost predicate Reached(s: Service) {
    exists states, steps :: IsRun(states, steps) && states[|steps|] == s
  }

  lemma ReachedInitially()
    ensures Reached(INITIAL)
  {
    assert IsRun([INITIAL], []);
  }

  lemma ReachedNext(s: Service, st: SStep)
    requires Reached(s) && SEnabled(s, st)
    ensures Reached(SApply(s, st))
  {
    var states, steps :| IsRun(states, steps) && states[|steps|] == s;
    var states', steps' := states + [SApply(s, st)], steps + [st];
    assert IsRun(states', steps');
    assert states'[|steps'|] == SApply(s, st);
  }

  /** A local step of the only connection. */
  lemma ReachedLocal(s: Service, step: Step, c: Conn)
    requires Reached(s) && |s.conns| == 1 && !NeedsMu(step) && !IsVisit(step)
    requires Enabled(s.conns[0], step) && Apply(s.conns[0], step) == c
    ensures Reached(s.(conns := [c]))
  {
    ReachedNext(s, Local(0, step));
    assert s.conns[0 := c] == [c];
  }

  const ONLINE: Conn := Conn(
    Shared(Connected, [], None, [], []), Client(Succeeded, false, 1, true, map[], {}, {}, {1}, false),
    OpFree, RunDone, CloseNone, DrainNone, None, [])

  const RESERVED: Conn := ONLINE.(
    sh := ONLINE.sh.(scans := [NEW_SCAN], scan := Some(0)), runs := [ScanRun(StConnect, None, 0, [])])

  const SCAN_TAKEN: Conn := ONLINE.(
    sh := ONLINE.sh.(scans := [Scan(true, [], false)]), runs := [ScanRun(StDone, Some(ByStop), 0, [])])

  const VISITED: Conn := SCAN_TAKEN.(sh := SCAN_TAKEN.sh.(life := Disconnecting), drain := DrainWait)

  const DRAINED_CONN: Conn := VISITED.(
    sh := VISITED.sh.(life := Closed), drain := DrainDone,
    client := VISITED.client.(open := false, disconnectedSinceSuccess := true))

  const ALONE: Service := Service(Serving, {}, {}, [FRESH], {0}, {}, 1, {RunToken(0)})

  lemma OpenSession()
    ensures Reached(ALONE.(conns := [FRESH.(client := ONLINE.client.(attempt := Trying))]))
  {
    ReachedInitially();
    ReachedNext(INITIAL, Register);
    assert SApply(INITIAL, Register) == ALONE;
    var c1 := FRESH.(client := ONLINE.client.(attempt := Trying));
    assert Apply(FRESH, SC(Establish)).client.owed == {1};
    ReachedLocal(ALONE, SC(Establish), c1);
  }

  lemma GoOnline()
    ensures Reached(ALONE.(conns := [ONLINE]))
  {
    OpenSession();
    var c1 := FRESH.(client := ONLINE.client.(attempt := Trying));
    var c2 := FRESH.(client := ONLINE.client, run := RunReturned(true));
    ReachedLocal(ALONE.(conns := [c1]), SC(ConnectReturns(true)), c2);
    ReachedLocal(ALONE.(conns := [c2]), SR(RunSect), ONLINE);
  }

  const WITH_SCAN: Service := ALONE.(conns := [RESERVED], wg := 2, tokens := {RunToken(0), ScanToken(0, 0)})

  lemma ReserveScan()
    ensures Reached(WITH_SCAN)
  {
    GoOnline();
    var s := ALONE.(conns := [ONLINE]);
    ReachedNext(s, UnderMu(0, SS(Reserve)));
    assert ONLINE.sh.scans + [NEW_SCAN] == [NEW_SCAN];
    assert ONLINE.runs + [ScanRun(StConnect, None, 0, [])] == [ScanRun(StConnect, None, 0, [])];
    assert Apply(ONLINE, SS(Reserve)) == RESERVED;
    assert s.conns[0 := RESERVED] == [RESERVED];
    assert SApply(s, UnderMu(0, SS(Reserve))) == WITH_SCAN;
  }

  lemma SubscribeScan()
    ensures Reached(WITH_SCAN.(conns := [RESERVED.(runs := [ScanRun(StResult(true), None, 0, [])])]))
  {
    ReserveScan();
    var c1 := RESERVED.(runs := [ScanRun(StSubscribe, None, 0, [])]);
    ReachedLocal(WITH_SCAN, SS(ScanConnected(0, true)), c1);
    var c2 := RESERVED.(runs := [ScanRun(StResult(true), None, 0, [])]);
    ReachedLocal(WITH_SCAN.(conns := [c1]), SS(ScanSubscribed(0, true)), c2);
  }

  lemma TakeScan()
    ensures Reached(WITH_SCAN.(conns := [SCAN_TAKEN]))
  {
    SubscribeScan();
    var c2 := RESERVED.(runs := [ScanRun(StResult(true), None, 0, [])]);
    var c3 := RESERVED.(runs := [ScanRun(StDone, None, 0, [])], sh := RESERVED.sh.(scans := [Scan(true, [], false)]));
    ReachedLocal(WITH_SCAN.(conns := [c2]), SS(ScanSect(0)), c3);
    ReachedLocal(WITH_SCAN.(conns := [c3]), SS(StopSect), SCAN_TAKEN);
  }

  const UNLOCKED: Service := WITH_SCAN.(phase := Draining, registered := {}, conns := [VISITED])

  lemma Shut()
    ensures Reached(UNLOCKED)
  {
    TakeScan();
    var s := WITH_SCAN.(conns := [SCAN_TAKEN]);
    ReachedNext(s, ShutdownLock);
    var t := s.(phase := Locked, toVisit := {0});
    ReachedNext(t, VisitR(0));
    assert t.conns[0 := VISITED] == [VISITED];
    var u := t.(toVisit := {}, conns := [VISITED]);
    assert SApply(t, VisitR(0)).toVisit == {};
    ReachedNext(u, ShutdownUnlock);
  }

  lemma DrainOut()
    ensures Reached(UNLOCKED.(conns := [DRAINED_CONN]))
  {
    Shut();
    var c1 := VISITED.(op := OpDrain(false), drain := DrainHold);
    ReachedLocal(UNLOCKED, SX(DrainAcquire), c1);
    var c2 := c1.(op := OpDrain(true), client := Hangup(c1.client));
    ReachedLocal(UNLOCKED.(conns := [c1]), SX(DrainDisconnect), c2);
    ReachedLocal(UNLOCKED.(conns := [c2]), SX(DrainSect), DRAINED_CONN);
  }

  /** A running scan of the only connection is held by StopTopicScan and its client is not disconnected. */
  ghost predicate HeldByStop(s: Service) {
    && |s.conns| == 1 && |s.conns[0].runs| == |s.conns[0].sh.scans| == 1 && s.conns[0].sh.scans[0].started
    && s.conns[0].runs[0].holder == Some(ByStop) && s.conns[0].runs[0].disconnects == 0
  }

  const WAITED: Service := UNLOCKED.(conns := [DRAINED_CONN], phase := WorkersDone)

  lemma TokensBack()
    ensures Reached(WAITED.(wg := 0, tokens := {}))
  {
    DrainOut();
    ReachedNext(UNLOCKED.(conns := [DRAINED_CONN]), WorkersWaited);
    ReachedNext(WAITED, Done(RunToken(0)));
    var u := WAITED.(wg := 1, tokens := {ScanToken(0, 0)});
    assert SApply(WAITED, Done(RunToken(0))) == u;
    ReachedNext(u, Done(ScanToken(0, 0)));
    assert SApply(u, Done(ScanToken(0, 0))) == WAITED.(wg := 0, tokens := {});
  }

  /** The exact condition in DrainComplete is needed: Shutdown can report a complete drain while a
      StopTopicScan that took a running scan away has not disconnected its client yet. */
  lemma StopTopicScanOutlivesDrain()
    ensures exists s: Service :: Reached(s) && s.phase == Drained && HeldByStop(s)
  {
    TokensBack();
    var v := WAITED.(wg := 0, tokens := {});
    ReachedNext(v, GroupWaited);
    assert HeldByStop(v.(phase := Drained));
  }
}
