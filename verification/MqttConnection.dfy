/**
 * One MQTT connection as a concurrent protocol: the connection goroutine, the client callbacks, the
 * RPCs, Disconnect, the visit by Shutdown and the topic scans interleave, one locked region or one
 * client call at a time.  The operation lock is `op`, held across steps.
 *
 * `Client` and `ScanRun` also carry history that the program does not store (what the broker granted,
 * how often a client was disconnected); it is written by the steps and never tested by them, except
 * where a step is one of the environment's.
 */
module MqttConnection {
  import opened Common
  import opened MqttSections

  datatype Attempt = Trying | Succeeded | Failed

  /** The main client and the broker behind it.  The session is clean: `acked` starts empty on each
      establishment.  `owed` holds the epochs whose onConnected has not taken the operation lock yet.
      `doubt` collects topics on which a SUBSCRIBE of this session ended without an answer. */
  datatype Client = Client(
    attempt: Attempt, aborting: bool, epoch: nat, open: bool,
    acked: map<Topic, Qos>, doubt: set<Topic>, routes: set<Topic>, owed: set<nat>,
    disconnectedSinceSuccess: bool)

  datatype Reply = Granted | Rejected | TimedOut | Broken

  datatype RpcAt = AtEnter | AtChecked | AtCall | AtReply(res: Reply)

  datatype ResubAt =
    | ReEnter
    | ReLoop(rest: seq<Sub>)
    | ReCall(rest: seq<Sub>)
    | ReReply(rest: seq<Sub>, res: Reply)
    | ReDrop(rest: seq<Sub>)
    | ReUnsub(rest: seq<Sub>)

  /** Who holds opMu, and how far it has come. */
  datatype Op =
    | OpFree
    | OpSubscribe(topic: Topic, qos: Qos, at: RpcAt)
    | OpUnsubscribe(topic: Topic, at: RpcAt)
    | OpConnected(epoch: nat, re: ResubAt)
    | OpDiscard(done: bool)
    | OpClose(done: bool)
    | OpDrain(done: bool)

  /** The connection goroutine. */
  datatype RunPc =
    | RunCalling | RunReturned(ok: bool) | RunDiscardWait | RunDiscardHold
    | RunFailScan(client: Option<nat>) | RunFailRemove | RunDone

  /** The Disconnect call that detached this connection; at most one ever does. */
  datatype ClosePc = CloseNone | CloseScan(client: Option<nat>) | CloseWait | CloseHold | CloseFinish | CloseDone

  /** The worker that Shutdown starts for this connection. */
  datatype DrainPc = DrainNone | DrainWait | DrainHold | DrainDone

  datatype StarterPc = StConnect | StSubscribe | StResult(ok: bool) | StAbandon | StDone

  datatype Party = ByStop | ByClose | ByDrain | ByRun | ByLost

  /** The life of one scan outside stateMu: its starting goroutine, the party that took its running
      client away and still has to disconnect it, and what its handler accepted. */
  datatype ScanRun = ScanRun(starter: StarterPc, holder: Option<Party>, disconnects: nat, received: seq<Topic>)

  datatype Conn = Conn(
    sh: Shared, client: Client, op: Op,
    run: RunPc, close: ClosePc, drain: DrainPc, drainScan: Option<nat>,
    runs: seq<ScanRun>)

  const FRESH: Conn := Conn(
    NEW_SHARED, Client(Trying, false, 0, false, map[], {}, {}, {}, false), OpFree,
    RunCalling, CloseNone, DrainNone, None, [])

  // ---------------------------------------------------------------- steps

  datatype ClientStep =
    | Establish | Lose | AbortStart | ConnectReturns(ok: bool)
    | LostCallback | MessageCallback(msg: Topic)

  datatype RunStep = RunSect | RunAcquire | RunDisconnect | RunRelease | RunScan | RunRemove

  datatype OpStep =
    | SubAcquire(st: Topic, sq: Qos) | UnsAcquire(ut: Topic) | ReAcquire(epoch: nat)
    | RpcCheck | RpcPending | ClientReply(res: Reply, applied: bool) | RpcCommit
    | ReSect | ReNext | ReHandle | ReDropSect

  datatype CloseStep =
    | Detach | CloseScanStep | CloseAcquire | CloseDisconnect | CloseSect | CloseRemove
    | VisitClosing | VisitConn | DrainAcquire | DrainDisconnect | DrainSect | DrainScanStep

  datatype ScanStep =
    | Reserve | ScanConnected(i: nat, ok: bool) | ScanSubscribed(j: nat, sok: bool)
    | ScanSect(k: nat) | ScanAbandon(a: nat)
    | StopSect | StopDisconnect(s: nat)
    | ScanMessage(m: nat, topic: Topic) | ScanLost(l: nat) | ScanLostDisconnect(d: nat)

  datatype Step = SC(c: ClientStep) | SR(r: RunStep) | SO(o: OpStep) | SX(x: CloseStep) | SS(s: ScanStep)

  // ----- the client and its callbacks -----

  predicate ClientEnabled(c: Conn, s: ClientStep) {
    match s
    case Establish => !c.client.open && c.client.attempt != Failed
    case Lose => c.client.open
    case AbortStart => c.client.attempt == Trying
    case ConnectReturns(ok) =>
      c.run == RunCalling && c.client.attempt == Trying &&
      (if ok then !c.client.aborting && c.client.epoch > 0 else !c.client.open)
    case LostCallback => true
    case MessageCallback(_) => true
  }

  function ClientApply(c: Conn, s: ClientStep): Conn
    requires ClientEnabled(c, s)
  {
    var cl := c.client;
    match s
    case Establish =>
      c.(client := cl.(epoch := cl.epoch + 1, open := true, acked := map[], doubt := {},
                       owed := if cl.aborting then cl.owed else cl.owed + {cl.epoch + 1}))
    case Lose => c.(client := cl.(open := false))
    case AbortStart => c.(client := cl.(aborting := true))
    case ConnectReturns(ok) =>
      c.(client := cl.(attempt := if ok then Succeeded else Failed), run := RunReturned(ok))
    case LostCallback => c.(sh := LostSection(c.sh))
    case MessageCallback(t) => c.(sh := MessageSection(c.sh, t))
  }

  /** client.Disconnect on the main client. */
  function Hangup(cl: Client): Client {
    cl.(open := false, disconnectedSinceSuccess := cl.disconnectedSinceSuccess || cl.attempt == Succeeded)
  }

  // ----- scans -----

  function HandTo(runs: seq<ScanRun>, client: Option<nat>, p: Party): seq<ScanRun> {
    if client.Some? && client.value < |runs| then runs[client.value := runs[client.value].(holder := Some(p))] else runs
  }

  /** client.Disconnect on a scan client by the party that holds it. */
  function HangupScan(runs: seq<ScanRun>, client: Option<nat>): seq<ScanRun> {
    if client.Some? && client.value < |runs|
    then runs[client.value := runs[client.value].(holder := None, disconnects := runs[client.value].disconnects + 1)]
    else runs
  }

  predicate ScanEnabled(c: Conn, s: ScanStep) {
    match s
    case Reserve => !Terminal(c.sh.life) && c.sh.scan == None
    case ScanConnected(i, _) => i < |c.runs| && c.runs[i].starter == StConnect
    case ScanSubscribed(j, _) => j < |c.runs| && c.runs[j].starter == StSubscribe
    case ScanSect(k) => k < |c.runs| && c.runs[k].starter.StResult? && k < |c.sh.scans|
    case ScanAbandon(a) => a < |c.runs| && c.runs[a].starter == StAbandon
    case StopSect => WellFormed(c.sh)
    case StopDisconnect(d) => d < |c.runs| && c.runs[d].holder == Some(ByStop)
    case ScanMessage(m, _) => m < |c.runs| && m < |c.sh.scans|
    case ScanLost(l) => l < |c.runs| && l < |c.sh.scans|
    case ScanLostDisconnect(d) => d < |c.runs| && c.runs[d].holder == Some(ByLost)
  }

  function ScanApply(c: Conn, s: ScanStep): Conn
    requires ScanEnabled(c, s)
  {
    match s
    case Reserve => c.(sh := ReserveSection(c.sh), runs := c.runs + [ScanRun(StConnect, None, 0, [])])
    case ScanConnected(i, ok) =>
      c.(runs := c.runs[i := c.runs[i].(starter := if ok then StSubscribe else StResult(false))])
    case ScanSubscribed(j, ok) => c.(runs := c.runs[j := c.runs[j].(starter := StResult(ok))])
    case ScanSect(k) =>
      var (sh, running) := StartSection(c.sh, k, c.runs[k].starter.ok);
      c.(sh := sh, runs := c.runs[k := c.runs[k].(starter := if running then StDone else StAbandon)])
    case ScanAbandon(a) =>
      c.(runs := c.runs[a := c.runs[a].(starter := StDone, disconnects := c.runs[a].disconnects + 1)])
    case StopSect =>
      var (sh, client) := DetachScan(c.sh);
      c.(sh := sh, runs := HandTo(c.runs, client, ByStop))
    case StopDisconnect(d) => c.(runs := HangupScan(c.runs, Some(d)))
    case ScanMessage(m, t) =>
      c.(sh := ScanMessageSection(c.sh, m, t),
         runs := if c.sh.scan == Some(m) && !Terminal(c.sh.life)
                 then c.runs[m := c.runs[m].(received := c.runs[m].received + [t])] else c.runs)
    case ScanLost(l) =>
      var (sh, must) := ScanLostSection(c.sh, l);
      c.(sh := sh, runs := if must then HandTo(c.runs, Some(l), ByLost) else c.runs)
    case ScanLostDisconnect(d) => c.(runs := HangupScan(c.runs, Some(d)))
  }

  // ----- the connection goroutine -----

  predicate RunEnabled(c: Conn, s: RunStep) {
    match s
    case RunSect => c.run.RunReturned? && WellFormed(c.sh)
    case RunAcquire => c.run == RunDiscardWait && c.op == OpFree
    case RunDisconnect => c.op == OpDiscard(false)
    case RunRelease => c.op == OpDiscard(true)
    case RunScan => c.run.RunFailScan?
    case RunRemove => c.run == RunFailRemove
  }

  function RunApply(c: Conn, s: RunStep): Conn
    requires RunEnabled(c, s)
  {
    match s
    case RunSect =>
      var (sh, client) := RunSection(c.sh, c.run.ok);
      c.(sh := sh, runs := HandTo(c.runs, client, ByRun),
         run := if Terminal(c.sh.life) then (if c.run.ok then RunDiscardWait else RunDone)
                else if c.run.ok then RunDone else RunFailScan(client))
    case RunAcquire => c.(op := OpDiscard(false), run := RunDiscardHold)
    case RunDisconnect => c.(op := OpDiscard(true), client := Hangup(c.client))
    case RunRelease => c.(op := OpFree, run := RunDone)
    case RunScan => c.(run := RunFailRemove, runs := HangupScan(c.runs, c.run.client))
    case RunRemove => c.(run := RunDone)
  }

  // ----- operations under opMu -----

  /** The topic a client call in progress is about. */
  function Calling(op: Op): Option<Topic> {
    match op
    case OpSubscribe(t, _, AtCall) => Some(t)
    case OpUnsubscribe(t, AtCall) => Some(t)
    case OpConnected(_, ReCall(rest)) => if rest != [] then Some(rest[0].topic) else None
    case OpConnected(_, ReUnsub(rest)) => if rest != [] then Some(rest[0].topic) else None
    case _ => None
  }

  predicate OpEnabled(c: Conn, s: OpStep) {
    match s
    case SubAcquire(_, _) => c.op == OpFree
    case UnsAcquire(_) => c.op == OpFree
    case ReAcquire(e) => c.op == OpFree && e in c.client.owed
    case RpcCheck => (c.op.OpSubscribe? || c.op.OpUnsubscribe?) && c.op.at == AtEnter
    case RpcPending => (c.op.OpSubscribe? || c.op.OpUnsubscribe?) && c.op.at == AtChecked
    case ClientReply(res, applied) =>
      Calling(c.op).Some? && (res == Granted || res == Rejected ==> c.client.open)
    case RpcCommit => (c.op.OpSubscribe? || c.op.OpUnsubscribe?) && c.op.at.AtReply?
    case ReSect => c.op.OpConnected? && c.op.re == ReEnter
    case ReNext => c.op.OpConnected? && c.op.re.ReLoop?
    case ReHandle => c.op.OpConnected? && c.op.re.ReReply? && c.op.re.rest != []
    case ReDropSect => c.op.OpConnected? && c.op.re.ReDrop? && c.op.re.rest != []
  }

  /** What a SUBSCRIBE did to the session and to the routing table when it ended with `res`.
      `applied` is the broker's secret: whether an unanswered request took effect. */
  function Subscribed(cl: Client, t: Topic, q: Qos, res: Reply, applied: bool): Client {
    match res
    case Granted => cl.(acked := cl.acked[t := q], routes := cl.routes + {t})
    case Rejected => cl
    case _ => cl.(acked := if applied && cl.open then cl.acked[t := q] else cl.acked, doubt := cl.doubt + {t})
  }

  function Unsubscribed(cl: Client, t: Topic, res: Reply, applied: bool): Client {
    match res
    case Granted => cl.(acked := cl.acked - {t}, routes := cl.routes - {t})
    case TimedOut => cl.(acked := if applied then cl.acked - {t} else cl.acked, routes := cl.routes - {t})
    case _ => cl
  }

  function OpApply(c: Conn, s: OpStep): Conn
    requires OpEnabled(c, s)
  {
    match s
    case SubAcquire(t, q) => c.(op := OpSubscribe(t, q, AtEnter))
    case UnsAcquire(t) => c.(op := OpUnsubscribe(t, AtEnter))
    case ReAcquire(e) => c.(op := OpConnected(e, ReEnter), client := c.client.(owed := c.client.owed - {e}))
    case RpcCheck => c.(op := if Terminal(c.sh.life) then OpFree else c.op.(at := AtChecked))
    case RpcPending =>
      if c.sh.life == Connecting then
        c.(op := OpFree,
           sh := c.sh.(subs := if c.op.OpSubscribe? then SetSub(c.sh.subs, c.op.topic, c.op.qos)
                               else DeleteSub(c.sh.subs, c.op.topic)))
      else c.(op := c.op.(at := AtCall))
    case ClientReply(res, applied) => ReplyApply(c, res, applied)
    case RpcCommit =>
      c.(op := OpFree,
         sh := if c.op.OpSubscribe? then
                 (if c.op.at.res == Granted then c.sh.(subs := SetSub(c.sh.subs, c.op.topic, c.op.qos)) else c.sh)
               else if c.op.at.res == Granted || c.op.at.res == TimedOut
               then c.sh.(subs := DeleteSub(c.sh.subs, c.op.topic)) else c.sh)
    case ReSect =>
      var (sh, todo) := ConnectedSection(c.sh);
      c.(sh := sh, op := if todo.None? || todo.value == [] then OpFree else c.op.(re := ReLoop(todo.value)))
    case ReNext =>
      var rest := c.op.re.rest;
      if rest == [] || Terminal(c.sh.life) then c.(op := OpFree)
      else if !Listed(c.sh.subs, rest[0].topic) then c.(op := c.op.(re := ReLoop(rest[1..])))
      else c.(op := c.op.(re := ReCall(rest)))
    case ReHandle =>
      var rest, res := c.op.re.rest, c.op.re.res;
      if res != Granted && (res == Rejected || c.client.open) then c.(op := c.op.(re := ReDrop(rest)))
      else c.(op := c.op.(re := ReLoop(rest[1..])))
    case ReDropSect =>
      c.(sh := DropSection(c.sh, c.op.re.rest[0].topic), op := c.op.(re := ReUnsub(c.op.re.rest)))
  }

  function ReplyApply(c: Conn, res: Reply, applied: bool): Conn
    requires Calling(c.op).Some?
  {
    var t := Calling(c.op).value;
    match c.op
    case OpSubscribe(_, q, _) =>
      c.(client := Subscribed(c.client, t, q, res, applied), op := OpSubscribe(t, q, AtReply(res)))
    case OpUnsubscribe(_, _) =>
      c.(client := Unsubscribed(c.client, t, res, applied), op := OpUnsubscribe(t, AtReply(res)))
    case OpConnected(e, ReCall(rest)) =>
      c.(client := Subscribed(c.client, t, rest[0].qos, res, applied), op := OpConnected(e, ReReply(rest, res)))
    case OpConnected(e, ReUnsub(rest)) =>
      c.(client := Unsubscribed(c.client, t, res, applied), op := OpConnected(e, ReLoop(rest[1..])))
  }

  // ----- Disconnect and Shutdown -----

  predicate CloseEnabled(c: Conn, s: CloseStep) {
    match s
    case Detach => !Terminal(c.sh.life) && WellFormed(c.sh)
    case CloseScanStep => c.close.CloseScan?
    case CloseAcquire => c.close == CloseWait && c.op == OpFree
    case CloseDisconnect => c.op == OpClose(false)
    case CloseSect => c.op == OpClose(true)
    case CloseRemove => c.close == CloseFinish
    case VisitClosing => Terminal(c.sh.life)
    case VisitConn => WellFormed(c.sh)
    case DrainAcquire => c.drain == DrainWait && c.op == OpFree
    case DrainDisconnect => c.op == OpDrain(false)
    case DrainSect => c.op == OpDrain(true)
    case DrainScanStep => c.drainScan.Some?
  }

  function CloseApply(c: Conn, s: CloseStep): Conn
    requires CloseEnabled(c, s)
  {
    match s
    case Detach =>
      var (sh, client) := DetachSection(c.sh);
      c.(sh := sh, close := CloseScan(client), runs := HandTo(c.runs, client, ByClose))
    case CloseScanStep => c.(close := CloseWait, runs := HangupScan(c.runs, c.close.client))
    case CloseAcquire => c.(op := OpClose(false), close := CloseHold)
    case CloseDisconnect => c.(op := OpClose(true), client := Hangup(c.client))
    case CloseSect => c.(op := OpFree, close := CloseFinish, sh := CloseSection(c.sh))
    case CloseRemove => c.(close := CloseDone)
    case VisitClosing => c.(sh := c.sh.(life := Closed))
    case VisitConn =>
      if Terminal(c.sh.life) then c
      else
        var (sh, client) := DetachSection(c.sh);
        c.(sh := sh, drain := DrainWait, drainScan := client, runs := HandTo(c.runs, client, ByDrain))
    case DrainAcquire => c.(op := OpDrain(false), drain := DrainHold)
    case DrainDisconnect => c.(op := OpDrain(true), client := Hangup(c.client))
    case DrainSect => c.(op := OpFree, drain := DrainDone, sh := c.sh.(life := Closed))
    case DrainScanStep => c.(drainScan := None, runs := HangupScan(c.runs, c.drainScan))
  }

  // ----- all steps -----

  predicate Enabled(c: Conn, s: Step) {
    match s
    case SC(x) => ClientEnabled(c, x)
    case SR(x) => RunEnabled(c, x)
    case SO(x) => OpEnabled(c, x)
    case SX(x) => CloseEnabled(c, x)
    case SS(x) => ScanEnabled(c, x)
  }

  function Apply(c: Conn, s: Step): Conn
    requires Enabled(c, s)
  {
    match s
    case SC(x) => ClientApply(c, x)
    case SR(x) => RunApply(c, x)
    case SO(x) => OpApply(c, x)
    case SX(x) => CloseApply(c, x)
    case SS(x) => ScanApply(c, x)
  }
}
