/**
 * The scan toggle of one connection: the clicks in the user interface, the start and stop calls they
 * send, the backend that processes those calls in any order, and the responses.
 *
 * A click is a task; its index is the value `scanSeq` had when it was made, so a task is superseded
 * exactly when it is not the last one.  The model covers runs in which the scan's own connection is not
 * lost, the MQTT connection is not closed and no stop call fails.
 */
module ScanToggle {
  import opened Common
  import M = MqttSections

  datatype Pc =
    | StartWaiting            // awaits `previous`
    | StartSent               // the start call is on its way
    | StartRunning            // the backend reserved the scan for this call and connects
    | StartJoined(j: nat)     // the backend found the scan of task j and waits for its result
    | StartAnswered(ok: bool) // the response is on its way
    | UndoSent | UndoAnswered // the extra stop of a start that was overtaken
    | StopSent | StopAnswered
    | TaskDone

  /** `outcome` is the result the backend recorded for the start of this task. */
  datatype Task = Task(on: bool, pc: Pc, outcome: bool)

  /** `scanning` is the user interface's flag; `scan` and `started` are the backend's. */
  datatype State = State(tasks: seq<Task>, scanning: bool, scan: Option<nat>, started: bool)

  const INITIAL: State := State([], false, None, false)

  /** The promise that click k - 1 stored in `scanRpcs` has resolved: a start stores its own completion,
      a stop that of everything before it and its own. */
  predicate Resolved(s: State, k: nat)
    requires k <= |s.tasks|
  {
    if k == 0 then true
    else if s.tasks[k - 1].on then s.tasks[k - 1].pc == TaskDone
    else s.tasks[k - 1].pc == TaskDone && Resolved(s, k - 1)
  }

  predicate Superseded(s: State, k: nat) { k + 1 != |s.tasks| }

  datatype Step =
    | Click(on: bool)
    | StartGo(k: nat)
    | ProcessStart(k: nat) | FinishStart(k: nat, ok: bool) | FinishJoin(k: nat)
    | ProcessStop(k: nat)
    | Respond(k: nat)

  function At(s: State, k: nat, pc: Pc): State
    requires k < |s.tasks|
  {
    s.(tasks := s.tasks[k := s.tasks[k].(pc := pc)])
  }

  predicate Enabled(s: State, st: Step) {
    match st
    case Click(_) => true
    case StartGo(k) => k < |s.tasks| && s.tasks[k].pc == StartWaiting && Resolved(s, k)
    case ProcessStart(k) => k < |s.tasks| && s.tasks[k].pc == StartSent
    case FinishStart(k, _) => k < |s.tasks| && s.tasks[k].pc == StartRunning
    case FinishJoin(k) =>
      k < |s.tasks| && s.tasks[k].pc.StartJoined? &&
      s.tasks[k].pc.j < |s.tasks| && s.tasks[s.tasks[k].pc.j].pc != StartRunning
    case ProcessStop(k) => k < |s.tasks| && (s.tasks[k].pc == StopSent || s.tasks[k].pc == UndoSent)
    case Respond(k) =>
      k < |s.tasks| &&
      (s.tasks[k].pc.StartAnswered? || s.tasks[k].pc == UndoAnswered || s.tasks[k].pc == StopAnswered)
  }

  function Apply(s: State, st: Step): State
    requires Enabled(s, st)
  {
    match st
    case Click(on) =>
      s.(tasks := s.tasks + [Task(on, if on then StartWaiting else StopSent, false)], scanning := on)
    case StartGo(k) => At(s, k, if Superseded(s, k) then TaskDone else StartSent)
    case ProcessStart(k) =>
      if s.scan.Some? then At(s, k, StartJoined(s.scan.value))
      else At(s, k, StartRunning).(scan := Some(k), started := false)
    case FinishStart(k, ok) =>
      var won := ok && s.scan == Some(k);
      s.(tasks := s.tasks[k := s.tasks[k].(pc := StartAnswered(won), outcome := won)],
         scan := if s.scan == Some(k) && !ok then None else s.scan,
         started := if won then true else s.started)
    case FinishJoin(k) => At(s, k, StartAnswered(s.tasks[s.tasks[k].pc.j].outcome))
    case ProcessStop(k) =>
      At(s, k, if s.tasks[k].pc == StopSent then StopAnswered else UndoAnswered).(scan := None, started := false)
    case Respond(k) =>
      var pc := s.tasks[k].pc;
      if pc.StartAnswered? && Superseded(s, k) then At(s, k, if pc.ok then UndoSent else TaskDone)
      else if pc.StartAnswered? && !pc.ok then At(s, k, TaskDone).(scanning := false)
      else At(s, k, TaskDone)
  }

  // ---------------------------------------------------------------- invariants

  /** A start that has gone out waited for everything before it. */
  ghost predicate Serial(s: State) {
    forall k, i :: 0 <= i < k < |s.tasks| && s.tasks[k].on && s.tasks[k].pc != StartWaiting ==>
      s.tasks[i].pc == TaskDone
  }

  ghost predicate Shape(s: State, k: nat)
    requires k < |s.tasks|
  {
    var t := s.tasks[k];
    && (t.on ==> t.pc != StopSent && t.pc != StopAnswered)
    && (!t.on ==> t.pc == StopSent || t.pc == StopAnswered || t.pc == TaskDone)
    && (t.pc == StartRunning ==> s.scan == None || s.scan == Some(k))
    && (t.pc.StartJoined? ==> t.pc.j < k && s.tasks[t.pc.j].outcome && (s.scan == None || s.scan == Some(t.pc.j)))
  }

  ghost predicate ScanShape(s: State) {
    && (s.scan.Some? ==>
          && s.scan.value < |s.tasks|
          && s.tasks[s.scan.value].on && s.tasks[s.scan.value].pc !in {StartWaiting, StartSent}
          && (s.started ==> s.tasks[s.scan.value].outcome)
          && (!s.started <==> s.tasks[s.scan.value].pc == StartRunning))
    && (s.scan.None? ==> !s.started)
  }

  /** Task k will see to it that a scan now present is taken away, given that it has been overtaken. */
  ghost predicate Remover(s: State, k: nat)
    requires k < |s.tasks|
  {
    var pc := s.tasks[k].pc;
    pc == StopSent || pc == UndoSent || pc.StartJoined? || pc == StartAnswered(true)
    || (pc == StartRunning && s.scan == Some(k))
  }

  /** What the last click has achieved so far. */
  ghost predicate LastClick(s: State) {
    if s.tasks == [] then !s.scanning && s.scan == None
    else
      var t := s.tasks[|s.tasks| - 1];
      if t.on then
        match t.pc
        case StartWaiting => s.scanning
        case StartSent => s.scanning && (s.scan.Some? ==> s.started)
        case StartRunning => s.scanning && s.scan == Some(|s.tasks| - 1)
        case StartJoined(j) => s.scanning && s.scan == Some(j) && s.started
        case StartAnswered(ok) => s.scanning && ok == s.scan.Some? == s.started
        case TaskDone => s.scanning == s.scan.Some? == s.started
        case _ => false
      else
        !s.scanning && (s.scan.Some? ==> exists k :: 0 <= k < |s.tasks| && Remover(s, k))
  }

  ghost predicate Inv(s: State) {
    && Serial(s)
    && (forall k: nat :: k < |s.tasks| ==> Shape(s, k))
    && ScanShape(s)
    && LastClick(s)
  }

  lemma {:induction false} ResolvedMeansDone(s: State, k: nat)
    requires Serial(s) && k <= |s.tasks| && Resolved(s, k)
    ensures forall i :: 0 <= i < k ==> s.tasks[i].pc == TaskDone
  {
    if k > 0 && !s.tasks[k - 1].on { ResolvedMeansDone(s, k - 1); }
  }

  lemma ClickKeeps(s: State, on: bool)
    requires Inv(s)
    ensures Inv(Apply(s, Click(on)))
  {
    var d := Apply(s, Click(on));
    forall k: nat | k < |d.tasks| ensures Shape(d, k) { if k < |s.tasks| { assert Shape(s, k); } }
    if !on { assert Remover(d, |s.tasks|); }
  }

  lemma GoKeeps(s: State, k: nat)
    requires Inv(s) && Enabled(s, StartGo(k))
    ensures Inv(Apply(s, StartGo(k)))
  {
    var d := Apply(s, StartGo(k));
    ResolvedMeansDone(s, k);
    forall i: nat | i < |d.tasks| ensures Shape(d, i) { assert Shape(s, i); }
    RemoverStays(s, d, k);
  }

  /** A step of task k leaves the removers among the other tasks in place. */
  lemma RemoverStays(s: State, d: State, k: nat)
    requires k < |s.tasks| == |d.tasks| && d.tasks == s.tasks[k := d.tasks[k]]
    requires d.scan == s.scan || d.scan == None || Remover(d, k)
    requires Remover(s, k) ==> Remover(d, k) || d.scan == None
    ensures d.scan.Some? && (s.scan.None? ==> Remover(d, k)) && (exists i :: 0 <= i < |s.tasks| && Remover(s, i))
            ==> exists i :: 0 <= i < |d.tasks| && Remover(d, i)
  {
    if d.scan.Some? && exists i :: 0 <= i < |s.tasks| && Remover(s, i) {
      var i :| 0 <= i < |s.tasks| && Remover(s, i);
      if i == k || d.scan != s.scan { assert Remover(d, k); } else { assert Remover(d, i); }
    }
  }

  /** While a start is out, everything before it is done and nothing after it has started. */
  lemma OnlyStart(s: State, k: nat)
    requires Inv(s) && k < |s.tasks| && s.tasks[k].on && s.tasks[k].pc != StartWaiting && s.tasks[k].pc != TaskDone
    ensures forall i :: 0 <= i < k ==> s.tasks[i].pc == TaskDone
    ensures forall i :: k < i < |s.tasks| && s.tasks[i].on ==> s.tasks[i].pc == StartWaiting
    ensures s.scan.Some? ==> s.scan.value <= k
  {
  }

  lemma ProcessStartKeeps(s: State, k: nat)
    requires Inv(s) && Enabled(s, ProcessStart(k))
    ensures Inv(Apply(s, ProcessStart(k)))
  {
    var d := Apply(s, ProcessStart(k));
    assert Shape(s, k);
    OnlyStart(s, k);
    forall i: nat | i < |d.tasks| ensures Shape(d, i) { assert Shape(s, i); }
    assert Remover(d, k);
  }

  lemma FinishStartKeeps(s: State, k: nat, ok: bool)
    requires Inv(s) && Enabled(s, FinishStart(k, ok))
    ensures Inv(Apply(s, FinishStart(k, ok)))
  {
    var d := Apply(s, FinishStart(k, ok));
    assert Shape(s, k);
    OnlyStart(s, k);
    forall i: nat | i < |d.tasks| ensures Shape(d, i) { assert Shape(s, i); }
    RemoverStays(s, d, k);
  }

  lemma FinishJoinKeeps(s: State, k: nat)
    requires Inv(s) && Enabled(s, FinishJoin(k))
    ensures Inv(Apply(s, FinishJoin(k)))
  {
    var d := Apply(s, FinishJoin(k));
    assert Shape(s, k);
    OnlyStart(s, k);
    forall i: nat | i < |d.tasks| ensures Shape(d, i) { assert Shape(s, i); }
    RemoverStays(s, d, k);
  }

  lemma ProcessStopKeeps(s: State, k: nat)
    requires Inv(s) && Enabled(s, ProcessStop(k))
    ensures Inv(Apply(s, ProcessStop(k)))
  {
    var d := Apply(s, ProcessStop(k));
    assert Shape(s, k);
    forall i: nat | i < |d.tasks| ensures Shape(d, i) { assert Shape(s, i); }
    var last := |s.tasks| - 1;
    assert Shape(s, last);
    assert s.tasks[last].on && s.tasks[last].pc != StartWaiting ==> k == last;
  }

  lemma RespondKeeps(s: State, k: nat)
    requires Inv(s) && Enabled(s, Respond(k))
    ensures Inv(Apply(s, Respond(k)))
  {
    var d := Apply(s, Respond(k));
    assert Shape(s, k);
    forall i: nat | i < |d.tasks| ensures Shape(d, i) { assert Shape(s, i); }
    if Superseded(s, k) || !s.tasks[k].on { RemoverStays(s, d, k); }
  }

  lemma StepKeeps(s: State, st: Step)
    requires Inv(s) && Enabled(s, st)
    ensures Inv(Apply(s, st))
  {
    match st
    case Click(on) => ClickKeeps(s, on);
    case StartGo(k) => GoKeeps(s, k);
    case ProcessStart(k) => ProcessStartKeeps(s, k);
    case FinishStart(k, ok) => FinishStartKeeps(s, k, ok);
    case FinishJoin(k) => FinishJoinKeeps(s, k);
    case ProcessStop(k) => ProcessStopKeeps(s, k);
    case Respond(k) => RespondKeeps(s, k);
  }

  // ---------------------------------------------------------------- whole runs

  ghost predicate IsRun(states: seq<State>, steps: seq<Step>) {
    && |states| == |steps| + 1
    && states[0] == INITIAL
    && forall i :: 0 <= i < |steps| ==> Enabled(states[i], steps[i]) && states[i + 1] == Apply(states[i], steps[i])
  }

  lemma {:induction false} RunInvariant(states: seq<State>, steps: seq<Step>, n: nat)
    requires IsRun(states, steps) && n < |states|
    ensures Inv(states[n])
  {
    if n > 0 {
      RunInvariant(states, steps, n - 1);
      StepKeeps(states[n - 1], steps[n - 1]);
    }
  }

  predicate Settled(s: State) { forall k :: 0 <= k < |s.tasks| ==> s.tasks[k].pc == TaskDone }

  /** Whatever the clicks and however calls and responses are reordered: when everything has come back,
      the user interface says "scanning" exactly when the backend's scan is running. */
  lemma Converges(states: seq<State>, steps: seq<Step>, n: nat)
    requires IsRun(states, steps) && n < |states| && Settled(states[n])
    ensures states[n].scanning <==> states[n].scan.Some? && states[n].started
  {
    RunInvariant(states, steps, n);
  }

  predicate StartInFlight(pc: Pc) { pc.StartSent? || pc.StartRunning? || pc.StartJoined? || pc.StartAnswered? }

  /** At most one start call is ever in flight. */
  lemma OneStartInFlight(states: seq<State>, steps: seq<Step>, n: nat, i: nat, k: nat)
    requires IsRun(states, steps) && n < |states| && i < |states[n].tasks| && k < |states[n].tasks|
    requires StartInFlight(states[n].tasks[i].pc) && StartInFlight(states[n].tasks[k].pc)
    ensures i == k
  {
    RunInvariant(states, steps, n);
    assert Shape(states[n], i) && Shape(states[n], k);
  }

  // ---------------------------------------------------------------- the sections that serve the calls

  /** The shared part of the connection, and the scan that each start call reserved there. */
  datatype Backend = Backend(sh: M.Shared, ids: map<nat, nat>) {
    ghost predicate Valid() {
      && M.WellFormed(sh) && !M.Terminal(sh.life)
      && forall k :: k in ids ==> ids[k] < |sh.scans|
    }
  }

  /** The critical section that a step of the toggle stands for. */
  ghost function Serve(b: Backend, st: Step): Backend
    requires b.Valid()
  {
    match st
    case ProcessStart(k) =>
      if b.sh.scan.Some? then b else Backend(M.ReserveSection(b.sh), b.ids[k := |b.sh.scans|])
    case FinishStart(k, ok) => if k in b.ids then b.(sh := M.StartSection(b.sh, b.ids[k], ok).0) else b
    case ProcessStop(_) => b.(sh := M.DetachScan(b.sh).0)
    case _ => b
  }

  /** What other sections may do in between: anything that neither takes a scan off or on, starts or loses
      one, nor ends the connection. */
  ghost predicate Meanwhile(b: Backend, c: Backend) {
    && c.Valid() && c.ids == b.ids && c.sh.scan == b.sh.scan && |c.sh.scans| == |b.sh.scans|
    && forall i :: 0 <= i < |b.sh.scans| ==>
         c.sh.scans[i].started == b.sh.scans[i].started && c.sh.scans[i].lost == b.sh.scans[i].lost
  }

  /** Messages of the scan and of the connection, its establishment, losses and subscriptions are such. */
  lemma OtherSections(b: Backend, topic: M.Topic, qos: M.Qos, i: nat)
    requires b.Valid()
    ensures i < |b.sh.scans| ==> Meanwhile(b, b.(sh := M.ScanMessageSection(b.sh, i, topic)))
    ensures Meanwhile(b, b.(sh := M.MessageSection(b.sh, topic))) && Meanwhile(b, b.(sh := M.LostSection(b.sh)))
    ensures Meanwhile(b, b.(sh := M.RunSection(b.sh, true).0)) && Meanwhile(b, b.(sh := M.ConnectedSection(b.sh).0))
    ensures Meanwhile(b, b.(sh := M.DropSection(b.sh, topic)))
    ensures Meanwhile(b, b.(sh := b.sh.(subs := M.SetSub(b.sh.subs, topic, qos))))
  {
  }

  /** The scan and the flag of the toggle's backend are those of the connection. */
  ghost predicate Represents(s: State, b: Backend) {
    && b.Valid()
    && (forall k :: k in b.ids ==>
          k < |s.tasks| && s.tasks[k].pc !in {StartWaiting, StartSent} && !b.sh.scans[b.ids[k]].lost)
    && (forall k, l :: k in b.ids && l in b.ids && k != l ==> b.ids[k] != b.ids[l])
    && (forall k: nat :: k < |s.tasks| && s.tasks[k].pc == StartRunning ==> k in b.ids)
    && (s.scan.None? ==> b.sh.scan.None?)
    && (s.scan.Some? ==>
          && s.scan.value in b.ids && b.sh.scan == Some(b.ids[s.scan.value])
          && (s.started <==> b.sh.scans[b.ids[s.scan.value]].started))
  }

  lemma JoinServed(s: State, k: nat, b: Backend)
    requires Represents(s, b) && Enabled(s, ProcessStart(k)) && s.scan.Some? && k !in b.ids
    ensures Represents(Apply(s, ProcessStart(k)), b)
  {
    var d := Apply(s, ProcessStart(k));
    assert d.scan == s.scan && d.started == s.started;
    assert forall i: nat :: i < |s.tasks| && i != k ==> d.tasks[i] == s.tasks[i];
  }

  lemma NewServed(s: State, k: nat, b: Backend)
    requires Represents(s, b) && Enabled(s, ProcessStart(k)) && s.scan.None? && k !in b.ids
    ensures Represents(Apply(s, ProcessStart(k)), Backend(M.ReserveSection(b.sh), b.ids[k := |b.sh.scans|]))
  {
    var d, c := Apply(s, ProcessStart(k)), Backend(M.ReserveSection(b.sh), b.ids[k := |b.sh.scans|]);
    assert forall i: nat :: i < |s.tasks| && i != k ==> d.tasks[i] == s.tasks[i];
    forall i | i in c.ids
      ensures i < |d.tasks| && d.tasks[i].pc !in {StartWaiting, StartSent} && !c.sh.scans[c.ids[i]].lost
    {
      assert i != k ==> i in b.ids;
    }
  }

  /** A call is processed by reserving a scan when the section does, and by joining the scan there is. */
  lemma ReserveServed(s: State, k: nat, b: Backend)
    requires Represents(s, b) && Enabled(s, ProcessStart(k))
    ensures Represents(Apply(s, ProcessStart(k)), Serve(b, ProcessStart(k)))
    ensures match Apply(s, ProcessStart(k)).tasks[k].pc
      case StartJoined(j) => j in b.ids && b.sh.scan == Some(b.ids[j])
      case StartRunning => b.sh.scan.None?
      case _ => false
  {
    assert k !in b.ids;
    if s.scan.Some? { JoinServed(s, k, b); } else { NewServed(s, k, b); }
  }

  /** A start ends with the result that the section returns. */
  lemma StartServed(s: State, k: nat, ok: bool, b: Backend)
    requires Represents(s, b) && Enabled(s, FinishStart(k, ok))
    ensures Represents(Apply(s, FinishStart(k, ok)), Serve(b, FinishStart(k, ok)))
    ensures k in b.ids && Apply(s, FinishStart(k, ok)).tasks[k].outcome == M.StartSection(b.sh, b.ids[k], ok).1
  {
    assert s.tasks[k].pc == StartRunning && k in b.ids;
    assert s.scan == Some(k) <==> b.sh.scan == Some(b.ids[k]);
    var d, c := Apply(s, FinishStart(k, ok)), Serve(b, FinishStart(k, ok));
    forall i | i in c.ids
      ensures i < |d.tasks| && d.tasks[i].pc !in {StartWaiting, StartSent} && !c.sh.scans[c.ids[i]].lost
    {
      assert i in b.ids && !b.sh.scans[b.ids[i]].lost;
    }
  }

  /** Only these two steps move a start call into or out of its work in the backend. */
  lemma OtherMoves(s: State, st: Step, i: nat)
    requires Enabled(s, st) && !st.ProcessStart? && !st.FinishStart? && i < |Apply(s, st).tasks|
    ensures |s.tasks| <= |Apply(s, st).tasks|
    ensures Apply(s, st).tasks[i].pc == StartRunning ==> i < |s.tasks| && s.tasks[i].pc == StartRunning
    ensures i < |s.tasks| && s.tasks[i].pc !in {StartWaiting, StartSent} ==>
      Apply(s, st).tasks[i].pc !in {StartWaiting, StartSent}
  {
  }

  /** The other steps leave the connection alone, but for the stop, which takes the scan off. */
  lemma OtherServed(s: State, st: Step, b: Backend)
    requires Represents(s, b) && Enabled(s, st) && !st.ProcessStart? && !st.FinishStart?
    ensures Represents(Apply(s, st), Serve(b, st))
  {
    var d, c := Apply(s, st), Serve(b, st);
    forall i: nat | i < |d.tasks|
      ensures |s.tasks| <= |d.tasks|
      ensures d.tasks[i].pc == StartRunning ==> i in b.ids
      ensures i in b.ids ==> d.tasks[i].pc !in {StartWaiting, StartSent}
    {
      OtherMoves(s, st, i);
    }
    OtherSame(s, st, b);
  }

  lemma OtherSame(s: State, st: Step, b: Backend)
    requires Represents(s, b) && Enabled(s, st) && !st.ProcessStart? && !st.FinishStart?
    ensures |s.tasks| <= |Apply(s, st).tasks| && Serve(b, st).ids == b.ids && Serve(b, st).sh.scans == b.sh.scans
    ensures Serve(b, st).Valid()
    ensures if st.ProcessStop? then Apply(s, st).scan.None? && Serve(b, st).sh.scan.None?
            else Apply(s, st).scan == s.scan && Apply(s, st).started == s.started && Serve(b, st).sh == b.sh
  {
  }

  /** Each step of the toggle's backend is that section. */
  lemma ServeKeeps(s: State, st: Step, b: Backend)
    requires Represents(s, b) && Enabled(s, st)
    ensures Represents(Apply(s, st), Serve(b, st))
  {
    match st
    case ProcessStart(k) => ReserveServed(s, k, b);
    case FinishStart(k, ok) => StartServed(s, k, ok, b);
    case _ => OtherServed(s, st, b);
  }

  lemma MeanwhileKeeps(s: State, b: Backend, c: Backend)
    requires Represents(s, b) && Meanwhile(b, c)
    ensures Represents(s, c)
  {
  }

  /** A run of the toggle on a connection that starts without a scan, other sections in between. */
  ghost predicate IsServed(states: seq<State>, steps: seq<Step>, bs: seq<Backend>) {
    && IsRun(states, steps) && |bs| == |states|
    && (forall i :: 0 <= i < |bs| ==> bs[i].Valid())
    && bs[0].ids == map[] && bs[0].sh.scan == None
    && forall i :: 0 <= i < |steps| ==> Meanwhile(Serve(bs[i], steps[i]), bs[i + 1])
  }

  lemma {:induction false} ServedRun(states: seq<State>, steps: seq<Step>, bs: seq<Backend>, n: nat)
    requires IsServed(states, steps, bs) && n < |states|
    ensures Represents(states[n], bs[n])
  {
    if n > 0 {
      ServedRun(states, steps, bs, n - 1);
      ServeKeeps(states[n - 1], steps[n - 1], bs[n - 1]);
      MeanwhileKeeps(states[n], Serve(bs[n - 1], steps[n - 1]), bs[n]);
    }
  }

  /** So what the settled user interface shows is whether the connection has a running scan. */
  lemma ShowsConnection(states: seq<State>, steps: seq<Step>, bs: seq<Backend>, n: nat)
    requires IsServed(states, steps, bs) && n < |states| && Settled(states[n])
    ensures states[n].scanning <==> bs[n].sh.scan.Some? && bs[n].sh.scans[bs[n].sh.scan.value].started
  {
    Converges(states, steps, n);
    ServedRun(states, steps, bs, n);
  }
}
