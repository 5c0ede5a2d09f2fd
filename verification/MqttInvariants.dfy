/**
 * What every step of one connection keeps.  Each invariant is a predicate on a state; `Keeps...`
 * lemmas show that it holds initially and after any enabled step.
 */
module MqttInvariants {
  import opened Common
  import opened MqttSections
  import opened MqttConnection

  // ---------------------------------------------------------------- event grammar

  /** Events of one connection: anything at all, then at most one final event and nothing after it. */
  ghost predicate Grammar(events: seq<Event>) {
    forall i :: 0 <= i < |events| - 1 ==> !IsFinal(events[i])
  }

  ghost predicate EventInv(c: Conn) {
    && WellFormed(c.sh)
    && Grammar(c.sh.events)
    && (c.sh.life != Closed ==> forall e :: e in c.sh.events ==> !IsFinal(e))
    && (Terminal(c.sh.life) ==> c.sh.scan == None)
    && (c.op.OpClose? || c.op.OpDrain? || c.close != CloseNone || c.drain != DrainNone || c.drainScan != None
        ==> Terminal(c.sh.life))
    && (c.run.RunFailScan? || c.run == RunFailRemove ==> c.sh.life == Closed)
  }

  /** The operation lock is held exactly by the thread whose program counter says so. */
  ghost predicate LockInv(c: Conn) {
    && (c.op.OpDiscard? <==> c.run == RunDiscardHold)
    && (c.op.OpClose? <==> c.close == CloseHold)
    && (c.op.OpDrain? <==> c.drain == DrainHold)
  }

  /** Nothing a terminal connection does makes it live again or takes back an event. */
  ghost predicate Onward(c: Conn, d: Conn) {
    && (Terminal(c.sh.life) ==> Terminal(d.sh.life))
    && (c.sh.life == Closed ==> d.sh.life == Closed)
    && c.sh.events <= d.sh.events
  }

  ghost predicate ShutdownOnce(c: Conn, s: Step) {
    s == SX(VisitConn) ==> c.drain == DrainNone && c.drainScan == None
  }

  lemma EventClient(c: Conn, s: ClientStep)
    requires EventInv(c) && LockInv(c) && ClientEnabled(c, s)
    ensures EventInv(ClientApply(c, s)) && LockInv(ClientApply(c, s)) && Onward(c, ClientApply(c, s))
  {
  }

  lemma EventRun(c: Conn, s: RunStep)
    requires EventInv(c) && LockInv(c) && RunEnabled(c, s)
    ensures EventInv(RunApply(c, s)) && LockInv(RunApply(c, s)) && Onward(c, RunApply(c, s))
  {
  }

  lemma EventOp(c: Conn, s: OpStep)
    requires EventInv(c) && LockInv(c) && OpEnabled(c, s)
    ensures EventInv(OpApply(c, s)) && LockInv(OpApply(c, s)) && Onward(c, OpApply(c, s))
  {
  }

  lemma EventClose(c: Conn, s: CloseStep)
    requires EventInv(c) && LockInv(c) && CloseEnabled(c, s)
    requires s == VisitConn ==> c.drain == DrainNone && c.drainScan == None
    ensures EventInv(CloseApply(c, s)) && LockInv(CloseApply(c, s)) && Onward(c, CloseApply(c, s))
  {
  }

  lemma EventScan(c: Conn, s: ScanStep)
    requires EventInv(c) && LockInv(c) && ScanEnabled(c, s)
    ensures EventInv(ScanApply(c, s)) && LockInv(ScanApply(c, s)) && Onward(c, ScanApply(c, s))
  {
  }

  lemma EventStep(c: Conn, s: Step)
    requires EventInv(c) && LockInv(c) && Enabled(c, s) && ShutdownOnce(c, s)
    ensures EventInv(Apply(c, s)) && LockInv(Apply(c, s)) && Onward(c, Apply(c, s))
  {
    match s
    case SC(x) => EventClient(c, x);
    case SR(x) => EventRun(c, x);
    case SO(x) => EventOp(c, x);
    case SX(x) => EventClose(c, x);
    case SS(x) => EventScan(c, x);
  }

  // ---------------------------------------------------------------- silence after shutdown

  /** A connection that Shutdown has dealt with: terminal, and a Disconnect still at work on it will
      find it already closed. */
  ghost predicate Silent(c: Conn) {
    && Terminal(c.sh.life)
    && (c.op.OpClose? || c.close.CloseScan? || c.close == CloseWait ==> c.sh.life == Closed)
  }

  lemma SilentStep(c: Conn, s: Step)
    requires EventInv(c) && Silent(c) && Enabled(c, s)
    ensures Silent(Apply(c, s))
    ensures Apply(c, s).sh.events == c.sh.events
  {
  }

  // ---------------------------------------------------------------- scan ownership and delivery

  /** Who disconnects the client of scan i: nobody while it is attached, its starter when the start
      failed, and otherwise the one party that detached it. */
  ghost predicate ScanOwned(c: Conn, i: nat)
    requires i < |c.runs| == |c.sh.scans|
  {
    var r, started, attached := c.runs[i], c.sh.scans[i].started, c.sh.scan == Some(i);
    && (match r.starter
        case StAbandon => !started && !attached && r.holder == None && r.disconnects == 0
        case StDone =>
          if !started then !attached && r.holder == None && r.disconnects == 1
          else if attached then r.holder == None && r.disconnects == 0
          else r.disconnects == (if r.holder == None then 1 else 0)
        case _ => !started && r.holder == None && r.disconnects == 0)
    && (r.holder == Some(ByClose) <==> c.close == CloseScan(Some(i)))
    && (r.holder == Some(ByRun) <==> c.run == RunFailScan(Some(i)))
    && (r.holder == Some(ByDrain) <==> c.drainScan == Some(i))
  }

  /** The topics emitted for scan i. */
  ghost predicate ScanDelivered(c: Conn, i: nat)
    requires i < |c.runs| == |c.sh.scans|
  {
    var sc := c.sh.scans[i];
    && Delivered(c.sh.events, i) == (if sc.started then c.runs[i].received else [])
    && (!sc.started && c.sh.scan == Some(i) ==> sc.pending == c.runs[i].received)
  }

  ghost predicate ScanInv(c: Conn) {
    && |c.runs| == |c.sh.scans|
    && (forall i: nat :: i < |c.runs| ==> ScanOwned(c, i))
    && (forall i: nat :: i < |c.runs| ==> ScanDelivered(c, i))
    && (forall i: nat :: |c.runs| <= i ==> Delivered(c.sh.events, i) == [])
    && (c.close.CloseScan? && c.close.client.Some? ==> c.close.client.value < |c.runs|)
    && (c.run.RunFailScan? && c.run.client.Some? ==> c.run.client.value < |c.runs|)
    && (c.drainScan.Some? ==> c.drainScan.value < |c.runs|)
  }

  lemma ScanInvClient(c: Conn, s: ClientStep)
    requires EventInv(c) && LockInv(c) && ScanInv(c) && ClientEnabled(c, s)
    ensures ScanInv(ClientApply(c, s))
  {
    var d := ClientApply(c, s);
    EventsOnly(c, d);
  }

  /** Steps that leave the scans alone and emit at most one event that is not a scan topic. */
  lemma EventsOnly(c: Conn, d: Conn)
    requires ScanInv(c)
    requires d.runs == c.runs && d.sh.scans == c.sh.scans && d.sh.scan == c.sh.scan
    requires d.close.CloseScan? || c.close.CloseScan? ==> d.close == c.close
    requires d.run.RunFailScan? || c.run.RunFailScan? ==> d.run == c.run
    requires d.drainScan == c.drainScan
    requires d.sh.events == c.sh.events
          || exists e: Event :: !e.EvScanTopic? && d.sh.events == c.sh.events + [e]
    ensures ScanInv(d)
  {
    forall i: nat ensures Delivered(d.sh.events, i) == Delivered(c.sh.events, i) {
      if d.sh.events != c.sh.events {
        var e: Event :| !e.EvScanTopic? && d.sh.events == c.sh.events + [e];
        DeliveredSnoc(c.sh.events, e, i);
      }
    }
    forall i: nat | i < |d.runs| ensures ScanOwned(d, i) && ScanDelivered(d, i) {
      assert ScanOwned(c, i) && ScanDelivered(c, i);
    }
  }

  /** Scan i is untouched by a step that leaves its record, its attachment and its holders alone. */
  lemma ScanSame(c: Conn, d: Conn, i: nat)
    requires i < |c.runs| == |c.sh.scans| && i < |d.runs| == |d.sh.scans|
    requires ScanOwned(c, i) && ScanDelivered(c, i)
    requires d.runs[i] == c.runs[i] && d.sh.scans[i] == c.sh.scans[i]
    requires (c.sh.scan == Some(i)) == (d.sh.scan == Some(i))
    requires (c.close == CloseScan(Some(i))) == (d.close == CloseScan(Some(i)))
    requires (c.run == RunFailScan(Some(i))) == (d.run == RunFailScan(Some(i)))
    requires (c.drainScan == Some(i)) == (d.drainScan == Some(i))
    requires Delivered(c.sh.events, i) == Delivered(d.sh.events, i)
    ensures ScanOwned(d, i) && ScanDelivered(d, i)
  {
  }

  lemma ScanInvOp(c: Conn, s: OpStep)
    requires EventInv(c) && LockInv(c) && ScanInv(c) && OpEnabled(c, s)
    ensures ScanInv(OpApply(c, s))
  {
    var d := OpApply(c, s);
    if s.ReSect? && d.sh.events != c.sh.events { assert d.sh.events == c.sh.events + [EvConnected]; }
    if s.ReDropSect? && d.sh.events != c.sh.events {
      assert d.sh.events == c.sh.events + [EvDropped(c.op.re.rest[0].topic)];
    }
    EventsOnly(c, d);
  }

  lemma ScanInvRun(c: Conn, s: RunStep)
    requires EventInv(c) && LockInv(c) && ScanInv(c) && RunEnabled(c, s)
    ensures ScanInv(RunApply(c, s))
  {
    var d := RunApply(c, s);
    if s.RunSect? || s.RunScan? {
      if d.sh.events != c.sh.events { assert d.sh.events == c.sh.events + [EvFailed]; }
      Quiet(c, d);
      forall i: nat | i < |d.runs| ensures ScanOwned(d, i) && ScanDelivered(d, i) {
        assert ScanOwned(c, i) && ScanDelivered(c, i);
      }
    } else {
      EventsOnly(c, d);
    }
  }

  /** Disconnect and Shutdown take a scan away. */
  lemma ScanInvTaken(c: Conn, s: CloseStep)
    requires EventInv(c) && LockInv(c) && ScanInv(c) && CloseEnabled(c, s)
    requires s.Detach? || (s.VisitConn? && c.drain == DrainNone && c.drainScan == None)
    ensures ScanInv(CloseApply(c, s))
  {
    var d := CloseApply(c, s);
    forall i: nat | i < |d.runs| ensures ScanOwned(d, i) && ScanDelivered(d, i) {
      assert ScanOwned(c, i) && ScanDelivered(c, i);
      if c.sh.scan != Some(i) { ScanSame(c, d, i); }
    }
  }

  /** And disconnect it. */
  lemma ScanInvHangup(c: Conn, s: CloseStep)
    requires EventInv(c) && LockInv(c) && ScanInv(c) && CloseEnabled(c, s)
    requires s.CloseScanStep? || s.DrainScanStep?
    ensures ScanInv(CloseApply(c, s))
  {
    var d := CloseApply(c, s);
    var client := if s.CloseScanStep? then c.close.client else c.drainScan;
    forall i: nat | i < |d.runs| ensures ScanOwned(d, i) && ScanDelivered(d, i) {
      assert ScanOwned(c, i) && ScanDelivered(c, i);
      if client != Some(i) { ScanSame(c, d, i); }
    }
  }

  lemma ScanInvClose(c: Conn, s: CloseStep)
    requires EventInv(c) && LockInv(c) && ScanInv(c) && CloseEnabled(c, s)
    requires s.VisitConn? ==> c.drain == DrainNone && c.drainScan == None
    ensures ScanInv(CloseApply(c, s))
  {
    if s.Detach? || s.VisitConn? {
      ScanInvTaken(c, s);
    } else if s.CloseScanStep? || s.DrainScanStep? {
      ScanInvHangup(c, s);
    } else {
      var d := CloseApply(c, s);
      if d.sh.events != c.sh.events { assert d.sh.events == c.sh.events + [EvDisconnected]; }
      EventsOnly(c, d);
    }
  }

  lemma Quiet(c: Conn, d: Conn)
    requires d.sh.events == c.sh.events
          || exists e: Event :: !e.EvScanTopic? && d.sh.events == c.sh.events + [e]
    ensures forall i: nat :: Delivered(d.sh.events, i) == Delivered(c.sh.events, i)
  {
    if d.sh.events != c.sh.events {
      var e: Event :| !e.EvScanTopic? && d.sh.events == c.sh.events + [e];
      forall i: nat { DeliveredSnoc(c.sh.events, e, i); }
    }
  }

  /** A step of the starting goroutine: one record changes, nothing is emitted. */
  lemma ScanInvStarter(c: Conn, s: ScanStep, x: nat)
    requires EventInv(c) && LockInv(c) && ScanInv(c) && ScanEnabled(c, s)
    requires (s.ScanConnected? && s.i == x) || (s.ScanSubscribed? && s.j == x) || (s.ScanAbandon? && s.a == x)
    ensures ScanInv(ScanApply(c, s))
  {
    var d := ScanApply(c, s);
    forall i: nat | i < |d.runs| ensures ScanOwned(d, i) && ScanDelivered(d, i) {
      assert ScanOwned(c, i) && ScanDelivered(c, i);
      if i != x { ScanSame(c, d, i); }
    }
  }

  /** A disconnect by StopTopicScan or the lost callback, likewise. */
  lemma ScanInvDrop(c: Conn, s: ScanStep, x: nat)
    requires EventInv(c) && LockInv(c) && ScanInv(c) && ScanEnabled(c, s)
    requires (s.StopDisconnect? && s.s == x) || (s.ScanLostDisconnect? && s.d == x)
    ensures ScanInv(ScanApply(c, s))
  {
    var d := ScanApply(c, s);
    forall i: nat | i < |d.runs| ensures ScanOwned(d, i) && ScanDelivered(d, i) {
      assert ScanOwned(c, i) && ScanDelivered(c, i);
      if i != x { ScanSame(c, d, i); }
    }
  }

  lemma ScanInvDetach(c: Conn, s: ScanStep)
    requires EventInv(c) && LockInv(c) && ScanInv(c) && ScanEnabled(c, s)
    requires s.Reserve? || s.StopSect?
    ensures ScanInv(ScanApply(c, s))
  {
    var d := ScanApply(c, s);
    forall i: nat | i < |d.runs| ensures ScanOwned(d, i) && ScanDelivered(d, i) {
      if i < |c.runs| { assert ScanOwned(c, i) && ScanDelivered(c, i); }
    }
  }

  lemma ScanInvSect(c: Conn, s: ScanStep)
    requires EventInv(c) && LockInv(c) && ScanInv(c) && ScanEnabled(c, s)
    requires s.ScanSect?
    ensures ScanInv(ScanApply(c, s))
  {
    var d, k := ScanApply(c, s), s.k;
    assert ScanOwned(c, k) && ScanDelivered(c, k);
    forall i: nat ensures Delivered(d.sh.events, i) == Delivered(c.sh.events, i)
                       + (if i == k && d.sh.scans[k].started then c.sh.scans[k].pending else []) {
      DeliveredBatch(c.sh.events, k, c.sh.scans[k].pending, i);
    }
    forall i: nat | i < |d.runs| ensures ScanOwned(d, i) && ScanDelivered(d, i) {
      assert ScanOwned(c, i) && ScanDelivered(c, i);
      if i != k { ScanSame(c, d, i); }
    }
  }

  lemma ScanInvMessage(c: Conn, s: ScanStep)
    requires EventInv(c) && LockInv(c) && ScanInv(c) && ScanEnabled(c, s)
    requires s.ScanMessage?
    ensures ScanInv(ScanApply(c, s))
  {
    var d, m := ScanApply(c, s), s.m;
    assert ScanOwned(c, m) && ScanDelivered(c, m);
    forall i: nat { DeliveredSnoc(c.sh.events, EvScanTopic(m, s.topic), i); }
    forall i: nat | i < |d.runs| ensures ScanOwned(d, i) && ScanDelivered(d, i) {
      assert ScanOwned(c, i) && ScanDelivered(c, i);
      if i != m { ScanSame(c, d, i); }
    }
  }

  lemma ScanInvLost(c: Conn, s: ScanStep)
    requires EventInv(c) && LockInv(c) && ScanInv(c) && ScanEnabled(c, s)
    requires s.ScanLost?
    ensures ScanInv(ScanApply(c, s))
  {
    var d, l := ScanApply(c, s), s.l;
    assert ScanOwned(c, l) && ScanDelivered(c, l);
    if d.sh.events != c.sh.events { assert d.sh.events == c.sh.events + [EvScanStopped]; }
    Quiet(c, d);
    forall i: nat | i < |d.runs| ensures ScanOwned(d, i) && ScanDelivered(d, i) {
      assert ScanOwned(c, i) && ScanDelivered(c, i);
      if i != l { ScanSame(c, d, i); }
    }
  }

  lemma ScanStepKeeps(c: Conn, s: Step)
    requires EventInv(c) && LockInv(c) && ScanInv(c) && Enabled(c, s) && ShutdownOnce(c, s)
    ensures ScanInv(Apply(c, s))
  {
    match s
    case SC(x) => ScanInvClient(c, x);
    case SR(x) => ScanInvRun(c, x);
    case SO(x) => ScanInvOp(c, x);
    case SX(x) => ScanInvClose(c, x);
    case SS(ScanSect(_)) => ScanInvSect(c, s.s);
    case SS(ScanMessage(_, _)) => ScanInvMessage(c, s.s);
    case SS(ScanLost(_)) => ScanInvLost(c, s.s);
    case SS(Reserve) => ScanInvDetach(c, s.s);
    case SS(StopSect) => ScanInvDetach(c, s.s);
    case SS(ScanConnected(i, _)) => ScanInvStarter(c, s.s, i);
    case SS(ScanSubscribed(j, _)) => ScanInvStarter(c, s.s, j);
    case SS(ScanAbandon(a)) => ScanInvStarter(c, s.s, a);
    case SS(StopDisconnect(d)) => ScanInvDrop(c, s.s, d);
    case SS(ScanLostDisconnect(d)) => ScanInvDrop(c, s.s, d);
  }

  // ---------------------------------------------------------------- subscriptions against the broker

  ghost predicate InRows(topic: Topic, rows: seq<Sub>) { exists r :: r in rows && r.topic == topic }

  /** The broker holds row r in the current session and arriving messages are routed.  The QoS is the
      listed one unless a SUBSCRIBE of this session for the topic went unanswered. */
  ghost predicate Held(cl: Client, r: Sub) {
    && r.topic in cl.acked
    && r.topic in cl.routes
    && (cl.acked[r.topic] == r.qos || r.topic in cl.doubt)
  }

  /** The thread under opMu still has row r in hand: the onConnected of this very session has yet to
      reach it, or an RPC is between the broker's answer and the table. */
  ghost predicate InHand(op: Op, epoch: nat, r: Sub) {
    match op
    case OpConnected(e, re) =>
      (match re
       case ReEnter => e == epoch
       case ReLoop(rest) => e == epoch && InRows(r.topic, rest)
       case ReCall(rest) => e == epoch && InRows(r.topic, rest)
       case ReReply(rest, res) =>
         rest != [] && (if r.topic == rest[0].topic then res != Granted && e == epoch
                        else e == epoch && InRows(r.topic, rest))
       case ReDrop(rest) => e == epoch && InRows(r.topic, rest)
       case ReUnsub(rest) => e == epoch && rest != [] && r.topic != rest[0].topic && InRows(r.topic, rest))
    case OpSubscribe(t, _, AtReply(res)) => t == r.topic && res == Granted
    case OpUnsubscribe(t, AtReply(res)) => t == r.topic && (res == Granted || res == TimedOut)
    case _ => false
  }

  /** Row r is not forgotten. */
  ghost predicate Covered(c: Conn, r: Sub) {
    Held(c.client, r) || c.client.epoch in c.client.owed || InHand(c.op, c.client.epoch, r)
  }

  ghost predicate OpShape(c: Conn) {
    match c.op
    case OpConnected(_, re) =>
      (match re
       case ReEnter => true
       case ReLoop(rest) => DistinctTopics(rest) && (forall r :: r in rest ==> r in c.sh.subs)
       case ReCall(rest) => rest != [] && DistinctTopics(rest) && (forall r :: r in rest ==> r in c.sh.subs)
       case ReReply(rest, _) => rest != [] && DistinctTopics(rest) && (forall r :: r in rest ==> r in c.sh.subs)
       case ReDrop(rest) => rest != [] && DistinctTopics(rest) && (forall r :: r in rest ==> r in c.sh.subs)
       case ReUnsub(rest) => rest != [] && DistinctTopics(rest) && !InRows(rest[0].topic, c.sh.subs)
                             && (forall r :: r in rest[1..] ==> r in c.sh.subs))
    case _ => true
  }

  /** The client is up for good: the session is open and Connect has not begun to give it up. */
  ghost predicate Up(c: Conn) { !Terminal(c.sh.life) && c.client.open && !c.client.aborting }

  ghost predicate SubsInv(c: Conn) {
    && DistinctTopics(c.sh.subs)
    && OpShape(c)
    && (Up(c) ==> forall r :: r in c.sh.subs ==> Covered(c, r))
    && (Up(c) && c.sh.life == Connecting ==>
          c.client.epoch in c.client.owed || c.op == OpConnected(c.client.epoch, ReEnter))
    && (Up(c) && c.op.OpSubscribe? && c.op.at == AtReply(Granted) ==>
          Held(c.client, Sub(c.op.topic, c.op.qos)) || c.client.epoch in c.client.owed)
  }

  lemma ListedIsInRows(subs: seq<Sub>, topic: Topic)
    ensures Listed(subs, topic) <==> InRows(topic, subs)
  {
    if Listed(subs, topic) {
      var i :| 0 <= i < |subs| && subs[i].topic == topic;
      assert subs[i] in subs;
    }
  }

  lemma SubsClient(c: Conn, s: ClientStep)
    requires SubsInv(c) && ClientEnabled(c, s)
    ensures SubsInv(ClientApply(c, s))
  {
    var d := ClientApply(c, s);
    forall r | Up(d) && r in d.sh.subs ensures Covered(d, r) {
      if !s.Establish? { assert Covered(c, r); }
    }
  }

  /** Steps that keep the table, the lock holder and the client's session. */
  lemma SubsOther(c: Conn, d: Conn)
    requires SubsInv(c)
    requires d.sh.subs == c.sh.subs
    requires d.client == c.client || d.client == Hangup(c.client)
    requires d.op == c.op || (!d.op.OpConnected? && !c.op.OpConnected? && !c.op.OpSubscribe? && !d.op.OpSubscribe?
                              && !d.op.OpUnsubscribe? && !c.op.OpUnsubscribe?)
    requires Terminal(c.sh.life) ==> Terminal(d.sh.life)
    requires d.sh.life == Connecting ==> c.sh.life == Connecting
    ensures SubsInv(d)
  {
    forall r | Up(d) && r in d.sh.subs ensures Covered(d, r) { assert Covered(c, r); }
  }

  lemma SubsAcquire(c: Conn, s: OpStep)
    requires SubsInv(c) && OpEnabled(c, s)
    requires s.SubAcquire? || s.UnsAcquire? || s.ReAcquire? || s.RpcCheck?
    ensures SubsInv(OpApply(c, s))
  {
    var d := OpApply(c, s);
    forall r | Up(d) && r in d.sh.subs ensures Covered(d, r) { assert Covered(c, r); }
  }

  lemma SubsTable(c: Conn, s: OpStep)
    requires SubsInv(c) && OpEnabled(c, s)
    requires s.RpcPending? || s.RpcCommit?
    ensures SubsInv(OpApply(c, s))
  {
    var d := OpApply(c, s);
    if c.op.OpSubscribe? { SetSubRows(c.sh.subs, c.op.topic, c.op.qos); }
    DeleteSubRows(c.sh.subs, c.op.topic);
    forall r | Up(d) && r in d.sh.subs ensures Covered(d, r) {
      if r in c.sh.subs { assert Covered(c, r); }
    }
  }

  lemma SubsReplyRpc(c: Conn, s: OpStep)
    requires SubsInv(c) && OpEnabled(c, s)
    requires s.ClientReply? && !c.op.OpConnected?
    ensures SubsInv(OpApply(c, s))
  {
    var d := OpApply(c, s);
    forall r | Up(d) && r in d.sh.subs ensures Covered(d, r) { assert Covered(c, r); }
  }

  lemma SubsReplyRe(c: Conn, s: OpStep)
    requires SubsInv(c) && OpEnabled(c, s)
    requires s.ClientReply? && c.op.OpConnected?
    ensures SubsInv(OpApply(c, s))
  {
    var d := OpApply(c, s);
    var rest := c.op.re.rest;
    assert rest == [rest[0]] + rest[1..];
    forall r | Up(d) && r in d.sh.subs ensures Covered(d, r) {
      assert Covered(c, r);
      if c.op.re.ReCall? && r.topic == rest[0].topic { SameRow(c.sh.subs, r, rest[0]); }
    }
  }

  lemma SameRow(subs: seq<Sub>, r: Sub, q: Sub)
    requires DistinctTopics(subs) && r in subs && q in subs && r.topic == q.topic
    ensures r == q
  {
    var i :| 0 <= i < |subs| && subs[i] == r;
    var j :| 0 <= j < |subs| && subs[j] == q;
    assert i == j;
  }

  lemma SubsRe(c: Conn, s: OpStep)
    requires SubsInv(c) && OpEnabled(c, s)
    requires s.ReSect? || s.ReNext? || s.ReHandle?
    ensures SubsInv(OpApply(c, s))
  {
    var d := OpApply(c, s);
    if !s.ReSect? && c.op.re.rest != [] {
      var rest := c.op.re.rest;
      assert rest == [rest[0]] + rest[1..];
      assert rest[0] in c.sh.subs;
      ListedIsInRows(c.sh.subs, rest[0].topic);
    }
    forall r | Up(d) && r in d.sh.subs ensures Covered(d, r) { assert Covered(c, r); }
  }

  lemma SubsDrop(c: Conn, s: OpStep)
    requires SubsInv(c) && OpEnabled(c, s)
    requires s.ReDropSect?
    ensures SubsInv(OpApply(c, s))
  {
    var d := OpApply(c, s);
    var rest := c.op.re.rest;
    assert rest == [rest[0]] + rest[1..];
    DeleteSubRows(c.sh.subs, rest[0].topic);
    forall r | r in rest[1..] ensures r in d.sh.subs { assert r in rest; }
    forall r | Up(d) && r in d.sh.subs ensures Covered(d, r) { assert Covered(c, r); }
  }

  lemma SubsOp(c: Conn, x: OpStep)
    requires EventInv(c) && LockInv(c) && SubsInv(c) && OpEnabled(c, x)
    ensures SubsInv(OpApply(c, x))
  {
    match x
    case ClientReply(_, _) => if c.op.OpConnected? { SubsReplyRe(c, x); } else { SubsReplyRpc(c, x); }
    case RpcPending => SubsTable(c, x);
    case RpcCommit => SubsTable(c, x);
    case ReDropSect => SubsDrop(c, x);
    case ReSect => SubsRe(c, x);
    case ReNext => SubsRe(c, x);
    case ReHandle => SubsRe(c, x);
    case _ => SubsAcquire(c, x);
  }

  lemma SubsRun(c: Conn, x: RunStep)
    requires EventInv(c) && LockInv(c) && SubsInv(c) && RunEnabled(c, x)
    ensures SubsInv(RunApply(c, x))
  {
    EventRun(c, x);
    SubsOther(c, RunApply(c, x));
  }

  lemma SubsClose(c: Conn, x: CloseStep)
    requires EventInv(c) && LockInv(c) && SubsInv(c) && CloseEnabled(c, x) && ShutdownOnce(c, SX(x))
    ensures SubsInv(CloseApply(c, x))
  {
    EventClose(c, x);
    SubsOther(c, CloseApply(c, x));
  }

  lemma SubsScan(c: Conn, x: ScanStep)
    requires EventInv(c) && LockInv(c) && SubsInv(c) && ScanEnabled(c, x)
    ensures SubsInv(ScanApply(c, x))
  {
    EventScan(c, x);
    SubsOther(c, ScanApply(c, x));
  }

  lemma SubsStep(c: Conn, s: Step)
    requires EventInv(c) && LockInv(c) && SubsInv(c) && Enabled(c, s) && ShutdownOnce(c, s)
    ensures SubsInv(Apply(c, s))
  {
    match s
    case SC(x) => SubsClient(c, x);
    case SR(x) => SubsRun(c, x);
    case SX(x) => SubsClose(c, x);
    case SS(x) => SubsScan(c, x);
    case SO(x) => SubsOp(c, x);
  }

  // ---------------------------------------------------------------- who disconnects the main client

  /** A client whose Connect succeeded has been disconnected since, or a thread is bound to do it: the
      connection goroutine, the Disconnect that detached it, Shutdown's worker - or the connection is
      still live, and then Disconnect and Shutdown can still find it. */
  ghost predicate ClientInv(c: Conn) {
    && (c.run == RunCalling <==> c.client.attempt == Trying)
    && (c.run.RunReturned? ==> c.client.attempt == (if c.run.ok then Succeeded else Failed))
    && (c.client.attempt == Succeeded && Terminal(c.sh.life) ==>
          || c.client.disconnectedSinceSuccess
          || c.run == RunReturned(true) || c.run == RunDiscardWait || c.op == OpDiscard(false)
          || c.close.CloseScan? || c.close == CloseWait || c.op == OpClose(false)
          || c.drain == DrainWait || c.op == OpDrain(false))
  }

  lemma ClientInvClient(c: Conn, s: ClientStep)
    requires EventInv(c) && LockInv(c) && ClientInv(c) && ClientEnabled(c, s)
    ensures ClientInv(ClientApply(c, s))
  {
  }

  lemma ClientInvRun(c: Conn, s: RunStep)
    requires EventInv(c) && LockInv(c) && ClientInv(c) && RunEnabled(c, s)
    ensures ClientInv(RunApply(c, s))
  {
  }

  predicate Disconnecter(op: Op) { op.OpDiscard? || op.OpClose? || op.OpDrain? }

  /** An operation that is no disconnect leaves all of that alone. */
  lemma ClientSame(c: Conn, d: Conn)
    requires ClientInv(c) && !Disconnecter(c.op)
    requires d.run == c.run && d.close == c.close && d.drain == c.drain
    requires d.client.attempt == c.client.attempt
      && d.client.disconnectedSinceSuccess == c.client.disconnectedSinceSuccess
    requires Terminal(d.sh.life) <==> Terminal(c.sh.life)
    ensures ClientInv(d)
  {
  }

  lemma ClientInvReply(c: Conn, res: Reply, applied: bool)
    requires ClientInv(c) && Calling(c.op).Some?
    ensures ClientInv(ReplyApply(c, res, applied))
  {
    ClientSame(c, ReplyApply(c, res, applied));
  }

  lemma ClientInvOp(c: Conn, s: OpStep)
    requires EventInv(c) && LockInv(c) && ClientInv(c) && OpEnabled(c, s)
    ensures ClientInv(OpApply(c, s))
  {
    if s.ClientReply? { ClientInvReply(c, s.res, s.applied); } else { ClientSame(c, OpApply(c, s)); }
  }

  lemma ClientInvClose(c: Conn, s: CloseStep)
    requires EventInv(c) && LockInv(c) && ClientInv(c) && CloseEnabled(c, s)
    ensures ClientInv(CloseApply(c, s))
  {
  }

  lemma ClientInvScan(c: Conn, s: ScanStep)
    requires EventInv(c) && LockInv(c) && ClientInv(c) && ScanEnabled(c, s)
    ensures ClientInv(ScanApply(c, s))
  {
  }

  lemma ClientInvStep(c: Conn, s: Step)
    requires EventInv(c) && LockInv(c) && ClientInv(c) && Enabled(c, s)
    ensures ClientInv(Apply(c, s))
  {
    match s
    case SC(x) => ClientInvClient(c, x);
    case SR(x) => ClientInvRun(c, x);
    case SO(x) => ClientInvOp(c, x);
    case SX(x) => ClientInvClose(c, x);
    case SS(x) => ClientInvScan(c, x);
  }

  // ---------------------------------------------------------------- all of it

  ghost predicate ConnInv(c: Conn) {
    EventInv(c) && LockInv(c) && ScanInv(c) && SubsInv(c) && ClientInv(c)
  }

  lemma FreshInv()
    ensures ConnInv(FRESH)
  {
  }

  lemma ConnStep(c: Conn, s: Step)
    requires ConnInv(c) && Enabled(c, s) && ShutdownOnce(c, s)
    ensures ConnInv(Apply(c, s)) && Onward(c, Apply(c, s))
  {
    EventStep(c, s);
    ScanStepKeeps(c, s);
    SubsStep(c, s);
    ClientInvStep(c, s);
  }

  /** A scan whose goroutine is through and which nobody holds any more was disconnected exactly once;
      at any time, at most once. */
  lemma ScanDisconnectedOnce(c: Conn, i: nat)
    requires ConnInv(c) && i < |c.runs|
    ensures c.runs[i].disconnects <= 1
    ensures c.sh.scan != Some(i) && c.runs[i].starter == StDone && c.runs[i].holder == None
            ==> c.runs[i].disconnects == 1
  {
    assert ScanOwned(c, i);
  }

  /** The topics emitted for a scan are the topics received while it was attached, in order, once the
      scan runs; before that, and for a scan that never runs, none. */
  lemma ScanTopicsExact(c: Conn, i: nat)
    requires ConnInv(c) && i < |c.runs|
    ensures Delivered(c.sh.events, i) == if c.sh.scans[i].started then c.runs[i].received else []
  {
    assert ScanDelivered(c, i);
  }
}
