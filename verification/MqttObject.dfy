/**
 * The connection object itself: the fields of the Go struct, changed in place by its locked regions.
 * Every method is tied to the section function of MqttSections that the protocol is built from, through
 * the abstraction `View`: the map-and-order pair `subs`/`subOrder` stands for one list of rows, and a
 * scan object stands for its index among the scans this connection ever had.
 */
module MqttObject {
  import opened Common
  import opened MqttSections

  class TopicScan {
    var started: bool
    var pending: seq<Topic>
    var lost: bool

    constructor ()
      ensures !started && pending == [] && !lost
    {
      started, pending, lost := false, [], false;
    }
  }

  ghost function RowsOf(order: seq<Topic>, subs: map<Topic, Qos>): (rows: seq<Sub>)
    requires forall t :: t in order ==> t in subs
    ensures |rows| == |order|
  {
    seq(|order|, i requires 0 <= i < |order| => Sub(order[i], subs[order[i]]))
  }

  lemma {:induction false} SetSubAt(rows: seq<Sub>, topic: Topic, qos: Qos, k: nat)
    requires k <= |rows|
    requires forall i :: 0 <= i < k ==> rows[i].topic != topic
    requires k < |rows| ==> rows[k].topic == topic
    ensures SetSub(rows, topic, qos) == if k < |rows| then rows[k := Sub(topic, qos)] else rows + [Sub(topic, qos)]
  {
    if k > 0 {
      SetSubAt(rows[1..], topic, qos, k - 1);
    }
  }

  /** The rows after writing one topic of the map, listed at `k` or added there. */
  lemma RowsSet(order: seq<Topic>, subs: map<Topic, Qos>, topic: Topic, qos: Qos, k: nat)
    requires (forall t :: t in order ==> t in subs) && NoRepeats(order) && k <= |order|
    requires if k < |order| then order[k] == topic else topic !in order
    ensures RowsOf(if k < |order| then order else order + [topic], subs[topic := qos])
         == if k < |order| then RowsOf(order, subs)[k := Sub(topic, qos)] else RowsOf(order, subs) + [Sub(topic, qos)]
  {
  }

  lemma {:induction false} DeleteSubSnoc(rows: seq<Sub>, r: Sub, topic: Topic)
    ensures DeleteSub(rows + [r], topic) == DeleteSub(rows, topic) + (if r.topic == topic then [] else [r])
  {
    if rows == [] {
      assert [r][1..] == [];
    } else {
      assert (rows + [r])[1..] == rows[1..] + [r];
      DeleteSubSnoc(rows[1..], r, topic);
    }
  }

  /** The topics that stay in the list. */
  function Kept(order: seq<Topic>, topic: Topic): seq<Topic> {
    if order == [] then []
    else
      var last := order[|order| - 1];
      Kept(order[..|order| - 1], topic) + if last == topic then [] else [last]
  }

  lemma RowsSnoc(order: seq<Topic>, t: Topic, subs: map<Topic, Qos>)
    requires t in subs && forall u :: u in order ==> u in subs
    ensures RowsOf(order + [t], subs) == RowsOf(order, subs) + [Sub(t, subs[t])]
  {
  }

  lemma AddedLast<T>(s: seq<T>, x: T)
    requires NoRepeats(s) && x !in s
    ensures NoRepeats(s + [x])
  {
  }

  lemma {:induction false} KeptMeaning(order: seq<Topic>, subs: map<Topic, Qos>, topic: Topic)
    requires NoRepeats(order) && forall t :: t in order ==> t in subs
    ensures NoRepeats(Kept(order, topic)) && forall t :: t in Kept(order, topic) <==> t in order && t != topic
    ensures RowsOf(Kept(order, topic), subs) == DeleteSub(RowsOf(order, subs), topic)
  {
    if order != [] {
      var init, last := order[..|order| - 1], order[|order| - 1];
      assert order == init + [last];
      assert last !in init by {
        assert forall i :: 0 <= i < |init| ==> init[i] == order[i] && order[i] != order[|order| - 1];
      }
      KeptMeaning(init, subs, topic);
      if last != topic { AddedLast(Kept(init, topic), last); }
      RowsSnoc(init, last, subs);
      RowsSnoc(Kept(init, topic), last, subs);
      DeleteSubSnoc(RowsOf(init, subs), Sub(last, subs[last]), topic);
    }
  }

  ghost predicate InStep(order: seq<Topic>, subs: map<Topic, Qos>) {
    NoRepeats(order) && forall t :: t in subs <==> t in order
  }

  /** setSub and deleteSub on the map and the order list together. */
  lemma SetTable(order: seq<Topic>, subs: map<Topic, Qos>, topic: Topic, qos: Qos)
    requires InStep(order, subs)
    ensures var next := if topic in subs then order else order + [topic];
      InStep(next, subs[topic := qos]) && RowsOf(next, subs[topic := qos]) == SetSub(RowsOf(order, subs), topic, qos)
  {
    var k := |order|;
    if topic in subs { k :| 0 <= k < |order| && order[k] == topic; }
    SetSubAt(RowsOf(order, subs), topic, qos, k);
    RowsSet(order, subs, topic, qos, k);
  }

  lemma DeleteTable(order: seq<Topic>, subs: map<Topic, Qos>, topic: Topic)
    requires InStep(order, subs) && topic in subs
    ensures InStep(Kept(order, topic), subs - {topic})
    ensures RowsOf(Kept(order, topic), subs - {topic}) == DeleteSub(RowsOf(order, subs), topic)
  {
    KeptMeaning(order, subs, topic);
    assert RowsOf(Kept(order, topic), subs - {topic}) == RowsOf(Kept(order, topic), subs);
  }

  lemma {:induction false} DeleteSubAbsent(rows: seq<Sub>, topic: Topic)
    requires forall i :: 0 <= i < |rows| ==> rows[i].topic != topic
    ensures DeleteSub(rows, topic) == rows
  {
    if rows != [] { DeleteSubAbsent(rows[1..], topic); }
  }

  class Connection {
    var state: Life
    var subs: map<Topic, Qos>
    var subOrder: seq<Topic>
    var scan: TopicScan?
    /** What the emitter has been handed. */
    ghost var events: seq<Event>
    /** Every scan this connection reserved, oldest first. */
    ghost var all: seq<TopicScan>

    ghost predicate Valid()
      reads this
    {
      && InStep(subOrder, subs)
      && NoRepeats(all)
      && (scan != null ==> scan in all)
    }

    ghost function Rows(): seq<Sub>
      requires Valid()
      reads this
    {
      RowsOf(subOrder, subs)
    }

    ghost function IndexOf(s: TopicScan): (i: nat)
      requires s in all
      reads this
      ensures i < |all| && all[i] == s
    {
      var i :| 0 <= i < |all| && all[i] == s; i
    }

    ghost function View(): (v: Shared)
      requires Valid()
      reads this, all
      ensures WellFormed(v)
    {
      Shared(state, Rows(), if scan == null then None else Some(IndexOf(scan)),
             seq(|all|, i requires 0 <= i < |all| reads this, all => Scan(all[i].started, all[i].pending, all[i].lost)),
             events)
    }

    constructor ()
      ensures Valid() && View() == NEW_SHARED && all == []
    {
      state, subs, subOrder, scan, events, all := Connecting, map[], [], null, [], [];
    }

    method SetSub(topic: Topic, qos: Qos)
      requires Valid()
      modifies this`subs, this`subOrder
      ensures Valid() && View() == old(View()).(subs := MqttSections.SetSub(old(Rows()), topic, qos))
    {
      SetTable(subOrder, subs, topic, qos);
      if topic !in subs {
        subOrder := subOrder + [topic];
      }
      subs := subs[topic := qos];
    }

    method DeleteSub(topic: Topic)
      requires Valid()
      modifies this`subs, this`subOrder
      ensures Valid() && View() == old(View()).(subs := MqttSections.DeleteSub(old(Rows()), topic))
    {
      if topic !in subs {
        DeleteSubAbsent(Rows(), topic);
        return;
      }
      var kept: seq<Topic> := [];
      for i := 0 to |subOrder|
        invariant subs == old(subs) && subOrder == old(subOrder)
        invariant kept == Kept(subOrder[..i], topic)
      {
        assert subOrder[..i + 1][..i] == subOrder[..i];
        if subOrder[i] != topic { kept := kept + [subOrder[i]]; }
      }
      assert subOrder[..|subOrder|] == subOrder;
      DeleteTable(subOrder, subs, topic);
      subs := subs - {topic};
      subOrder := kept;
    }

    method OrderedSubs() returns (rows: seq<Sub>)
      requires Valid()
      ensures rows == View().subs
    {
      rows := [];
      for i := 0 to |subOrder|
        invariant rows == Rows()[..i]
      {
        rows := rows + [Sub(subOrder[i], subs[subOrder[i]])];
      }
    }

    ghost method Emit(e: Event)
      requires Valid()
      modifies this`events
      ensures Valid() && View() == MqttSections.Emit(old(View()), e)
    {
      events := events + [e];
    }

    /** The client that the caller must disconnect is the detached scan's, if any. */
    method DetachScan() returns (client: TopicScan?)
      requires Valid()
      modifies this`scan
      ensures Valid() && View() == MqttSections.DetachScan(old(View())).0
      ensures client != null <==> MqttSections.DetachScan(old(View())).1.Some?
      ensures client != null ==> client in all && IndexOf(client) == MqttSections.DetachScan(old(View())).1.value
    {
      client := scan;
      scan := null;
      if client != null && !client.started { client := null; }
    }

    method RunSection(ok: bool) returns (client: TopicScan?)
      requires Valid()
      modifies this`state, this`scan, this`events
      ensures Valid() && View() == MqttSections.RunSection(old(View()), ok).0
      ensures client != null <==> MqttSections.RunSection(old(View()), ok).1.Some?
      ensures client != null ==> client in all && Some(IndexOf(client)) == MqttSections.RunSection(old(View()), ok).1
    {
      client := null;
      if Terminal(state) { return; }
      if !ok {
        state := Closed;
        client := DetachScan();
        Emit(EvFailed);
        return;
      }
      if state == Connecting { state := Connected; }
    }

    /** `updatePendingSubs`: before the connection is established only the table changes. */
    method UpdatePendingSubs(add: bool, topic: Topic, qos: Qos) returns (done: bool)
      requires Valid()
      modifies this`subs, this`subOrder
      ensures Valid() && done == (state == Connecting)
      ensures View() == old(View()).(subs :=
        if !done then old(Rows())
        else if add then MqttSections.SetSub(old(Rows()), topic, qos) else MqttSections.DeleteSub(old(Rows()), topic))
    {
      done := state == Connecting;
      if done {
        if add { SetSub(topic, qos); } else { DeleteSub(topic); }
      }
    }

    method ConnectedSection() returns (go: bool, rows: seq<Sub>)
      requires Valid()
      modifies this`state, this`events
      ensures Valid() && View() == MqttSections.ConnectedSection(old(View())).0
      ensures MqttSections.ConnectedSection(old(View())).1 == if go then Some(rows) else None
    {
      go, rows := false, [];
      if Terminal(state) { return; }
      state := Connected;
      Emit(EvConnected);
      rows := OrderedSubs();
      go := true;
    }

    method LostSection()
      requires Valid()
      modifies this`events
      ensures Valid() && View() == MqttSections.LostSection(old(View()))
    {
      if Terminal(state) { return; }
      Emit(EvLost);
    }

    method MessageSection(topic: Topic)
      requires Valid()
      modifies this`events
      ensures Valid() && View() == MqttSections.MessageSection(old(View()), topic)
    {
      if Terminal(state) { return; }
      Emit(EvMessage(topic));
    }

    method DropSection(topic: Topic)
      requires Valid()
      modifies this`subs, this`subOrder, this`events
      ensures Valid() && View() == MqttSections.DropSection(old(View()), topic)
    {
      DeleteSub(topic);
      if !Terminal(state) { Emit(EvDropped(topic)); }
    }

    method CloseSection()
      requires Valid()
      modifies this`state, this`events
      ensures Valid() && View() == MqttSections.CloseSection(old(View()))
    {
      if state == Closed { return; }
      state := Closed;
      Emit(EvDisconnected);
    }

    method DetachSection() returns (client: TopicScan?)
      requires Valid()
      modifies this`state, this`scan
      ensures Valid() && View() == MqttSections.DetachSection(old(View())).0
      ensures client != null <==> MqttSections.DetachSection(old(View())).1.Some?
      ensures client != null ==> client in all && Some(IndexOf(client)) == MqttSections.DetachSection(old(View())).1
    {
      state := Disconnecting;
      client := DetachScan();
    }

    method ReserveScan() returns (s: TopicScan?, joined: bool)
      requires Valid()
      modifies this`scan, this`all
      ensures Valid()
      ensures Terminal(state) ==> s == null && View() == old(View())
      ensures !Terminal(state) && old(scan) != null ==> s == old(scan) && joined && View() == old(View())
      ensures !Terminal(state) && old(scan) == null ==>
        s != null && fresh(s) && !joined && View() == ReserveSection(old(View()))
      ensures s != null ==> s == scan && s in all
    {
      if Terminal(state) { return null, false; }
      if scan != null { return scan, true; }
      var next := new TopicScan();
      scan := next;
      all := all + [next];
      assert IndexOf(next) == |all| - 1;
      return next, false;
    }

    /** The end of StartTopicScan for scan `s`. */
    method StartSection(s: TopicScan, ok: bool) returns (running: bool)
      requires Valid() && s in all
      modifies this`scan, this`events, s
      ensures Valid()
      ensures View() == MqttSections.StartSection(old(View()), old(IndexOf(s)), ok).0
      ensures running == MqttSections.StartSection(old(View()), old(IndexOf(s)), ok).1
    {
      ghost var i := IndexOf(s);
      running := scan == s && ok && !s.lost;
      if running {
        s.started := true;
        for n := 0 to |s.pending|
          invariant events == old(events) + ScanTopics(i, s.pending)[..n]
        {
          events := events + [EvScanTopic(i, s.pending[n])];
        }
      } else if scan == s {
        scan := null;
      }
      s.pending := [];
    }

    method ScanMessageSection(s: TopicScan, topic: Topic)
      requires Valid() && s in all
      modifies this`events, s`pending
      ensures Valid() && View() == MqttSections.ScanMessageSection(old(View()), old(IndexOf(s)), topic)
    {
      if scan != s || Terminal(state) { return; }
      if !s.started {
        s.pending := s.pending + [topic];
        return;
      }
      ghost var i := IndexOf(s);
      Emit(EvScanTopic(i, topic));
    }

    method ScanLostSection(s: TopicScan) returns (must: bool)
      requires Valid() && s in all
      modifies this`scan, this`events, s`lost
      ensures Valid() && View() == MqttSections.ScanLostSection(old(View()), old(IndexOf(s))).0
      ensures must == MqttSections.ScanLostSection(old(View()), old(IndexOf(s))).1
    {
      must := false;
      if scan != s { return; }
      if !s.started {
        s.lost := true;
        return;
      }
      scan := null;
      Emit(EvScanStopped);
      must := true;
    }
  }
}
