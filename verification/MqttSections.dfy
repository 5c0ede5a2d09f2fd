/**
 * The part of one MQTT connection that `stateMu` protects, and the critical sections that read and
 * write it.  Every function here is the body of one locked region of the service; the interleaving of
 * those regions is the business of MqttConnection, and their in-place form is the class in MqttObject.
 */
module MqttSections {
  import opened Common

  type Topic = string
  type Qos = nat

  datatype Sub = Sub(topic: Topic, qos: Qos)

  datatype Life = Connecting | Connected | Disconnecting | Closed

  /** Once a disconnect is decided the connection stays terminal. */
  predicate Terminal(life: Life) { life == Disconnecting || life == Closed }

  /** What the emitter was asked to send.  `scan` tells apart the scans of one connection; the wire
      event itself carries only the topic. */
  datatype Event =
    | EvConnected
    | EvLost
    | EvMessage(topic: Topic)
    | EvDropped(topic: Topic)
    | EvScanTopic(scan: nat, topic: Topic)
    | EvScanStopped
    | EvFailed
    | EvDisconnected

  predicate IsFinal(e: Event) { e.EvFailed? || e.EvDisconnected? }

  /** One topic scan as the connection sees it. */
  datatype Scan = Scan(started: bool, pending: seq<Topic>, lost: bool)

  const NEW_SCAN: Scan := Scan(false, [], false)

  /** `scans` holds every scan ever reserved, so an index is a scan's identity. */
  datatype Shared = Shared(
    life: Life, subs: seq<Sub>, scan: Option<nat>, scans: seq<Scan>, events: seq<Event>)

  const NEW_SHARED: Shared := Shared(Connecting, [], None, [], [])

  predicate WellFormed(s: Shared) {
    s.scan.Some? ==> s.scan.value < |s.scans|
  }

  function Emit(s: Shared, e: Event): Shared { s.(events := s.events + [e]) }

  // ----- the subscription table -----

  predicate Listed(subs: seq<Sub>, topic: Topic) {
    exists i :: 0 <= i < |subs| && subs[i].topic == topic
  }

  /** At most one row per topic. */
  predicate DistinctTopics(subs: seq<Sub>) {
    forall i, j :: 0 <= i < j < |subs| ==> subs[i].topic != subs[j].topic
  }

  /** A new topic goes to the end; a listed topic keeps its place and changes its QoS. */
  function SetSub(subs: seq<Sub>, topic: Topic, qos: Qos): seq<Sub> {
    if subs == [] then [Sub(topic, qos)]
    else if subs[0].topic == topic then [Sub(topic, qos)] + subs[1..]
    else [subs[0]] + SetSub(subs[1..], topic, qos)
  }

  function DeleteSub(subs: seq<Sub>, topic: Topic): seq<Sub> {
    if subs == [] then []
    else if subs[0].topic == topic then DeleteSub(subs[1..], topic)
    else [subs[0]] + DeleteSub(subs[1..], topic)
  }

  /** The same rows in the same places, one with another QoS. */
  function Changed(subs: seq<Sub>, topic: Topic, qos: Qos): seq<Sub> {
    seq(|subs|, i requires 0 <= i < |subs| => if subs[i].topic == topic then Sub(topic, qos) else subs[i])
  }

  lemma {:induction false} SetSubRows(subs: seq<Sub>, topic: Topic, qos: Qos)
    requires DistinctTopics(subs)
    ensures DistinctTopics(SetSub(subs, topic, qos))
    ensures forall r :: r in SetSub(subs, topic, qos) <==> r == Sub(topic, qos) || (r in subs && r.topic != topic)
  {
    if subs != [] && subs[0].topic != topic {
      SetSubRows(subs[1..], topic, qos);
      assert subs == [subs[0]] + subs[1..];
      forall r | r in subs[1..] ensures r.topic != subs[0].topic {}
      var t := SetSub(subs[1..], topic, qos);
      forall j | 0 <= j < |t| ensures t[j].topic != subs[0].topic { assert t[j] in t; }
    } else if subs != [] {
      assert subs == [subs[0]] + subs[1..];
      forall r | r in subs[1..] ensures r.topic != subs[0].topic {}
    }
  }

  /** A listed topic keeps its place, a new one comes last, and no other row moves. */
  lemma {:induction false} SetSubOrder(subs: seq<Sub>, topic: Topic, qos: Qos)
    requires DistinctTopics(subs)
    ensures SetSub(subs, topic, qos) ==
      if Listed(subs, topic) then Changed(subs, topic, qos) else subs + [Sub(topic, qos)]
  {
    if subs != [] {
      var rest := subs[1..];
      ChangedCons(subs, topic, qos);
      if subs[0].topic == topic {
        ChangedNone(rest, topic, qos);
      } else {
        SetSubOrder(rest, topic, qos);
        ListedTail(subs, topic);
        assert subs + [Sub(topic, qos)] == [subs[0]] + (rest + [Sub(topic, qos)]);
      }
    }
  }

  lemma ChangedCons(subs: seq<Sub>, topic: Topic, qos: Qos)
    requires subs != []
    ensures Changed(subs, topic, qos)
         == [if subs[0].topic == topic then Sub(topic, qos) else subs[0]] + Changed(subs[1..], topic, qos)
  {
  }

  lemma ChangedNone(subs: seq<Sub>, topic: Topic, qos: Qos)
    requires forall i :: 0 <= i < |subs| ==> subs[i].topic != topic
    ensures Changed(subs, topic, qos) == subs
  {
  }

  lemma ListedTail(subs: seq<Sub>, topic: Topic)
    requires subs != [] && subs[0].topic != topic
    ensures Listed(subs, topic) <==> Listed(subs[1..], topic)
  {
    if Listed(subs, topic) {
      var i :| 0 <= i < |subs| && subs[i].topic == topic;
      assert subs[1..][i - 1] == subs[i];
    }
  }

  lemma {:induction false} DeleteSubRows(subs: seq<Sub>, topic: Topic)
    requires DistinctTopics(subs)
    ensures DistinctTopics(DeleteSub(subs, topic))
    ensures forall r :: r in DeleteSub(subs, topic) <==> r in subs && r.topic != topic
  {
    if subs != [] {
      DeleteSubRows(subs[1..], topic);
      assert subs == [subs[0]] + subs[1..];
      var t := DeleteSub(subs[1..], topic);
      forall j | 0 <= j < |t| ensures t[j].topic != subs[0].topic { assert t[j] in t; assert t[j] in subs[1..]; }
    }
  }

  // ----- scans -----

  /** Takes the scan off the connection.  The client is handed to the caller only when the scan was
      already running; a scan still starting is cleaned up by the goroutine that starts it. */
  function DetachScan(s: Shared): (r: (Shared, Option<nat>))
    requires WellFormed(s)
  {
    if s.scan.None? then (s, None)
    else (s.(scan := None), if s.scans[s.scan.value].started then s.scan else None)
  }

  function ScanTopics(scan: nat, topics: seq<Topic>): seq<Event> {
    seq(|topics|, k requires 0 <= k < |topics| => EvScanTopic(scan, topics[k]))
  }

  /** The topics emitted for one scan, oldest first. */
  function Delivered(events: seq<Event>, scan: nat): seq<Topic> {
    if events == [] then []
    else
      var rest := Delivered(events[..|events| - 1], scan);
      var e := events[|events| - 1];
      if e.EvScanTopic? && e.scan == scan then rest + [e.topic] else rest
  }

  // ----- the critical sections -----

  /** runConnect, after client.Connect returned. */
  function RunSection(s: Shared, ok: bool): (r: (Shared, Option<nat>))
    requires WellFormed(s)
  {
    if Terminal(s.life) then (s, None)
    else if !ok then
      var (d, client) := DetachScan(s.(life := Closed));
      (Emit(d, EvFailed), client)
    else (if s.life == Connecting then s.(life := Connected) else s, None)
  }

  /** onConnected: None when the connection is already terminal, otherwise the rows to subscribe. */
  function ConnectedSection(s: Shared): (r: (Shared, Option<seq<Sub>>)) {
    if Terminal(s.life) then (s, None)
    else (Emit(s.(life := Connected), EvConnected), Some(s.subs))
  }

  function LostSection(s: Shared): Shared {
    if Terminal(s.life) then s else Emit(s, EvLost)
  }

  function MessageSection(s: Shared, topic: Topic): Shared {
    if Terminal(s.life) then s else Emit(s, EvMessage(topic))
  }

  /** resubscribe, for a subscription that could not be renewed. */
  function DropSection(s: Shared, topic: Topic): Shared {
    var d := s.(subs := DeleteSub(s.subs, topic));
    if Terminal(s.life) then d else Emit(d, EvDropped(topic))
  }

  /** closeDetached, after client.Disconnect. */
  function CloseSection(s: Shared): Shared {
    if s.life == Closed then s else Emit(s.(life := Closed), EvDisconnected)
  }

  /** detach, and the visit of a registered connection by Shutdown. */
  function DetachSection(s: Shared): (r: (Shared, Option<nat>))
    requires WellFormed(s)
  {
    DetachScan(s.(life := Disconnecting))
  }

  /** reserveScan on a live connection without a scan. */
  function ReserveSection(s: Shared): Shared {
    s.(scan := Some(|s.scans|), scans := s.scans + [NEW_SCAN])
  }

  /** The end of StartTopicScan; the flag says whether the scan is running now. */
  function StartSection(s: Shared, i: nat, ok: bool): (r: (Shared, bool))
    requires i < |s.scans|
  {
    var sc := s.scans[i];
    if s.scan == Some(i) && ok && !sc.lost then
      (s.(scans := s.scans[i := sc.(started := true, pending := [])],
          events := s.events + ScanTopics(i, sc.pending)), true)
    else
      (s.(scans := s.scans[i := sc.(pending := [])],
          scan := if s.scan == Some(i) then None else s.scan), false)
  }

  /** scanHandler. */
  function ScanMessageSection(s: Shared, i: nat, topic: Topic): Shared
    requires i < |s.scans|
  {
    if s.scan != Some(i) || Terminal(s.life) then s
    else if !s.scans[i].started then
      s.(scans := s.scans[i := s.scans[i].(pending := s.scans[i].pending + [topic])])
    else Emit(s, EvScanTopic(i, topic))
  }

  /** onScanConnectionLost; the flag says whether the caller must disconnect the client. */
  function ScanLostSection(s: Shared, i: nat): (r: (Shared, bool))
    requires i < |s.scans|
  {
    if s.scan != Some(i) then (s, false)
    else if !s.scans[i].started then (s.(scans := s.scans[i := s.scans[i].(lost := true)]), false)
    else (Emit(s.(scan := None), EvScanStopped), true)
  }

  // ----- emitted scan topics -----

  lemma DeliveredSnoc(events: seq<Event>, e: Event, scan: nat)
    ensures Delivered(events + [e], scan)
         == Delivered(events, scan) + (if e.EvScanTopic? && e.scan == scan then [e.topic] else [])
  {
    assert (events + [e])[..|events|] == events;
  }

  lemma ScanTopicsSnoc(events: seq<Event>, i: nat, topics: seq<Topic>)
    requires topics != []
    ensures var n := |topics| - 1;
      events + ScanTopics(i, topics) == (events + ScanTopics(i, topics[..n])) + [EvScanTopic(i, topics[n])]
  {
  }

  lemma {:induction false} DeliveredBatch(events: seq<Event>, i: nat, topics: seq<Topic>, scan: nat)
    ensures Delivered(events + ScanTopics(i, topics), scan)
         == Delivered(events, scan) + (if i == scan then topics else [])
    decreases |topics|
  {
    if topics == [] {
      assert events + ScanTopics(i, topics) == events;
    } else {
      var n := |topics| - 1;
      var before, last := events + ScanTopics(i, topics[..n]), EvScanTopic(i, topics[n]);
      DeliveredBatch(events, i, topics[..n], scan);
      ScanTopicsSnoc(events, i, topics);
      DeliveredSnoc(before, last, scan);
      if i == scan { assert topics == topics[..n] + [topics[n]]; }
    }
  }
}
