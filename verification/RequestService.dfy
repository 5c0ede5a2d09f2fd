/**
 * Admission of sends and cancels that arrive before their send. `cancels` holds the running calls, numbered
 * so that two calls under one execution ID can be told apart.
 */
module RequestService {
  import opened Common

  type Id = string

  const MAX_ID_LENGTH := 64
  /** Five seconds in nanoseconds. */
  const PENDING_TTL := 5_000_000_000
  const MAX_PENDING := 64

  predicate ValidID(id: Id) {
    && 0 < |id| <= MAX_ID_LENGTH
    && forall i :: 0 <= i < |id| ==>
      'a' <= id[i] <= 'z' || 'A' <= id[i] <= 'Z' || '0' <= id[i] <= '9' || id[i] == '-' || id[i] == '_'
  }

  datatype Requests = Requests(cancels: map<Id, nat>, pending: map<Id, int>, closed: bool)

  datatype Admission = Admitted | InvalidID | ShuttingDown | InProgress | Canceled

  /** The locked section at the start of SendRequest. */
  function Register(s: Requests, id: Id, call: nat, now: int): (Requests, Admission) {
    if !ValidID(id) then (s, InvalidID)
    else if s.closed then (s, ShuttingDown)
    else if id in s.cancels then (s, InProgress)
    else
      var t := s.(pending := s.pending - {id});
      if id in s.pending && now - s.pending[id] < PENDING_TTL then (t, Canceled)
      else (t.(cancels := t.cancels[id := call]), Admitted)
  }

  function Unregister(s: Requests, id: Id): Requests {
    s.(cancels := s.cancels - {id})
  }

  function Live(pending: map<Id, int>, now: int): map<Id, int> {
    map id | id in pending && now - pending[id] < PENDING_TTL :: pending[id]
  }

  /** What a sweep may leave: nothing expired, room for one more, and no more given up than that needs, the
      oldest first. */
  ghost predicate Swept(pending: map<Id, int>, now: int, kept: map<Id, int>) {
    var live := Live(pending, now);
    && kept.Keys <= live.Keys && (forall id :: id in kept ==> kept[id] == pending[id])
    && |kept| < MAX_PENDING
    && (kept != live ==> |kept| == MAX_PENDING - 1)
    && (forall i, j :: i in live && i !in kept && j in kept ==> live[i] <= kept[j])
  }

  /** CancelRequest, given what its sweep leaves. */
  function Cancel(s: Requests, id: Id, now: int, kept: map<Id, int>): Requests {
    if !ValidID(id) || id in s.cancels || s.closed then s else s.(pending := kept[id := now])
  }

  function Close(s: Requests): Requests {
    s.(closed := true, pending := map[])
  }

  ghost predicate Valid(s: Requests) {
    && s.cancels.Keys !! s.pending.Keys
    && |s.pending| <= MAX_PENDING
    && (s.closed ==> s.pending == map[])
    && (forall id :: id in s.pending ==> ValidID(id))
    && (forall id :: id in s.cancels ==> ValidID(id))
  }

  // ---------------------------------------------------------------- runs

  datatype Action =
    | Send(id: Id, call: nat, now: int)
    | Return(id: Id)
    | CancelEarly(id: Id, now: int, kept: map<Id, int>)
    | Shutdown

  ghost predicate Enabled(s: Requests, a: Action) {
    match a
    case Return(id) => id in s.cancels
    case CancelEarly(_, now, kept) => Swept(s.pending, now, kept)
    case _ => true
  }

  function Next(s: Requests, a: Action): Requests {
    match a
    case Send(id, call, now) => Register(s, id, call, now).0
    case Return(id) => Unregister(s, id)
    case CancelEarly(id, now, kept) => Cancel(s, id, now, kept)
    case Shutdown => Close(s)
  }

  lemma StepValid(s: Requests, a: Action)
    requires Valid(s) && Enabled(s, a)
    ensures Valid(Next(s, a))
  {
    match a
    case Send(id, _, _) =>
      assert id in s.pending ==> |s.pending - {id}| == |s.pending| - 1;
      assert id !in s.pending ==> s.pending - {id} == s.pending;
    case CancelEarly(id, _, kept) =>
      assert id in kept ==>
        kept[id := a.now].Keys == kept.Keys && |kept[id := a.now]| == |kept[id := a.now].Keys| == |kept|;
      assert id !in kept ==> |kept[id := a.now]| == |kept| + 1;
    case _ =>
  }

  lemma ClosedStays(s: Requests, a: Action)
    requires s.closed
    ensures Next(s, a).closed && Next(s, a).cancels.Keys <= s.cancels.Keys
  {
  }

  ghost predicate IsRun(ss: seq<Requests>, actions: seq<Action>) {
    && |ss| == |actions| + 1 && ss[0] == Requests(map[], map[], false)
    && forall k :: 0 <= k < |actions| ==> Enabled(ss[k], actions[k]) && ss[k + 1] == Next(ss[k], actions[k])
  }

  /** In every reachable state a recorded cancel is for no running call, their number is bounded, and after a
      shutdown none is recorded. */
  lemma {:induction false} RunValid(ss: seq<Requests>, actions: seq<Action>, k: nat)
    requires IsRun(ss, actions) && k < |ss|
    ensures Valid(ss[k])
  {
    if k > 0 {
      RunValid(ss, actions, k - 1);
      StepValid(ss[k - 1], actions[k - 1]);
    }
  }

  /** No transport call starts after a shutdown. */
  lemma {:induction false} NothingAfterShutdown(ss: seq<Requests>, actions: seq<Action>, i: nat, j: nat)
    requires IsRun(ss, actions) && i < j < |ss| && actions[i].Shutdown?
    ensures ss[j].closed && ss[j].pending == map[] && ss[j].cancels.Keys <= ss[i].cancels.Keys
    ensures forall id, call, now :: Register(ss[j], id, call, now).1 != Admitted
    decreases j - i
  {
    RunValid(ss, actions, j);
    if j > i + 1 {
      NothingAfterShutdown(ss, actions, i, j - 1);
      ClosedStays(ss[j - 1], actions[j - 1]);
    }
  }

  /** The cancel was recorded and not superseded: it waits with a time no earlier than when it was made. */
  ghost predicate Waits(s: Requests, id: Id, since: int) {
    s.closed || (id !in s.cancels && id in s.pending && s.pending[id] >= since)
  }

  /** A sweep gives `id` up for capacity. */
  ghost predicate Evicts(s: Requests, a: Action, id: Id) {
    a.CancelEarly? && id in Live(s.pending, a.now) && id !in a.kept
  }

  ghost predicate Timed(a: Action, from: int, to: int) {
    (a.Send? || a.CancelEarly?) ==> from <= a.now <= to
  }

  lemma {:induction false} StillWaits(ss: seq<Requests>, actions: seq<Action>, i: nat, j: nat)
    requires IsRun(ss, actions) && i < j < |ss|
    requires actions[i].CancelEarly? && ValidID(actions[i].id) && actions[i].id !in ss[i].cancels
    requires forall k :: i < k < j ==> !(actions[k].Send? && actions[k].id == actions[i].id)
    requires forall k :: i < k < j ==> !Evicts(ss[k], actions[k], actions[i].id)
    requires forall k :: i < k < j ==> Timed(actions[k], actions[i].now, actions[i].now + PENDING_TTL - 1)
    ensures Waits(ss[j], actions[i].id, actions[i].now)
    decreases j - i
  {
    if j > i + 1 {
      StillWaits(ss, actions, i, j - 1);
      var s, a, id := ss[j - 1], actions[j - 1], actions[i].id;
      if a.CancelEarly? && !s.closed && a.id != id && id in s.pending && a.now - s.pending[id] < PENDING_TTL {
        assert id in Live(s.pending, a.now);
      }
    }
  }

  /** A cancel made less than the TTL before its send, and not given up for capacity in between, prevents
      the transport call. */
  lemma CancelPreventsCall(ss: seq<Requests>, actions: seq<Action>, i: nat, j: nat)
    requires IsRun(ss, actions) && i < j < |actions|
    requires actions[i].CancelEarly? && actions[j].Send? && actions[j].id == actions[i].id
      && actions[i].id !in ss[i].cancels
    requires forall k :: i < k < j ==> !(actions[k].Send? && actions[k].id == actions[i].id)
    requires forall k :: i < k < j ==> !Evicts(ss[k], actions[k], actions[i].id)
    requires forall k :: i < k < j ==> Timed(actions[k], actions[i].now, actions[j].now)
    requires actions[j].now - actions[i].now < PENDING_TTL
    ensures Register(ss[j], actions[j].id, actions[j].call, actions[j].now).1 != Admitted
    ensures ss[j + 1].cancels == ss[j].cancels
  {
    if ValidID(actions[i].id) {
      assert forall k :: i < k < j ==> Timed(actions[k], actions[i].now, actions[i].now + PENDING_TTL - 1);
      StillWaits(ss, actions, i, j);
      assert Waits(ss[j], actions[i].id, actions[i].now);
    }
  }

  // ---------------------------------------------------------------- the service object

  class Service {
    var cancels: map<Id, nat>
    var pending: map<Id, int>
    var closed: bool

    constructor ()
      ensures View() == Requests(map[], map[], false)
    {
      cancels, pending, closed := map[], map[], false;
    }

    ghost function View(): Requests
      reads this
    {
      Requests(cancels, pending, closed)
    }

    /** takePendingLocked: a recorded cancel is used up even when it has expired. */
    method TakePending(id: Id, now: int) returns (canceled: bool)
      modifies this`pending
      ensures pending == old(pending) - {id}
      ensures canceled <==> id in old(pending) && now - old(pending)[id] < PENDING_TTL
    {
      if id !in pending {
        assert pending - {id} == pending;
        return false;
      }
      var at := pending[id];
      pending := pending - {id};
      canceled := now - at < PENDING_TTL;
    }

    method Admit(id: Id, call: nat, now: int) returns (r: Admission)
      modifies this
      ensures (View(), r) == Register(old(View()), id, call, now)
    {
      if !ValidID(id) { return InvalidID; }
      if closed { return ShuttingDown; }
      if id in cancels { return InProgress; }
      var canceled := TakePending(id, now);
      if canceled { return Canceled; }
      cancels := cancels[id := call];
      r := Admitted;
    }

    method Done(id: Id)
      modifies this`cancels
      ensures View() == Unregister(old(View()), id)
    {
      cancels := cancels - {id};
    }

    /** Signalled is the call whose context was cancelled. */
    method CancelRequest(id: Id, now: int) returns (signalled: Option<nat>, ghost kept: map<Id, int>)
      requires Valid(View())
      modifies this`pending
      ensures ValidID(id) && id !in cancels && !closed ==> Swept(old(pending), now, kept)
      ensures View() == Cancel(old(View()), id, now, kept)
      ensures signalled == if ValidID(id) && id in cancels then Some(cancels[id]) else None
    {
      signalled, kept := None, pending;
      if !ValidID(id) { return; }
      if id in cancels { return Some(cancels[id]), pending; }
      if closed { return; }
      SweepPending(now);
      kept := pending;
      pending := pending[id := now];
    }

    method SweepPending(now: int)
      requires Valid(View())
      modifies this`pending
      ensures Swept(old(pending), now, pending)
    {
      DropExpired(now);
      var live := pending;
      while |pending| >= MAX_PENDING
        invariant pending.Keys <= live.Keys && forall id :: id in pending ==> pending[id] == live[id]
        invariant pending != live ==> |pending| >= MAX_PENDING - 1
        invariant forall i, j :: i in live && i !in pending && j in pending ==> live[i] <= pending[j]
        decreases |pending|
      {
        var oldest := Oldest();
        ghost var before := pending;
        pending := pending - {oldest};
        assert |pending| == |before| - 1;
      }
      assert pending == live || |pending| == MAX_PENDING - 1;
    }

    method DropExpired(now: int)
      modifies this`pending
      ensures pending == Live(old(pending), now)
    {
      var left := pending.Keys;
      while left != {}
        invariant left <= pending.Keys <= old(pending).Keys
        invariant forall id :: id in pending ==> pending[id] == old(pending)[id]
        invariant forall id :: id in old(pending) && id !in left ==>
          (id in pending <==> now - old(pending)[id] < PENDING_TTL)
        decreases left
      {
        var id :| id in left;
        left := left - {id};
        if now - pending[id] >= PENDING_TTL { pending := pending - {id}; }
      }
    }

    /** The empty string stands for "none yet", which is no execution ID. */
    method Oldest() returns (oldestID: Id)
      requires pending != map[] && "" !in pending
      ensures oldestID in pending && forall id :: id in pending ==> pending[oldestID] <= pending[id]
    {
      oldestID := "";
      var oldestAt := 0;
      var left := pending.Keys;
      while left != {}
        invariant left <= pending.Keys
        invariant oldestID == "" ==> left == pending.Keys
        invariant oldestID != "" ==> oldestID in pending && oldestAt == pending[oldestID]
        invariant oldestID != "" ==> forall id :: id in pending && id !in left ==> oldestAt <= pending[id]
        decreases left
      {
        var id :| id in left;
        left := left - {id};
        if oldestID == "" || pending[id] < oldestAt { oldestID, oldestAt := id, pending[id]; }
      }
    }

    method Shutdown()
      modifies this
      ensures View() == Close(old(View()))
    {
      closed := true;
      pending := map[];
    }
  }
}
