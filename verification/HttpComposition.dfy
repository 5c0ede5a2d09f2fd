/**
 * The request service and the response store together. A send is admitted under an execution ID, runs one
 * transport call (Begin, at most one spill, Finish) and returns; saves, discards and a cleanup interleave.
 */
module HttpComposition {
  import opened Common
  import S = ResponseSections
  import R = ResponseRuns
  import Q = RequestService

  type Id = string

  /** Where a transport call is: Over calls have finished, or were refused by Begin. */
  datatype Pc = Entered | Begun | Spilling | Over

  datatype Call = Call(id: Id, pc: Pc)

  /** `owner` remembers which call made the latest reservation of an ID, `used` the numbers handed out. */
  datatype System = System(requests: Q.Requests, world: R.World, calls: map<nat, Call>,
                           owner: map<Id, nat>, used: set<nat>)

  datatype Action =
    | Send(id: Id, call: nat, now: int)
    | Begin(call: nat, now: int, gone: seq<Id>)
    | StartSpill(call: nat, reserve: int, now: int, gone: seq<Id>, ready: bool)
    | CreateTemp(call: nat, path: S.Path)
    | AbortSpill(call: nat, removed: bool)
    | CommitSpill(call: nat, written: int, contentType: string, now: int, removed: bool)
    | Finish(call: nat)
    | Return(call: nat)
    | CancelEarly(id: Id, now: int, kept: map<Id, int>)
    | Shutdown
    /** Saves, discards, the cleanup, and files that vanish. */
    | Other(step: R.Action)

  const START := System(Q.Requests(map[], map[], false), R.START, map[], map[], {})

  predicate IsOther(a: R.Action) {
    || a.AcquireSave? || a.CopySaved? || a.UnlinkSaved? || a.DropSaved? || a.Restore?
    || a.Discard? || a.Cleanup? || a.Vanish?
  }

  predicate OfCall(a: Action) {
    a.Begin? || a.StartSpill? || a.CreateTemp? || a.AbortSpill? || a.CommitSpill? || a.Finish?
  }

  predicate At(s: System, call: nat, pc: Pc) {
    call in s.calls && s.calls[call].pc == pc
  }

  /** What the transport does to the store in a step of a call. */
  function StoreStep(s: System, a: Action): R.Action
    requires OfCall(a) && a.call in s.calls
  {
    var id := s.calls[a.call].id;
    match a
    case Begin(_, now, gone) => R.Begin(id, now, gone)
    case StartSpill(_, reserve, now, gone, ready) => R.StartSpill(id, reserve, now, gone, ready)
    case CreateTemp(_, path) => R.CreateTemp(id, path)
    case AbortSpill(_, removed) => R.AbortSpill(id, removed)
    case CommitSpill(_, written, contentType, now, removed) => R.CommitSpill(id, written, contentType, now, removed)
    case Finish(_) => R.Finish(id)
  }

  ghost predicate Enabled(s: System, a: Action) {
    match a
    case Send(_, call, _) => call !in s.used
    case Begin(call, _, _) => At(s, call, Entered) && R.Enabled(s.world, StoreStep(s, a))
    case StartSpill(call, _, _, _, _) => At(s, call, Begun) && R.Enabled(s.world, StoreStep(s, a))
    case CreateTemp(call, _) => At(s, call, Spilling) && R.Enabled(s.world, StoreStep(s, a))
    case AbortSpill(call, _) => At(s, call, Spilling) && R.Enabled(s.world, StoreStep(s, a))
    case CommitSpill(call, _, _, _, _) => At(s, call, Spilling) && R.Enabled(s.world, StoreStep(s, a))
    case Finish(call) => At(s, call, Begun)
    case Return(call) => At(s, call, Over)
    case CancelEarly(_, now, kept) => Q.Swept(s.requests.pending, now, kept)
    case Shutdown => true
    case Other(step) => IsOther(step) && R.Enabled(s.world, step)
  }

  /** Where the call goes: on after a successful Begin or StartSpill, back after a spill. */
  ghost function After(s: System, a: Action): Pc
    requires OfCall(a) && a.call in s.calls
  {
    var id := s.calls[a.call].id;
    match a
    case Begin(_, _, gone) => if S.BeginSection(s.world.store, id, gone).1.Done? then Begun else Over
    case StartSpill(_, reserve, _, gone, ready) =>
      if S.StartSpillSection(s.world.store, id, reserve, gone, ready).1.Done? then Spilling else Begun
    case CreateTemp(_, _) => Spilling
    case AbortSpill(_, _) => Begun
    case CommitSpill(_, _, _, _, _) => Begun
    case Finish(_) => Over
  }

  ghost function Step(s: System, a: Action): System
    requires OfCall(a) && a.call in s.calls && R.Enabled(s.world, StoreStep(s, a))
  {
    var call := s.calls[a.call];
    s.(world := R.Next(s.world, StoreStep(s, a)), calls := s.calls[a.call := call.(pc := After(s, a))],
       owner := if a.Begin? && After(s, a).Begun? then s.owner[call.id := a.call] else s.owner)
  }

  ghost function Next(s: System, a: Action): System
    requires Enabled(s, a)
  {
    if OfCall(a) then Step(s, a)
    else
      match a
      case Send(id, call, now) =>
        var (requests, outcome) := Q.Register(s.requests, id, call, now);
        if outcome.Admitted? then
          s.(requests := requests, calls := s.calls[call := Call(id, Entered)], used := s.used + {call})
        else s.(requests := requests)
      case Return(call) => s.(requests := Q.Unregister(s.requests, s.calls[call].id), calls := s.calls - {call})
      case CancelEarly(id, now, kept) => s.(requests := Q.Cancel(s.requests, id, now, kept))
      case Shutdown => s.(requests := Q.Close(s.requests))
      case Other(step) => s.(world := R.Next(s.world, step))
  }

  // ---------------------------------------------------------------- the invariant

  /** Each running call is registered under its ID, and nobody else is. */
  ghost predicate Registered(s: System) {
    && (forall c :: c in s.calls ==>
      s.calls[c].id in s.requests.cancels && s.requests.cancels[s.calls[c].id] == c && c in s.used)
    && (forall id :: id in s.requests.cancels ==>
          s.requests.cancels[id] in s.calls && s.calls[s.requests.cancels[id]].id == id)
  }

  /** A reservation belongs to a call that is still working under its ID. */
  ghost predicate Owned(entry: Option<S.Entry>, owner: Option<nat>, calls: map<nat, Call>, id: Id) {
    entry.Some? && entry.value.phase.Running? ==>
      owner.Some? && owner.value in calls && calls[owner.value].id == id && calls[owner.value].pc in {Begun, Spilling}
  }

  ghost predicate OwnedAt(s: System, id: Id) {
    Owned(R.Get(s.world.store.entries, id), R.Get(s.owner, id), s.calls, id)
  }

  /** A call is in a spill exactly when the store has one under its ID. */
  ghost predicate InSpill(s: System) {
    && (forall c :: c in s.calls && s.calls[c].pc.Spilling? ==> s.calls[c].id in s.world.spills)
    && (forall id :: id in s.world.spills ==> id in s.requests.cancels && At(s, s.requests.cancels[id], Spilling))
  }

  ghost predicate Inv(s: System) {
    Q.Valid(s.requests) && R.Inv(s.world) && Registered(s) && InSpill(s) && forall id :: OwnedAt(s, id)
  }

  ghost predicate Running(w: R.World, id: Id) {
    id in w.store.entries && w.store.entries[id].phase.Running?
  }

  lemma RunningStays(w: R.World, a: R.Action, id: Id)
    requires R.Fine(w, id) && R.Enabled(w, a) && Running(R.Next(w, a), id)
    requires !a.Begin? && !a.StartSpill? && !a.AcquireSave? && !a.Cleanup?
    ensures Running(w, id)
  {
  }

  lemma EvictRunning(s: S.Store, gone: seq<Id>, id: Id)
    requires id in S.Evict(s, gone).entries
    ensures id in s.entries && S.Evict(s, gone).entries[id] == s.entries[id]
  {
    R.EvictEntries(s, gone);
  }

  /** Only a successful Begin makes a reservation. */
  lemma RunningFrom(w: R.World, a: R.Action, id: Id)
    requires R.Inv(w) && R.Enabled(w, a) && Running(R.Next(w, a), id)
    ensures Running(w, id) || (a.Begin? && a.id == id && S.BeginSection(w.store, id, a.gone).1.Done?)
  {
    if a.Begin? || a.StartSpill? || a.AcquireSave? {
      if id in S.Evict(w.store, a.gone).entries { EvictRunning(w.store, a.gone, id); }
    } else if a.Cleanup? {
      CleanupLeavesSaving(w, a.dropped, a.swept);
    } else {
      assert R.Fine(w, id);
      RunningStays(w, a, id);
    }
  }

  lemma CleanupLeavesSaving(w: R.World, dropped: seq<Id>, swept: set<S.Path>)
    requires R.Inv(w) && S.Cleanable(w.store, dropped, swept)
    ensures forall id :: !Running(R.Next(w, R.Cleanup(dropped, swept)), id)
  {
    var v := R.Next(w, R.Cleanup(dropped, swept));
    R.CleanupKeeps(w, dropped, swept);
    forall id ensures !Running(v, id) { assert R.Fine(v, id); }
  }

  /** Which spills are under way changes only by the call's own steps. */
  lemma SpillsFrom(s: System, a: Action)
    requires OfCall(a) && a.call in s.calls && R.Enabled(s.world, StoreStep(s, a))
      && R.Fine(s.world, s.calls[a.call].id)
    requires s.calls[a.call].pc.Spilling? <==> s.calls[a.call].id in s.world.spills
    requires a.Begin? || a.StartSpill? || a.Finish? ==> !s.calls[a.call].pc.Spilling?
    ensures Step(s, a).world.spills.Keys ==
      if After(s, a).Spilling? then s.world.spills.Keys + {s.calls[a.call].id}
      else s.world.spills.Keys - {s.calls[a.call].id}
  {
  }

  lemma CallRegistered(s: System, a: Action)
    requires Registered(s) && Enabled(s, a)
    ensures Registered(Next(s, a))
  {
    if !OfCall(a) { OtherRegistered(s, a); }
  }

  lemma SendRegistered(s: System, a: Action)
    requires Registered(s) && Enabled(s, a) && a.Send?
    ensures Registered(Next(s, a))
  {
  }

  lemma OtherRegistered(s: System, a: Action)
    requires Registered(s) && Enabled(s, a) && !OfCall(a)
    ensures Registered(Next(s, a))
  {
    if a.Send? {
      SendRegistered(s, a);
    } else if a.Return? {
      var v := Next(s, a);
      forall c | c in v.calls
        ensures v.calls[c].id in v.requests.cancels && v.requests.cancels[v.calls[c].id] == c && c in v.used
      {
        assert c in s.calls && s.calls[c].id != s.calls[a.call].id;
      }
    } else {
      var v := Next(s, a);
      assert v.calls == s.calls && v.used == s.used && v.requests.cancels == s.requests.cancels;
    }
  }

  lemma CallInSpill(s: System, a: Action)
    requires Registered(s) && InSpill(s) && Enabled(s, a) && OfCall(a) && R.Fine(s.world, s.calls[a.call].id)
    ensures InSpill(Step(s, a))
  {
    SpillsFrom(s, a);
    var v := Step(s, a);
    assert v.calls[a.call].pc == After(s, a) && v.requests == s.requests;
    forall id | id in v.world.spills ensures id in v.requests.cancels && At(v, v.requests.cancels[id], Spilling) {
      if id != s.calls[a.call].id { assert id in s.world.spills; }
    }
  }

  lemma OtherSpills(w: R.World, step: R.Action)
    requires IsOther(step) && R.Enabled(w, step)
    ensures R.Next(w, step).spills == w.spills
  {
  }

  lemma OtherInSpill(s: System, a: Action)
    requires Registered(s) && InSpill(s) && Enabled(s, a) && !OfCall(a)
    ensures InSpill(Next(s, a))
  {
    if a.Other? {
      OtherSpills(s.world, a.step);
      var v := Next(s, a);
      assert v.world.spills == s.world.spills && v.calls == s.calls && v.requests == s.requests;
    } else {
      IdleInSpill(s, a);
    }
  }

  /** Steps of the request service leave the spills and the calls in them alone. */
  lemma IdleInSpill(s: System, a: Action)
    requires Registered(s) && InSpill(s) && Enabled(s, a) && !OfCall(a) && !a.Other?
    ensures InSpill(Next(s, a))
  {
    var v := Next(s, a);
    assert v.world == s.world;
    forall id | id in s.world.spills ensures id in v.requests.cancels && At(v, v.requests.cancels[id], Spilling) {
      assert At(s, s.requests.cancels[id], Spilling) && s.calls[s.requests.cancels[id]].id == id;
    }
  }

  lemma CallOwned(s: System, a: Action, id: Id)
    requires Inv(s) && Enabled(s, a) && OfCall(a)
    ensures OwnedAt(Next(s, a), id)
  {
    var v := Step(s, a);
    if Running(v.world, id) {
      RunningFrom(s.world, StoreStep(s, a), id);
      if a.Begin? && After(s, a).Begun? && s.calls[a.call].id == id {
        assert v.owner[id] == a.call;
      } else {
        OwnerStays(s, a, id);
      }
    }
  }

  /** The owner of a reservation that stays is still working. */
  lemma OwnerStays(s: System, a: Action, id: Id)
    requires Inv(s) && Enabled(s, a) && OfCall(a) && Running(s.world, id) && Running(Step(s, a).world, id)
    requires !(a.Begin? && After(s, a).Begun? && s.calls[a.call].id == id)
    ensures OwnedAt(Step(s, a), id)
  {
    assert OwnedAt(s, id) && R.Fine(s.world, id);
    var c := s.owner[id];
    if c == a.call { FinishEnds(s, a); }
  }

  /** After a call's own Finish nothing of it runs. */
  lemma FinishEnds(s: System, a: Action)
    requires Inv(s) && Enabled(s, a) && OfCall(a)
    ensures a.Finish? ==> !Running(Step(s, a).world, s.calls[a.call].id)
    ensures a.Begin? ==> s.calls[a.call].pc == Entered
  {
    assert R.Fine(s.world, s.calls[a.call].id);
  }

  lemma StoreOwned(s: System, step: R.Action, id: Id)
    requires Inv(s) && Enabled(s, Other(step))
    ensures OwnedAt(Next(s, Other(step)), id)
  {
    assert OwnedAt(s, id);
    if Running(R.Next(s.world, step), id) { RunningFrom(s.world, step, id); }
  }

  lemma OtherOwned(s: System, a: Action, id: Id)
    requires Inv(s) && Enabled(s, a) && !OfCall(a)
    ensures OwnedAt(Next(s, a), id)
  {
    if a.Other? {
      StoreOwned(s, a.step, id);
    } else {
      assert OwnedAt(s, id);
    }
  }

  lemma StepInv(s: System, a: Action)
    requires Inv(s) && Enabled(s, a)
    ensures Inv(Next(s, a))
  {
    CallRegistered(s, a);
    if OfCall(a) {
      assert R.Fine(s.world, s.calls[a.call].id);
      CallInSpill(s, a);
    } else {
      OtherInSpill(s, a);
    }
    forall id ensures OwnedAt(Next(s, a), id) {
      if OfCall(a) { CallOwned(s, a, id); } else { OtherOwned(s, a, id); }
    }
    if OfCall(a) {
      R.StepInv(s.world, StoreStep(s, a));
    } else {
      match a
      case Send(id, call, now) => Q.StepValid(s.requests, Q.Send(id, call, now));
      case Return(call) => Q.StepValid(s.requests, Q.Return(s.calls[call].id));
      case CancelEarly(id, now, kept) => Q.StepValid(s.requests, Q.CancelEarly(id, now, kept));
      case Shutdown => Q.StepValid(s.requests, Q.Shutdown);
      case Other(step) => R.StepInv(s.world, step);
    }
  }

  // ---------------------------------------------------------------- all runs

  ghost predicate IsRun(ss: seq<System>, actions: seq<Action>) {
    && |ss| == |actions| + 1 && ss[0] == START
    && forall k :: 0 <= k < |actions| ==> Enabled(ss[k], actions[k]) && ss[k + 1] == Next(ss[k], actions[k])
  }

  lemma {:induction false} RunInv(ss: seq<System>, actions: seq<Action>, k: nat)
    requires IsRun(ss, actions) && k < |ss|
    ensures Inv(ss[k])
  {
    if k == 0 {
      R.StartInv();
    } else {
      RunInv(ss, actions, k - 1);
      StepInv(ss[k - 1], actions[k - 1]);
    }
  }

  /** Two transport calls never run under one execution ID. */
  lemma OneCallPerID(ss: seq<System>, actions: seq<Action>, k: nat, c: nat, d: nat)
    requires IsRun(ss, actions) && k < |ss| && c in ss[k].calls && d in ss[k].calls
      && ss[k].calls[c].id == ss[k].calls[d].id
    ensures c == d
  {
    RunInv(ss, actions, k);
  }

  /** What a Finish releases is the reservation its own call made. */
  lemma FinishReleasesOwn(ss: seq<System>, actions: seq<Action>, k: nat)
    requires IsRun(ss, actions) && k < |actions| && actions[k].Finish?
    ensures var s, call := ss[k], actions[k].call;
      var id := s.calls[call].id;
      && (Running(s.world, id) ==> id in s.owner && s.owner[id] == call)
      && ss[k + 1].world.store.entries ==
           if Running(s.world, id) then s.world.store.entries - {id} else s.world.store.entries
  {
    RunInv(ss, actions, k);
    var s := ss[k];
    assert OwnedAt(s, s.calls[actions[k].call].id) && R.Fine(s.world, s.calls[actions[k].call].id);
  }

  /** Once Shutdown has seen every call return, nothing is in flight: a cleanup then leaves only files that
      are being saved. */
  lemma QuietAfterDrain(ss: seq<System>, actions: seq<Action>, k: nat)
    requires IsRun(ss, actions) && k < |ss| && ss[k].calls == map[]
    ensures ss[k].world.spills == map[] && forall id :: !Running(ss[k].world, id)
  {
    RunInv(ss, actions, k);
    forall id ensures !Running(ss[k].world, id) && id !in ss[k].world.spills { assert OwnedAt(ss[k], id); }
  }

  lemma ClosedStep(s: System, a: Action)
    requires Enabled(s, a) && s.requests.closed
    ensures Next(s, a).requests.closed && Next(s, a).calls.Keys <= s.calls.Keys
  {
  }

  /** And after a Shutdown no call is added. */
  lemma {:induction false} CallsOnlyLeave(ss: seq<System>, actions: seq<Action>, i: nat, j: nat)
    requires IsRun(ss, actions) && i <= j < |ss| && ss[i].requests.closed
    ensures ss[j].requests.closed && ss[j].calls.Keys <= ss[i].calls.Keys
    decreases j - i
  {
    if i < j {
      CallsOnlyLeave(ss, actions, i, j - 1);
      ClosedStep(ss[j - 1], actions[j - 1]);
    }
  }

  // ---------------------------------------------------------------- the store without the request service

  /** A Begin of the ID makes a reservation at this step. */
  ghost predicate Begins(ws: seq<R.World>, actions: seq<R.Action>, j: nat, id: Id)
    requires R.IsRun(ws, actions) && j < |actions|
  {
    actions[j].Begin? && actions[j].id == id && S.BeginSection(ws[j].store, id, actions[j].gone).1.Done?
  }

  /** No other Begin of the ID succeeds between the two steps. */
  ghost predicate Unbegun(ws: seq<R.World>, actions: seq<R.Action>, i: nat, k: nat, id: Id)
    requires R.IsRun(ws, actions) && k <= |actions|
  {
    forall j :: i < j < k ==> !Begins(ws, actions, j, id)
  }

  /** The reservation made at `i` is still there at `k`. */
  ghost predicate Held(ws: seq<R.World>, i: nat, k: nat, id: Id)
    requires k < |ws|
  {
    forall j :: i < j <= k ==> Running(ws[j], id)
  }

  /** A Begin makes a reservation, only a Begin does, and it never takes one over. */
  lemma BeginsOnce(ws: seq<R.World>, actions: seq<R.Action>, j: nat, id: Id)
    requires R.IsRun(ws, actions) && j < |actions|
    ensures Begins(ws, actions, j, id) ==> Running(ws[j + 1], id) && !Running(ws[j], id)
    ensures Running(ws[j + 1], id) ==> Running(ws[j], id) || Begins(ws, actions, j, id)
  {
    if actions[j].Begin? { R.EvictEntries(ws[j].store, actions[j].gone); }
    if Running(ws[j + 1], id) {
      R.RunInv(ws, actions, j);
      RunningFrom(ws[j], actions[j], id);
    }
  }

  /** `r` says whether there is a reservation before each step, `b` whether the step begins one. */
  ghost predicate Chained(r: seq<bool>, b: seq<bool>) {
    && |r| == |b| + 1
    && forall j {:trigger b[j]} :: 0 <= j < |b| ==> (b[j] ==> r[j + 1] && !r[j]) && (r[j + 1] ==> r[j] || b[j])
  }

  lemma {:induction false} Uninterrupted(r: seq<bool>, b: seq<bool>, i: nat, k: nat)
    requires Chained(r, b) && i < k <= |b| && b[i]
    ensures (forall j :: i < j <= k ==> r[j]) <==> r[k] && forall j :: i < j < k ==> !b[j]
    decreases k
  {
    assert b[k - 1] ==> r[k] && !r[k - 1];
    if k > i + 1 { Uninterrupted(r, b, i, k - 1); }
  }

  /** The reservation made at `i` is there at `k` without interruption exactly when the ID has a reservation
      then and was not begun again in between. */
  lemma ReservationOf(ws: seq<R.World>, actions: seq<R.Action>, i: nat, k: nat, id: Id)
    requires R.IsRun(ws, actions) && i < k < |ws| && Begins(ws, actions, i, id)
    ensures Held(ws, i, k, id) <==> Running(ws[k], id) && Unbegun(ws, actions, i, k, id)
  {
    var r := seq(|ws|, j requires 0 <= j < |ws| => Running(ws[j], id));
    var b := seq(|actions|, j requires 0 <= j < |actions| => Begins(ws, actions, j, id));
    forall j {:trigger b[j]} | 0 <= j < |b| ensures (b[j] ==> r[j + 1] && !r[j]) && (r[j + 1] ==> r[j] || b[j]) {
      BeginsOnce(ws, actions, j, id);
    }
    Uninterrupted(r, b, i, k);
    assert forall j :: i < j <= k ==> (r[j] <==> Running(ws[j], id));
    assert forall j :: i < j < k ==> (b[j] <==> Begins(ws, actions, j, id));
  }

  /** What a Finish removes is the reservation of its own Begin exactly when no other Begin of the ID
      succeeded in between: the guarantee the request service gives. */
  lemma FinishOwnExactly(ws: seq<R.World>, actions: seq<R.Action>, i: nat, k: nat, id: Id)
    requires R.IsRun(ws, actions) && i < k < |actions| && Begins(ws, actions, i, id) && actions[k] == R.Finish(id)
    requires ws[k + 1].store.entries != ws[k].store.entries
    ensures Running(ws[k], id) && ws[k + 1].store.entries == ws[k].store.entries - {id}
    ensures Held(ws, i, k, id) <==> Unbegun(ws, actions, i, k, id)
  {
    ReservationOf(ws, actions, i, k, id);
  }

  /** Otherwise it is another's: in any open store with room, a request can spill and be discarded, and the ID
      be begun again, before the Finish of the first request. */
  lemma FinishAlone(s0: S.Store, id: Id, path: S.Path, reserve: int, written: int, contentType: string, now: int)
    requires !s0.closed && id !in s0.entries && path !in s0.disk && 0 <= written <= reserve
    requires s0.files < S.MAX_FILES && s0.total + reserve <= S.MAX_TOTAL && s0.spilling < S.MAX_SPILLS
    ensures var (s1, first) := S.BeginSection(s0, id, []);
      var (s2, spill) := S.StartSpillSection(s1, id, reserve, [], true);
      var (s3, commit) :=
        S.CommitSpillSection(s2.(disk := s2.disk + {path}), id, path, written, contentType, now, false);
      var (s4, discard) := S.DiscardSection(s3, id, true);
      var (s5, second) := S.BeginSection(s4, id, []);
      && first.Done? && spill.Done? && commit.Done? && discard.Done? && second.Done?
      && id in s5.entries && S.FinishSection(s5, id) == s0
  {
    var s1 := S.BeginSection(s0, id, []).0;
    var s2 := S.StartSpillSection(s1, id, reserve, [], true).0;
    var s3 := S.CommitSpillSection(s2.(disk := s2.disk + {path}), id, path, written, contentType, now, false).0;
    assert s3.entries == s0.entries[id := S.Entry(S.Ready, Some(path), contentType, written, false, now)];
    var s4 := S.DiscardSection(s3, id, true).0;
    assert s4.entries == s0.entries && s4.disk == s0.disk;
  }
}
