/**
 * Every interleaving of the store's sections: requests beginning and finishing, spills in their three phases,
 * saves through leases, discards, evictions, a cleanup at any moment, and files that vanish behind its back.
 */
module ResponseRuns {
  import opened Common
  import opened ResponseSections

  /** A spill that has not been aborted or committed yet. */
  datatype Spill = Spill(reserve: int, temp: Option<Path>)

  /** A lease that has been neither saved to the end nor released. */
  datatype Lease = Lease(path: Path, progress: Progress)
  datatype Progress = Held | Copied | Unlinked

  /** `names` are the temporary names handed out so far, with the request each was made for; `stray` the
      files that could not be removed, or looked up, when they left the bookkeeping. */
  datatype World = World(store: Store, names: map<Path, Id>, spills: map<Id, Spill>, leases: map<Id, Lease>,
                         stray: set<Path>)

  datatype Action =
    | Begin(id: Id, now: int, gone: seq<Id>)
    | Finish(id: Id)
    | StartSpill(id: Id, reserve: int, now: int, gone: seq<Id>, ready: bool)
    | CreateTemp(id: Id, path: Path)
    | AbortSpill(id: Id, removed: bool)
    | CommitSpill(id: Id, written: int, contentType: string, now: int, removed: bool)
    | AcquireSave(id: Id, now: int, gone: seq<Id>)
    | CopySaved(id: Id)
    | UnlinkSaved(id: Id)
    | DropSaved(id: Id)
    | Restore(id: Id, removed: bool, seen: bool)
    | Discard(id: Id, removed: bool)
    | Cleanup(dropped: seq<Id>, swept: set<Path>)
    | Vanish(path: Path)

  const START := World(Store(map[], 0, 0, 0, false, {}), map[], map[], map[], {})

  ghost predicate Enabled(w: World, a: Action) {
    match a
    case Begin(_, now, gone) => Evictable(w.store, gone, now)
    case Finish(_) => true
    case StartSpill(_, reserve, now, gone, _) => reserve >= 0 && Evictable(w.store, gone, now)
    case CreateTemp(id, path) => id in w.spills && w.spills[id].temp.None? && path !in w.names
    case AbortSpill(id, _) => id in w.spills
    case CommitSpill(id, written, _, _, _) =>
      id in w.spills && w.spills[id].temp.Some? && 0 <= written <= w.spills[id].reserve
    case AcquireSave(_, now, gone) => Evictable(w.store, gone, now)
    case CopySaved(id) => id in w.leases && w.leases[id].progress.Held?
    case UnlinkSaved(id) => id in w.leases && w.leases[id].progress.Copied?
    case DropSaved(id) => id in w.leases && w.leases[id].progress.Unlinked?
    case Restore(id, _, _) => id in w.leases && !w.leases[id].progress.Unlinked?
    case Discard(_, _) => true
    case Cleanup(dropped, swept) => Cleanable(w.store, dropped, swept)
    case Vanish(_) => true
  }

  ghost function Next(w: World, a: Action): World
    requires Enabled(w, a)
  {
    match a
    case Begin(id, _, gone) => w.(store := BeginSection(w.store, id, gone).0)
    case Finish(id) => w.(store := FinishSection(w.store, id))
    case StartSpill(id, reserve, _, gone, ready) =>
      var (s, outcome) := StartSpillSection(w.store, id, reserve, gone, ready);
      if outcome.Done? then w.(store := s, spills := w.spills[id := Spill(reserve, None)]) else w.(store := s)
    case CreateTemp(id, path) =>
      w.(store := w.store.(disk := w.store.disk + {path}), names := w.names[path := id],
         spills := w.spills[id := w.spills[id].(temp := Some(path))])
    case AbortSpill(id, removed) =>
      var temp := At(w.spills[id].temp);
      var s := if removed then w.store.(disk := w.store.disk - temp) else w.store;
      w.(store := AbortSpillSection(s, id), spills := w.spills - {id},
         stray := if removed then w.stray else w.stray + temp)
    case CommitSpill(id, written, contentType, now, removed) =>
      var path := w.spills[id].temp.value;
      var (s, outcome) := CommitSpillSection(w.store, id, path, written, contentType, now, removed);
      w.(store := s, spills := w.spills - {id},
         stray := if outcome.Done? || removed then w.stray else w.stray + {path})
    case AcquireSave(id, _, gone) =>
      var (s, outcome) := AcquireSaveSection(w.store, id, gone);
      if outcome.Done? then
        w.(store := s, leases := w.leases[id := Lease(s.entries[id].path.Or(""), Held)])
      else w.(store := s)
    case CopySaved(id) => w.(leases := w.leases[id := w.leases[id].(progress := Copied)])
    case UnlinkSaved(id) =>
      w.(store := w.store.(disk := w.store.disk - {w.leases[id].path}),
         leases := w.leases[id := w.leases[id].(progress := Unlinked)])
    case DropSaved(id) => w.(store := Drop(w.store, id), leases := w.leases - {id})
    case Restore(id, removed, seen) =>
      w.(store := RestoreSection(w.store, id, removed, seen), leases := w.leases - {id},
         stray := if (if w.store.closed then !removed else !seen) then w.stray + {w.leases[id].path} else w.stray)
    case Discard(id, removed) => w.(store := DiscardSection(w.store, id, removed).0)
    case Cleanup(dropped, swept) =>
      w.(store := CleanupSection(w.store, dropped, swept),
         stray := w.stray + (PathsOf(w.store.entries, dropped) - swept))
    case Vanish(path) => w.(store := w.store.(disk := w.store.disk - {path}))
  }

  // ---------------------------------------------------------------- the invariant

  function Get<T>(m: map<Id, T>, id: Id): Option<T> {
    if id in m then Some(m[id]) else None
  }

  /** The counters are exact and within the limits. */
  ghost predicate Books(w: World) {
    && Balanced(w.store)
    && w.store.files <= MAX_FILES && w.store.total <= MAX_TOTAL
    && w.store.spilling == |w.spills| <= MAX_SPILLS
  }

  /** What an entry, a spill and a lease of the same request say about each other. */
  ghost predicate Fits(entry: Option<Entry>, spill: Option<Spill>, lease: Option<Lease>, closed: bool) {
    && (entry.Some? ==> WellFormed(entry.value) && (closed ==> entry.value.phase.Saving?))
    && (entry.Some? && entry.value.spilling ==> spill.Some?)
    && (spill.Some? && entry.Some? ==> entry.value.spilling && entry.value.reserved == spill.value.reserve)
    && (spill.Some? ==> closed || entry.Some?)
    && (lease.Some? <==> entry.Some? && entry.value.phase.Saving?)
    && (lease.Some? ==> entry.value.path == Some(lease.value.path))
  }

  ghost predicate Named(names: map<Path, Id>, id: Id, p: Option<Path>) {
    p.Some? ==> p.value in names && names[p.value] == id
  }

  /** Besides, the files of a request were made for it, and a saved file is gone before its entry. */
  ghost predicate Fine(w: World, id: Id) {
    && Fits(Get(w.store.entries, id), Get(w.spills, id), Get(w.leases, id), w.store.closed)
    && (id in w.store.entries ==> Named(w.names, id, w.store.entries[id].path))
    && (id in w.spills ==> Named(w.names, id, w.spills[id].temp))
    && (id in w.leases && w.leases[id].progress.Unlinked? ==> w.leases[id].path !in w.store.disk)
  }

  ghost predicate Used(entry: Option<Entry>, spill: Option<Spill>, p: Path) {
    (entry.Some? && entry.value.path == Some(p)) || (spill.Some? && spill.value.temp == Some(p))
  }

  /** A temporary file is in the books, still being written, or a stray. */
  ghost predicate Tracked(w: World, p: Path) {
    p in w.store.disk && p !in w.stray ==>
      p in w.names && Used(Get(w.store.entries, w.names[p]), Get(w.spills, w.names[p]), p)
  }

  ghost predicate Inv(w: World) {
    Books(w) && (forall id :: Fine(w, id)) && (forall p :: Tracked(w, p))
  }

  /** Nothing changed but what belongs to one request. */
  ghost predicate OnlyAt(w: World, v: World, id: Id) {
    && v.store.closed == w.store.closed
    && (forall x :: x != id ==> Get(v.store.entries, x) == Get(w.store.entries, x))
    && (forall x :: x != id ==> Get(v.spills, x) == Get(w.spills, x))
    && (forall x :: x != id ==> Get(v.leases, x) == Get(w.leases, x))
    && (forall p :: p in w.names ==> p in v.names && v.names[p] == w.names[p])
    && (forall p :: p in v.store.disk && p in w.names ==> p in w.store.disk)
    && w.stray <= v.stray
  }

  lemma Around(w: World, v: World, id: Id)
    requires Inv(w) && OnlyAt(w, v, id) && Books(v) && Fine(v, id)
    requires forall p :: Tracked(v, p)
    ensures Inv(v)
  {
    forall x ensures Fine(v, x) { assert Fine(w, x); }
  }

  // ---------------------------------------------------------------- eviction

  /** What leaves is what was chosen. */
  lemma {:induction false} EvictEntries(s: Store, gone: seq<Id>)
    ensures Evict(s, gone).entries == s.entries - (set id | id in gone)
    ensures Evict(s, gone).closed == s.closed
    decreases |gone|
  {
    if gone == [] {
      assert s.entries - {} == s.entries;
    } else {
      var init, id := gone[..|gone| - 1], gone[|gone| - 1];
      EvictEntries(s, init);
      assert (set x | x in gone) == (set x | x in init) + {id} by { assert gone == init + [id]; }
    }
  }

  lemma ForgetKeeps(w: World, id: Id)
    requires Inv(w) && id in w.store.entries && w.store.entries[id].phase.Ready?
    ensures Inv(w.(store := Forget(w.store, id)))
  {
    assert Fine(w, id);
    var s := w.store.(disk := w.store.disk - At(w.store.entries[id].path));
    assert Balanced(s);
    DropBalanced(s, id);
    var v := w.(store := Forget(w.store, id));
    forall p ensures Tracked(v, p) { assert Tracked(w, p); }
    Around(w, v, id);
  }

  lemma {:induction false} EvictKeeps(w: World, gone: seq<Id>, now: int)
    requires Inv(w) && Evictable(w.store, gone, now)
    ensures Inv(w.(store := Evict(w.store, gone)))
    decreases |gone|
  {
    if gone != [] {
      var init, id := gone[..|gone| - 1], gone[|gone| - 1];
      assert forall k :: 0 <= k < |init| ==> gone[k] == init[k] && init[..k] == gone[..k];
      EvictKeeps(w, init, now);
      EvictEntries(w.store, init);
      ForgetKeeps(w.(store := Evict(w.store, init)), id);
    }
  }

  // ---------------------------------------------------------------- the other sections, after eviction

  lemma BeginKeeps(w: World, id: Id)
    requires Inv(w) && !w.store.closed && id !in w.store.entries
    ensures Inv(w.(store := w.store.(entries := w.store.entries[id := RESERVATION])))
  {
    assert Fine(w, id);
    var v := w.(store := w.store.(entries := w.store.entries[id := RESERVATION]));
    WriteBalanced(w.store, id, RESERVATION);
    forall p ensures Tracked(v, p) { assert Tracked(w, p); }
    Around(w, v, id);
  }

  lemma FinishKeeps(w: World, id: Id)
    requires Inv(w)
    ensures Inv(w.(store := FinishSection(w.store, id)))
  {
    assert Fine(w, id);
    var v := w.(store := FinishSection(w.store, id));
    DropBalanced(w.store, id);
    forall p ensures Tracked(v, p) { assert Tracked(w, p); }
    Around(w, v, id);
  }

  lemma StartSpillBooks(w: World, id: Id, reserve: int)
    requires Inv(w) && reserve >= 0 && id in w.store.entries && !w.store.closed
    requires w.store.entries[id].phase.Running? && !w.store.entries[id].HasFile()
    requires w.store.files < MAX_FILES && w.store.total + reserve <= MAX_TOTAL && w.store.spilling < MAX_SPILLS
    ensures id !in w.spills
    ensures Books(w.(store := Marked(w.store, id, reserve), spills := w.spills[id := Spill(reserve, None)]))
  {
    assert Fine(w, id);
    WriteBalanced(w.store, id, w.store.entries[id].(spilling := true, reserved := reserve));
    assert |w.spills[id := Spill(reserve, None)]| == |w.spills| + 1;
  }

  lemma StartSpillKeeps(w: World, id: Id, reserve: int)
    requires Inv(w) && reserve >= 0 && id in w.store.entries && !w.store.closed
    requires w.store.entries[id].phase.Running? && !w.store.entries[id].HasFile()
    requires w.store.files < MAX_FILES && w.store.total + reserve <= MAX_TOTAL && w.store.spilling < MAX_SPILLS
    ensures Inv(w.(store := Marked(w.store, id, reserve), spills := w.spills[id := Spill(reserve, None)]))
  {
    var v := w.(store := Marked(w.store, id, reserve), spills := w.spills[id := Spill(reserve, None)]);
    assert Fine(w, id);
    StartSpillBooks(w, id, reserve);
    forall p ensures Tracked(v, p) { assert Tracked(w, p); }
    Around(w, v, id);
  }

  lemma CreateTempKeeps(w: World, id: Id, path: Path)
    requires Inv(w) && Enabled(w, CreateTemp(id, path))
    ensures Inv(Next(w, CreateTemp(id, path)))
  {
    var v := Next(w, CreateTemp(id, path));
    assert Fine(w, id);
    assert v.spills.Keys == w.spills.Keys && |v.spills| == |v.spills.Keys| == |w.spills|;
    assert Balanced(v.store);
    forall p ensures Tracked(v, p) { assert Tracked(w, p); }
    Around(w, v, id);
  }

  lemma AbortBooks(w: World, id: Id, removed: bool)
    requires Inv(w) && id in w.spills
    ensures Books(Next(w, AbortSpill(id, removed)))
  {
    assert Fine(w, id);
    assert |w.spills - {id}| == |w.spills| - 1;
    if id in w.store.entries {
      WriteBalanced(w.store, id, w.store.entries[id].(spilling := false, reserved := 0));
    } else {
      assert Balanced(Next(w, AbortSpill(id, removed)).store);
    }
  }

  lemma AbortTracked(w: World, id: Id, removed: bool, p: Path)
    requires Inv(w) && id in w.spills
    ensures Tracked(Next(w, AbortSpill(id, removed)), p)
  {
    assert Fine(w, id) && Tracked(w, p);
  }

  lemma AbortFine(w: World, id: Id, removed: bool)
    requires Inv(w) && id in w.spills
    ensures Fine(Next(w, AbortSpill(id, removed)), id)
  {
    assert Fine(w, id);
  }

  lemma AbortKeeps(w: World, id: Id, removed: bool)
    requires Inv(w) && id in w.spills
    ensures Inv(Next(w, AbortSpill(id, removed)))
  {
    var v := Next(w, AbortSpill(id, removed));
    AbortFine(w, id, removed);
    AbortBooks(w, id, removed);
    forall p ensures Tracked(v, p) { AbortTracked(w, id, removed, p); }
    Around(w, v, id);
  }

  lemma CommitBooks(w: World, a: Action)
    requires Inv(w) && a.CommitSpill? && Enabled(w, a)
    ensures Books(Next(w, a))
  {
    assert Fine(w, a.id);
    assert |w.spills - {a.id}| == |w.spills| - 1;
    if !w.store.closed {
      WriteBalanced(w.store, a.id, Entry(Ready, w.spills[a.id].temp, a.contentType, a.written, false, a.now));
    } else {
      assert Balanced(Next(w, a).store);
    }
  }

  lemma CommitKeeps(w: World, a: Action)
    requires Inv(w) && a.CommitSpill? && Enabled(w, a)
    ensures Inv(Next(w, a))
  {
    var v := Next(w, a);
    assert Fine(w, a.id);
    CommitBooks(w, a);
    forall p ensures Tracked(v, p) { assert Tracked(w, p); }
    Around(w, v, a.id);
  }

  lemma AcquireKeeps(w: World, id: Id)
    requires Inv(w) && id in w.store.entries && w.store.entries[id].phase.Ready?
    ensures Inv(w.(store := w.store.(entries := w.store.entries[id := w.store.entries[id].(phase := Saving)]),
                   leases := w.leases[id := Lease(w.store.entries[id].path.Or(""), Held)]))
  {
    var e := w.store.entries[id].(phase := Saving);
    var v := w.(store := w.store.(entries := w.store.entries[id := e]),
      leases := w.leases[id := Lease(e.path.Or(""), Held)]);
    assert Fine(w, id);
    WriteBalanced(w.store, id, e);
    forall p ensures Tracked(v, p) { assert Tracked(w, p); }
    Around(w, v, id);
  }

  lemma SavedKeeps(w: World, a: Action)
    requires Inv(w) && Enabled(w, a) && (a.CopySaved? || a.UnlinkSaved?)
    ensures Inv(Next(w, a))
  {
    var v := Next(w, a);
    assert Fine(w, a.id);
    assert Balanced(v.store);
    forall p ensures Tracked(v, p) { assert Tracked(w, p); }
    Around(w, v, a.id);
  }

  lemma LeaveBooks(w: World, id: Id, disk: set<Path>, stray: set<Path>)
    requires Inv(w) && id in w.leases
    ensures Books(w.(store := Drop(w.store, id).(disk := disk), leases := w.leases - {id}, stray := stray))
  {
    assert Fine(w, id);
    DropBalanced(w.store, id);
    assert Balanced(Drop(w.store, id).(disk := disk));
  }

  /** A lease ends with its entry leaving; a file left behind is a stray. */
  lemma LeaveKeeps(w: World, id: Id, disk: set<Path>, stray: set<Path>)
    requires Inv(w) && id in w.leases && disk <= w.store.disk && w.stray <= stray
    requires w.leases[id].path in disk ==> w.leases[id].path in stray
    ensures Inv(w.(store := Drop(w.store, id).(disk := disk), leases := w.leases - {id}, stray := stray))
  {
    var v := w.(store := Drop(w.store, id).(disk := disk), leases := w.leases - {id}, stray := stray);
    assert Fine(w, id);
    LeaveBooks(w, id, disk, stray);
    forall p ensures Tracked(v, p) { assert Tracked(w, p); }
    Around(w, v, id);
  }

  lemma DropSavedKeeps(w: World, id: Id)
    requires Inv(w) && Enabled(w, DropSaved(id))
    ensures Inv(Next(w, DropSaved(id)))
  {
    assert Fine(w, id);
    LeaveKeeps(w, id, w.store.disk, w.stray);
    assert Drop(w.store, id).(disk := w.store.disk) == Drop(w.store, id);
  }

  /** Or it gives its entry back. */
  lemma ReturnKeeps(w: World, id: Id)
    requires Inv(w) && id in w.leases && !w.leases[id].progress.Unlinked? && !w.store.closed
    ensures id in w.store.entries
    ensures Inv(w.(store := w.store.(entries := w.store.entries[id := w.store.entries[id].(phase := Ready)]),
      leases := w.leases - {id}))
  {
    assert Fine(w, id);
    var e := w.store.entries[id].(phase := Ready);
    var v := w.(store := w.store.(entries := w.store.entries[id := e]), leases := w.leases - {id});
    WriteBalanced(w.store, id, e);
    forall p ensures Tracked(v, p) { assert Tracked(w, p); }
    Around(w, v, id);
  }

  lemma RestoreKeeps(w: World, id: Id, removed: bool, seen: bool)
    requires Inv(w) && Enabled(w, Restore(id, removed, seen))
    ensures Inv(Next(w, Restore(id, removed, seen)))
  {
    assert Fine(w, id);
    if w.store.closed || !seen || At(w.store.entries[id].path) !! w.store.disk {
      var v := Next(w, Restore(id, removed, seen));
      LeaveKeeps(w, id, v.store.disk, v.stray);
    } else {
      ReturnKeeps(w, id);
    }
  }

  lemma {:induction false} DropAllMeaning(s: Store, dropped: seq<Id>)
    requires Balanced(s) && forall id :: id in s.entries ==> WellFormed(s.entries[id])
    ensures var t := DropAll(s, dropped);
      && t.entries == s.entries - (set id | id in dropped)
      && t.spilling == s.spilling
      && Balanced(t) && t.total <= s.total && t.files <= s.files
    decreases |dropped|
  {
    if dropped == [] {
      assert s.entries - {} == s.entries;
    } else {
      var init, id := dropped[..|dropped| - 1], dropped[|dropped| - 1];
      DropAllMeaning(s, init);
      DropBalanced(DropAll(s, init), id);
      assert (set x | x in dropped) == (set x | x in init) + {id} by { assert dropped == init + [id]; }
    }
  }

  lemma CleanupKeeps(w: World, dropped: seq<Id>, swept: set<Path>)
    requires Inv(w) && Cleanable(w.store, dropped, swept)
    ensures var v := Next(w, Cleanup(dropped, swept));
      && Inv(v) && v.store.closed
      && forall id :: id in v.store.entries <==> id in w.leases
  {
    var v := Next(w, Cleanup(dropped, swept));
    assert forall id :: id in w.store.entries ==> Fine(w, id);
    DropAllMeaning(w.store, dropped);
    assert Balanced(v.store);
    forall x ensures Fine(v, x) && (x in v.store.entries <==> x in w.leases) { assert Fine(w, x); }
    forall p ensures Tracked(v, p) { assert Tracked(w, p) && (p in w.names ==> Fine(w, w.names[p])); }
  }

  lemma VanishKeeps(w: World, path: Path)
    requires Inv(w)
    ensures Inv(Next(w, Vanish(path)))
  {
    var v := Next(w, Vanish(path));
    assert Balanced(v.store);
    forall x ensures Fine(v, x) { assert Fine(w, x); }
    forall p ensures Tracked(v, p) { assert Tracked(w, p); }
  }

  // ---------------------------------------------------------------- every step

  /** A section after its evictions is the section without evictions. */
  lemma StoreStep(w: World, a: Action)
    requires Inv(w) && Enabled(w, a) && (a.Begin? || a.StartSpill? || a.AcquireSave?)
    ensures Inv(Next(w, a))
  {
    if !w.store.closed {
      EvictKeeps(w, a.gone, a.now);
      EvictEntries(w.store, a.gone);
      var t := w.(store := Evict(w.store, a.gone));
      match a
      case Begin(id, _, _) =>
        if id !in t.store.entries { BeginKeeps(t, id); }
      case StartSpill(id, reserve, _, gone, ready) =>
        if StartSpillSection(w.store, id, reserve, gone, ready).1.Done? { StartSpillKeeps(t, id, reserve); }
      case AcquireSave(id, _, gone) =>
        if AcquireSaveSection(w.store, id, gone).1.Done? { AcquireKeeps(t, id); }
    }
  }

  lemma StepInv(w: World, a: Action)
    requires Inv(w) && Enabled(w, a)
    ensures Inv(Next(w, a))
  {
    match a
    case Begin(_, _, _) => StoreStep(w, a);
    case StartSpill(_, _, _, _, _) => StoreStep(w, a);
    case AcquireSave(_, _, _) => StoreStep(w, a);
    case Finish(id) => FinishKeeps(w, id);
    case CreateTemp(id, path) => CreateTempKeeps(w, id, path);
    case AbortSpill(id, removed) => AbortKeeps(w, id, removed);
    case CommitSpill(_, _, _, _, _) => CommitKeeps(w, a);
    case DropSaved(id) => DropSavedKeeps(w, id);
    case Restore(id, removed, seen) => RestoreKeeps(w, id, removed, seen);
    case CopySaved(_) => SavedKeeps(w, a);
    case UnlinkSaved(_) => SavedKeeps(w, a);
    case Discard(id, _) => if id in w.store.entries && w.store.entries[id].phase.Ready? { ForgetKeeps(w, id); }
    case Cleanup(dropped, swept) => CleanupKeeps(w, dropped, swept);
    case Vanish(path) => VanishKeeps(w, path);
  }

  // ---------------------------------------------------------------- all runs

  ghost predicate IsRun(ws: seq<World>, actions: seq<Action>) {
    && |ws| == |actions| + 1 && ws[0] == START
    && forall k :: 0 <= k < |actions| ==> Enabled(ws[k], actions[k]) && ws[k + 1] == Next(ws[k], actions[k])
  }

  lemma StartInv()
    ensures Inv(START)
  {
    assert Holders(map[]) == {};
  }

  lemma {:induction false} RunInv(ws: seq<World>, actions: seq<Action>, k: nat)
    requires IsRun(ws, actions) && k < |ws|
    ensures Inv(ws[k])
  {
    if k == 0 {
      StartInv();
    } else {
      RunInv(ws, actions, k - 1);
      StepInv(ws[k - 1], actions[k - 1]);
    }
  }

  /** Whatever interleaves, the counters are the truth, the limits hold, and a closed store only keeps what
      is being saved. */
  lemma Accounting(ws: seq<World>, actions: seq<Action>, k: nat)
    requires IsRun(ws, actions) && k < |ws|
    ensures var s := ws[k].store;
      && s.files == |Holders(s.entries)| <= MAX_FILES
      && 0 <= s.total == Sum(s.entries) <= MAX_TOTAL
      && s.spilling == |ws[k].spills| <= MAX_SPILLS
      && (s.closed ==> forall id :: id in s.entries ==> s.entries[id].phase.Saving?)
  {
    RunInv(ws, actions, k);
    assert forall id :: id in ws[k].store.entries ==> Fine(ws[k], id);
    SumNonNegative(ws[k].store.entries);
  }

  /** No temporary file but the strays is forgotten, and no two requests have one in common. */
  lemma NoFileForgotten(ws: seq<World>, actions: seq<Action>, k: nat, p: Path)
    requires IsRun(ws, actions) && k < |ws| && p in ws[k].store.disk && p !in ws[k].stray
    ensures exists id ::
      && Used(Get(ws[k].store.entries, id), Get(ws[k].spills, id), p)
      && forall x :: Used(Get(ws[k].store.entries, x), Get(ws[k].spills, x), p) ==> x == id
  {
    var w := ws[k];
    RunInv(ws, actions, k);
    assert Tracked(w, p);
    forall x | Used(Get(w.store.entries, x), Get(w.spills, x), p) ensures x == w.names[p] { assert Fine(w, x); }
  }

  ghost predicate OfLease(a: Action, id: Id) {
    || (a.CopySaved? && a.id == id) || (a.UnlinkSaved? && a.id == id)
    || (a.DropSaved? && a.id == id) || (a.Restore? && a.id == id)
  }

  lemma EvictSpares(w: World, gone: seq<Id>, now: int, id: Id)
    requires Inv(w) && Evictable(w.store, gone, now) && id in w.leases
    ensures Get(Evict(w.store, gone).entries, id) == Get(w.store.entries, id)
  {
    assert Fine(w, id);
    EvictEntries(w.store, gone);
  }

  lemma CleanupSpares(w: World, dropped: seq<Id>, swept: set<Path>, id: Id)
    requires Inv(w) && Cleanable(w.store, dropped, swept) && id in w.leases
    ensures Get(CleanupSection(w.store, dropped, swept).entries, id) == Get(w.store.entries, id)
  {
    assert forall x :: x in w.store.entries ==> Fine(w, x);
    assert Fine(w, id);
    DropAllMeaning(w.store, dropped);
  }

  lemma LeaseEntry(w: World, a: Action, id: Id)
    requires Inv(w) && Enabled(w, a) && id in w.leases && !OfLease(a, id)
    ensures Get(Next(w, a).leases, id) == Get(w.leases, id)
      && Get(Next(w, a).store.entries, id) == Get(w.store.entries, id)
  {
    if a.Begin? || a.StartSpill? || a.AcquireSave? {
      EvictSpares(w, a.gone, a.now, id);
      assert Fine(w, id);
    } else if a.Cleanup? {
      CleanupSpares(w, a.dropped, a.swept, id);
    } else {
      assert Fine(w, id);
    }
  }

  lemma LeaseFile(w: World, a: Action, id: Id)
    requires Inv(w) && Enabled(w, a) && id in w.leases && !OfLease(a, id) && w.leases[id].path in w.store.disk
    ensures w.leases[id].path in Next(w, a).store.disk || a == Vanish(w.leases[id].path)
  {
    assert Fine(w, id);
    if a.Begin? || a.StartSpill? || a.AcquireSave? {
      EvictFiles(w, a.gone, a.now, id);
    } else if a.Cleanup? {
      forall x | x in a.dropped ensures w.store.entries[x].path != Some(w.leases[id].path) { assert Fine(w, x); }
    } else if !a.Finish? && !a.Vanish? && !a.CreateTemp? {
      assert Fine(w, a.id);
    }
  }

  /** Between acquiring a lease and saving or releasing it, nothing else touches its entry, and nothing but
      an outsider removes its file. */
  lemma LeaseStable(w: World, a: Action, id: Id)
    requires Inv(w) && Enabled(w, a) && id in w.leases && !OfLease(a, id)
    ensures var v := Next(w, a);
      && Get(v.leases, id) == Get(w.leases, id)
      && Get(v.store.entries, id) == Get(w.store.entries, id)
      && (w.leases[id].path in w.store.disk ==> w.leases[id].path in v.store.disk || a == Vanish(w.leases[id].path))
  {
    LeaseEntry(w, a, id);
    if w.leases[id].path in w.store.disk { LeaseFile(w, a, id); }
  }

  lemma {:induction false} EvictFiles(w: World, gone: seq<Id>, now: int, id: Id)
    requires Inv(w) && Evictable(w.store, gone, now) && id in w.leases
    ensures w.leases[id].path in w.store.disk ==> w.leases[id].path in Evict(w.store, gone).disk
    decreases |gone|
  {
    if gone != [] {
      var init, last := gone[..|gone| - 1], gone[|gone| - 1];
      assert forall k :: 0 <= k < |init| ==> gone[k] == init[k] && init[..k] == gone[..k];
      EvictFiles(w, init, now, id);
      EvictEntries(w.store, init);
      assert Fine(w, id) && Fine(w, last);
    }
  }

  /** Over any stretch of a run without a step of the lease, the lease keeps its entry, and its file too
      unless something outside the program removes it. */
  lemma {:induction false} LeaseWindow(ws: seq<World>, actions: seq<Action>, i: nat, j: nat, id: Id)
    requires IsRun(ws, actions) && i <= j < |ws| && id in ws[i].leases
    requires forall k :: i <= k < j ==> !OfLease(actions[k], id)
    ensures Get(ws[j].store.entries, id) == Get(ws[i].store.entries, id)
    ensures Get(ws[j].leases, id) == Get(ws[i].leases, id)
    ensures ws[i].leases[id].path in ws[i].store.disk
         && (forall k :: i <= k < j ==> actions[k] != Vanish(ws[i].leases[id].path))
         ==> ws[i].leases[id].path in ws[j].store.disk
    decreases j - i
  {
    if i < j {
      LeaseWindow(ws, actions, i, j - 1, id);
      RunInv(ws, actions, j - 1);
      LeaseStable(ws[j - 1], actions[j - 1], id);
    }
  }

  /** The entry a finished save drops is the one it was given, although it does not look. */
  lemma SaveDropsOwn(ws: seq<World>, actions: seq<Action>, k: nat)
    requires IsRun(ws, actions) && k < |actions| && actions[k].DropSaved?
    ensures var w, id := ws[k], actions[k].id;
      && id in w.store.entries && w.store.entries[id].phase.Saving?
      && w.store.entries[id].path == Some(w.leases[id].path) && w.leases[id].path !in w.store.disk
      && ws[k + 1].store.files == w.store.files - 1
      && ws[k + 1].store.total == w.store.total - w.store.entries[id].reserved
  {
    RunInv(ws, actions, k);
    assert Fine(ws[k], actions[k].id);
  }

  lemma CleanupShrinks(w: World, dropped: seq<Id>, swept: set<Path>)
    requires Inv(w)
    ensures CleanupSection(w.store, dropped, swept).entries.Keys <= w.store.entries.Keys
  {
    assert forall x :: x in w.store.entries ==> Fine(w, x);
    DropAllMeaning(w.store, dropped);
  }

  lemma ClosedStep(w: World, a: Action)
    requires Inv(w) && Enabled(w, a) && w.store.closed
    ensures var v := Next(w, a);
      && v.store.closed && v.store.entries.Keys <= w.store.entries.Keys
      && v.spills.Keys <= w.spills.Keys && v.leases.Keys <= w.leases.Keys
  {
    if a.Cleanup? {
      CleanupShrinks(w, a.dropped, a.swept);
    } else if !a.Vanish? && !a.Begin? && !a.StartSpill? && !a.AcquireSave? {
      assert Fine(w, a.id);
    }
  }

  /** After a cleanup nothing new is ever tracked, spilled or leased. */
  lemma {:induction false} ClosedForGood(ws: seq<World>, actions: seq<Action>, i: nat, j: nat)
    requires IsRun(ws, actions) && i <= j < |ws| && ws[i].store.closed
    ensures ws[j].store.closed && ws[j].store.entries.Keys <= ws[i].store.entries.Keys
    ensures ws[j].spills.Keys <= ws[i].spills.Keys && ws[j].leases.Keys <= ws[i].leases.Keys
    decreases j - i
  {
    if i < j {
      ClosedForGood(ws, actions, i, j - 1);
      RunInv(ws, actions, j - 1);
      ClosedStep(ws[j - 1], actions[j - 1]);
    }
  }
}
