/**
 * The store object: its methods change the entries and counters in place under the mutex, and each is proved
 * to be the section of ResponseSections with the same name.
 */
module ResponseStore {
  import opened Common
  import S = ResponseSections

  type Id = S.Id
  type Path = S.Path

  /** The temporary files that exist; `faults` counts the operations that failed. */
  class TempFiles {
    var files: set<Path>
    ghost var faults: nat

    /** Also true when there was nothing to remove, as for an entry that never had a file. */
    method Remove(p: Option<Path>) returns (gone: bool)
      modifies this
      ensures files == if gone then old(files) - S.At(p) else old(files)
      ensures faults == old(faults) + if gone then 0 else 1
    {
      if p.None? { return true; }
      gone := *;
      if gone { files := files - {p.value}; } else { faults := faults + 1; }
    }

    /** Removing the directory may stop half way. */
    method RemoveAll()
      modifies this
      ensures files <= old(files) && old(faults) <= faults
      ensures faults == old(faults) ==> files == {}
    {
      var left := files;
      while left != {}
        invariant left <= files <= old(files) && old(faults) <= faults
        invariant faults == old(faults) ==> files == left
        decreases left
      {
        var p :| p in left;
        left := left - {p};
        var gone: bool := *;
        if gone { files := files - {p}; } else { faults := faults + 1; }
      }
    }

    /** Not found may also mean that the lookup failed. */
    method Stat(p: Option<Path>) returns (found: bool, ghost ok: bool)
      modifies this`faults
      ensures found <==> ok && !(S.At(p) !! files)
      ensures faults == old(faults) + if ok then 0 else 1
    {
      var works: bool := *;
      ok := works;
      if !works { faults := faults + 1; }
      found := works && p.Some? && p.value in files;
    }

    /** Makes the session directory. */
    method MakeDir() returns (ok: bool)
      modifies this`faults
      ensures faults == old(faults) + if ok then 0 else 1
    {
      ok := *;
      if !ok { faults := faults + 1; }
    }
  }

  class ResponseStore {
    const disk: TempFiles
    var entries: map<Id, S.Entry>
    var total: int
    var files: int
    var spilling: int
    var closed: bool
    /** Whether the session directory was created. */
    var dir: bool

    constructor (disk: TempFiles)
      ensures this.disk == disk && View() == S.Store(map[], 0, 0, 0, false, disk.files)
    {
      this.disk := disk;
      entries, total, files, spilling, closed, dir := map[], 0, 0, 0, false, false;
    }

    /** Nothing expired was left. */
    static ghost predicate AllExpired(m: map<Id, S.Entry>, now: int, gone: seq<Id>) {
      forall id :: id in m && m[id].Expired(now) ==> id in gone
    }

    ghost function View(): S.Store
      reads this, disk
    {
      S.Store(entries, total, files, spilling, closed, disk.files)
    }

    method DropLocked(id: Id)
      modifies this`entries, this`total, this`files
      ensures View() == S.Drop(old(View()), id)
    {
      if id !in entries { return; }
      if entries[id].HasFile() {
        total := total - entries[id].reserved;
        files := files - 1;
      }
      entries := entries - {id};
    }

    /** `gone` lists the expired entries whose files could be removed, in the order of the walk. */
    method EvictExpired(now: int) returns (ghost gone: seq<Id>)
      modifies this`entries, this`total, this`files, disk
      ensures S.Evictable(old(View()), gone, now) && View() == S.Evict(old(View()), gone)
      ensures old(disk.faults) <= disk.faults
      ensures disk.faults == old(disk.faults) ==> AllExpired(old(entries), now, gone)
    {
      gone := [];
      var left := entries.Keys;
      while left != {}
        invariant left <= entries.Keys && forall id :: id in left ==> entries[id] == old(entries)[id] && id !in gone
        invariant left <= old(entries).Keys
        invariant S.Evictable(old(View()), gone, now) && View() == S.Evict(old(View()), gone)
        invariant old(disk.faults) <= disk.faults
        invariant disk.faults == old(disk.faults) ==>
          forall id :: id in old(entries) && id !in left && old(entries)[id].Expired(now) ==> id in gone
        decreases left
      {
        var id :| id in left;
        left := left - {id};
        if entries[id].Expired(now) {
          var removed := disk.Remove(entries[id].path);
          if removed {
            DropLocked(id);
            assert (gone + [id])[..|gone|] == gone;
            gone := gone + [id];
          }
        }
      }
    }

    method Begin(id: Id, now: int) returns (r: S.Outcome, ghost gone: seq<Id>)
      modifies this, disk
      ensures S.Evictable(old(View()), gone, now)
      ensures (View(), r) == S.BeginSection(old(View()), id, gone)
      ensures !closed && disk.faults == old(disk.faults) ==> AllExpired(old(entries), now, gone)
    {
      gone := [];
      if closed { return S.Unavailable, []; }
      gone := EvictExpired(now);
      if id in entries { return S.Busy, gone; }
      entries := entries[id := S.RESERVATION];
      r := S.Done;
    }

    method Finish(id: Id)
      modifies this`entries
      ensures View() == S.FinishSection(old(View()), id)
    {
      if id in entries && entries[id].phase.Running? && !entries[id].spilling {
        entries := entries - {id};
      }
    }

    method StartSpill(id: Id, reserve: int, now: int) returns (r: S.Outcome, ghost gone: seq<Id>, ghost ready: bool)
      modifies this, disk
      ensures S.Evictable(old(View()), gone, now)
      ensures (View(), r) == S.StartSpillSection(old(View()), id, reserve, gone, ready)
      ensures !closed && disk.faults == old(disk.faults) ==> AllExpired(old(entries), now, gone)
      ensures dir == (old(dir) || (r != S.Unavailable && r != S.Busy && r != S.StorageLimit && ready))
      ensures old(dir) ==> ready
      ensures old(disk.faults) <= disk.faults && (disk.faults == old(disk.faults) ==> ready)
    {
      gone, ready := [], true;
      if closed { return S.Unavailable, [], true; }
      gone := EvictExpired(now);
      if id !in entries || !entries[id].phase.Running? || entries[id].HasFile() { return S.Busy, gone, true; }
      if files + 1 > S.MAX_FILES || total + reserve > S.MAX_TOTAL || spilling + 1 > S.MAX_SPILLS {
        return S.StorageLimit, gone, true;
      }
      if !dir {
        var made := disk.MakeDir();
        if !made { return S.WriteFailed, gone, false; }
        dir := true;
      }
      entries := entries[id := entries[id].(spilling := true, reserved := reserve)];
      total := total + reserve;
      files := files + 1;
      spilling := spilling + 1;
      r := S.Done;
    }

    /** The part of abortSpill under the lock; the temporary file was removed before. */
    method AbortSpill(id: Id)
      modifies this
      ensures View() == S.AbortSpillSection(old(View()), id) && dir == old(dir)
    {
      spilling := spilling - 1;
      if id !in entries || !entries[id].spilling { return; }
      total := total - entries[id].reserved;
      files := files - 1;
      entries := entries[id := entries[id].(spilling := false, reserved := 0)];
    }

    method CommitSpill(id: Id, path: Path, written: int, contentType: string, now: int)
      returns (r: S.Outcome, ghost removed: bool)
      modifies this, disk
      ensures (View(), r) == S.CommitSpillSection(old(View()), id, path, written, contentType, now, removed)
      ensures r.Unavailable? ==> disk.faults == old(disk.faults) + if removed then 0 else 1
      ensures dir == old(dir)
    {
      removed := false;
      spilling := spilling - 1;
      if closed || id !in entries || !entries[id].spilling {
        var gone := disk.Remove(Some(path));
        return S.Unavailable, gone;
      }
      total := total + (written - entries[id].reserved);
      entries := entries[id := S.Entry(S.Ready, Some(path), contentType, written, false, now)];
      r := S.Done;
    }

    method AcquireSave(id: Id, now: int) returns (r: S.Outcome, ghost gone: seq<Id>)
      modifies this, disk
      ensures S.Evictable(old(View()), gone, now)
      ensures (View(), r) == S.AcquireSaveSection(old(View()), id, gone)
      ensures !closed && disk.faults == old(disk.faults) ==> AllExpired(old(entries), now, gone)
    {
      gone := [];
      if closed { return S.Unavailable, []; }
      gone := EvictExpired(now);
      if id !in entries { return S.Unavailable, gone; }
      if !entries[id].phase.Ready? { return S.Busy, gone; }
      entries := entries[id := entries[id].(phase := S.Saving)];
      r := S.Done;
    }

    method Discard(id: Id) returns (r: S.Outcome, ghost removed: bool)
      modifies this, disk
      ensures (View(), r) == S.DiscardSection(old(View()), id, removed)
      ensures r.DiscardFailed? ==> disk.faults == old(disk.faults) + 1
      ensures dir == old(dir)
    {
      removed := false;
      if id !in entries { return S.Unavailable, false; }
      if !entries[id].phase.Ready? { return S.Busy, false; }
      var gone := disk.Remove(entries[id].path);
      if !gone { return S.DiscardFailed, false; }
      DropLocked(id);
      return S.Done, true;
    }

    /** What a lease does when the copy failed, the file could not be removed, or the save was given up. */
    method Restore(id: Id) returns (ghost removed: bool, ghost seen: bool)
      modifies this, disk
      ensures View() == S.RestoreSection(old(View()), id, removed, seen) && dir == old(dir)
      ensures id in old(entries) && old(entries)[id].phase.Saving? ==>
        disk.faults == old(disk.faults) + if (if closed then removed else seen) then 0 else 1
    {
      removed, seen := false, true;
      if id !in entries || !entries[id].phase.Saving? { return; }
      if closed {
        var gone := disk.Remove(entries[id].path);
        DropLocked(id);
        return gone, true;
      }
      var found, ok := disk.Stat(entries[id].path);
      if !found {
        DropLocked(id);
        return false, ok;
      }
      entries := entries[id := entries[id].(phase := S.Ready)];
    }

    /** One step of the cleanup. */
    method DropWithFile(id: Id) returns (ghost gone: set<Path>)
      requires id in entries
      modifies this`entries, this`total, this`files, disk
      ensures gone <= S.At(old(entries)[id].path)
      ensures View() == S.Drop(old(View()), id).(disk := old(disk.files) - gone)
      ensures old(disk.faults) <= disk.faults
        && (disk.faults == old(disk.faults) ==> gone == S.At(old(entries)[id].path))
    {
      ghost var path := entries[id].path;
      var removed := disk.Remove(entries[id].path);
      DropLocked(id);
      gone := if removed then S.At(path) else {};
    }

    method DropUnsaved() returns (saving: bool, ghost dropped: seq<Id>, ghost swept: set<Path>)
      modifies this`entries, this`total, this`files, disk
      ensures forall id :: id in dropped <==> id in old(entries) && !old(entries)[id].phase.Saving?
      ensures saving <==> exists id :: id in old(entries) && old(entries)[id].phase.Saving?
      ensures swept <= S.PathsOf(old(entries), dropped)
      ensures View() == S.DropAll(old(View()), dropped).(disk := old(disk.files) - swept)
      ensures old(disk.faults) <= disk.faults
        && (disk.faults == old(disk.faults) ==> swept == S.PathsOf(old(entries), dropped))
    {
      dropped, swept, saving := [], {}, false;
      var left := entries.Keys;
      while left != {}
        invariant left <= entries.Keys && left <= old(entries).Keys
        invariant forall id :: id in left ==> entries[id] == old(entries)[id]
        invariant forall id :: id in dropped <==> id in old(entries) && id !in left && !old(entries)[id].phase.Saving?
        invariant saving <==> exists id :: id in old(entries) && id !in left && old(entries)[id].phase.Saving?
        invariant swept <= S.PathsOf(old(entries), dropped)
        invariant View() == S.DropAll(old(View()), dropped).(disk := old(disk.files) - swept)
        invariant old(disk.faults) <= disk.faults
        invariant disk.faults == old(disk.faults) ==> swept == S.PathsOf(old(entries), dropped)
        decreases left
      {
        var id :| id in left;
        left := left - {id};
        if entries[id].phase.Saving? {
          saving := true;
        } else {
          ghost var gone := DropWithFile(id);
          DropAllSnoc(old(View()), dropped, id, swept, gone);
          dropped, swept := dropped + [id], swept + gone;
        }
      }
    }

    method Cleanup() returns (ghost dropped: seq<Id>, ghost swept: set<Path>)
      modifies this, disk
      ensures S.Cleanable(old(View()), dropped, swept)
      ensures View() == S.CleanupSection(old(View()), dropped, swept)
      ensures disk.faults == old(disk.faults) ==> S.PathsOf(old(entries), dropped) <= swept
      ensures disk.faults == old(disk.faults) && dir
        && (forall id :: id in old(entries) ==> !old(entries)[id].phase.Saving?)
        ==> disk.files == {}
    {
      closed := true;
      var saving;
      saving, dropped, swept := DropUnsaved();
      DropAllClosed(old(View()), View().closed, dropped);
      if !saving && dir {
        ghost var before := disk.files;
        disk.RemoveAll();
        assert old(disk.files) - (swept + (before - disk.files)) == disk.files;
        swept := swept + (before - disk.files);
      }
    }
  }

  lemma DropAllSnoc(s: S.Store, dropped: seq<Id>, id: Id, swept: set<Path>, gone: set<Path>)
    ensures S.Drop(S.DropAll(s, dropped).(disk := s.disk - swept), id).(disk := s.disk - swept - gone)
         == S.DropAll(s, dropped + [id]).(disk := s.disk - (swept + gone))
    ensures id in s.entries ==>
      S.PathsOf(s.entries, dropped + [id]) == S.PathsOf(s.entries, dropped) + S.At(s.entries[id].path)
  {
    assert (dropped + [id])[..|dropped|] == dropped;
    assert s.disk - swept - gone == s.disk - (swept + gone);
    assert forall x :: x in dropped ==> x in dropped + [id];
  }

  lemma {:induction false} DropAllClosed(s: S.Store, closed: bool, dropped: seq<Id>)
    ensures S.DropAll(s.(closed := closed), dropped) == S.DropAll(s, dropped).(closed := closed)
    decreases |dropped|
  {
    if dropped != [] { DropAllClosed(s, closed, dropped[..|dropped| - 1]); }
  }
}
