/**
 * Writes to several collection files as one unit: the repository, the undo stack, and the rollback.
 */
module UnitOfWork {
  import opened Common
  import opened Recovery

  /** The collection files: those that can be read, and the names of others that exist but cannot.  A write
      is atomic and may fail, and a failed write changes nothing.  `past` lists what the files held after
      each operation, so that a crash can be taken to happen at any of them; `faults` counts the operations
      that failed, `unclear` the questions for a file that got no answer. */
  class Repository {
    var files: Forest
    var unread: set<string>
    ghost var past: seq<Forest>
    ghost var faults: nat
    ghost var unclear: nat

    constructor (files: Forest, unread: set<string>)
      ensures this.files == files && this.unread == unread && past == [files] && faults == 0 && unclear == 0
    {
      this.files, this.unread := files, unread;
      past, faults, unclear := [files], 0, 0;
    }

    /** Files that cannot be read are skipped; corrupt ones among them are put aside, if that works.  None
        when not even the directory can be read. */
    method Load() returns (r: Option<Forest>)
      modifies this`unread, this`faults
      ensures r.Some? ==> r.value == files && unread <= old(unread)
      ensures r.None? ==> unread == old(unread)
      ensures faults == old(faults) + if r.Some? then 0 else 1
    {
      var readable: bool := *;
      if !readable {
        faults := faults + 1;
        return None;
      }
      var aside: set<string> := *;
      unread := unread - aside;
      r := Some(files);
    }

    /** Whether there is a file at all, readable or not; None when that cannot be told. */
    method Exists(id: string) returns (r: Option<bool>)
      modifies this`unclear
      ensures r.Some? ==> (r.value <==> id in files || id in unread)
      ensures unclear == old(unclear) + if r.Some? then 0 else 1
    {
      var known: bool := *;
      if !known {
        unclear := unclear + 1;
        return None;
      }
      r := Some(id in files || id in unread);
    }

    method Save(id: string, c: Collection) returns (ok: bool)
      modifies this
      ensures files == if ok then old(files)[id := c] else old(files)
      ensures unread == old(unread) && unclear == old(unclear)
      ensures past == old(past) + [files] && faults == old(faults) + if ok then 0 else 1
    {
      ok := *;
      if ok { files := files[id := c]; }
      past, faults := past + [files], faults + if ok then 0 else 1;
    }

    method Delete(id: string) returns (ok: bool)
      modifies this
      ensures files == if ok then old(files) - {id} else old(files)
      ensures past == old(past) + [files] && faults == old(faults) + if ok then 0 else 1
    {
      ok := *;
      if ok { files := files - {id}; }
      past, faults := past + [files], faults + if ok then 0 else 1;
    }
  }

  datatype Undo = Restore(id: string, c: Collection) | Erase(id: string)

  function ApplyUndo(f: Forest, u: Undo): Forest {
    match u
    case Restore(id, c) => f[id := c]
    case Erase(id) => f - {id}
  }

  /** The files after the undos have run, last first, all of them successfully. */
  function Undone(f: Forest, undos: seq<Undo>): Forest
    decreases undos
  {
    if undos == [] then f else Undone(ApplyUndo(f, undos[|undos| - 1]), undos[..|undos| - 1])
  }

  /** The files hold `g` at some moment of a rollback in which any undo may fail. */
  ghost predicate Partial(f: Forest, undos: seq<Undo>, g: Forest)
    decreases undos
  {
    g == f || (undos != [] &&
      (Partial(f, undos[..|undos| - 1], g) || Partial(ApplyUndo(f, undos[|undos| - 1]), undos[..|undos| - 1], g)))
  }

  /** `prev` is what the file held. */
  predicate Describes(f: Forest, id: string, prev: Option<Collection>) {
    prev == if id in f then Some(f[id]) else None
  }

  /** A write together with its undo leaves the outcome of a full rollback where it was. */
  lemma WriteUndone(f: Forest, undos: seq<Undo>, id: string, prev: Option<Collection>, next: Collection)
    requires Describes(f, id, prev)
    ensures Undone(f[id := next], undos + [if prev.None? then Erase(id) else Restore(id, prev.value)])
      == Undone(f, undos)
  {
    var u := if prev.None? then Erase(id) else Restore(id, prev.value);
    assert ApplyUndo(f[id := next], u) == f;
    assert (undos + [u])[..|undos|] == undos;
  }

  lemma DeleteUndone(f: Forest, undos: seq<Undo>, id: string)
    requires id in f
    ensures Undone(f - {id}, undos + [Restore(id, f[id])]) == Undone(f, undos)
  {
    assert ApplyUndo(f - {id}, Restore(id, f[id])) == f;
    assert (undos + [Restore(id, f[id])])[..|undos|] == undos;
  }

  class Unit {
    const repo: Repository
    var undos: seq<Undo>
    var failed: bool

    constructor (repo: Repository)
      ensures this.repo == repo && undos == [] && !failed
    {
      this.repo := repo;
      undos, failed := [], false;
    }

    /** Skipped once a write has failed. */
    method SaveCollection(id: string, prev: Option<Collection>, next: Collection)
      modifies this, repo
      ensures repo.past == old(repo.past) + (if old(failed) then [] else [repo.files])
      ensures repo.faults == old(repo.faults) + if failed && !old(failed) then 1 else 0
      ensures old(failed) ==> failed && repo.files == old(repo.files) && undos == old(undos)
      ensures !old(failed) && failed ==> repo.files == old(repo.files) && undos == old(undos)
      ensures !failed ==> repo.files == old(repo.files)[id := next]
      ensures !failed ==> undos == old(undos) + [if prev.None? then Erase(id) else Restore(id, prev.value)]
      ensures Describes(old(repo.files), id, prev) ==> Undone(repo.files, undos) == old(Undone(repo.files, undos))
    {
      if failed { return; }
      var ok := repo.Save(id, next);
      if !ok {
        failed := true;
        return;
      }
      if Describes(old(repo.files), id, prev) { WriteUndone(old(repo.files), undos, id, prev, next); }
      if prev.None? {
        undos := undos + [Erase(id)];
      } else {
        undos := undos + [Restore(id, prev.value)];
      }
    }

    method DeleteCollection(id: string, prev: Collection)
      modifies this, repo
      ensures repo.past == old(repo.past) + (if old(failed) then [] else [repo.files])
      ensures repo.faults == old(repo.faults) + if failed && !old(failed) then 1 else 0
      ensures old(failed) ==> failed && repo.files == old(repo.files) && undos == old(undos)
      ensures !old(failed) && failed ==> repo.files == old(repo.files) && undos == old(undos)
      ensures !failed ==> repo.files == old(repo.files) - {id} && undos == old(undos) + [Restore(id, prev)]
      ensures Describes(old(repo.files), id, Some(prev)) ==> Undone(repo.files, undos) == old(Undone(repo.files, undos))
    {
      if failed { return; }
      var ok := repo.Delete(id);
      if !ok {
        failed := true;
        return;
      }
      if Describes(old(repo.files), id, Some(prev)) { DeleteUndone(old(repo.files), undos, id); }
      undos := undos + [Restore(id, prev)];
    }

    /** When no undo fails the files are what a full rollback leaves; at any moment in between they are
        what some of the undos leave. */
    method Rollback()
      modifies this, repo
      ensures undos == [] && failed == old(failed)
      ensures old(repo.faults) <= repo.faults
      ensures repo.faults == old(repo.faults) ==> repo.files == old(Undone(repo.files, undos))
      ensures Partial(old(repo.files), old(undos), repo.files)
      ensures old(repo.past) <= repo.past
      ensures forall k :: |old(repo.past)| <= k < |repo.past| ==> Partial(old(repo.files), old(undos), repo.past[k])
    {
      var i := |undos|;
      assert undos[..i] == undos;
      while i > 0
        invariant 0 <= i <= |undos| && undos == old(undos) && failed == old(failed)
        invariant old(repo.faults) <= repo.faults
        invariant repo.faults == old(repo.faults) ==> Undone(repo.files, undos[..i]) == old(Undone(repo.files, undos))
        invariant forall g :: Partial(repo.files, undos[..i], g) ==> Partial(old(repo.files), undos, g)
        invariant old(repo.past) <= repo.past
        invariant forall k :: |old(repo.past)| <= k < |repo.past| ==> Partial(old(repo.files), undos, repo.past[k])
      {
        i := i - 1;
        assert undos[..i + 1][..i] == undos[..i];
        ghost var before := repo.files;
        match undos[i] {
          case Restore(id, c) => var _ := repo.Save(id, c);
          case Erase(id) => var _ := repo.Delete(id);
        }
        assert Partial(repo.files, undos[..i], repo.files);
        forall g | Partial(repo.files, undos[..i], g) ensures Partial(before, undos[..i + 1], g) {}
      }
      undos := [];
    }
  }
}
