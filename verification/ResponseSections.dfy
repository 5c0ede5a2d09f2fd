/**
 * The store of truncated responses, one function per critical section of its mutex. The value includes the
 * temporary files that exist; whether the operating system lets a file go is a parameter.
 */
module ResponseSections {
  import opened Common

  type Id = string
  type Path = string

  const MAX_FILES := 8
  const MAX_TOTAL := 0x8000_0000
  const MAX_SPILLS := 2
  /** Sixty minutes in nanoseconds. */
  const READY_TTL := 3_600_000_000_000

  datatype Phase = Running | Ready | Saving

  datatype Entry = Entry(phase: Phase, path: Option<Path>, contentType: string, reserved: int, spilling: bool,
                         readyAt: int) {
    predicate HasFile() { spilling || path.Some? }
    predicate Expired(now: int) { phase.Ready? && now - readyAt >= READY_TTL }
  }

  const RESERVATION := Entry(Running, None, "", 0, false, 0)

  datatype Store = Store(entries: map<Id, Entry>, total: int, files: int, spilling: int, closed: bool, disk: set<Path>)

  datatype Outcome = Done | Unavailable | Busy | StorageLimit | WriteFailed | DiscardFailed | SaveFailed

  function At(p: Option<Path>): set<Path> {
    if p.Some? then {p.value} else {}
  }

  /** dropLocked. */
  function Drop(s: Store, id: Id): Store {
    if id !in s.entries then s
    else if s.entries[id].HasFile() then
      s.(total := s.total - s.entries[id].reserved, files := s.files - 1, entries := s.entries - {id})
    else s.(entries := s.entries - {id})
  }

  /** An entry leaves together with its file. */
  function Forget(s: Store, id: Id): Store {
    Drop(if id in s.entries then s.(disk := s.disk - At(s.entries[id].path)) else s, id)
  }

  /** The entries of `gone`, whose files could be removed, leave in that order. */
  function Evict(s: Store, gone: seq<Id>): Store {
    if gone == [] then s else Forget(Evict(s, gone[..|gone| - 1]), gone[|gone| - 1])
  }

  ghost predicate Evictable(s: Store, gone: seq<Id>, now: int) {
    forall k :: 0 <= k < |gone| ==> gone[k] in s.entries && s.entries[gone[k]].Expired(now) && gone[k] !in gone[..k]
  }

  function BeginSection(s: Store, id: Id, gone: seq<Id>): (Store, Outcome) {
    if s.closed then (s, Unavailable)
    else
      var t := Evict(s, gone);
      if id in t.entries then (t, Busy) else (t.(entries := t.entries[id := RESERVATION]), Done)
  }

  function FinishSection(s: Store, id: Id): Store {
    if id in s.entries && s.entries[id].phase.Running? && !s.entries[id].spilling then
      s.(entries := s.entries - {id})
    else s
  }

  /** `ready` says whether the session directory exists or could be made. */
  function StartSpillSection(s: Store, id: Id, reserve: int, gone: seq<Id>, ready: bool): (Store, Outcome) {
    if s.closed then (s, Unavailable)
    else
      var t := Evict(s, gone);
      if id !in t.entries || !t.entries[id].phase.Running? || t.entries[id].HasFile() then (t, Busy)
      else if t.files + 1 > MAX_FILES || t.total + reserve > MAX_TOTAL || t.spilling + 1 > MAX_SPILLS then
        (t, StorageLimit)
      else if !ready then (t, WriteFailed)
      else (Marked(t, id, reserve), Done)
  }

  /** The space a spill may need is reserved before it writes. */
  function Marked(s: Store, id: Id, reserve: int): Store
    requires id in s.entries
  {
    s.(entries := s.entries[id := s.entries[id].(spilling := true, reserved := reserve)],
       total := s.total + reserve, files := s.files + 1, spilling := s.spilling + 1)
  }

  function AbortSpillSection(s: Store, id: Id): Store {
    var t := s.(spilling := s.spilling - 1);
    if id !in t.entries || !t.entries[id].spilling then t
    else t.(total := t.total - t.entries[id].reserved, files := t.files - 1,
            entries := t.entries[id := t.entries[id].(spilling := false, reserved := 0)])
  }

  function CommitSpillSection(s: Store, id: Id, path: Path, written: int, contentType: string, now: int,
                              removed: bool): (Store, Outcome)
  {
    var t := s.(spilling := s.spilling - 1);
    if t.closed || id !in t.entries || !t.entries[id].spilling then
      (if removed then t.(disk := t.disk - {path}) else t, Unavailable)
    else
      var e := t.entries[id];
      (t.(total := t.total + (written - e.reserved),
          entries := t.entries[id := Entry(Ready, Some(path), contentType, written, false, now)]), Done)
  }

  function AcquireSaveSection(s: Store, id: Id, gone: seq<Id>): (Store, Outcome) {
    if s.closed then (s, Unavailable)
    else
      var t := Evict(s, gone);
      if id !in t.entries then (t, Unavailable)
      else if !t.entries[id].phase.Ready? then (t, Busy)
      else (t.(entries := t.entries[id := t.entries[id].(phase := Saving)]), Done)
  }

  function DiscardSection(s: Store, id: Id, removed: bool): (Store, Outcome) {
    if id !in s.entries then (s, Unavailable)
    else if !s.entries[id].phase.Ready? then (s, Busy)
    else if !removed then (s, DiscardFailed)
    else (Forget(s, id), Done)
  }

  /** Everything but the entries being saved leaves; `swept` are the files that went with it. */
  function CleanupSection(s: Store, dropped: seq<Id>, swept: set<Path>): Store {
    DropAll(s, dropped).(closed := true, disk := s.disk - swept)
  }

  function DropAll(s: Store, dropped: seq<Id>): Store {
    if dropped == [] then s else Drop(DropAll(s, dropped[..|dropped| - 1]), dropped[|dropped| - 1])
  }

  /** What a cleanup may drop, and what it may delete: nothing that is being saved, and the directory only
      when nothing is. */
  ghost predicate Cleanable(s: Store, dropped: seq<Id>, swept: set<Path>) {
    && (forall id :: id in dropped <==> id in s.entries && !s.entries[id].phase.Saving?)
    && ((exists id :: id in s.entries && s.entries[id].phase.Saving?) ==> swept <= PathsOf(s.entries, dropped))
  }

  ghost function PathsOf(m: map<Id, Entry>, ids: seq<Id>): set<Path> {
    set id | id in ids && id in m && m[id].path.Some? :: m[id].path.value
  }

  /** A lease gives its entry back; a file that is gone or cannot be looked up (`seen` is false), or a store
      that is closed, ends the tracking. */
  function RestoreSection(s: Store, id: Id, removed: bool, seen: bool): Store {
    if id !in s.entries || !s.entries[id].phase.Saving? then s
    else if s.closed then if removed then Forget(s, id) else Drop(s, id)
    else if !seen || At(s.entries[id].path) !! s.disk then Drop(s, id)
    else s.(entries := s.entries[id := s.entries[id].(phase := Ready)])
  }

  // ---------------------------------------------------------------- accounting

  ghost function Holders(m: map<Id, Entry>): set<Id> {
    set id | id in m && m[id].HasFile()
  }

  ghost function Sum(m: map<Id, Entry>): int
    decreases |m|
  {
    if m == map[] then 0
    else
      var id :| id in m;
      m[id].reserved + Sum(m - {id})
  }

  lemma {:induction false} SumWithout(m: map<Id, Entry>, id: Id)
    requires id in m
    ensures Sum(m) == m[id].reserved + Sum(m - {id})
    decreases |m|
  {
    var first :| first in m && Sum(m) == m[first].reserved + Sum(m - {first});
    if first != id {
      SumWithout(m - {first}, id);
      SumWithout(m - {id}, first);
      assert m - {first} - {id} == m - {id} - {first};
    }
  }

  lemma {:induction false} SumNonNegative(m: map<Id, Entry>)
    requires forall id :: id in m ==> m[id].reserved >= 0
    ensures Sum(m) >= 0
    ensures forall id :: id in m ==> m[id].reserved <= Sum(m)
    decreases |m|
  {
    if m != map[] {
      forall id | id in m ensures 0 <= m[id].reserved <= Sum(m) {
        SumNonNegative(m - {id});
        SumWithout(m, id);
      }
      var id :| id in m;
      assert m[id].reserved <= Sum(m);
    }
  }

  /** The counters say what the entries say. */
  ghost predicate Balanced(s: Store) {
    s.files == |Holders(s.entries)| && s.total == Sum(s.entries)
  }

  ghost predicate WellFormed(e: Entry) {
    && e.reserved >= 0
    && (!e.HasFile() ==> e.reserved == 0)
    && (e.phase.Running? <==> e.path.None?)
    && (e.spilling ==> e.phase.Running?)
  }

  lemma DropBalanced(s: Store, id: Id)
    requires Balanced(s) && (id in s.entries ==> WellFormed(s.entries[id]))
    ensures Balanced(Drop(s, id))
    ensures Drop(s, id).total <= s.total && Drop(s, id).files <= s.files
  {
    if id in s.entries {
      SumWithout(s.entries, id);
      assert Holders(s.entries - {id}) == Holders(s.entries) - {id};
    }
  }

  lemma HoldersWrite(m: map<Id, Entry>, id: Id, e: Entry)
    ensures Holders(m[id := e]) == if e.HasFile() then Holders(m) + {id} else Holders(m) - {id}
  {
  }

  lemma SumWrite(m: map<Id, Entry>, id: Id, e: Entry)
    ensures Sum(m[id := e]) == Sum(m) + e.reserved - (if id in m then m[id].reserved else 0)
  {
    SumWithout(m[id := e], id);
    assert m[id := e] - {id} == m - {id};
    if id in m { SumWithout(m, id); } else { assert m - {id} == m; }
  }

  /** Writing one entry moves the counters by the difference. */
  lemma WriteBalanced(s: Store, id: Id, e: Entry)
    requires Balanced(s)
    ensures var m := s.entries[id := e];
      && Sum(m) == s.total + e.reserved - (if id in s.entries then s.entries[id].reserved else 0)
      && |Holders(m)| == s.files + (if e.HasFile() then 1 else 0) - (if id in Holders(s.entries) then 1 else 0)
  {
    SumWrite(s.entries, id, e);
    HoldersWrite(s.entries, id, e);
  }
}
