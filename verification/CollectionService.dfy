/**
 * The collection service: a cache of collections over the repository, and the sidebar layout beside it.
 * Operations work on copies and publish them in the cache only when every file was written.
 */
module CollectionService {
  import opened Common
  import opened Tree
  import opened Recovery
  import opened Moves
  import opened UnitOfWork
  import opened SidebarLayout

  // ---------------------------------------------------------------- the sidebar layout file

  datatype Stored = Absent | Good(entries: seq<Entry>) | Corrupt

  /** An existing entry moved within the layout; None when it is not there. */
  function MoveEntry(layout: seq<Entry>, entry: Entry, position: int): Option<seq<Entry>> {
    if entry in layout then Some(MoveWithin(layout, FirstIndex(layout, entry), position)) else None
  }

  /** The changes the operations make to whatever is stored when they are applied. */
  datatype Change =
    | Append(entry: Entry)
    | Remove(entry: Entry)
    | Place(entry: Entry, position: int)
    | Reorder(candidates: seq<Entry>, entry: Entry, position: int)

  /** None refuses the change. */
  function Applied(change: Change, layout: seq<Entry>): Option<seq<Entry>> {
    match change
    case Append(e) => Some(layout + [e])
    case Remove(e) => Some(Without(layout, e))
    case Place(e, position) => Some(InsertAt(layout, e, position))
    case Reorder(candidates, e, position) => MoveEntry(Reconciled(layout, candidates), e, position)
  }

  class LayoutService {
    var stored: Stored
    /** How often the file could not be read or written. */
    ghost var faults: nat

    /** What the next successful load returns. */
    function Loaded(): seq<Entry>
      reads this
    {
      if stored.Good? then stored.entries else []
    }

    /** None when reading fails; a corrupt file is put aside, if that works, and counts as empty. */
    method Load() returns (r: Option<seq<Entry>>)
      modifies this
      ensures r.Some? ==> r.value == old(Loaded()) && faults == old(faults)
      ensures r.None? ==> faults == old(faults) + 1
      ensures Loaded() == old(Loaded())
    {
      var readable: bool := *;
      if !readable {
        faults := faults + 1;
        return None;
      }
      r := Some(Loaded());
      if stored.Corrupt? {
        var quarantined: bool := *;
        if quarantined { stored := Absent; }
      }
    }

    method Save(layout: seq<Entry>) returns (ok: bool)
      modifies this
      ensures stored == if ok then Good(layout) else old(stored)
      ensures faults == old(faults) + if ok then 0 else 1
    {
      ok := *;
      if ok { stored := Good(layout); } else { faults := faults + 1; }
    }

    /** Nothing is written when the layout cannot be read or the change is refused. */
    method Update(change: Change) returns (ok: bool)
      modifies this
      ensures ok ==> Applied(change, old(Loaded())).Some? && stored == Good(Applied(change, old(Loaded())).value)
      ensures !ok ==> Loaded() == old(Loaded())
      ensures old(faults) <= faults && (ok <==> Applied(change, old(Loaded())).Some? && faults == old(faults))
    {
      var layout := Load();
      if layout.None? { return false; }
      var next := Applied(change, layout.value);
      if next.None? { return false; }
      ok := Save(next.value);
    }
  }

  // ---------------------------------------------------------------- crash safety

  function WithRoot(f: Forest): Forest {
    if ROOT_ID in f then f else f[ROOT_ID := Collection(ROOT_ID, [])]
  }

  /** Recovering duplicates gives one of the two forests. */
  ghost predicate Recovers(g: Forest, f: Forest, after: Forest) {
    g.Keys == f.Keys == after.Keys &&
    forall order :: IsScanOrder(order, f.Keys) ==> RecoverFrom(g, order, {}) == f || RecoverFrom(g, order, {}) == after
  }

  /** Reading `g` back, adding a root if there is none, and recovering duplicates gives one of the two
      forests. */
  ghost predicate OneOf(g: Forest, f: Forest, after: Forest) {
    Recovers(g, f, after) && Recovers(WithRoot(g), WithRoot(f), WithRoot(after))
  }

  /** The file states of a move. */
  ghost predicate Passed(g: Forest, f: Forest, src: string, dst: string, m: Moved)
    requires src in f && dst in f
  {
    g == f || g == Halfway(f, dst, m) || g == After(f, src, dst, m)
  }

  /** Within one collection there is only one write. */
  lemma MoveInsideRecovers(f: Forest, src: string, itemID: string, parentID: string, position: int, g: Forest)
    requires AllUnique(f) && Move(f, src, itemID, src, parentID, position).Ok?
    requires Passed(g, f, src, src, Move(f, src, itemID, src, parentID, position).value)
    ensures Recovers(g, f, After(f, src, src, Move(f, src, itemID, src, parentID, position).value))
  {
    var m := Move(f, src, itemID, src, parentID, position).value;
    var after := After(f, src, src, m);
    MoveMeaning(f, src, itemID, src, parentID, position);
    assert Halfway(f, src, m) == after && after.Keys == f.Keys;
    assert g == f || g == after;
    SelfRecovers(f);
    SelfRecovers(after);
  }

  lemma SelfRecovers(f: Forest)
    requires AllUnique(f)
    ensures forall order :: IsScanOrder(order, f.Keys) ==> RecoverFrom(f, order, {}) == f
  {
    forall order | IsScanOrder(order, f.Keys) ensures RecoverFrom(f, order, {}) == f { RecoverUnique(f, order); }
  }

  lemma MoveRecovers(f: Forest, src: string, itemID: string, dst: string, parentID: string, position: int, g: Forest)
    requires AllUnique(f) && Move(f, src, itemID, dst, parentID, position).Ok?
    requires Passed(g, f, src, dst, Move(f, src, itemID, dst, parentID, position).value)
    ensures Recovers(g, f, After(f, src, dst, Move(f, src, itemID, dst, parentID, position).value))
  {
    if src == dst {
      MoveInsideRecovers(f, src, itemID, parentID, position, g);
    } else {
      var m := Move(f, src, itemID, dst, parentID, position).value;
      forall order | IsScanOrder(order, f.Keys)
        ensures RecoverFrom(g, order, {}) == f || RecoverFrom(g, order, {}) == After(f, src, dst, m)
      {
        CrashAtomic(f, src, itemID, dst, parentID, position, order);
      }
    }
  }

  lemma RootUnique(f: Forest)
    requires AllUnique(f)
    ensures AllUnique(WithRoot(f))
  {
    var all := WithRoot(f);
    forall k, l | k in all && l in all && k != l ensures Apart(all[k].items, all[l].items) {
      if k in f && l in f { assert Apart(f[k].items, f[l].items); }
    }
  }

  /** A root that is added takes no part in the move. */
  lemma MoveBesideRoot(f: Forest, src: string, itemID: string, dst: string, parentID: string, position: int, g: Forest)
    requires Move(f, src, itemID, dst, parentID, position).Ok?
    requires Passed(g, f, src, dst, Move(f, src, itemID, dst, parentID, position).value)
    ensures var m := Move(f, src, itemID, dst, parentID, position).value;
      && Move(WithRoot(f), src, itemID, dst, parentID, position) == Ok(m)
      && Passed(WithRoot(g), WithRoot(f), src, dst, m)
      && After(WithRoot(f), src, dst, m) == WithRoot(After(f, src, dst, m))
  {
    var m := Move(f, src, itemID, dst, parentID, position).value;
    assert Halfway(WithRoot(f), dst, m) == WithRoot(Halfway(f, dst, m));
  }

  lemma MoveStatesSafe(f: Forest, src: string, itemID: string, dst: string, parentID: string, position: int, g: Forest)
    requires AllUnique(f) && Move(f, src, itemID, dst, parentID, position).Ok?
    requires Passed(g, f, src, dst, Move(f, src, itemID, dst, parentID, position).value)
    ensures OneOf(g, f, After(f, src, dst, Move(f, src, itemID, dst, parentID, position).value))
  {
    MoveRecovers(f, src, itemID, dst, parentID, position, g);
    MoveBesideRoot(f, src, itemID, dst, parentID, position, g);
    RootUnique(f);
    MoveRecovers(WithRoot(f), src, itemID, dst, parentID, position, WithRoot(g));
  }

  /** A failed move leaves the files untouched, or halfway with the undo that takes them back. */
  ghost predicate WriteStopped(files: Forest, undos: seq<Undo>, f: Forest, dst: string, m: Moved)
    requires dst in f
  {
    || (undos == [] && files == f)
    || (undos == [Restore(dst, f[dst])] && files == Halfway(f, dst, m))
  }

  lemma HalfwayUndone(f: Forest, src: string, dst: string, m: Moved, undos: seq<Undo>, files: Forest)
    requires src in f && dst in f && WriteStopped(files, undos, f, dst, m)
    ensures Undone(files, undos) == f
    ensures forall g :: Partial(files, undos, g) ==> Passed(g, f, src, dst, m)
  {
    if undos != [] {
      assert undos[..|undos| - 1] == [];
      assert Halfway(f, dst, m)[dst := f[dst]] == f;
    }
  }

  /** Every file state a move passes through is safe, and its result has unique IDs again. */
  lemma MoveSafe(f: Forest, src: string, itemID: string, dst: string, parentID: string, position: int,
                 was: seq<Forest>, past: seq<Forest>)
    requires AllUnique(f) && Move(f, src, itemID, dst, parentID, position).Ok?
    ensures var m := Move(f, src, itemID, dst, parentID, position).value;
      && AllUnique(After(f, src, dst, m))
      && ((forall k :: |was| <= k < |past| ==> Passed(past[k], f, src, dst, m))
        ==> forall k :: |was| <= k < |past| ==> OneOf(past[k], f, After(f, src, dst, m)))
  {
    var m := Move(f, src, itemID, dst, parentID, position).value;
    MoveMeaning(f, src, itemID, dst, parentID, position);
    forall k | |was| <= k < |past| && Passed(past[k], f, src, dst, m)
      ensures OneOf(past[k], f, After(f, src, dst, m))
    {
      MoveStatesSafe(f, src, itemID, dst, parentID, position, past[k]);
    }
  }

  /** One item under a new ID keeps IDs unique. */
  lemma AddUnique(f: Forest, k: string, parentID: string, item: Node)
    requires AllUnique(f) && k in f && item.children == [] && forall l :: l in f ==> !Occurs(f[l].items, item.id)
    requires InsertItem(f[k].items, parentID, item, -1).Some?
    ensures AllUnique(WithItems(f, k, InsertItem(f[k].items, parentID, item, -1).value))
  {
    var items := InsertItem(f[k].items, parentID, item, -1).value;
    forall q { Single(item, q); }
    Single(item, ById(item.id));
    InsertMeaning(f[k].items, parentID, item, -1);
    forall id ensures Count(items, ById(id)) <= 1 {
      assert Count(items, ById(id)) == Count(f[k].items, ById(id)) + Count([item], ById(id));
      assert Count(f[k].items, ById(id)) <= 1;
    }
    var g := WithItems(f, k, items);
    forall a, b | a in g && b in g && a != b ensures Apart(g[a].items, g[b].items) {
      assert Apart(f[a].items, f[b].items);
      forall id ensures !(Occurs(g[a].items, id) && Occurs(g[b].items, id)) {
        assert Count(items, ById(id)) == Count(f[k].items, ById(id)) + Count([item], ById(id));
      }
    }
  }

  /** Fewer items are still unique. */
  lemma RemoveUnique(f: Forest, k: string, id: string)
    requires AllUnique(f) && k in f && Has(f[k].items, id)
    ensures AllUnique(WithItems(f, k, RemoveNode(f[k].items, id)))
  {
    var items := RemoveNode(f[k].items, id);
    forall x ensures Count(items, ById(x)) <= Count(f[k].items, ById(x)) { RemoveCount(f[k].items, id, ById(x)); }
    RemoveCount(f[k].items, id, ById(id));
    forall x ensures Count(items, ById(x)) <= 1 { assert Count(f[k].items, ById(x)) <= 1; }
    var g := WithItems(f, k, items);
    forall a, b | a in g && b in g && a != b ensures Apart(g[a].items, g[b].items) {
      assert Apart(f[a].items, f[b].items);
    }
  }

  /** One round of the recovery, on the collections changed so far. */
  lemma DropOne(cols: Forest, changed: Forest, order: seq<string>, seen: set<string>)
    requires order != [] && order[0] in cols && order[0] !in changed
    ensures var (dup, after) := CollectDuplicateIDs(cols[order[0]].items, seen);
      var next := if dup == [] then changed
                  else changed[order[0] := cols[order[0]].(items := RemoveAll(cols[order[0]].items, dup))];
      RecoverFrom(cols + changed, order, seen) == RecoverFrom(cols + next, order[1..], after)
  {
    var id := order[0];
    var (dup, after) := CollectDuplicateIDs(cols[id].items, seen);
    var was := cols + changed;
    assert was[id] == cols[id];
    if dup != [] {
      var c := cols[id].(items := RemoveAll(cols[id].items, dup));
      assert cols + changed[id := c] == was[id := c];
    } else {
      SameEntry(was, id);
    }
  }

  /** No collection is returned that is as it was. */
  ghost predicate Differing(cols: Forest, changed: Forest) {
    forall k :: k in changed ==> k in cols && changed[k] != cols[k]
  }

  method DropFrom(cols: Forest, changed: Forest, id: string, seen: set<string>, ghost order: seq<string>)
    returns (next: Forest, after: set<string>)
    requires id in cols && id !in changed && changed.Keys <= cols.Keys && order != [] && order[0] == id
    requires forall k :: k in changed ==> changed[k].name == cols[k].name
    ensures changed.Keys <= next.Keys <= changed.Keys + {id}
    ensures forall k :: k in next ==> next[k].name == cols[k].name
    ensures RecoverFrom(cols + changed, order, seen) == RecoverFrom(cols + next, order[1..], after)
    ensures Differing(cols, changed) && Plain(cols[id].items) ==> Differing(cols, next)
  {
    DropOne(cols, changed, order, seen);
    var (dup, nowSeen) := CollectDuplicateIDs(cols[id].items, seen);
    next, after := changed, nowSeen;
    if dup != [] {
      if Plain(cols[id].items) { FlaggedChanges(cols[id].items, seen); }
      next := changed[id := cols[id].(items := RemoveAll(cols[id].items, dup))];
    }
  }

  method DropAlong(cols: Forest, ids: seq<string>) returns (changed: Forest)
    requires NoRepeats(ids) && forall id :: id in ids ==> id in cols
    ensures changed.Keys <= cols.Keys && cols + changed == RecoverFrom(cols, ids, {})
    ensures forall k :: k in changed ==> changed[k].name == cols[k].name
    ensures (forall id :: id in ids ==> Plain(cols[id].items)) ==> Differing(cols, changed)
  {
    var seen: set<string> := {};
    changed := map[];
    assert cols + changed == cols && ids[0..] == ids;
    for i := 0 to |ids|
      invariant changed.Keys <= cols.Keys
      invariant forall k :: k in changed ==> changed[k].name == cols[k].name
      invariant forall k :: i <= k < |ids| ==> ids[k] !in changed
      invariant RecoverFrom(cols + changed, ids[i..], seen) == RecoverFrom(cols, ids, {})
      invariant (forall id :: id in ids ==> Plain(cols[id].items)) ==> Differing(cols, changed)
    {
      assert ids[i] in ids && ids[i..][1..] == ids[i + 1..];
      changed, seen := DropFrom(cols, changed, ids[i], seen, ids[i..]);
    }
  }

  /** dropDuplicateItems: the changed collections, the input left alone. */
  method DropDuplicateItems(cols: Forest) returns (changed: Forest, ghost order: seq<string>)
    ensures IsScanOrder(order, cols.Keys)
    ensures changed.Keys <= cols.Keys && cols + changed == RecoverFrom(cols, order, {})
    ensures forall k :: k in changed ==> changed[k].name == cols[k].name
    ensures (forall k :: k in cols ==> Plain(cols[k].items)) ==> Differing(cols, changed)
  {
    var ids := DuplicateScanOrder(cols.Keys);
    order := ids;
    OrderOfScan(ids, cols.Keys);
    changed := DropAlong(cols, ids);
  }

  /** With unique IDs there is nothing to recover. */
  lemma NothingChanged(f: Forest, order: seq<string>, changed: Forest)
    requires AllUnique(f) && IsScanOrder(order, f.Keys) && f + changed == RecoverFrom(f, order, {})
    requires (forall k :: k in f ==> Plain(f[k].items)) ==> Differing(f, changed)
    ensures changed == map[]
  {
    assert forall k :: k in changed ==> (f + changed)[k] == changed[k];
    RecoverUnique(f, order);
  }

  // ---------------------------------------------------------------- what the sidebar shows

  /** What the sidebar must list. */
  ghost predicate ListableIn(f: Forest, e: Entry) {
    || (e.kind == COLLECTION_KIND && e.id in f && e.id != ROOT_ID)
    || (ROOT_ID in f && e in ItemEntries(f[ROOT_ID].items))
  }

  lemma {:induction false} ItemEntryIff(items: seq<Node>, e: Entry)
    ensures e in ItemEntries(items) <==> e.kind == ITEM_KIND && exists n :: n in items && n.id == e.id
  {
    if e in ItemEntries(items) {
      var i :| 0 <= i < |items| && ItemEntries(items)[i] == e;
      assert items[i] in items;
    }
    if e.kind == ITEM_KIND && exists n :: n in items && n.id == e.id {
      var i :| 0 <= i < |items| && items[i].id == e.id;
      assert ItemEntries(items)[i] == e;
    }
  }

  /** Removal takes no other entry off the top level, and puts none there. */
  lemma {:induction false} RemoveEntries(items: seq<Node>, id: string, e: Entry)
    requires e.id != id
    ensures e in ItemEntries(RemoveNode(items, id)) <==> e in ItemEntries(items)
    decreases items
  {
    ItemEntryIff(items, e);
    ItemEntryIff(RemoveNode(items, id), e);
    if items != [] {
      var n, rest := items[0], items[1..];
      assert items == [n] + rest;
      ItemEntryIff(rest, e);
      if n.id != id && n.kind == Folder && Has(n.children, id) {
        var m := n.(children := RemoveNode(n.children, id));
        assert RemoveNode(items, id) == [m] + rest && m.id == n.id;
        assert m in [m] + rest && n in items;
        assert forall x :: x in rest ==> x in [m] + rest;
        assert forall x :: x in items ==> x == n || x in rest;
      } else if n.id != id {
        RemoveEntries(rest, id, e);
        ItemEntryIff(RemoveNode(rest, id), e);
        assert RemoveNode(items, id) == [n] + RemoveNode(rest, id);
      }
    }
  }

  lemma {:induction false} FoundID(items: seq<Node>, id: string, parent: Option<Node>)
    requires FindNode(id, items, parent).Some?
    ensures FindNode(id, items, parent).value.node.id == id
    decreases items
  {
    if items[0].id != id {
      if items[0].kind == Folder && FindNode(id, items[0].children, Some(items[0])).Some? {
        FoundID(items[0].children, id, Some(items[0]));
      } else {
        FoundID(items[1..], id, parent);
      }
    }
  }

  /** After a move to the end of the root the sidebar must list what it had to list before, and the item. */
  lemma ListableAfter(f: Forest, src: string, itemID: string, e: Entry)
    requires Move(f, src, itemID, ROOT_ID, "", -1).Ok?
    ensures ListableIn(After(f, src, ROOT_ID, Move(f, src, itemID, ROOT_ID, "", -1).value), e)
       <==> ListableIn(f, e) || e == Entry(ITEM_KIND, itemID)
  {
    var m := Move(f, src, itemID, ROOT_ID, "", -1).value;
    var base := if src == ROOT_ID then RemoveNode(f[src].items, itemID) else f[ROOT_ID].items;
    var item := NodeOf(f[src].items, itemID);
    FoundID(f[src].items, itemID, None);
    assert m.dst == base + [item];
    ItemEntryIff(base + [item], e);
    ItemEntryIff(base, e);
    if e.id != itemID { RemoveEntries(f[ROOT_ID].items, itemID, e); }
    assert item in base + [item];
    assert e in ItemEntries(base + [item]) <==> e in ItemEntries(base) || e == Entry(ITEM_KIND, itemID);
    ItemEntryIff(f[ROOT_ID].items, e);
    if e.id == itemID && e.kind == ITEM_KIND { assert e == Entry(ITEM_KIND, itemID); }
  }

  /** The stored layout before the place has no stale entry, no repeat, and not the entry itself. */
  ghost predicate PlaceClearIn(f: Forest, stored: seq<Entry>, entry: Entry, p: int) {
    PlaceClear(stored, entry, p) && forall e :: e in stored[..p] ==> ListableIn(f, e)
  }

  /** Where the sidebar shows an item moved to it: at the asked place exactly under that condition, which
      can be read off the collections and the stored layout before the move. */
  lemma PlaceAfterMove(f: Forest, src: string, itemID: string, stored: seq<Entry>, p: int, candidates: seq<Entry>)
    requires Move(f, src, itemID, ROOT_ID, "", -1).Ok?
    requires var g := After(f, src, ROOT_ID, Move(f, src, itemID, ROOT_ID, "", -1).value);
      forall e :: e in candidates <==> ListableIn(g, e)
    ensures var entry := Entry(ITEM_KIND, itemID);
      var shown := Reconciled(InsertAt(stored, entry, p), candidates);
      entry in shown && (FirstIndex(shown, entry) == p <==> PlaceClearIn(f, stored, entry, p))
  {
    var entry := Entry(ITEM_KIND, itemID);
    forall e ensures e in candidates <==> ListableIn(f, e) || e == entry { ListableAfter(f, src, itemID, e); }
    PlaceShown(stored, entry, p, candidates);
  }

  class Service {
    const repo: Repository
    const layout: LayoutService
    var cache: Forest

    constructor (repo: Repository, layout: LayoutService)
      ensures this.repo == repo && this.layout == layout && cache == map[]
    {
      this.repo, this.layout, this.cache := repo, layout, map[];
    }

    /** Cache and files say the same. */
    ghost predicate Agree()
      reads this, repo
    {
      cache == repo.files
    }

    /** Creates __root__ only when there is no file of it. */
    method EnsureRootCollection() returns (ok: bool)
      requires Agree()
      modifies this`cache, repo
      ensures Agree() && cache == if ROOT_ID in cache then WithRoot(old(cache)) else old(cache)
      ensures ok && ROOT_ID !in cache ==> ROOT_ID in repo.unread || repo.unclear != old(repo.unclear)
      ensures ROOT_ID !in old(cache) && (!ok || ROOT_ID in repo.unread) ==> ROOT_ID !in cache
      ensures ROOT_ID in old(cache) ==> ok
      ensures repo.unread == old(repo.unread) && repo.faults == old(repo.faults) + if ok then 0 else 1
    {
      ok := true;
      if ROOT_ID in cache { return; }
      var present := repo.Exists(ROOT_ID);
      if present == Some(false) {
        var root := Collection(ROOT_ID, []);
        ok := repo.Save(ROOT_ID, root);
        if ok { cache := cache[ROOT_ID := root]; }
      }
    }

    /** Startup: what can be read is read, and duplicates are recovered; the recovery is in effect even when
        writing it back fails.  A missing __root__ is created, but never over a file that could not be read:
        then, or when it cannot be told, the service runs without a root. */
    method Start() returns (started: bool, ghost order: seq<string>, saved: bool)
      modifies this`cache, repo
      ensures started ==> var base := if ROOT_ID in cache then WithRoot(old(repo.files)) else old(repo.files);
        IsScanOrder(order, base.Keys) && cache == RecoverFrom(base, order, {})
      ensures started && ROOT_ID !in cache ==> ROOT_ID in repo.unread || repo.unclear != old(repo.unclear)
      ensures ROOT_ID !in old(repo.files) && ROOT_ID in repo.unread ==>
        ROOT_ID !in repo.files && (started ==> ROOT_ID !in cache)
      ensures repo.files.Keys <= old(repo.files).Keys + {ROOT_ID} && repo.unread <= old(repo.unread)
      ensures started && (saved || AllUnique(old(repo.files))) ==> Agree()
      ensures old(repo.faults) <= repo.faults && (started && saved <==> repo.faults == old(repo.faults))
      ensures started && AllUnique(old(repo.files)) ==> AllUnique(cache)
      ensures !started ==> repo.files == old(repo.files) && repo.faults == old(repo.faults) + 1
    {
      saved, order := true, [];
      var loaded := repo.Load();
      if loaded.None? { return false, [], false; }
      cache := loaded.value;
      var ok := EnsureRootCollection();
      if !ok { return false, [], false; }
      if AllUnique(old(repo.files)) { RootUnique(old(repo.files)); }
      order, saved := RecoverDuplicateItems();
      started := true;
    }

    method RecoverDuplicateItems() returns (ghost order: seq<string>, saved: bool)
      requires Agree()
      modifies this`cache, repo
      ensures IsScanOrder(order, old(cache).Keys) && cache == RecoverFrom(old(cache), order, {})
      ensures cache.Keys == old(cache).Keys && repo.files.Keys <= old(repo.files).Keys
      ensures old(AllUnique(cache)) ==> cache == old(cache)
      ensures saved || old(AllUnique(cache)) ==> Agree()
      ensures repo.unread == old(repo.unread) && repo.unclear == old(repo.unclear)
      ensures old(repo.faults) <= repo.faults && (saved <==> repo.faults == old(repo.faults))
    {
      var changed: Forest;
      changed, order := DropDuplicateItems(cache);
      if AllUnique(cache) { NothingChanged(cache, order, changed); }
      saved := SaveRecovered(changed);
    }

    /** Puts the recovered collections in the cache and tries to write each of them. */
    method SaveRecovered(changed: Forest) returns (saved: bool)
      requires changed.Keys <= cache.Keys
      modifies this`cache, repo
      ensures cache == old(cache) + changed
      ensures repo.unread == old(repo.unread) && repo.unclear == old(repo.unclear)
      ensures repo.files.Keys <= old(repo.files).Keys + changed.Keys
      ensures old(repo.faults) <= repo.faults && (saved <==> repo.faults == old(repo.faults))
      ensures old(Agree()) && saved ==> Agree()
      ensures changed == map[] ==> repo.files == old(repo.files)
    {
      saved := true;
      var left := changed.Keys;
      while left != {}
        invariant left <= changed.Keys && changed.Keys <= old(cache).Keys
        invariant cache.Keys == old(cache).Keys
        invariant forall k :: k in cache ==> cache[k] == if k in changed.Keys - left then changed[k] else old(cache)[k]
        invariant old(repo.faults) <= repo.faults && (saved <==> repo.faults == old(repo.faults))
        invariant repo.unread == old(repo.unread) && repo.unclear == old(repo.unclear)
        invariant repo.files.Keys <= old(repo.files).Keys + changed.Keys
        invariant old(Agree()) && saved ==> cache == repo.files
        invariant changed == map[] ==> repo.files == old(repo.files)
        decreases left
      {
        var id :| id in left;
        assert (old(cache) + changed)[id] == changed[id];
        left := left - {id};
        cache := cache[id := changed[id]];
        var ok := repo.Save(id, changed[id]);
        if !ok { saved := false; }
      }
    }

    /** The end of every change of one collection: write it, publish it, or roll back. */
    method Commit(id: string, next: Collection) returns (ok: bool)
      requires id in cache
      modifies this`cache, repo
      ensures cache == if ok then old(cache)[id := next] else old(cache)
      ensures old(Agree()) && repo.faults <= old(repo.faults) + 1 ==> Agree()
      ensures old(repo.faults) <= repo.faults && (ok <==> repo.faults == old(repo.faults))
    {
      var uow := new Unit(repo);
      uow.SaveCollection(id, Some(cache[id]), next);
      if uow.failed {
        uow.Rollback();
        return false;
      }
      cache := cache[id := next];
      ok := true;
    }

    /** One write of a unit, with what the cache holds as its undo. */
    method WriteOne(uow: Unit, id: string, next: Collection)
      requires id in cache && uow.repo == repo
      modifies uow, repo
      ensures old(uow.failed) ==> uow.failed && repo.files == old(repo.files) && uow.undos == old(uow.undos)
      ensures old(uow.failed) ==> repo.past == old(repo.past) && repo.faults == old(repo.faults)
      ensures !old(uow.failed) ==>
        && repo.files == (if uow.failed then old(repo.files) else old(repo.files)[id := next])
        && uow.undos == (if uow.failed then old(uow.undos) else old(uow.undos) + [Restore(id, cache[id])])
        && repo.past == old(repo.past) + [repo.files]
        && repo.faults == old(repo.faults) + if uow.failed then 1 else 0
    {
      uow.SaveCollection(id, Some(cache[id]), next);
    }

    /** The target first, then the source. */
    method WriteMove(uow: Unit, src: string, dst: string, m: Moved)
      requires src in cache && dst in cache && (src == dst ==> m.src == m.dst)
      requires uow.repo == repo && uow.undos == [] && !uow.failed
      modifies uow, repo
      ensures old(Agree()) && uow.failed ==> WriteStopped(repo.files, uow.undos, cache, dst, m)
      ensures old(Agree()) && !uow.failed ==> repo.files == After(cache, src, dst, m)
      ensures repo.faults == old(repo.faults) + if uow.failed then 1 else 0
      ensures old(repo.past) <= repo.past
      ensures old(Agree()) ==> forall k :: |old(repo.past)| <= k < |repo.past| ==>
        Passed(repo.past[k], cache, src, dst, m)
    {
      var srcNext, dstNext := cache[src].(items := m.src), cache[dst].(items := m.dst);
      assert src != dst ==> cache[dst := dstNext] == Halfway(cache, dst, m);
      assert cache[dst := dstNext][src := srcNext] == After(cache, src, dst, m);
      assert src == dst ==> cache[src := srcNext] == After(cache, src, dst, m);
      if src != dst {
        WriteOne(uow, dst, dstNext);
      }
      ghost var first := repo.past;
      WriteOne(uow, src, srcNext);
      forall k | |old(repo.past)| <= k < |repo.past| && old(Agree()) ensures Passed(repo.past[k], cache, src, dst, m) {
        if k < |first| { assert repo.past[k] == first[k]; }
      }
    }

    /** The end of a move; the files agree with the cache unless an undo failed as well. */
    method CommitMove(src: string, dst: string, m: Moved) returns (ok: bool)
      requires src in cache && dst in cache && (src == dst ==> m.src == m.dst)
      modifies this`cache, repo
      ensures cache == if ok then After(old(cache), src, dst, m) else old(cache)
      ensures old(Agree()) && repo.faults <= old(repo.faults) + 1 ==> Agree()
      ensures old(repo.faults) <= repo.faults && (ok <==> repo.faults == old(repo.faults))
      ensures old(repo.past) <= repo.past
      ensures old(Agree()) ==> forall k :: |old(repo.past)| <= k < |repo.past| ==>
        Passed(repo.past[k], old(cache), src, dst, m)
    {
      var uow := new Unit(repo);
      WriteMove(uow, src, dst, m);
      if uow.failed {
        ghost var undos, files := uow.undos, repo.files;
        uow.Rollback();
        if old(Agree()) { HalfwayUndone(cache, src, dst, m, undos, files); }
        return false;
      }
      var srcNext, dstNext := cache[src].(items := m.src), cache[dst].(items := m.dst);
      cache := cache[src := srcNext][dst := dstNext];
      assert cache == After(old(cache), src, dst, m);
      ok := true;
    }

    /** A crash at any moment of a move leaves files from which the forest before or after it is
        recovered. */
    method MoveItem(src: string, itemID: string, dst: string, parentID: string, position: int)
      returns (r: Result<()>)
      modifies this`cache, repo
      ensures var spec := Move(old(cache), src, itemID, dst, parentID, position);
        && (spec.Err? ==> r == Err(spec.error) && cache == old(cache) && repo.past == old(repo.past))
        && (spec.Ok? ==> r == if repo.faults == old(repo.faults) then Ok(()) else Err(SaveFailed))
        && (r.Ok? ==> cache == After(old(cache), src, dst, spec.value))
        && (r.Err? ==> cache == old(cache))
      ensures old(Agree()) && repo.faults <= old(repo.faults) + 1 ==> Agree()
      ensures old(AllUnique(cache)) ==> AllUnique(cache)
      ensures old(repo.past) <= repo.past
      ensures var spec := Move(old(cache), src, itemID, dst, parentID, position);
        old(Agree()) && AllUnique(old(cache)) && spec.Ok? ==> forall k :: |old(repo.past)| <= k < |repo.past| ==>
          OneOf(repo.past[k], old(cache), After(old(cache), src, dst, spec.value))
    {
      if src !in cache { return Err(NoCollection); }
      if dst !in cache { return Err(NoCollection); }
      var found := FindNode(itemID, cache[src].items, None);
      if found.None? { return Err(NoItem); }
      var item := found.value.node;
      if parentID != "" {
        var parent := FindNode(parentID, cache[dst].items, None);
        if parent.None? || parent.value.node.kind != Folder { return Err(NoParent); }
        if Contains(item, parentID) { return Err(OwnSubtree); }
      }
      var pos := position;
      if src == dst && position > 0 {
        pos := Shift(ChildrenOf(cache[dst].items, parentID), itemID, position);
      }
      var rest := RemoveNode(cache[src].items, itemID);
      var after := InsertItem(if src == dst then rest else cache[dst].items, parentID, item, pos);
      if after.None? { return Err(NoParent); }
      var m := Moved(if src == dst then after.value else rest, after.value);
      assert Move(cache, src, itemID, dst, parentID, position) == Ok(m);
      var ok := CommitMove(src, dst, m);
      r := if ok then Ok(()) else Err(SaveFailed);
      if AllUnique(old(cache)) {
        MoveSafe(old(cache), src, itemID, dst, parentID, position, old(repo.past), repo.past);
      }
    }

    /** The loop that corrects the position for a move towards the end of the same list. */
    static method Shift(siblings: seq<Node>, itemID: string, position: int) returns (pos: int)
      requires position > 0
      ensures pos == Adjusted(siblings, itemID, position)
    {
      pos := position;
      for i := 0 to |siblings|
        invariant pos == position
        invariant forall k :: 0 <= k < i ==> !(siblings[k].id == itemID && k < position)
      {
        if siblings[i].id == itemID && i < pos { return pos - 1; }
      }
    }

    /** Moves the item to the end of __root__; where it appears in the sidebar is up to the layout, whose
        update may fail without failing the move. */
    method MoveItemToSidebar(src: string, itemID: string, sidebarPosition: int) returns (r: Result<()>)
      modifies this`cache, repo, layout
      ensures var spec := Move(old(cache), src, itemID, ROOT_ID, "", -1);
        && (spec.Err? ==> r == Err(spec.error) && cache == old(cache) && repo.past == old(repo.past))
        && (spec.Ok? ==> r == if repo.faults == old(repo.faults) then Ok(()) else Err(SaveFailed))
        && (r.Ok? ==> cache == After(old(cache), src, ROOT_ID, spec.value))
        && (r.Err? ==> cache == old(cache) && layout.stored == old(layout.stored))
      ensures r.Ok? && layout.faults == old(layout.faults) ==>
        layout.stored == Good(InsertAt(old(layout.Loaded()), Entry(ITEM_KIND, itemID), sidebarPosition))
      ensures layout.faults != old(layout.faults) ==> layout.Loaded() == old(layout.Loaded())
      ensures r.Ok? && layout.faults == old(layout.faults) ==> forall sorted :: IsListing(sorted) ==>
        var entry, shown := Entry(ITEM_KIND, itemID), Reconciled(layout.Loaded(), Listing(sorted));
        && entry in shown
        && (FirstIndex(shown, entry) == sidebarPosition
          <==> PlaceClearIn(old(cache), old(layout.Loaded()), entry, sidebarPosition))
      ensures old(Agree()) && repo.faults <= old(repo.faults) + 1 ==> Agree()
      ensures old(AllUnique(cache)) ==> AllUnique(cache)
      ensures old(repo.past) <= repo.past
      ensures var spec := Move(old(cache), src, itemID, ROOT_ID, "", -1);
        old(Agree()) && AllUnique(old(cache)) && spec.Ok? ==> forall k :: |old(repo.past)| <= k < |repo.past| ==>
          OneOf(repo.past[k], old(cache), After(old(cache), src, ROOT_ID, spec.value))
    {
      if src !in cache || ROOT_ID !in cache { return Err(NoCollection); }
      var found := FindNode(itemID, cache[src].items, None);
      if found.None? { return Err(NoItem); }
      var rest := RemoveNode(cache[src].items, itemID);
      var appended := InsertAt(if src == ROOT_ID then rest else cache[ROOT_ID].items, found.value.node, -1);
      var m := Moved(if src == ROOT_ID then appended else rest, appended);
      assert Move(cache, src, itemID, ROOT_ID, "", -1) == Ok(m);
      var ok := CommitMove(src, ROOT_ID, m);
      if AllUnique(old(cache)) { MoveSafe(old(cache), src, itemID, ROOT_ID, "", -1, old(repo.past), repo.past); }
      if !ok { return Err(SaveFailed); }
      var _ := layout.Update(Place(Entry(ITEM_KIND, itemID), sidebarPosition));
      r := Ok(());
      ghost var stored, entry := old(layout.Loaded()), Entry(ITEM_KIND, itemID);
      forall sorted | IsListing(sorted)
        ensures var shown := Reconciled(InsertAt(stored, entry, sidebarPosition), Listing(sorted));
          entry in shown && (FirstIndex(shown, entry) == sidebarPosition
            <==> PlaceClearIn(old(cache), stored, entry, sidebarPosition))
      {
        ListingComplete(sorted);
        PlaceAfterMove(old(cache), src, itemID, stored, sidebarPosition, Listing(sorted));
      }
    }

    /** `item` is a new item under a new ID. */
    method AddItem(collectionID: string, parentID: string, item: Node) returns (r: Result<()>)
      modifies this`cache, repo, layout
      ensures collectionID !in old(cache) ==> r == Err(NoCollection)
      ensures collectionID in old(cache) && !ValidParent(old(cache)[collectionID].items, parentID) ==>
        r == Err(NoParent)
      ensures collectionID in old(cache) && ValidParent(old(cache)[collectionID].items, parentID) ==>
        r == if repo.faults == old(repo.faults) then Ok(()) else Err(SaveFailed)
      ensures r.Ok? ==>
        var next := InsertItem(old(cache)[collectionID].items, parentID, item, -1);
        next.Some? && cache == WithItems(old(cache), collectionID, next.value)
      ensures r.Err? ==> cache == old(cache)
      ensures r.Ok? && collectionID == ROOT_ID && parentID == "" && layout.faults == old(layout.faults) ==>
        layout.stored == Good(old(layout.Loaded()) + [Entry(ITEM_KIND, item.id)])
      ensures r.Err? || collectionID != ROOT_ID || parentID != "" ==> layout.stored == old(layout.stored)
      ensures layout.faults != old(layout.faults) ==> layout.Loaded() == old(layout.Loaded())
      ensures old(Agree()) && repo.faults <= old(repo.faults) + 1 ==> Agree()
      ensures AllUnique(old(cache)) && item.children == []
        && (forall l :: l in old(cache) ==> !Occurs(old(cache)[l].items, item.id))
        ==> AllUnique(cache)
    {
      if collectionID !in cache { return Err(NoCollection); }
      var next := InsertItem(cache[collectionID].items, parentID, item, -1);
      if next.None? { return Err(NoParent); }
      if AllUnique(cache) && item.children == [] && forall l :: l in cache ==> !Occurs(cache[l].items, item.id) {
        AddUnique(cache, collectionID, parentID, item);
      }
      var ok := Commit(collectionID, cache[collectionID].(items := next.value));
      if !ok { return Err(SaveFailed); }
      if collectionID == ROOT_ID && parentID == "" {
        var _ := layout.Update(Append(Entry(ITEM_KIND, item.id)));
      }
      r := Ok(());
    }

    method DeleteItem(collectionID: string, itemID: string) returns (r: Result<()>)
      modifies this`cache, repo, layout
      ensures collectionID !in old(cache) ==> r == Err(NoCollection)
      ensures collectionID in old(cache) && !Has(old(cache)[collectionID].items, itemID) ==> r == Err(NoItem)
      ensures collectionID in old(cache) && Has(old(cache)[collectionID].items, itemID) ==>
        r == if repo.faults == old(repo.faults) then Ok(()) else Err(SaveFailed)
      ensures r.Ok? ==> cache == WithItems(old(cache), collectionID, RemoveNode(old(cache)[collectionID].items, itemID))
      ensures r.Err? ==> cache == old(cache)
      ensures r.Ok? && collectionID == ROOT_ID && layout.faults == old(layout.faults) ==>
        layout.stored == Good(Without(old(layout.Loaded()), Entry(ITEM_KIND, itemID)))
      ensures r.Err? || collectionID != ROOT_ID ==> layout.stored == old(layout.stored)
      ensures layout.faults != old(layout.faults) ==> layout.Loaded() == old(layout.Loaded())
      ensures old(Agree()) && repo.faults <= old(repo.faults) + 1 ==> Agree()
      ensures old(AllUnique(cache)) ==> AllUnique(cache)
    {
      if collectionID !in cache { return Err(NoCollection); }
      if !Has(cache[collectionID].items, itemID) { return Err(NoItem); }
      if AllUnique(cache) { RemoveUnique(cache, collectionID, itemID); }
      var ok := Commit(collectionID, cache[collectionID].(items := RemoveNode(cache[collectionID].items, itemID)));
      if !ok { return Err(SaveFailed); }
      if collectionID == ROOT_ID {
        var _ := layout.Update(Remove(Entry(ITEM_KIND, itemID)));
      }
      r := Ok(());
    }

    /** Some(true) is success, Some(false) a failed write; None refuses the root and unknown IDs. */
    method DeleteCollection(id: string) returns (r: Option<bool>)
      modifies this`cache, repo, layout
      ensures r.None? <==> id == ROOT_ID || id !in old(cache)
      ensures cache == if r == Some(true) then old(cache) - {id} else old(cache)
      ensures r.Some? ==> r.value == (repo.faults == old(repo.faults))
      ensures r == Some(true) && layout.faults == old(layout.faults) ==>
        layout.stored == Good(Without(old(layout.Loaded()), Entry(COLLECTION_KIND, id)))
      ensures r != Some(true) ==> layout.stored == old(layout.stored)
      ensures layout.faults != old(layout.faults) ==> layout.Loaded() == old(layout.Loaded())
      ensures old(Agree()) && repo.faults <= old(repo.faults) + 1 ==> Agree()
      ensures old(AllUnique(cache)) ==> AllUnique(cache)
    {
      if id == ROOT_ID || id !in cache { return None; }
      var uow := new Unit(repo);
      uow.DeleteCollection(id, cache[id]);
      if uow.failed {
        uow.Rollback();
        return Some(false);
      }
      cache := cache - {id};
      var _ := layout.Update(Remove(Entry(COLLECTION_KIND, id)));
      r := Some(true);
    }

    /** The collections other than __root__, in the unspecified order of the cache. */
    method Collections() returns (cols: seq<Col>)
      ensures forall c :: c in cols <==> IsCol(c)
    {
      cols := [];
      var left := cache.Keys - {ROOT_ID};
      while left != {}
        invariant left <= cache.Keys - {ROOT_ID}
        invariant forall c :: c in cols <==> IsCol(c) && c.id !in left
        decreases left
      {
        var id :| id in left;
        left := left - {id};
        cols := cols + [Col(id, cache[id].name)];
      }
    }

    ghost predicate IsCol(c: Col)
      reads this
    {
      c.id in cache && c.id != ROOT_ID && c.name == cache[c.id].name
    }

    ghost predicate Listable(e: Entry)
      reads this
    {
      ListableIn(cache, e)
    }

    /** All collections but the root, by name. */
    ghost predicate IsListing(sorted: seq<Col>)
      reads this
    {
      SortedByName(sorted) && forall c :: c in sorted <==> IsCol(c)
    }

    /** Everything the sidebar must list, collections first and then the root's items in tree order. */
    function Listing(sorted: seq<Col>): seq<Entry>
      reads this
    {
      ColEntries(sorted) + ItemEntries(if ROOT_ID in cache then cache[ROOT_ID].items else [])
    }

    lemma ListingComplete(sorted: seq<Col>)
      requires IsListing(sorted)
      ensures forall e :: e in Listing(sorted) <==> Listable(e)
    {
      forall e ensures e in ColEntries(sorted) <==> e.kind == COLLECTION_KIND && e.id in cache && e.id != ROOT_ID {
        if e in ColEntries(sorted) {
          var i :| 0 <= i < |sorted| && ColEntries(sorted)[i] == e;
          assert sorted[i] in sorted;
        }
        if e.kind == COLLECTION_KIND && e.id in cache && e.id != ROOT_ID {
          var c := Col(e.id, cache[e.id].name);
          assert IsCol(c) && c in sorted;
          var i :| 0 <= i < |sorted| && sorted[i] == c;
          assert ColEntries(sorted)[i] == e;
        }
      }
    }

    lemma SortedListing(cols: seq<Col>, sorted: seq<Col>)
      requires multiset(sorted) == multiset(cols) && SortedByName(sorted) && forall c :: c in cols <==> IsCol(c)
      ensures IsListing(sorted)
    {
      forall c ensures c in sorted <==> c in cols { assert c in multiset(sorted) <==> c in multiset(cols); }
    }

    /** Complete and free of repeats whatever the layout file holds, in its order if it can be read. */
    method GetSidebarLayout() returns (next: seq<Entry>, ghost sorted: seq<Col>)
      modifies layout
      ensures IsListing(sorted)
      ensures var stored := if layout.faults == old(layout.faults) then old(layout.Loaded()) else [];
        next == Reconciled(stored, Listing(sorted))
      ensures NoRepeats(next) && forall e :: e in next <==> Listable(e)
      ensures layout.Loaded() == old(layout.Loaded())
    {
      var cols := Collections();
      var rootItems := if ROOT_ID in cache then cache[ROOT_ID].items else [];
      var loaded := layout.Load();
      var stored := if loaded.Some? then loaded.value else [];
      var changed: bool;
      next, changed, sorted := ReconcileSidebarLayout(stored, cols, rootItems);
      SortedListing(cols, sorted);
      ListingComplete(sorted);
      ReconciledMeaning(stored, Listing(sorted));
    }

    /** At startup the stored layout is replaced by the reconciled one, if they differ and it can be written;
        a layout that cannot be read is left alone. */
    method ReconcileLayoutAtStartup() returns (ghost sorted: seq<Col>)
      modifies layout
      ensures layout.faults == old(layout.faults) ==>
        IsListing(sorted) && layout.Loaded() == Reconciled(old(layout.Loaded()), Listing(sorted))
      ensures layout.faults != old(layout.faults) ==> layout.Loaded() == old(layout.Loaded())
    {
      sorted := [];
      var cols := Collections();
      var rootItems := if ROOT_ID in cache then cache[ROOT_ID].items else [];
      var loaded := layout.Load();
      if loaded.None? { return; }
      var next, changed;
      next, changed, sorted := ReconcileSidebarLayout(loaded.value, cols, rootItems);
      SortedListing(cols, sorted);
      if changed { var _ := layout.Save(next); }
    }

    /** The stored order becomes the reconciled order with the entry moved; an entry that does not exist is
        refused. */
    method MoveSidebarEntry(kind: string, id: string, position: int) returns (ok: bool, ghost sorted: seq<Col>)
      modifies layout
      ensures IsListing(sorted)
      ensures var next := Applied(Reorder(Listing(sorted), Entry(kind, id), position), old(layout.Loaded()));
        && (ok <==> next.Some? && layout.faults == old(layout.faults))
        && (if ok then layout.stored == Good(next.value) else layout.Loaded() == old(layout.Loaded()))
      ensures ok ==> Listable(Entry(kind, id))
    {
      var cols := Collections();
      var inOrder := SortByName(cols);
      sorted := inOrder;
      SortedListing(cols, sorted);
      ListingComplete(sorted);
      MoveEntryMeaning(layout.Loaded(), Listing(sorted), Entry(kind, id), position);
      ok := layout.Update(Reorder(Listing(inOrder), Entry(kind, id), position));
    }

    static lemma MoveEntryMeaning(stored: seq<Entry>, candidates: seq<Entry>, entry: Entry, position: int)
      ensures var r := Applied(Reorder(candidates, entry, position), stored);
        && (r.Some? <==> entry in candidates)
        && (r.Some? ==> NoRepeats(r.value) && forall e :: e in r.value <==> e in candidates)
    {
      var s := Reconciled(stored, candidates);
      ReconciledMeaning(stored, candidates);
      if entry in s { MovedSame(s, FirstIndex(s, entry), position); }
    }

    static lemma MovedSame(s: seq<Entry>, i: nat, position: int)
      requires NoRepeats(s) && i < |s|
      ensures NoRepeats(MoveWithin(s, i, position))
      ensures forall e :: e in MoveWithin(s, i, position) <==> e in s
    {
      var rest := s[..i] + s[i + 1..];
      var pos := if i < position then position - 1 else position;
      var p := if pos < 0 || pos > |rest| then |rest| else pos;
      assert MoveWithin(s, i, position) == rest[..p] + [s[i]] + rest[p..];
      TakenOut(s, i);
      PutIn(rest, s[i], p);
    }

    static lemma TakenOut(s: seq<Entry>, i: nat)
      requires NoRepeats(s) && i < |s|
      ensures var rest := s[..i] + s[i + 1..];
        NoRepeats(rest) && forall e :: e in rest <==> e in s && e != s[i]
    {
      assert s == s[..i] + [s[i]] + s[i + 1..];
    }

    static lemma PutIn(s: seq<Entry>, x: Entry, p: nat)
      requires NoRepeats(s) && x !in s && p <= |s|
      ensures var r := s[..p] + [x] + s[p..];
        NoRepeats(r) && forall e :: e in r <==> e in s || e == x
    {
      assert s == s[..p] + s[p..];
    }
  }

  /** A start from the files that a crash left. */
  method Restart(files: Forest, unread: set<string>, layout: LayoutService, ghost f: Forest, ghost after: Forest)
    returns (s: Service, started: bool)
    ensures fresh(s) && s.layout == layout
    ensures OneOf(files, f, after) && started ==>
      if ROOT_ID in s.cache then s.cache == WithRoot(f) || s.cache == WithRoot(after)
      else s.cache == f || s.cache == after
  {
    var repo := new Repository(files, unread);
    s := new Service(repo, layout);
    ghost var order;
    var saved;
    started, order, saved := s.Start();
  }

  /** A move, a crash in any file state it passes through, and a start from there: the forest is the one
      before the move or the one after it, and no ID occurs twice. */
  method RestartAfterMove(s: Service, src: string, itemID: string, dst: string, parentID: string, position: int,
                          files: Forest, unread: set<string>)
    returns (next: Service, started: bool)
    requires s.Agree() && AllUnique(s.cache) && Move(s.cache, src, itemID, dst, parentID, position).Ok?
    modifies s`cache, s.repo
    ensures |old(s.repo.past)| <= |s.repo.past|
    ensures var f := old(s.cache);
      var after := After(f, src, dst, Move(f, src, itemID, dst, parentID, position).value);
      (files == f || files in s.repo.past[|old(s.repo.past)|..]) && started ==>
        && (if ROOT_ID in next.cache then next.cache == WithRoot(f) || next.cache == WithRoot(after)
            else next.cache == f || next.cache == after)
        && AllUnique(next.cache)
  {
    ghost var f := s.cache;
    ghost var after := After(f, src, dst, Move(f, src, itemID, dst, parentID, position).value);
    var r := s.MoveItem(src, itemID, dst, parentID, position);
    next, started := Restart(files, unread, s.layout, f, after);
    MoveStatesSafe(f, src, itemID, dst, parentID, position, f);
    MoveSafe(f, src, itemID, dst, parentID, position, [], []);
    RootUnique(f);
    RootUnique(after);
  }
}
