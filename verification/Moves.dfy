/**
 * Moving an item within and between collections: what a move does to the forest, and what is left of it
 * when the process dies between the two file writes.
 */
module Moves {
  import opened Common
  import opened Tree
  import opened Recovery

  datatype Error = NoCollection | NoItem | NoParent | OwnSubtree | SaveFailed

  datatype Result<+T> = Ok(value: T) | Err(error: Error)

  /** The contents of the source and of the target collection after the move; the same list when the
      collections are. */
  datatype Moved = Moved(src: seq<Node>, dst: seq<Node>)

  /** The position counts in the list before the move, so a move towards the end of the same list loses
      one. */
  function Adjusted(siblings: seq<Node>, itemID: string, position: int): int {
    if position > 0 && exists i :: 0 <= i < |siblings| && i < position && siblings[i].id == itemID
    then position - 1 else position
  }

  function Move(f: Forest, src: string, itemID: string, dst: string, parentID: string, position: int): Result<Moved> {
    if src !in f || dst !in f then Err(NoCollection)
    else if !Has(f[src].items, itemID) then Err(NoItem)
    else if !ValidParent(f[dst].items, parentID) then Err(NoParent)
    else if parentID != "" && Contains(NodeOf(f[src].items, itemID), parentID) then Err(OwnSubtree)
    else
      var item := NodeOf(f[src].items, itemID);
      var rest := RemoveNode(f[src].items, itemID);
      var pos := if src == dst then Adjusted(ChildrenOf(f[dst].items, parentID), itemID, position) else position;
      var after := InsertItem(if src == dst then rest else f[dst].items, parentID, item, pos);
      if after.None? then Err(NoParent)
      else Ok(Moved(if src == dst then after.value else rest, after.value))
  }

  function WithItems(f: Forest, k: string, items: seq<Node>): Forest
    requires k in f
  {
    f[k := f[k].(items := items)]
  }

  function After(f: Forest, src: string, dst: string, m: Moved): Forest
    requires src in f && dst in f
  {
    WithItems(WithItems(f, dst, m.dst), src, m.src)
  }

  // ---------------------------------------------------------------- moving within one list

  /** The list function that item moves and sidebar moves share. */
  function MoveWithin<T>(s: seq<T>, i: nat, position: int): seq<T>
    requires i < |s|
  {
    InsertAt(s[..i] + s[i + 1..], s[i], if i < position then position - 1 else position)
  }

  function Without<T(==)>(s: seq<T>, x: T): seq<T> {
    if s == [] then [] else if s[0] == x then Without(s[1..], x) else [s[0]] + Without(s[1..], x)
  }

  lemma {:induction false} WithoutAbsent<T>(s: seq<T>, x: T)
    requires x !in s
    ensures Without(s, x) == s
  {
    if s != [] { WithoutAbsent(s[1..], x); }
  }

  lemma {:induction false} WithoutAt<T>(s: seq<T>, x: T, i: nat)
    requires i < |s| && s[i] == x && x !in s[..i] && x !in s[i + 1..]
    ensures Without(s, x) == s[..i] + s[i + 1..]
  {
    if i == 0 {
      WithoutAbsent(s[1..], x);
    } else {
      assert s[1..][..i - 1] == s[..i][1..];
      assert s[1..][i..] == s[i + 1..];
      WithoutAt(s[1..], x, i - 1);
    }
  }

  lemma SplitFront<T>(s: seq<T>, i: nat, p: nat)
    requires p <= i < |s| && s[i] !in s[..i] && s[i] !in s[i + 1..]
    ensures Without(s[..p], s[i]) == s[..p]
    ensures Without(s[p..], s[i]) == s[p..i] + s[i + 1..]
  {
    WithoutAbsent(s[..p], s[i]);
    assert s[p..][..i - p] == s[p..i] && s[p..][i - p + 1..] == s[i + 1..];
    WithoutAt(s[p..], s[i], i - p);
  }

  lemma SplitBack<T>(s: seq<T>, i: nat, p: nat)
    requires i < p <= |s| && s[i] !in s[..i] && s[i] !in s[i + 1..]
    ensures Without(s[..p], s[i]) == s[..i] + s[i + 1..p]
    ensures Without(s[p..], s[i]) == s[p..]
  {
    WithoutAbsent(s[p..], s[i]);
    assert s[..p][..i] == s[..i] && s[..p][i + 1..] == s[i + 1..p];
    WithoutAt(s[..p], s[i], i);
  }

  lemma InsertFront<T>(s: seq<T>, i: nat, p: nat)
    requires p <= i < |s|
    ensures MoveWithin(s, i, p) == s[..p] + [s[i]] + (s[p..i] + s[i + 1..])
  {
    var rest := s[..i] + s[i + 1..];
    assert rest[..p] == s[..p];
    assert rest[p..] == s[p..i] + s[i + 1..];
  }

  lemma InsertBack<T>(s: seq<T>, i: nat, p: nat)
    requires i < p <= |s|
    ensures MoveWithin(s, i, p) == (s[..i] + s[i + 1..p]) + [s[i]] + s[p..]
  {
    var rest := s[..i] + s[i + 1..];
    assert rest[..p - 1] == s[..i] + s[i + 1..p];
    assert rest[p - 1..] == s[p..];
  }

  lemma InsertEnd<T>(s: seq<T>, i: nat, p: int)
    requires i < |s| && !(0 <= p <= |s|)
    ensures MoveWithin(s, i, p) == (s[..i] + s[i + 1..]) + [s[i]]
  {
    var rest := s[..i] + s[i + 1..];
    assert rest[..|rest|] == rest && rest[|rest|..] == [];
    assert InsertAt(rest, s[i], -1) == rest + [s[i]] + [];
  }

  /** The item lands between what was before and what was behind the insertion point, both without it;
      a position outside the list means its end. */
  lemma MoveWithinMeaning<T>(s: seq<T>, i: nat, position: int)
    requires i < |s| && s[i] !in s[..i] && s[i] !in s[i + 1..]
    ensures 0 <= position <= |s| ==>
      MoveWithin(s, i, position) == Without(s[..position], s[i]) + [s[i]] + Without(s[position..], s[i])
    ensures !(0 <= position <= |s|) ==> MoveWithin(s, i, position) == Without(s, s[i]) + [s[i]]
  {
    if 0 <= position <= i {
      SplitFront(s, i, position);
      InsertFront(s, i, position);
    } else if i < position <= |s| {
      SplitBack(s, i, position);
      InsertBack(s, i, position);
    } else {
      WithoutAt(s, s[i], i);
      InsertEnd(s, i, position);
    }
  }

  // ---------------------------------------------------------------- removal seen from another node

  /** Taking out a subtree leaves a node outside it where it was, with its list of children less the
      subtree. */
  lemma {:induction false} RemoveSeenFrom(items: seq<Node>, id: string, p: string)
    requires Healthy(items) && Has(items, id) && Has(items, p) && !Occurs([NodeOf(items, id)], p)
    ensures Has(RemoveNode(items, id), p)
    ensures NodeOf(RemoveNode(items, id), p).kind == NodeOf(items, p).kind
    ensures NodeOf(RemoveNode(items, id), p).children == RemoveNode(NodeOf(items, p).children, id)
    decreases items
  {
    var n, rest := items[0], items[1..];
    assert items == [n] + rest;
    UniqueParts(items);
    HasIffOccurs(items, p);
    HasIffOccurs(n.children, p);
    HasIffOccurs(rest, p);
    HasIffOccurs(n.children, id);
    HasIffOccurs(rest, id);
    if n.id == id {
      Single(n, ById(p));
      NodeOfCons(n, rest, p);
      NodeMissing(rest, p, id);
    } else if n.id == p {
      NodeOfCons(n, rest, id);
      if !Has(n.children, id) { RemoveAbsent(n.children, id); }
    } else {
      NodeOfCons(n, rest, id);
      NodeOfCons(n, rest, p);
      if Has(n.children, id) {
        NodeOfCons(n.(children := RemoveNode(n.children, id)), rest, p);
        if Has(n.children, p) {
          RemoveSeenFrom(n.children, id, p);
        } else {
          RemoveCount(n.children, id, ById(p));
          HasIffOccurs(RemoveNode(n.children, id), p);
          NodeMissing(rest, p, id);
        }
      } else {
        NodeOfCons(n, RemoveNode(rest, id), p);
        if Has(n.children, p) { NodeMissing(n.children, p, id); } else { RemoveSeenFrom(rest, id, p); }
      }
    }
  }

  /** An ID that is nowhere in the tree is not below any of its nodes either. */
  lemma NodeMissing(items: seq<Node>, p: string, id: string)
    requires Plain(items) && Has(items, p) && !Occurs(items, id)
    ensures RemoveNode(NodeOf(items, p).children, id) == NodeOf(items, p).children
  {
    var n := NodeOf(items, p);
    RemoveCount(items, p, ById(id));
    Single(n, ById(id));
    RemoveAbsent(n.children, id);
  }

  /** A direct child is removed from its place in the list. */
  lemma {:induction false} RemoveDirect(items: seq<Node>, i: nat)
    requires Healthy(items) && i < |items|
    ensures RemoveNode(items, items[i].id) == items[..i] + items[i + 1..]
    ensures Has(items, items[i].id) && NodeOf(items, items[i].id) == items[i]
    ensures items[i] !in items[..i] && items[i] !in items[i + 1..]
  {
    assert items == items[..i] + ([items[i]] + items[i + 1..]);
    var q := ById(items[i].id);
    Concat(items[..i], [items[i]] + items[i + 1..], q);
    Cons(items[i], items[i + 1..], q);
    assert Count(items, q) <= 1;
    RemoveBehind(items[..i], items[i], items[i + 1..]);
    if items[i] in items[..i] { MemberOccurs(items[..i], items[i]); }
    if items[i] in items[i + 1..] { MemberOccurs(items[i + 1..], items[i]); }
  }

  lemma {:induction false} MemberOccurs(items: seq<Node>, n: Node)
    requires n in items
    ensures Occurs(items, n.id)
  {
    if items[0] != n { MemberOccurs(items[1..], n); }
  }

  /** The list of children of any parent is itself healthy. */
  lemma ChildrenHealthy(items: seq<Node>, parentID: string)
    requires Healthy(items)
    ensures Healthy(ChildrenOf(items, parentID))
  {
    if parentID != "" && Has(items, parentID) {
      var n := NodeOf(items, parentID);
      RemoveCount(items, parentID, ById(parentID));
      forall id ensures Count(n.children, ById(id)) <= 1 {
        RemoveCount(items, parentID, ById(id));
        Single(n, ById(id));
        assert Count(items, ById(id)) <= 1;
      }
      Single(n, ById(parentID));
    }
  }

  // ---------------------------------------------------------------- what a move means

  /** The list the item goes into. */
  function TargetList(f: Forest, src: string, itemID: string, dst: string): seq<Node>
    requires src in f && dst in f
  {
    if src == dst then RemoveNode(f[src].items, itemID) else f[dst].items
  }

  /** The checks made before anything is changed decide the outcome; the insertion that follows cannot
      fail, so an item is never taken out without being put back. */
  lemma MoveSucceeds(f: Forest, src: string, itemID: string, dst: string, parentID: string, position: int)
    requires AllUnique(f)
    ensures Move(f, src, itemID, dst, parentID, position).Ok? <==>
      && src in f && dst in f && Has(f[src].items, itemID)
      && ValidParent(f[dst].items, parentID)
      && !(parentID != "" && Contains(NodeOf(f[src].items, itemID), parentID))
  {
    if src in f && dst in f && Has(f[src].items, itemID) && ValidParent(f[dst].items, parentID)
       && !(parentID != "" && Contains(NodeOf(f[src].items, itemID), parentID)) {
      ParentStays(f, src, itemID, dst, parentID);
    }
  }

  lemma ParentStays(f: Forest, src: string, itemID: string, dst: string, parentID: string)
    requires AllUnique(f) && src in f && dst in f && Has(f[src].items, itemID) && ValidParent(f[dst].items, parentID)
    requires !(parentID != "" && Contains(NodeOf(f[src].items, itemID), parentID))
    ensures ValidParent(TargetList(f, src, itemID, dst), parentID)
    ensures src == dst ==>
      ChildrenOf(TargetList(f, src, itemID, dst), parentID) == RemoveNode(ChildrenOf(f[dst].items, parentID), itemID)
  {
    if parentID != "" && src == dst {
      var n := NodeOf(f[src].items, itemID);
      RemoveCount(f[src].items, itemID, ById(parentID));
      Single(n, ById(parentID));
      HasIffOccurs(n.children, parentID);
      RemoveSeenFrom(f[src].items, itemID, parentID);
    }
  }

  /** A successful move keeps every node (counted by contents), keeps the moved subtree whole, keeps IDs
      unique, and changes nothing else: without the item, both collections are what they were. */
  lemma MoveMeaning(f: Forest, src: string, itemID: string, dst: string, parentID: string, position: int)
    requires AllUnique(f) && Move(f, src, itemID, dst, parentID, position).Ok?
    ensures var m := Move(f, src, itemID, dst, parentID, position).value;
      var item := NodeOf(f[src].items, itemID);
      && AllUnique(After(f, src, dst, m))
      && RemoveNode(m.dst, itemID) == TargetList(f, src, itemID, dst)
      && (src != dst ==> m.src == RemoveNode(f[src].items, itemID))
      && Has(m.dst, itemID) && NodeOf(m.dst, itemID) == item
      && ChildrenOf(m.dst, parentID) ==
           InsertAt(ChildrenOf(TargetList(f, src, itemID, dst), parentID), item,
                    if src == dst then Adjusted(ChildrenOf(f[dst].items, parentID), itemID, position) else position)
      && (forall q :: if src == dst then Count(m.dst, q) == Count(f[src].items, q)
                      else Count(m.src, q) + Count(m.dst, q) == Count(f[src].items, q) + Count(f[dst].items, q))
  {
    var m := Move(f, src, itemID, dst, parentID, position).value;
    var item, s := NodeOf(f[src].items, itemID), f[src].items;
    MoveSucceeds(f, src, itemID, dst, parentID, position);
    ParentStays(f, src, itemID, dst, parentID);
    ItemLeaves(f, src, itemID, dst);
    var pos := if src == dst then Adjusted(ChildrenOf(f[dst].items, parentID), itemID, position) else position;
    InsertMeaning(TargetList(f, src, itemID, dst), parentID, item, pos);
    forall q ensures Count(s, q) == Count(RemoveNode(s, itemID), q) + Count([item], q) { RemoveCount(s, itemID, q); }
    AfterUnique(f, src, dst, itemID, m);
  }

  lemma ItemLeaves(f: Forest, src: string, itemID: string, dst: string)
    requires AllUnique(f) && src in f && dst in f && Has(f[src].items, itemID)
    ensures NodeOf(f[src].items, itemID).id == itemID && Plain([NodeOf(f[src].items, itemID)])
    ensures Plain(TargetList(f, src, itemID, dst)) && !Occurs(TargetList(f, src, itemID, dst), itemID)
  {
    var s := f[src].items;
    HasIffOccurs(s, itemID);
    RemoveCount(s, itemID, ById(itemID));
    Single(NodeOf(s, itemID), ById(itemID));
    assert Count(s, ById(itemID)) <= 1;
    if src != dst { assert Apart(f[src].items, f[dst].items); }
  }

  /** No ID occurs twice in the two lists, and none of another collection in either. */
  lemma MovedCounts(f: Forest, src: string, dst: string, itemID: string, m: Moved, id: string)
    requires AllUnique(f) && src in f && dst in f && Has(f[src].items, itemID)
    requires src == dst ==> m.src == m.dst
    requires src != dst ==> m.src == RemoveNode(f[src].items, itemID)
    requires Count(m.dst, ById(id))
          == Count(TargetList(f, src, itemID, dst), ById(id)) + Count([NodeOf(f[src].items, itemID)], ById(id))
    requires Count(f[src].items, ById(id))
          == Count(RemoveNode(f[src].items, itemID), ById(id)) + Count([NodeOf(f[src].items, itemID)], ById(id))
    ensures Count(m.src, ById(id)) <= 1 && Count(m.dst, ById(id)) <= 1
    ensures src != dst ==> Count(m.src, ById(id)) + Count(m.dst, ById(id)) <= 1
    ensures Occurs(m.src, id) || Occurs(m.dst, id) ==> Occurs(f[src].items, id) || Occurs(f[dst].items, id)
  {
    assert Count(f[src].items, ById(id)) <= 1 && Count(f[dst].items, ById(id)) <= 1;
    if src != dst {
      assert Apart(f[src].items, f[dst].items);
      assert !(Occurs(f[src].items, id) && Occurs(f[dst].items, id));
    }
  }

  lemma AfterUnique(f: Forest, src: string, dst: string, itemID: string, m: Moved)
    requires AllUnique(f) && src in f && dst in f && Has(f[src].items, itemID)
    requires Plain(m.dst) && (src == dst ==> m.src == m.dst)
      && (src != dst ==> m.src == RemoveNode(f[src].items, itemID))
    requires forall q ::
      Count(m.dst, q) == Count(TargetList(f, src, itemID, dst), q) + Count([NodeOf(f[src].items, itemID)], q)
    requires forall q :: Count(f[src].items, q)
                      == Count(RemoveNode(f[src].items, itemID), q) + Count([NodeOf(f[src].items, itemID)], q)
    ensures AllUnique(After(f, src, dst, m))
  {
    RemoveCount(f[src].items, itemID, ById(itemID));
    forall id
      ensures Count(m.src, ById(id)) <= 1 && Count(m.dst, ById(id)) <= 1
      ensures src != dst ==> !(Occurs(m.src, id) && Occurs(m.dst, id))
      ensures Occurs(m.src, id) || Occurs(m.dst, id) ==> Occurs(f[src].items, id) || Occurs(f[dst].items, id)
    {
      MovedCounts(f, src, dst, itemID, m, id);
    }
    ReplacedUnique(f, src, dst, m);
  }

  lemma ReplacedUnique(f: Forest, src: string, dst: string, m: Moved)
    requires AllUnique(f) && src in f && dst in f && (src == dst ==> m.src == m.dst)
    requires Healthy(m.src) && Healthy(m.dst) && (src != dst ==> Apart(m.src, m.dst))
    requires forall id :: Occurs(m.src, id) || Occurs(m.dst, id) ==>
      Occurs(f[src].items, id) || Occurs(f[dst].items, id)
    ensures AllUnique(After(f, src, dst, m))
  {
    var g := After(f, src, dst, m);
    forall k | k in f && k !in {src, dst} ensures Apart(f[k].items, m.src) && Apart(f[k].items, m.dst) {
      assert Apart(f[k].items, f[src].items) && Apart(f[k].items, f[dst].items);
    }
    forall k, l | k in g && l in g && k != l ensures Apart(g[k].items, g[l].items) {
      if k !in {src, dst} && l !in {src, dst} { assert Apart(f[k].items, f[l].items); }
    }
  }

  /** Within one list of siblings, a move is the list function MoveWithin. */
  lemma MoveAmongSiblings(f: Forest, k: string, parentID: string, i: nat, position: int)
    requires AllUnique(f) && k in f && i < |ChildrenOf(f[k].items, parentID)|
    requires Move(f, k, ChildrenOf(f[k].items, parentID)[i].id, k, parentID, position).Ok?
    ensures var orig := ChildrenOf(f[k].items, parentID);
      ChildrenOf(Move(f, k, orig[i].id, k, parentID, position).value.dst, parentID) == MoveWithin(orig, i, position)
  {
    var orig := ChildrenOf(f[k].items, parentID);
    var id := orig[i].id;
    ChildrenHealthy(f[k].items, parentID);
    RemoveDirect(orig, i);
    MoveSucceeds(f, k, id, k, parentID, position);
    ParentStays(f, k, id, k, parentID);
    MoveMeaning(f, k, id, k, parentID, position);
    SameNode(f[k].items, parentID, i);
    forall j | 0 <= j < |orig| && orig[j].id == id ensures j == i {
      RemoveDirect(orig, j);
      OnePlace(orig, i, j);
    }
  }

  lemma OnePlace(items: seq<Node>, i: nat, j: nat)
    requires Healthy(items) && i < |items| && j < |items| && items[i].id == items[j].id
    ensures i == j
  {
    RemoveDirect(items, i);
    RemoveDirect(items, j);
    assert items[i] == items[j];
  }

  /** A node in a list of children is the one the whole tree knows under its ID. */
  lemma SameNode(items: seq<Node>, parentID: string, i: nat)
    requires Healthy(items) && i < |ChildrenOf(items, parentID)|
    ensures var n := ChildrenOf(items, parentID)[i]; Has(items, n.id) && NodeOf(items, n.id) == n
  {
    ChildrenHealthy(items, parentID);
    RemoveDirect(ChildrenOf(items, parentID), i);
    if parentID != "" && Has(items, parentID) {
      NodeBelow(items, parentID, ChildrenOf(items, parentID)[i].id);
    }
  }

  lemma {:induction false} NodeBelow(items: seq<Node>, p: string, id: string)
    requires Healthy(items) && Has(items, p) && Has(NodeOf(items, p).children, id)
    ensures Has(items, id) && NodeOf(items, id) == NodeOf(NodeOf(items, p).children, id)
    decreases items
  {
    var n, rest := items[0], items[1..];
    assert items == [n] + rest;
    UniqueParts(items);
    HasIffOccurs(n.children, id);
    HasIffOccurs(rest, id);
    if n.id == p {
      NodeOfCons(n, rest, id);
    } else {
      NodeOfCons(n, rest, p);
      if n.kind == Folder && Has(n.children, p) { NodeBelow(n.children, p, id); } else { NodeBelow(rest, p, id); }
      NodeOfCons(n, rest, id);
    }
  }

  // ---------------------------------------------------------------- crash atomicity

  /** The files when the process dies after the target was written and before the source was. */
  function Halfway(f: Forest, dst: string, m: Moved): Forest
    requires dst in f
  {
    WithItems(f, dst, m.dst)
  }

  /** Whatever the files look like when a move between two collections stops - untouched, halfway, or
      done - reading them back and recovering duplicates gives the forest before the move or the forest
      after it: halfway, it is the one whose holder of the item is scanned first. */
  lemma CrashAtomic(f: Forest, src: string, itemID: string, dst: string, parentID: string, position: int,
                    order: seq<string>)
    requires AllUnique(f) && src != dst && Move(f, src, itemID, dst, parentID, position).Ok?
    requires IsScanOrder(order, f.Keys)
    ensures var m := Move(f, src, itemID, dst, parentID, position).value;
      && RecoverFrom(f, order, {}) == f
      && RecoverFrom(After(f, src, dst, m), order, {}) == After(f, src, dst, m)
      && RecoverFrom(Halfway(f, dst, m), order, {}) == if Before(dst, src) then After(f, src, dst, m) else f
  {
    var m := Move(f, src, itemID, dst, parentID, position).value;
    MoveMeaning(f, src, itemID, dst, parentID, position);
    RecoverUnique(f, order);
    assert After(f, src, dst, m).Keys == f.Keys;
    RecoverUnique(After(f, src, dst, m), order);
    HalfwayRecovers(f, src, itemID, dst, m, order);
  }

  lemma OrderOfScan(order: seq<string>, ids: set<string>)
    requires IsScanOrder(order, ids)
    ensures forall i, j :: 0 <= i < |order| && 0 <= j < |order| && Before(order[i], order[j]) ==> i < j
    ensures forall i, j :: 0 <= i < j < |order| ==> order[i] != order[j]
  {
    forall i, j | 0 <= i < |order| && 0 <= j < |order| && Before(order[i], order[j]) ensures i < j {
      if j < i { LessTotal(order[i], order[j]); }
    }
    forall i, j | 0 <= i < j < |order| ensures order[i] != order[j] { assert Before(order[i], order[j]); }
  }

  /** Two collections hold a copy of one subtree, and no other ID occurs twice. */
  ghost predicate Copies(h: Forest, a: string, b: string, id: string) {
    && a in h && b in h && a != b
    && (forall k :: k in h ==> Healthy(h[k].items))
    && (forall k, l :: k in h && l in h && k != l && !(k in {a, b} && l in {a, b}) ==> Apart(h[k].items, h[l].items))
    && Has(h[a].items, id) && Has(h[b].items, id) && NodeOf(h[a].items, id) == NodeOf(h[b].items, id)
    && forall x :: Occurs(h[a].items, x) && Occurs(h[b].items, x) ==> Occurs([NodeOf(h[b].items, id)], x)
  }

  lemma CopiesSwap(h: Forest, a: string, b: string, id: string)
    requires Copies(h, a, b, id)
    ensures Copies(h, b, a, id)
  {
    forall k, l | k in h && l in h && k != l && !(k in {b, a} && l in {b, a}) ensures Apart(h[k].items, h[l].items) {
      assert !(k in {a, b} && l in {a, b});
    }
  }

  /** Of the two copies the one scanned first stays. */
  lemma EarlierStays(h: Forest, order: seq<string>, a: string, b: string, id: string)
    requires IsScanOrder(order, h.Keys) && Before(a, b) && Copies(h, a, b, id)
    ensures RecoverFrom(h, order, {}) == h[b := h[b].(items := RemoveNode(h[b].items, id))]
  {
    OrderOfScan(order, h.Keys);
    RecoverPair(h, order, {}, a, b, id);
  }

  lemma HalfwayRecovers(f: Forest, src: string, itemID: string, dst: string, m: Moved, order: seq<string>)
    requires AllUnique(f) && src in f && dst in f && src != dst && Has(f[src].items, itemID)
    requires AllUnique(After(f, src, dst, m)) && m.src == RemoveNode(f[src].items, itemID)
    requires Has(m.dst, itemID) && NodeOf(m.dst, itemID) == NodeOf(f[src].items, itemID)
    requires RemoveNode(m.dst, itemID) == f[dst].items
    requires IsScanOrder(order, f.Keys)
    ensures RecoverFrom(Halfway(f, dst, m), order, {}) == if Before(dst, src) then After(f, src, dst, m) else f
  {
    HalfwayShared(f, src, itemID, dst, m);
    HalfwayEither(f, src, itemID, dst, m, order);
  }

  lemma HalfwayEither(f: Forest, src: string, itemID: string, dst: string, m: Moved, order: seq<string>)
    requires src in f && dst in f && Copies(Halfway(f, dst, m), src, dst, itemID)
    requires m.src == RemoveNode(f[src].items, itemID) && RemoveNode(m.dst, itemID) == f[dst].items
    requires IsScanOrder(order, f.Keys)
    ensures RecoverFrom(Halfway(f, dst, m), order, {}) == if Before(dst, src) then After(f, src, dst, m) else f
  {
    var h := Halfway(f, dst, m);
    LessTotal(src, dst);
    assert h.Keys == f.Keys;
    if Before(dst, src) {
      CopiesSwap(h, src, dst, itemID);
      EarlierStays(h, order, dst, src, itemID);
    } else {
      EarlierStays(h, order, src, dst, itemID);
      assert h[dst := h[dst].(items := f[dst].items)] == f;
    }
  }

  lemma HalfwayShared(f: Forest, src: string, itemID: string, dst: string, m: Moved)
    requires AllUnique(f) && src in f && dst in f && src != dst && Has(f[src].items, itemID)
    requires AllUnique(After(f, src, dst, m)) && m.src == RemoveNode(f[src].items, itemID)
    requires Has(m.dst, itemID) && NodeOf(m.dst, itemID) == NodeOf(f[src].items, itemID)
    ensures Copies(Halfway(f, dst, m), src, dst, itemID)
  {
    var h, g := Halfway(f, dst, m), After(f, src, dst, m);
    forall k | k in h ensures Healthy(h[k].items) { assert Healthy(f[k].items) && Healthy(g[k].items); }
    forall k, l | k in h && l in h && k != l && !(k in {src, dst} && l in {src, dst})
      ensures Apart(h[k].items, h[l].items)
    {
      assert Apart(f[k].items, f[l].items) && Apart(g[k].items, g[l].items);
    }
    forall x | Occurs(h[src].items, x) && Occurs(h[dst].items, x) ensures Occurs([NodeOf(f[src].items, itemID)], x) {
      RemoveCount(f[src].items, itemID, ById(x));
      assert Apart(g[src].items, g[dst].items);
    }
  }
}
