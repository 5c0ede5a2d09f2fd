/**
 * Recovery of duplicate items at startup: an item ID that occurs in several collections is kept where
 * the scan meets it first.  The scan goes through __root__ first and then the other collections by ID.
 */
module Recovery {
  import opened Common
  import opened Tree

  datatype Collection = Collection(name: string, items: seq<Node>)

  type Forest = map<string, Collection>

  const ROOT_ID: string := "__root__"

  // ---------------------------------------------------------------- the scan order

  /** String order: by the first differing character, a proper prefix first. */
  predicate Less(a: string, b: string) {
    if b == [] then false
    else if a == [] then true
    else a[0] < b[0] || (a[0] == b[0] && Less(a[1..], b[1..]))
  }

  lemma {:induction false} LessTotal(a: string, b: string)
    ensures a == b || Less(a, b) || Less(b, a)
    ensures Less(a, b) ==> !Less(b, a) && a != b
  {
    if a != [] && b != [] {
      assert a == [a[0]] + a[1..] && b == [b[0]] + b[1..];
      LessTotal(a[1..], b[1..]);
    }
  }

  lemma {:induction false} LessTransitive(a: string, b: string, c: string)
    requires Less(a, b) && Less(b, c)
    ensures Less(a, c)
  {
    if a != [] && a[0] == b[0] && b[0] == c[0] { LessTransitive(a[1..], b[1..], c[1..]); }
  }

  /** Scanned earlier: __root__ before everything, otherwise the smaller ID. */
  predicate Before(a: string, b: string) {
    a != b && b != ROOT_ID && (a == ROOT_ID || Less(a, b))
  }

  lemma BeforeTransitive(a: string, b: string, c: string)
    requires Before(a, b) && Before(b, c)
    ensures Before(a, c)
  {
    LessTotal(a, b);
    if a != ROOT_ID { LessTransitive(a, b, c); LessTotal(a, c); }
  }

  ghost predicate IsScanOrder(order: seq<string>, ids: set<string>) {
    && (forall id :: id in order <==> id in ids)
    && (forall i, j :: 0 <= i < j < |order| ==> Before(order[i], order[j]))
  }

  lemma SameMembers(a: seq<string>, b: seq<string>)
    requires forall id :: id in a <==> id in b
    ensures a == [] <==> b == []
  {
    if a != [] { assert a[0] in b; }
    if b != [] { assert b[0] in a; }
  }

  /** The rule is deterministic: a set of collections has one scan order. */
  lemma {:induction false} ScanOrderUnique(a: seq<string>, b: seq<string>, ids: set<string>)
    requires IsScanOrder(a, ids) && IsScanOrder(b, ids)
    ensures a == b
    decreases |a|
  {
    SameMembers(a, b);
    if a != [] {
      assert a[0] in b && b != [] && b[0] in a;
      if a[0] != b[0] {
        var i :| 0 <= i < |b| && b[i] == a[0];
        var j :| 0 <= j < |a| && a[j] == b[0];
        LessTotal(a[0], b[0]);
        assert false;
      }
      TailOrder(a, ids);
      TailOrder(b, ids);
      ScanOrderUnique(a[1..], b[1..], ids - {a[0]});
      assert a == [a[0]] + a[1..] && b == [b[0]] + b[1..];
    }
  }

  lemma TailOrder(a: seq<string>, ids: set<string>)
    requires IsScanOrder(a, ids) && a != []
    ensures IsScanOrder(a[1..], ids - {a[0]})
  {
    forall id ensures id in a[1..] <==> id in ids - {a[0]} {
      if id in ids - {a[0]} {
        var i :| 0 <= i < |a| && a[i] == id;
        assert a[1..][i - 1] == id;
      }
      if id in a[1..] {
        var i :| 0 <= i < |a[1..]| && a[1..][i] == id;
        assert Before(a[0], a[i + 1]);
      }
    }
  }

  /** duplicateScanOrder: the root first, then the sorted IDs. */
  method DuplicateScanOrder(ids: set<string>) returns (order: seq<string>)
    ensures IsScanOrder(order, ids)
  {
    order := [];
    var left := ids;
    while left != {}
      invariant left <= ids
      invariant forall id :: id in order <==> id in ids - left
      invariant forall i, j :: 0 <= i < j < |order| ==> Before(order[i], order[j])
      invariant forall i, id :: 0 <= i < |order| && id in left ==> Before(order[i], id)
      decreases left
    {
      var first := First(left);
      order := order + [first];
      left := left - {first};
    }
  }

  method First(ids: set<string>) returns (first: string)
    requires ids != {}
    ensures first in ids && forall id :: id in ids && id != first ==> Before(first, id)
  {
    first :| first in ids;
    var left := ids - {first};
    while left != {}
      invariant first in ids && left <= ids && first !in left
      invariant forall id :: id in ids - left && id != first ==> Before(first, id)
      decreases left
    {
      var other :| other in left;
      LessTotal(first, other);
      if Before(other, first) {
        forall id | id in ids - left && id != first ensures Before(other, id) { BeforeTransitive(other, first, id); }
        first := other;
      }
      left := left - {other};
    }
  }

  // ---------------------------------------------------------------- recovery

  function RecoverFrom(f: Forest, order: seq<string>, seen: set<string>): Forest {
    if order == [] || order[0] !in f then f
    else
      var (dup, after) := CollectDuplicateIDs(f[order[0]].items, seen);
      RecoverFrom(f[order[0] := f[order[0]].(items := RemoveAll(f[order[0]].items, dup))], order[1..], after)
  }

  // ---------------------------------------------------------------- what the collection finds

  lemma UniqueParts(items: seq<Node>)
    requires items != [] && Unique(items)
    ensures Unique(items[0].children) && Unique(items[1..])
    ensures forall id :: Occurs(items, id) <==>
      id == items[0].id || Occurs(items[0].children, id) || Occurs(items[1..], id)
    ensures forall id :: !(Occurs(items[0].children, id) && Occurs(items[1..], id))
    ensures !Occurs(items[0].children, items[0].id) && !Occurs(items[1..], items[0].id)
  {
    forall id
      ensures Count(items[0].children, ById(id)) <= 1 && Count(items[1..], ById(id)) <= 1
      ensures !(Occurs(items[0].children, id) && Occurs(items[1..], id))
    {
      assert Count(items, ById(id)) <= 1;
    }
    assert Count(items, ById(items[0].id)) <= 1;
  }

  ghost predicate Unseen(items: seq<Node>, seen: set<string>) {
    forall id :: Occurs(items, id) ==> id !in seen
  }

  ghost predicate Extends(after: set<string>, seen: set<string>, items: seq<Node>) {
    forall id :: id in after <==> id in seen || Occurs(items, id)
  }

  /** Among new IDs there is no duplicate, and all of them are remembered. */
  lemma {:induction false} CollectFresh(items: seq<Node>, seen: set<string>)
    requires Unique(items) && Unseen(items, seen)
    ensures CollectDuplicateIDs(items, seen).0 == []
    ensures Extends(CollectDuplicateIDs(items, seen).1, seen, items)
    decreases items
  {
    if items != [] {
      UniqueParts(items);
      assert Occurs(items, items[0].id);
      CollectFresh(items[0].children, seen + {items[0].id});
      CollectFresh(items[1..], CollectDuplicateIDs(items[0].children, seen + {items[0].id}).1);
    }
  }

  lemma FoundWithin(items: seq<Node>, id: string)
    requires Plain(items) && Has(items, id)
    ensures forall x :: Occurs([NodeOf(items, id)], x) ==> Occurs(items, x)
  {
    forall x ensures Occurs([NodeOf(items, id)], x) ==> Occurs(items, x) { RemoveCount(items, id, ById(x)); }
  }

  /** When the IDs seen before are those of one subtree, the root of that subtree is the one duplicate. */
  lemma {:induction false} CollectOne(items: seq<Node>, seen: set<string>, id: string)
    requires Plain(items) && Unique(items) && Has(items, id) && id in seen
    requires forall x :: Occurs(items, x) && x in seen ==> Occurs([NodeOf(items, id)], x)
    requires forall x :: Occurs([NodeOf(items, id)], x) ==> x in seen
    ensures CollectDuplicateIDs(items, seen).0 == [id]
    ensures Extends(CollectDuplicateIDs(items, seen).1, seen, items)
    decreases items
  {
    var n, rest := items[0], items[1..];
    assert items == [n] + rest;
    UniqueParts(items);
    forall x { Single(n, ById(x)); }
    if n.id == id {
      CollectFresh(rest, seen);
    } else {
      NodeOfCons(n, rest, id);
      HasIffOccurs(n.children, id);
      HasIffOccurs(rest, id);
      FoundWithin(if Has(n.children, id) then n.children else rest, id);
      assert Occurs(items, n.id);
      if Has(n.children, id) {
        CollectOne(n.children, seen + {n.id}, id);
        CollectFresh(rest, CollectDuplicateIDs(n.children, seen + {n.id}).1);
      } else {
        CollectFresh(n.children, seen + {n.id});
        CollectOne(rest, CollectDuplicateIDs(n.children, seen + {n.id}).1, id);
      }
    }
  }

  // ---------------------------------------------------------------- what recovery does to a forest

  ghost predicate Healthy(items: seq<Node>) { Plain(items) && Unique(items) }

  ghost predicate Apart(a: seq<Node>, b: seq<Node>) {
    forall id :: !(Occurs(a, id) && Occurs(b, id))
  }

  /** IDs are unique across all collections. */
  ghost predicate AllUnique(f: Forest) {
    && (forall k :: k in f ==> Healthy(f[k].items))
    && (forall k, l :: k in f && l in f && k != l ==> Apart(f[k].items, f[l].items))
  }

  /** Healthy collections, none of whose IDs was seen, and no ID in two of them except within `x`. */
  ghost predicate Clear(f: Forest, order: seq<string>, seen: set<string>, x: string) {
    && NoRepeats(order)
    && (forall k :: k in order ==> k in f && Healthy(f[k].items))
    && (forall k :: k in order && k != x ==> Unseen(f[k].items, seen))
    && (forall k, l :: k in order && l in order && k != l ==> Apart(f[k].items, f[l].items))
  }

  lemma ClearTail(f: Forest, order: seq<string>, seen: set<string>, x: string, after: set<string>)
    requires order != [] && Clear(f, order, seen, x)
    requires Extends(after, seen, f[order[0]].items)
    ensures Clear(f, order[1..], after, x)
    ensures order[0] !in order[1..]
  {
    assert order == [order[0]] + order[1..];
    forall k | k in order[1..] && k != x ensures Unseen(f[k].items, after) {
      assert k in order && Apart(f[order[0]].items, f[k].items);
    }
  }

  lemma SameEntry(f: Forest, k: string)
    requires k in f
    ensures f[k := f[k].(items := f[k].items)] == f
  {
  }

  lemma {:induction false} RecoverNothing(f: Forest, order: seq<string>, seen: set<string>)
    requires Clear(f, order, seen, "") && (forall k :: k in order ==> Unseen(f[k].items, seen))
    ensures RecoverFrom(f, order, seen) == f
    decreases |order|
  {
    if order != [] {
      var k := order[0];
      CollectFresh(f[k].items, seen);
      SameEntry(f, k);
      var after := CollectDuplicateIDs(f[k].items, seen).1;
      ClearTail(f, order, seen, "", after);
      forall l | l in order[1..] ensures Unseen(f[l].items, after) { assert Apart(f[k].items, f[l].items); }
      RecoverNothing(f, order[1..], after);
    }
  }

  /** A forest with unique IDs is left as it is. */
  lemma RecoverUnique(f: Forest, order: seq<string>)
    requires AllUnique(f) && IsScanOrder(order, f.Keys)
    ensures RecoverFrom(f, order, {}) == f
  {
    RecoverNothing(f, order, {});
  }

  /** The collection `b` holds a copy of a subtree seen before; nothing else is duplicated. */
  lemma {:induction false} RecoverSecond(f: Forest, order: seq<string>, seen: set<string>, b: string, id: string)
    requires Clear(f, order, seen, b) && b in order
    requires Has(f[b].items, id) && id in seen
    requires forall x :: Occurs(f[b].items, x) && x in seen ==> Occurs([NodeOf(f[b].items, id)], x)
    requires forall x :: Occurs([NodeOf(f[b].items, id)], x) ==> x in seen
    ensures RecoverFrom(f, order, seen) == f[b := f[b].(items := RemoveNode(f[b].items, id))]
    decreases |order|
  {
    var k := order[0];
    if k == b {
      CollectOne(f[b].items, seen, id);
      var after := CollectDuplicateIDs(f[b].items, seen).1;
      ClearTail(f, order, seen, b, after);
      var g := f[b := f[b].(items := RemoveNode(f[b].items, id))];
      assert RemoveAll(f[b].items, [id]) == RemoveNode(f[b].items, id);
      forall l | l in order[1..] ensures l != b && g[l] == f[l] {}
      RecoverNothing(g, order[1..], after);
    } else {
      CollectFresh(f[k].items, seen);
      SameEntry(f, k);
      var after := CollectDuplicateIDs(f[k].items, seen).1;
      ClearTail(f, order, seen, b, after);
      assert Apart(f[k].items, f[b].items);
      RecoverSecond(f, order[1..], after, b, id);
    }
  }

  /** The subtree `id` lies in two collections, `a` and `b`, and `a` is scanned first; nothing else is
      duplicated.  Recovery takes the copy out of `b`. */
  lemma {:induction false} RecoverPair(f: Forest, order: seq<string>, seen: set<string>, a: string, b: string,
                                          id: string)
    requires NoRepeats(order) && (forall k :: k in order ==> k in f && Healthy(f[k].items) && Unseen(f[k].items, seen))
    requires forall k, l :: k in order && l in order && k != l && !(k in {a, b} && l in {a, b}) ==>
      Apart(f[k].items, f[l].items)
    requires a in order && b in order && a != b
    requires forall i, j :: 0 <= i < |order| && 0 <= j < |order| && order[i] == a && order[j] == b ==> i < j
    requires Has(f[a].items, id) && Has(f[b].items, id) && NodeOf(f[a].items, id) == NodeOf(f[b].items, id)
    requires forall x :: Occurs(f[a].items, x) && Occurs(f[b].items, x) ==> Occurs([NodeOf(f[b].items, id)], x)
    ensures RecoverFrom(f, order, seen) == f[b := f[b].(items := RemoveNode(f[b].items, id))]
    decreases |order|
  {
    var k, rest := order[0], order[1..];
    assert order == [k] + rest;
    CollectFresh(f[k].items, seen);
    SameEntry(f, k);
    var after := CollectDuplicateIDs(f[k].items, seen).1;
    assert b in rest;
    forall l | l in rest && !(k == a && l == b) ensures Unseen(f[l].items, after) {
      assert Apart(f[k].items, f[l].items);
    }
    if k == a {
      assert Clear(f, rest, after, b);
      HasIffOccurs(f[a].items, id);
      FoundWithin(f[a].items, id);
      RecoverSecond(f, rest, after, b, id);
    } else {
      forall i, j | 0 <= i < |rest| && 0 <= j < |rest| && rest[i] == a && rest[j] == b ensures i < j {
        assert order[i + 1] == a && order[j + 1] == b;
      }
      RecoverPair(f, rest, after, a, b, id);
    }
  }

  // ---------------------------------------------------------------- what the collection takes out

  /** What the recovery is meant to leave: the first of each ID, without the nodes it flags. */
  function Pruned(items: seq<Node>, seen: set<string>): seq<Node> {
    if items == [] then []
    else if items[0].id in seen then Pruned(items[1..], seen)
    else
      var mid := CollectDuplicateIDs(items[0].children, seen + {items[0].id}).1;
      [items[0].(children := Pruned(items[0].children, seen + {items[0].id}))] + Pruned(items[1..], mid)
  }

  /** Each removal finds a node. */
  ghost predicate Removable(items: seq<Node>, ids: seq<string>)
    decreases ids
  {
    ids == [] || (Has(items, ids[0]) && Removable(RemoveNode(items, ids[0]), ids[1..]))
  }

  lemma {:induction false} RemoveAllConcat(items: seq<Node>, a: seq<string>, b: seq<string>)
    ensures RemoveAll(items, a + b) == RemoveAll(RemoveAll(items, a), b)
    ensures Removable(items, a) && Removable(RemoveAll(items, a), b) ==> Removable(items, a + b)
    decreases a
  {
    if a == [] {
      assert a + b == b;
    } else {
      assert (a + b)[0] == a[0] && (a + b)[1..] == a[1..] + b;
      RemoveAllConcat(RemoveNode(items, a[0]), a[1..], b);
    }
  }

  lemma {:induction false} RemoveAllHead(n: Node, rest: seq<Node>, ids: seq<string>)
    requires n.kind == Folder && n.id !in ids && Removable(n.children, ids)
    ensures RemoveAll([n] + rest, ids) == [n.(children := RemoveAll(n.children, ids))] + rest
      && Removable([n] + rest, ids)
    decreases ids
  {
    if ids != [] {
      var m := n.(children := RemoveNode(n.children, ids[0]));
      assert ids[0] in ids && ([n] + rest)[1..] == rest;
      NodeOfCons(n, rest, ids[0]);
      assert RemoveNode([n] + rest, ids[0]) == [m] + rest;
      RemoveAllHead(m, rest, ids[1..]);
    }
  }

  lemma {:induction false} RemoveAllTail(n: Node, rest: seq<Node>, ids: seq<string>)
    requires forall id :: id in ids ==> id != n.id && !Has(n.children, id)
    ensures RemoveAll([n] + rest, ids) == [n] + RemoveAll(rest, ids)
    ensures Removable(rest, ids) ==> Removable([n] + rest, ids)
    decreases ids
  {
    if ids != [] {
      assert ids[0] in ids && ([n] + rest)[1..] == rest;
      NodeOfCons(n, rest, ids[0]);
      assert RemoveNode([n] + rest, ids[0]) == [n] + RemoveNode(rest, ids[0]);
      assert forall id :: id in ids[1..] ==> id in ids;
      RemoveAllTail(n, RemoveNode(rest, ids[0]), ids[1..]);
    }
  }

  /** What is left holds none of the IDs seen before, and what was seen stays seen. */
  lemma {:induction false} PrunedFree(items: seq<Node>, seen: set<string>, id: string)
    requires id in seen
    ensures !Has(Pruned(items, seen), id) && id in CollectDuplicateIDs(items, seen).1
    decreases items
  {
    if items != [] {
      if items[0].id in seen {
        PrunedFree(items[1..], seen, id);
      } else {
        var n := items[0];
        var mid := CollectDuplicateIDs(n.children, seen + {n.id}).1;
        PrunedFree(n.children, seen + {n.id}, id);
        PrunedFree(items[1..], mid, id);
        NodeOfCons(n.(children := Pruned(n.children, seen + {n.id})), Pruned(items[1..], mid), id);
      }
    }
  }

  /** The removals take out exactly the flagged nodes when each flagged ID comes from an earlier collection. */
  lemma {:induction false} RemovesFlagged(items: seq<Node>, seen: set<string>)
    requires Plain(items) && forall id :: id in CollectDuplicateIDs(items, seen).0 ==> id in seen
    ensures RemoveAll(items, CollectDuplicateIDs(items, seen).0) == Pruned(items, seen)
    ensures Removable(items, CollectDuplicateIDs(items, seen).0)
    decreases items
  {
    if items != [] {
      var n, rest := items[0], items[1..];
      assert items == [n] + rest;
      if n.id in seen {
        RemovesFlagged(rest, seen);
        FlaggedFirst(items, seen);
      } else {
        var (inner, mid) := CollectDuplicateIDs(n.children, seen + {n.id});
        var others := CollectDuplicateIDs(rest, mid).0;
        assert forall id :: id in inner || id in others ==> id in inner + others;
        forall id | id in seen ensures id in mid && !Has(Pruned(n.children, seen + {n.id}), id) {
          PrunedFree(n.children, seen + {n.id}, id);
        }
        RemovesFlagged(n.children, seen + {n.id});
        RemovesFlagged(rest, mid);
        var m := n.(children := Pruned(n.children, seen + {n.id}));
        if n.kind == Folder {
          RemoveAllHead(n, rest, inner);
        } else {
          assert n.children == [] && inner == [] && m == n;
        }
        RemoveAllTail(m, rest, others);
        RemoveAllConcat(items, inner, others);
      }
    }
  }

  lemma FlaggedFirst(items: seq<Node>, seen: set<string>)
    requires items != [] && items[0].id in seen
    ensures var (dup, rest) := (CollectDuplicateIDs(items, seen).0, CollectDuplicateIDs(items[1..], seen).0);
      dup == [items[0].id] + rest && RemoveAll(items, dup) == RemoveAll(items[1..], rest)
      && (Removable(items[1..], rest) ==> Removable(items, dup))
  {
    var rest := CollectDuplicateIDs(items[1..], seen).0;
    assert ([items[0].id] + rest)[1..] == rest;
  }

  /** Unique IDs within the collection are enough for that. */
  lemma {:induction false} UniqueFlagged(items: seq<Node>, seen: set<string>)
    requires Unique(items) && Plain(items)
    ensures forall id :: id in CollectDuplicateIDs(items, seen).0 ==> id in seen && Occurs(items, id)
    ensures forall id :: id in CollectDuplicateIDs(items, seen).1 ==> id in seen || Occurs(items, id)
    decreases items
  {
    if items != [] {
      var n, rest := items[0], items[1..];
      UniqueParts(items);
      if n.id in seen {
        UniqueFlagged(rest, seen);
      } else {
        UniqueFlagged(n.children, seen + {n.id});
        UniqueFlagged(rest, CollectDuplicateIDs(n.children, seen + {n.id}).1);
      }
    }
  }

  lemma UniqueRemoves(items: seq<Node>, seen: set<string>)
    requires Unique(items) && Plain(items)
    ensures RemoveAll(items, CollectDuplicateIDs(items, seen).0) == Pruned(items, seen)
  {
    UniqueFlagged(items, seen);
    RemovesFlagged(items, seen);
  }

  // ---------------------------------------------------------------- something is always taken out

  function Size(items: seq<Node>): nat {
    if items == [] then 0 else 1 + Size(items[0].children) + Size(items[1..])
  }

  lemma {:induction false} RemoveSmaller(items: seq<Node>, id: string)
    ensures Size(RemoveNode(items, id)) <= Size(items)
    ensures Has(items, id) ==> Size(RemoveNode(items, id)) < Size(items)
    decreases items
  {
    if items != [] && items[0].id != id {
      var n, rest := items[0], items[1..];
      assert items == [n] + rest;
      NodeOfCons(n, rest, id);
      if n.kind == Folder && Has(n.children, id) {
        RemoveSmaller(n.children, id);
        assert ([n.(children := RemoveNode(n.children, id))] + rest)[1..] == rest;
      } else {
        RemoveSmaller(rest, id);
        assert ([n] + RemoveNode(rest, id))[1..] == RemoveNode(rest, id);
      }
    }
  }

  lemma {:induction false} RemoveAllSmaller(items: seq<Node>, ids: seq<string>)
    ensures Size(RemoveAll(items, ids)) <= Size(items)
    ensures ids != [] && Has(items, ids[0]) ==> RemoveAll(items, ids) != items
    decreases ids
  {
    if ids != [] {
      RemoveSmaller(items, ids[0]);
      RemoveAllSmaller(RemoveNode(items, ids[0]), ids[1..]);
    }
  }

  lemma {:induction false} FlaggedPresent(items: seq<Node>, seen: set<string>, k: nat)
    requires Plain(items) && k < |CollectDuplicateIDs(items, seen).0|
    ensures Has(items, CollectDuplicateIDs(items, seen).0[k])
    decreases items
  {
    var n, rest := items[0], items[1..];
    var id := CollectDuplicateIDs(items, seen).0[k];
    assert items == [n] + rest;
    if n.id != id { NodeOfCons(n, rest, id); }
    if n.id in seen {
      if k > 0 { FlaggedPresent(rest, seen, k - 1); }
    } else {
      var (inner, mid) := CollectDuplicateIDs(n.children, seen + {n.id});
      if k < |inner| {
        FlaggedPresent(n.children, seen + {n.id}, k);
      } else {
        FlaggedPresent(rest, mid, k - |inner|);
      }
    }
  }

  /** A collection in which something is flagged changes. */
  lemma FlaggedChanges(items: seq<Node>, seen: set<string>)
    requires Plain(items) && CollectDuplicateIDs(items, seen).0 != []
    ensures RemoveAll(items, CollectDuplicateIDs(items, seen).0) != items
  {
    FlaggedPresent(items, seen, 0);
    RemoveAllSmaller(items, CollectDuplicateIDs(items, seen).0);
  }

  // ---------------------------------------------------------------- exactly when it takes out what it flags

  const KEPT := "kept"
  const FLAGGED := "flagged"

  function Relabelled(items: seq<Node>, mark: string): seq<Node> {
    if items == [] then []
    else [items[0].(payload := mark, children := Relabelled(items[0].children, mark))] + Relabelled(items[1..], mark)
  }

  /** The same tree with the contents of each node replaced by a mark: FLAGGED for the flagged nodes and
      everything below them, KEPT for the others. Marks tell apart nodes of one ID. */
  function Marked(items: seq<Node>, seen: set<string>): seq<Node> {
    if items == [] then []
    else if items[0].id in seen then Relabelled(items[..1], FLAGGED) + Marked(items[1..], seen)
    else
      var mid := CollectDuplicateIDs(items[0].children, seen + {items[0].id}).1;
      var below := Marked(items[0].children, seen + {items[0].id});
      [items[0].(payload := KEPT, children := below)] + Marked(items[1..], mid)
  }

  function Keeps(items: seq<Node>): nat {
    if items == [] then 0
    else (if items[0].payload == KEPT then 1 else 0) + Keeps(items[0].children) + Keeps(items[1..])
  }

  lemma KeepsCons(n: Node, rest: seq<Node>)
    ensures Keeps([n] + rest) == (if n.payload == KEPT then 1 else 0) + Keeps(n.children) + Keeps(rest)
  {
    assert ([n] + rest)[1..] == rest;
  }

  lemma {:induction false} RelabelledPlain(items: seq<Node>)
    requires Plain(items)
    ensures Plain(Relabelled(items, FLAGGED)) && Keeps(Relabelled(items, FLAGGED)) == 0
    decreases items
  {
    if items != [] {
      RelabelledPlain(items[0].children);
      RelabelledPlain(items[1..]);
      var n := items[0].(payload := FLAGGED, children := Relabelled(items[0].children, FLAGGED));
      KeepsCons(n, Relabelled(items[1..], FLAGGED));
      assert Relabelled(items, FLAGGED)[1..] == Relabelled(items[1..], FLAGGED);
    }
  }

  /** Marks change nothing of what is flagged. */
  lemma {:induction false} MarkedSame(items: seq<Node>, seen: set<string>)
    requires Plain(items)
    ensures Plain(Marked(items, seen))
      && CollectDuplicateIDs(Marked(items, seen), seen) == CollectDuplicateIDs(items, seen)
    decreases items
  {
    if items != [] {
      var n, rest := items[0], items[1..];
      if n.id in seen {
        MarkedSame(rest, seen);
        var m := n.(payload := FLAGGED, children := Relabelled(n.children, FLAGGED));
        RelabelledPlain(n.children);
        assert items[..1][1..] == [] && Relabelled(items[..1], FLAGGED) == [m];
        assert Marked(items, seen)[1..] == Marked(rest, seen);
      } else {
        var mid := CollectDuplicateIDs(n.children, seen + {n.id}).1;
        MarkedSame(n.children, seen + {n.id});
        MarkedSame(rest, mid);
        assert Marked(items, seen)[1..] == Marked(rest, mid);
      }
    }
  }

  /** What is left of the marked tree is what was marked as kept. */
  lemma {:induction false} PrunedKept(items: seq<Node>, seen: set<string>)
    requires Plain(items)
    ensures Keeps(Pruned(Marked(items, seen), seen)) == Keeps(Marked(items, seen))
      == Size(Pruned(Marked(items, seen), seen))
    decreases items
  {
    if items != [] {
      var n, rest := items[0], items[1..];
      MarkedSame(items, seen);
      if n.id in seen {
        var m := n.(payload := FLAGGED, children := Relabelled(n.children, FLAGGED));
        PrunedKept(rest, seen);
        RelabelledPlain(n.children);
        assert items[..1][1..] == [] && Relabelled(items[..1], FLAGGED) == [m];
        KeepsCons(m, Marked(rest, seen));
        assert Marked(items, seen)[1..] == Marked(rest, seen);
      } else {
        var mid := CollectDuplicateIDs(n.children, seen + {n.id}).1;
        MarkedSame(n.children, seen + {n.id});
        PrunedKept(n.children, seen + {n.id});
        PrunedKept(rest, mid);
        var below := Marked(n.children, seen + {n.id});
        KeepsCons(n.(payload := KEPT, children := below), Marked(rest, mid));
        assert Marked(items, seen)[1..] == Marked(rest, mid);
        var left := Pruned(Marked(rest, mid), mid);
        var m := n.(payload := KEPT, children := Pruned(below, seen + {n.id}));
        KeepsCons(m, left);
        assert ([m] + left)[1..] == left && Pruned(Marked(items, seen), seen) == [m] + left;
      }
    }
  }

  lemma {:induction false} RemoveKeeps(items: seq<Node>, id: string)
    ensures Keeps(RemoveNode(items, id)) <= Keeps(items)
    decreases items
  {
    if items != [] && items[0].id != id {
      var n, rest := items[0], items[1..];
      if n.kind == Folder && Has(n.children, id) {
        RemoveKeeps(n.children, id);
        KeepsCons(n.(children := RemoveNode(n.children, id)), rest);
      } else {
        RemoveKeeps(rest, id);
        KeepsCons(n, RemoveNode(rest, id));
      }
    }
  }

  lemma {:induction false} RemoveAllKeeps(items: seq<Node>, ids: seq<string>)
    ensures Keeps(RemoveAll(items, ids)) <= Keeps(items)
    decreases ids
  {
    if ids != [] {
      RemoveKeeps(items, ids[0]);
      RemoveAllKeeps(RemoveNode(items, ids[0]), ids[1..]);
    }
  }

  /** Removing the ID of the first node, a kept one, loses it. */
  lemma {:induction false} HeadLost(n: Node, rest: seq<Node>, ids: seq<string>)
    requires n.payload == KEPT && n.id in ids
    ensures Keeps(RemoveAll([n] + rest, ids)) < Keeps([n] + rest)
    decreases ids
  {
    var items, next := [n] + rest, RemoveNode([n] + rest, ids[0]);
    assert items[1..] == rest;
    KeepsCons(n, rest);
    if ids[0] == n.id {
      assert next == rest;
      RemoveAllKeeps(next, ids[1..]);
    } else {
      RemoveKeeps(items, ids[0]);
      assert next[0].id == n.id && next[0].payload == KEPT && next == [next[0]] + next[1..];
      HeadLost(next[0], next[1..], ids[1..]);
    }
  }

  /** Other removals act below the first node as on its children alone, or after it. */
  lemma {:induction false} SplitHead(n: Node, rest: seq<Node>, ids: seq<string>)
    requires n.id !in ids && (n.kind == Folder || n.children == [])
    ensures Keeps(RemoveAll([n] + rest, ids))
         <= (if n.payload == KEPT then 1 else 0) + Keeps(RemoveAll(n.children, ids)) + Keeps(rest)
    decreases ids
  {
    KeepsCons(n, rest);
    if ids != [] {
      assert ([n] + rest)[1..] == rest && ids[0] in ids;
      if n.kind == Folder && Has(n.children, ids[0]) {
        var m := n.(children := RemoveNode(n.children, ids[0]));
        assert RemoveNode([n] + rest, ids[0]) == [m] + rest;
        SplitHead(m, rest, ids[1..]);
      } else {
        assert RemoveNode([n] + rest, ids[0]) == [n] + RemoveNode(rest, ids[0]);
        RemoveMissing(n.children, ids[0]);
        RemoveKeeps(rest, ids[0]);
        SplitHead(n, RemoveNode(rest, ids[0]), ids[1..]);
      }
    }
  }

  lemma {:induction false} RemoveMissing(items: seq<Node>, id: string)
    requires !Has(items, id)
    ensures RemoveNode(items, id) == items
  {
    if items != [] {
      assert items == [items[0]] + items[1..];
      NodeOfCons(items[0], items[1..], id);
      RemoveMissing(items[1..], id);
    }
  }

  /** In a tree of kept nodes, removing an ID that occurs loses one. */
  lemma {:induction false} KeptLost(items: seq<Node>, ids: seq<string>, id: string)
    requires id in ids && Has(items, id)
    ensures Size(RemoveAll(items, ids)) < Size(items)
    decreases ids
  {
    if Has(items, ids[0]) {
      RemoveSmaller(items, ids[0]);
      RemoveAllSmaller(RemoveNode(items, ids[0]), ids[1..]);
    } else {
      RemoveMissing(items, ids[0]);
      KeptLost(items, ids[1..], id);
    }
  }

  lemma {:induction false} KeepsAtMost(items: seq<Node>)
    ensures Keeps(items) <= Size(items)
    decreases items
  {
    if items != [] {
      KeepsAtMost(items[0].children);
      KeepsAtMost(items[1..]);
    }
  }

  /** What was seen in a tree is what is left of it, besides what was seen before. */
  lemma {:induction false} SeenLeft(items: seq<Node>, seen: set<string>, id: string)
    requires Plain(items) && id in CollectDuplicateIDs(items, seen).1
    ensures id in seen || Has(Pruned(items, seen), id)
    decreases items
  {
    if items != [] {
      var n, rest := items[0], items[1..];
      if n.id in seen {
        SeenLeft(rest, seen, id);
      } else {
        var mid := CollectDuplicateIDs(n.children, seen + {n.id}).1;
        var m := n.(children := Pruned(n.children, seen + {n.id}));
        SeenLeft(rest, mid, id);
        if id in mid { SeenLeft(n.children, seen + {n.id}, id); }
        if id != n.id { NodeOfCons(m, Pruned(rest, mid), id); }
      }
    }
  }

  /** A flagged ID that was not seen before costs a kept node. */
  lemma {:induction false} WrongRemoved(items: seq<Node>, seen: set<string>, id: string)
    requires Plain(items) && id in CollectDuplicateIDs(items, seen).0 && id !in seen
    ensures Keeps(RemoveAll(Marked(items, seen), CollectDuplicateIDs(items, seen).0)) < Keeps(Marked(items, seen))
    decreases items
  {
    var n, rest := items[0], items[1..];
    if n.id in seen {
      var m := n.(payload := FLAGGED, children := Relabelled(n.children, FLAGGED));
      RelabelledPlain(n.children);
      assert items[..1][1..] == [] && Relabelled(items[..1], FLAGGED) == [m];
      assert Marked(items, seen)[1..] == Marked(rest, seen);
      KeepsCons(m, Marked(rest, seen));
      MarkedSame(items, seen);
      MarkedSame(rest, seen);
      FlaggedFirst(Marked(items, seen), seen);
      WrongRemoved(rest, seen, id);
    } else {
      WrongBelow(items, seen, id);
    }
  }

  lemma {:induction false} WrongBelow(items: seq<Node>, seen: set<string>, id: string)
    requires Plain(items) && id in CollectDuplicateIDs(items, seen).0 && id !in seen && items[0].id !in seen
    ensures Keeps(RemoveAll(Marked(items, seen), CollectDuplicateIDs(items, seen).0)) < Keeps(Marked(items, seen))
    decreases items, 1
  {
    var n, rest := items[0], items[1..];
    var (inner, mid) := CollectDuplicateIDs(n.children, seen + {n.id});
    var others := CollectDuplicateIDs(rest, mid).0;
    var m := n.(payload := KEPT, children := Marked(n.children, seen + {n.id}));
    var after := Marked(rest, mid);
    RemoveAllConcat([m] + after, inner, others);
    RemoveAllKeeps(RemoveAll([m] + after, inner), others);
    MarkedSame(n.children, seen + {n.id});
    KeepsCons(m, after);
    if n.id in inner {
      HeadLost(m, after, inner);
    } else if bad :| bad in inner && bad !in seen {
      WrongRemoved(n.children, seen + {n.id}, bad);
      SplitHead(m, after, inner);
    } else {
      RemovesFlagged(m.children, seen + {n.id});
      if m.kind == Folder { RemoveAllHead(m, after, inner); }
      WrongAfter(items, seen, id, others);
    }
  }

  /** The same for an ID flagged after the first node, when everything below it is in order. */
  lemma {:induction false} WrongAfter(items: seq<Node>, seen: set<string>, id: string, others: seq<string>)
    requires Plain(items) && items != [] && items[0].id !in seen && id !in seen && id in others
    requires var mid := CollectDuplicateIDs(items[0].children, seen + {items[0].id}).1;
      others == CollectDuplicateIDs(items[1..], mid).0
    ensures var (below, mid) := (Marked(items[0].children, seen + {items[0].id}),
                                 CollectDuplicateIDs(items[0].children, seen + {items[0].id}).1);
      var m := items[0].(payload := KEPT, children := Pruned(below, seen + {items[0].id}));
      Keeps(RemoveAll([m] + Marked(items[1..], mid), others)) < 1 + Keeps(below) + Keeps(Marked(items[1..], mid))
    decreases items, 0
  {
    var n, rest := items[0], items[1..];
    var mid := CollectDuplicateIDs(n.children, seen + {n.id}).1;
    var below := Marked(n.children, seen + {n.id});
    var left := Pruned(below, seen + {n.id});
    var m := n.(payload := KEPT, children := left);
    var after := Marked(rest, mid);
    PrunedKept(n.children, seen + {n.id});
    MarkedSame(n.children, seen + {n.id});
    KeepsCons(m, after);
    if n.id in others {
      HeadLost(m, after, others);
    } else if lost :| lost in others && Has(left, lost) {
      KeptLost(left, others, lost);
      KeepsAtMost(RemoveAll(left, others));
      SplitHead(m, after, others);
    } else {
      RemoveAllTail(m, after, others);
      if id in mid { SeenLeft(below, seen + {n.id}, id); }
      WrongRemoved(rest, mid, id);
      KeepsCons(m, RemoveAll(after, others));
    }
  }

  /** The recovery takes out exactly the nodes it flags if and only if each flagged ID comes from an earlier
      collection. */
  lemma TakesOutFlagged(items: seq<Node>, seen: set<string>)
    requires Plain(items)
    ensures RemoveAll(Marked(items, seen), CollectDuplicateIDs(items, seen).0) == Pruned(Marked(items, seen), seen)
       <==> forall id :: id in CollectDuplicateIDs(items, seen).0 ==> id in seen
  {
    MarkedSame(items, seen);
    PrunedKept(items, seen);
    if id :| id in CollectDuplicateIDs(items, seen).0 && id !in seen {
      WrongRemoved(items, seen, id);
    } else {
      RemovesFlagged(Marked(items, seen), seen);
    }
  }

  /** Otherwise the removal can take the first node instead of the flagged one: a folder that holds a copy of
      its own ID is lost with all it holds. */
  lemma NestedCopyLost(folder: Node, copy: Node, seen: set<string>)
    requires folder.kind == Folder && folder.children == [copy] && copy.id == folder.id && folder.id !in seen
    ensures CollectDuplicateIDs([folder], seen).0 == [folder.id]
    ensures RemoveAll([folder], [folder.id]) == [] && Pruned([folder], seen) == [folder.(children := [])]
  {
    var inner := seen + {folder.id};
    assert [folder][1..] == [] && [copy][1..] == [];
    assert CollectDuplicateIDs([copy], inner) == ([copy.id] + CollectDuplicateIDs([], inner).0, inner);
    assert Pruned([copy], inner) == [];
    assert [folder.id][1..] == [] && RemoveNode([folder], folder.id) == [];
  }
}
