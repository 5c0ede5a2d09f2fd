/**
 * Collection items as trees, and the operations on them: lookup, removal and insertion by ID, the
 * collection of duplicate IDs, and what they mean for one another.
 */
module Tree {
  import opened Common

  datatype Kind = Folder | Request

  /** `payload` is everything else the item carries: its name and the stored request. */
  datatype Node = Node(id: string, kind: Kind, payload: string, children: seq<Node>)

  // ---------------------------------------------------------------- positions

  /** A negative or too large position means the end. */
  function InsertAt<T>(s: seq<T>, v: T, pos: int): seq<T> {
    var p := if pos < 0 || pos > |s| then |s| else pos;
    s[..p] + [v] + s[p..]
  }

  // ---------------------------------------------------------------- counting

  /** What to count: the nodes with an ID, or those with exactly these contents. */
  datatype Query = ById(id: string) | ByContents(id: string, kind: Kind, payload: string)

  predicate Matches(n: Node, q: Query) {
    n.id == q.id && (q.ByContents? ==> n.kind == q.kind && n.payload == q.payload)
  }

  /** The number of matching nodes, at any depth. */
  function Count(items: seq<Node>, q: Query): nat {
    if items == [] then 0
    else (if Matches(items[0], q) then 1 else 0) + Count(items[0].children, q) + Count(items[1..], q)
  }

  predicate Occurs(items: seq<Node>, id: string) { Count(items, ById(id)) > 0 }

  /** No ID occurs twice. */
  ghost predicate Unique(items: seq<Node>) {
    forall id :: Count(items, ById(id)) <= 1
  }

  /** Requests have no children; the lookup below relies on it to reach every node. */
  predicate Plain(items: seq<Node>) {
    items == [] || (
      && (items[0].kind == Request ==> items[0].children == [])
      && Plain(items[0].children) && Plain(items[1..]))
  }

  // ---------------------------------------------------------------- operations

  datatype Found = Found(node: Node, parent: Option<Node>)

  /** Depth-first search; only folders are entered. */
  function FindNode(id: string, items: seq<Node>, parent: Option<Node>): Option<Found> {
    if items == [] then None
    else if items[0].id == id then Some(Found(items[0], parent))
    else
      var inner := if items[0].kind == Folder then FindNode(id, items[0].children, Some(items[0])) else None;
      if inner.Some? then inner else FindNode(id, items[1..], parent)
  }

  predicate Has(items: seq<Node>, id: string) { FindNode(id, items, None).Some? }

  /** The node itself or one of its descendants has the ID. */
  predicate Contains(node: Node, id: string) { node.id == id || Has(node.children, id) }

  /** Removes the first node with the ID, with its subtree. */
  function RemoveNode(items: seq<Node>, id: string): seq<Node> {
    if items == [] then []
    else if items[0].id == id then items[1..]
    else if items[0].kind == Folder && Has(items[0].children, id) then
      [items[0].(children := RemoveNode(items[0].children, id))] + items[1..]
    else [items[0]] + RemoveNode(items[1..], id)
  }

  /** Inserts below the first node whose ID is `parentID`. */
  function InsertBelow(items: seq<Node>, parentID: string, item: Node, pos: int): seq<Node> {
    if items == [] then []
    else if items[0].id == parentID then
      [items[0].(children := InsertAt(items[0].children, item, pos))] + items[1..]
    else if items[0].kind == Folder && Has(items[0].children, parentID) then
      [items[0].(children := InsertBelow(items[0].children, parentID, item, pos))] + items[1..]
    else [items[0]] + InsertBelow(items[1..], parentID, item, pos)
  }

  /** The empty parent means the top level; any other parent must be a folder. */
  predicate ValidParent(items: seq<Node>, parentID: string) {
    parentID == "" || (Has(items, parentID) && FindNode(parentID, items, None).value.node.kind == Folder)
  }

  function InsertItem(items: seq<Node>, parentID: string, item: Node, pos: int): Option<seq<Node>> {
    if parentID == "" then Some(InsertAt(items, item, pos))
    else if ValidParent(items, parentID) then Some(InsertBelow(items, parentID, item, pos))
    else None
  }

  /** Where the children of a valid parent are listed. */
  function ChildrenOf(items: seq<Node>, parentID: string): seq<Node> {
    if parentID == "" then items
    else if Has(items, parentID) then FindNode(parentID, items, None).value.node.children
    else []
  }

  /** The IDs already in `seen`, and `seen` with the others added; below a duplicate nothing is looked at. */
  function CollectDuplicateIDs(items: seq<Node>, seen: set<string>): (seq<string>, set<string>) {
    if items == [] then ([], seen)
    else if items[0].id in seen then
      var (rest, after) := CollectDuplicateIDs(items[1..], seen);
      ([items[0].id] + rest, after)
    else
      var (inner, mid) := CollectDuplicateIDs(items[0].children, seen + {items[0].id});
      var (rest, after) := CollectDuplicateIDs(items[1..], mid);
      (inner + rest, after)
  }

  function RemoveAll(items: seq<Node>, ids: seq<string>): seq<Node>
    decreases ids
  {
    if ids == [] then items else RemoveAll(RemoveNode(items, ids[0]), ids[1..])
  }

  // ---------------------------------------------------------------- lookup

  /** Which node is found does not depend on the parent handed in. */
  lemma FindParentIrrelevant(id: string, items: seq<Node>, p: Option<Node>, q: Option<Node>)
    ensures FindNode(id, items, p).Some? <==> FindNode(id, items, q).Some?
    ensures FindNode(id, items, p).Some? ==> FindNode(id, items, p).value.node == FindNode(id, items, q).value.node
    decreases items
  {
  }

  /** Lookup finds exactly the IDs that occur. */
  lemma {:induction false} HasIffOccurs(items: seq<Node>, id: string)
    requires Plain(items)
    ensures Has(items, id) <==> Occurs(items, id)
    ensures Has(items, id) ==> NodeOf(items, id).id == id
    decreases items
  {
    if items != [] && items[0].id != id {
      HasIffOccurs(items[0].children, id);
      HasIffOccurs(items[1..], id);
      FindParentIrrelevant(id, items[0].children, None, Some(items[0]));
    }
  }

  function NodeOf(items: seq<Node>, id: string): Node
    requires Has(items, id)
  {
    FindNode(id, items, None).value.node
  }

  /** One step of the search, in terms of whole nodes. */
  lemma NodeOfCons(n: Node, rest: seq<Node>, id: string)
    requires n.id != id
    ensures n.kind == Folder && Has(n.children, id) ==>
      Has([n] + rest, id) && NodeOf([n] + rest, id) == NodeOf(n.children, id)
    ensures !(n.kind == Folder && Has(n.children, id)) ==>
              (Has([n] + rest, id) <==> Has(rest, id)) && (Has(rest, id) ==> NodeOf([n] + rest, id) == NodeOf(rest, id))
  {
    assert ([n] + rest)[1..] == rest;
    FindParentIrrelevant(id, n.children, None, Some(n));
  }

  lemma Cons(n: Node, rest: seq<Node>, q: Query)
    ensures Count([n] + rest, q) == (if Matches(n, q) then 1 else 0) + Count(n.children, q) + Count(rest, q)
    ensures Plain([n] + rest) <==> (n.kind == Request ==> n.children == []) && Plain(n.children) && Plain(rest)
  {
    assert ([n] + rest)[1..] == rest;
  }

  lemma Single(n: Node, q: Query)
    ensures Count([n], q) == (if Matches(n, q) then 1 else 0) + Count(n.children, q)
    ensures Plain([n]) <==> (n.kind == Request ==> n.children == []) && Plain(n.children)
  {
    assert [n][1..] == [];
  }

  lemma {:induction false} Concat(a: seq<Node>, b: seq<Node>, q: Query)
    ensures Count(a + b, q) == Count(a, q) + Count(b, q)
    ensures Plain(a + b) <==> Plain(a) && Plain(b)
  {
    if a == [] {
      assert a + b == b;
    } else {
      assert (a + b)[1..] == a[1..] + b;
      Concat(a[1..], b, q);
    }
  }

  // ---------------------------------------------------------------- removal

  /** Removal takes away exactly the subtree of the node found. */
  lemma {:induction false} RemoveCount(items: seq<Node>, id: string, q: Query)
    requires Plain(items) && Has(items, id)
    ensures Count(items, q) == Count(RemoveNode(items, id), q) + Count([NodeOf(items, id)], q)
    ensures Plain(RemoveNode(items, id)) && Plain([NodeOf(items, id)])
    decreases items
  {
    var n, rest := items[0], items[1..];
    assert items == [n] + rest;
    if n.id == id {
      Single(n, q);
    } else {
      NodeOfCons(n, rest, id);
      if n.kind == Folder && Has(n.children, id) {
        RemoveCount(n.children, id, q);
        Cons(n.(children := RemoveNode(n.children, id)), rest, q);
      } else {
        RemoveCount(rest, id, q);
        Cons(n, RemoveNode(rest, id), q);
      }
    }
  }

  lemma {:induction false} RemoveAbsent(items: seq<Node>, id: string)
    requires Plain(items) && !Occurs(items, id)
    ensures RemoveNode(items, id) == items
    decreases items
  {
    if items != [] {
      HasIffOccurs(items[0].children, id);
      RemoveAbsent(items[1..], id);
    }
  }

  // ---------------------------------------------------------------- insertion

  /** Taking the subtree out again gives back the siblings. */
  lemma InsertAtUndone(items: seq<Node>, item: Node, pos: int)
    requires Plain(items) && !Occurs(items, item.id)
    ensures RemoveNode(InsertAt(items, item, pos), item.id) == items
    ensures Has(InsertAt(items, item, pos), item.id) && NodeOf(InsertAt(items, item, pos), item.id) == item
    ensures Plain([item]) ==> Plain(InsertAt(items, item, pos))
  {
    var p := if pos < 0 || pos > |items| then |items| else pos;
    var a, b := items[..p], items[p..];
    assert items == a + b;
    Concat(a, b, ById(item.id));
    RemoveBehind(a, item, b);
    assert a + ([item] + b) == InsertAt(items, item, pos);
    if Plain([item]) {
      Concat([item], b, ById(item.id));
      Concat(a, [item] + b, ById(item.id));
    }
  }

  lemma {:induction false} RemoveBehind(a: seq<Node>, item: Node, b: seq<Node>)
    requires Plain(a) && !Occurs(a, item.id)
    ensures RemoveNode(a + ([item] + b), item.id) == a + b
    ensures Has(a + ([item] + b), item.id) && NodeOf(a + ([item] + b), item.id) == item
  {
    if a == [] {
      assert a + ([item] + b) == [item] + b && a + b == b;
    } else {
      assert (a + ([item] + b))[1..] == a[1..] + ([item] + b);
      HasIffOccurs(a[0].children, item.id);
      FindParentIrrelevant(item.id, a[0].children, None, Some(a[0]));
      RemoveBehind(a[1..], item, b);
      assert [a[0]] + (a[1..] + b) == a + b;
    }
  }

  lemma {:induction false} InsertBelowUndone(items: seq<Node>, parentID: string, item: Node, pos: int)
    requires Plain(items) && !Occurs(items, item.id) && Plain([item])
    requires Has(items, parentID) && NodeOf(items, parentID).kind == Folder
    ensures var after := InsertBelow(items, parentID, item, pos);
      RemoveNode(after, item.id) == items && Has(after, item.id) && NodeOf(after, item.id) == item && Plain(after)
    decreases items
  {
    var n, rest := items[0], items[1..];
    assert items == [n] + rest;
    if n.id == parentID {
      InsertAtUndone(n.children, item, pos);
      NodeOfCons(n.(children := InsertAt(n.children, item, pos)), rest, item.id);
    } else {
      NodeOfCons(n, rest, parentID);
      if n.kind == Folder && Has(n.children, parentID) {
        InsertBelowUndone(n.children, parentID, item, pos);
        NodeOfCons(n.(children := InsertBelow(n.children, parentID, item, pos)), rest, item.id);
      } else {
        InsertBelowUndone(rest, parentID, item, pos);
        HasIffOccurs(n.children, item.id);
        NodeOfCons(n, InsertBelow(rest, parentID, item, pos), item.id);
      }
    }
  }

  lemma {:induction false} InsertBelowPlace(items: seq<Node>, parentID: string, item: Node, pos: int)
    requires Has(items, parentID)
    ensures Has(InsertBelow(items, parentID, item, pos), parentID)
    ensures NodeOf(InsertBelow(items, parentID, item, pos), parentID).children
         == InsertAt(NodeOf(items, parentID).children, item, pos)
    decreases items
  {
    var n, rest := items[0], items[1..];
    assert items == [n] + rest;
    if n.id != parentID {
      NodeOfCons(n, rest, parentID);
      if n.kind == Folder && Has(n.children, parentID) {
        InsertBelowPlace(n.children, parentID, item, pos);
        NodeOfCons(n.(children := InsertBelow(n.children, parentID, item, pos)), rest, parentID);
      } else {
        InsertBelowPlace(rest, parentID, item, pos);
        NodeOfCons(n, InsertBelow(rest, parentID, item, pos), parentID);
      }
    }
  }

  /** Inserting a subtree whose ID is new is refused exactly when the parent is neither the top level nor a
      folder of the tree.  Otherwise nothing else changes, because removing it again gives back the tree; the
      nodes are those of the tree and of the subtree; and it sits in its parent's list where the position
      says. */
  lemma InsertMeaning(items: seq<Node>, parentID: string, item: Node, pos: int)
    requires Plain(items) && Plain([item]) && !Occurs(items, item.id)
    ensures InsertItem(items, parentID, item, pos).None? <==>
      parentID != "" && !(Has(items, parentID) && NodeOf(items, parentID).kind == Folder)
    ensures InsertItem(items, parentID, item, pos).Some? ==>
      var after := InsertItem(items, parentID, item, pos).value;
      && Plain(after)
      && RemoveNode(after, item.id) == items
      && Has(after, item.id) && NodeOf(after, item.id) == item
      && ChildrenOf(after, parentID) == InsertAt(ChildrenOf(items, parentID), item, pos)
      && forall q :: Count(after, q) == Count(items, q) + Count([item], q)
  {
    if ValidParent(items, parentID) {
      if parentID == "" {
        InsertAtUndone(items, item, pos);
      } else {
        InsertBelowUndone(items, parentID, item, pos);
        InsertBelowPlace(items, parentID, item, pos);
      }
      var after := InsertItem(items, parentID, item, pos).value;
      forall q ensures Count(after, q) == Count(items, q) + Count([item], q) { RemoveCount(after, item.id, q); }
    }
  }
}
