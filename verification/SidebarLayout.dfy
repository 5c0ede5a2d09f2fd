/**
 * The sidebar layout: a stored order of entries that is only a hint, reconciled with the collections
 * whenever it is read, and the mutators that edit the stored list.
 */
module SidebarLayout {
  import opened Common
  import opened Tree
  import opened Recovery
  import opened Moves

  datatype Entry = Entry(kind: string, id: string)

  const COLLECTION_KIND: string := "collection"
  const ITEM_KIND: string := "item"

  datatype Col = Col(id: string, name: string)

  function ColEntries(cols: seq<Col>): seq<Entry> {
    seq(|cols|, i requires 0 <= i < |cols| => Entry(COLLECTION_KIND, cols[i].id))
  }

  function ItemEntries(items: seq<Node>): seq<Entry> {
    seq(|items|, i requires 0 <= i < |items| => Entry(ITEM_KIND, items[i].id))
  }

  // ---------------------------------------------------------------- the specification

  /** The entries of `layout` that exist, each at its first place. */
  function Kept(layout: seq<Entry>, valid: seq<Entry>): seq<Entry> {
    if layout == [] then []
    else
      var rest, last := Kept(layout[..|layout| - 1], valid), layout[|layout| - 1];
      if last in valid && last !in rest then rest + [last] else rest
  }

  /** `next` with the candidates it lacks appended in order. */
  function Completed(next: seq<Entry>, candidates: seq<Entry>): seq<Entry>
    decreases candidates
  {
    if candidates == [] then next
    else Completed(if candidates[0] in next then next else next + [candidates[0]], candidates[1..])
  }

  function Reconciled(layout: seq<Entry>, candidates: seq<Entry>): seq<Entry> {
    Completed(Kept(layout, candidates), candidates)
  }

  function FirstIndex<T(==)>(s: seq<T>, x: T): (i: nat)
    requires x in s
    ensures i < |s| && s[i] == x && x !in s[..i]
  {
    if s[0] == x then 0
    else
      assert s == [s[0]] + s[1..];
      var r := FirstIndex(s[1..], x);
      assert s[..1 + r] == [s[0]] + s[1..][..r];
      1 + r
  }

  lemma {:induction false} FirstIndexIs<T>(s: seq<T>, x: T, i: nat)
    requires i < |s| && s[i] == x && x !in s[..i]
    ensures FirstIndex(s, x) == i
  {
    if i > 0 {
      assert s[..i][0] == s[0] && s[1..][..i - 1] == s[..i][1..];
      FirstIndexIs(s[1..], x, i - 1);
    }
  }

  lemma FirstIndexSnoc<T>(s: seq<T>, y: T, x: T)
    requires x in s
    ensures FirstIndex(s + [y], x) == FirstIndex(s, x)
  {
    var i := FirstIndex(s, x);
    assert (s + [y])[..i] == s[..i];
    FirstIndexIs(s + [y], x, i);
  }

  /** Kept entries: exactly the listed ones that exist, without repeats, in stored order. */
  lemma {:induction false} KeptMeaning(layout: seq<Entry>, valid: seq<Entry>)
    ensures var kept := Kept(layout, valid);
      && NoRepeats(kept)
      && (forall e :: e in kept <==> e in layout && e in valid)
      && (forall i, j :: 0 <= i < j < |kept| ==> FirstIndex(layout, kept[i]) < FirstIndex(layout, kept[j]))
  {
    if layout != [] {
      var init, last := layout[..|layout| - 1], layout[|layout| - 1];
      assert layout == init + [last];
      KeptMeaning(init, valid);
      var kept, rest := Kept(layout, valid), Kept(init, valid);
      forall e | e in init ensures FirstIndex(layout, e) == FirstIndex(init, e) { FirstIndexSnoc(init, last, e); }
      forall i, j | 0 <= i < j < |kept| ensures FirstIndex(layout, kept[i]) < FirstIndex(layout, kept[j]) {
        assert kept[i] in rest;
        if j < |rest| {
          assert kept[j] in rest;
        } else {
          assert last !in init && layout[..|init|] == init;
          FirstIndexIs(layout, last, |init|);
        }
      }
    }
  }

  lemma {:induction false} KeptAll(layout: seq<Entry>, valid: seq<Entry>)
    requires NoRepeats(layout) && forall e :: e in layout ==> e in valid
    ensures Kept(layout, valid) == layout
  {
    if layout != [] {
      var init, last := layout[..|layout| - 1], layout[|layout| - 1];
      assert layout == init + [last];
      KeptAll(init, valid);
    }
  }

  lemma {:induction false} CompletedMeaning(next: seq<Entry>, candidates: seq<Entry>)
    requires NoRepeats(next)
    ensures var r := Completed(next, candidates);
      && NoRepeats(r) && next <= r
      && (forall e :: e in r <==> e in next || e in candidates)
      && (forall i :: |next| <= i < |r| ==> r[i] in candidates && r[i] !in next)
      && (forall i, j :: |next| <= i < j < |r| ==> FirstIndex(candidates, r[i]) < FirstIndex(candidates, r[j]))
    decreases |candidates|
  {
    if candidates != [] {
      var c, more := candidates[0], candidates[1..];
      assert candidates == [c] + more;
      var step := if c in next then next else next + [c];
      CompletedMeaning(step, more);
      var r := Completed(next, candidates);
      forall i, j | |next| <= i < j < |r| ensures FirstIndex(candidates, r[i]) < FirstIndex(candidates, r[j]) {
        if |step| <= i {
          assert r[i] in more && r[j] in more && r[i] != c && r[j] != c;
        } else {
          assert r[i] == c && r[j] != c;
        }
      }
    }
  }

  lemma {:induction false} CompletedNothing(next: seq<Entry>, candidates: seq<Entry>)
    requires forall e :: e in candidates ==> e in next
    ensures Completed(next, candidates) == next
    decreases |candidates|
  {
    if candidates != [] {
      assert candidates == [candidates[0]] + candidates[1..];
      CompletedNothing(next, candidates[1..]);
    }
  }

  /** The reconciled layout lists every candidate once and nothing else; first the entries already
      listed, in their stored order, then the missing ones in candidate order. */
  lemma ReconciledMeaning(layout: seq<Entry>, candidates: seq<Entry>)
    ensures var r, kept := Reconciled(layout, candidates), Kept(layout, candidates);
      && NoRepeats(r)
      && (forall e :: e in r <==> e in candidates)
      && kept <= r
      && (forall e :: e in kept ==> e in layout)
      && (forall i, j :: 0 <= i < j < |kept| ==> FirstIndex(layout, kept[i]) < FirstIndex(layout, kept[j]))
      && (forall i :: |kept| <= i < |r| ==> r[i] !in layout)
      && (forall i, j :: |kept| <= i < j < |r| ==> FirstIndex(candidates, r[i]) < FirstIndex(candidates, r[j]))
  {
    KeptMeaning(layout, candidates);
    CompletedMeaning(Kept(layout, candidates), candidates);
  }

  /** Reconciling twice changes nothing more. */
  lemma ReconciledTwice(layout: seq<Entry>, candidates: seq<Entry>)
    ensures Reconciled(Reconciled(layout, candidates), candidates) == Reconciled(layout, candidates)
  {
    ReconciledMeaning(layout, candidates);
    var r := Reconciled(layout, candidates);
    KeptAll(r, candidates);
    CompletedNothing(r, candidates);
  }

  /** Already reconciled lists are exactly the fixed points. */
  lemma ReconciledFixed(layout: seq<Entry>, candidates: seq<Entry>)
    ensures Reconciled(layout, candidates) == layout <==>
      NoRepeats(layout) && forall e :: e in layout <==> e in candidates
  {
    ReconciledMeaning(layout, candidates);
    if NoRepeats(layout) && forall e :: e in layout <==> e in candidates {
      KeptAll(layout, candidates);
      CompletedNothing(layout, candidates);
    }
  }

  /** When an entry is left out, the result is another layout. */
  lemma DropChanges(layout: seq<Entry>, candidates: seq<Entry>)
    requires |Kept(layout, candidates)| < |layout|
    ensures Reconciled(layout, candidates) != layout
  {
    ReconciledFixed(layout, candidates);
    if NoRepeats(layout) && forall e :: e in layout ==> e in candidates { KeptAll(layout, candidates); }
  }

  // ---------------------------------------------------------------- where an inserted entry is shown

  /** What follows does not change what was kept before. */
  lemma {:induction false} KeptPrefix(a: seq<Entry>, b: seq<Entry>, valid: seq<Entry>)
    ensures Kept(a, valid) <= Kept(a + b, valid)
    decreases |b|
  {
    if b == [] {
      assert a + b == a;
    } else {
      assert (a + b)[..|a + b| - 1] == a + b[..|b| - 1];
      KeptPrefix(a, b[..|b| - 1], valid);
    }
  }

  /** Every entry is kept exactly when all exist and none repeats. */
  lemma {:induction false} KeptLength(layout: seq<Entry>, valid: seq<Entry>)
    ensures |Kept(layout, valid)| <= |layout|
    ensures |Kept(layout, valid)| == |layout| <==> NoRepeats(layout) && forall e :: e in layout ==> e in valid
  {
    if NoRepeats(layout) && forall e :: e in layout ==> e in valid { KeptAll(layout, valid); }
    KeptBound(layout, valid);
    KeptMeaning(layout, valid);
  }

  lemma {:induction false} KeptBound(layout: seq<Entry>, valid: seq<Entry>)
    ensures |Kept(layout, valid)| <= |layout|
    ensures |Kept(layout, valid)| == |layout| ==> Kept(layout, valid) == layout
  {
    if layout != [] { KeptBound(layout[..|layout| - 1], valid); }
  }

  lemma FirstIndexPrefix<T>(a: seq<T>, s: seq<T>, x: T)
    requires a <= s && x in a
    ensures x in s && FirstIndex(s, x) == FirstIndex(a, x)
  {
    var i := FirstIndex(a, x);
    assert s[..i] == a[..i] && s[i] == a[i];
    FirstIndexIs(s, x, i);
  }

  /** Nothing before the place repeats, or is the entry itself. */
  ghost predicate PlaceClear(stored: seq<Entry>, entry: Entry, p: int) {
    0 <= p <= |stored| && NoRepeats(stored[..p]) && entry !in stored[..p]
  }

  /** An existing entry put into the stored layout at `p` is shown at `p` exactly when the stored entries
      before `p` all exist, none of them repeats, and none is the entry itself. */
  lemma PlaceShown(stored: seq<Entry>, entry: Entry, p: int, candidates: seq<Entry>)
    requires entry in candidates
    ensures entry in Reconciled(InsertAt(stored, entry, p), candidates)
    ensures FirstIndex(Reconciled(InsertAt(stored, entry, p), candidates), entry) == p
       <==> PlaceClear(stored, entry, p) && forall e :: e in stored[..p] ==> e in candidates
  {
    var q := if p < 0 || p > |stored| then |stored| else p;
    var before, layout := stored[..q], InsertAt(stored, entry, p);
    var kept, r := Kept(before, candidates), Reconciled(layout, candidates);
    assert layout == (before + [entry]) + stored[q..] && layout == before + ([entry] + stored[q..]);
    KeptPrefix(before, [entry] + stored[q..], candidates);
    KeptPrefix(before + [entry], stored[q..], candidates);
    assert (before + [entry])[..|before|] == before;
    ReconciledMeaning(layout, candidates);
    KeptMeaning(before, candidates);
    KeptLength(before, candidates);
    if entry in before {
      FirstIndexPrefix(kept, r, entry);
    } else {
      assert kept + [entry] <= r;
      FirstIndexIs(kept + [entry], entry, |kept|);
      FirstIndexPrefix(kept + [entry], r, entry);
    }
  }

  /** A stale entry before the place moves the shown entry up. */
  lemma PlaceMissed(stale: Entry, entry: Entry)
    requires stale != entry
    ensures Reconciled(InsertAt([stale], entry, 1), [entry]) == [entry]
    ensures FirstIndex(Reconciled(InsertAt([stale], entry, 1), [entry]), entry) != 1
  {
    var layout := InsertAt([stale], entry, 1);
    assert layout == [stale, entry] && layout[..1] == [stale] && [stale][..0] == [];
    assert Kept([stale], [entry]) == [] && Kept(layout, [entry]) == [entry];
    assert Completed([entry], [entry]) == [entry];
  }

  // ---------------------------------------------------------------- the loops

  predicate SortedByName(cols: seq<Col>) {
    forall i, j :: 0 <= i < j < |cols| ==> !Less(cols[j].name, cols[i].name)
  }

  /** The library sort, by name; the order of equal names is whatever the insertion makes of it. */
  method SortByName(cols: seq<Col>) returns (sorted: seq<Col>)
    ensures multiset(sorted) == multiset(cols) && SortedByName(sorted)
  {
    sorted := [];
    for n := 0 to |cols|
      invariant multiset(sorted) == multiset(cols[..n]) && SortedByName(sorted)
    {
      var c, k := cols[n], |sorted|;
      while k > 0 && Less(c.name, sorted[k - 1].name)
        invariant 0 <= k <= |sorted|
        invariant forall i :: k <= i < |sorted| ==> Less(c.name, sorted[i].name)
      {
        k := k - 1;
      }
      InsertSorted(sorted, c, k);
      InsertMultiset(sorted, c, k);
      assert cols[..n + 1] == cols[..n] + [c];
      sorted := sorted[..k] + [c] + sorted[k..];
    }
    assert cols[..|cols|] == cols;
  }

  lemma InsertMultiset(s: seq<Col>, c: Col, k: nat)
    requires k <= |s|
    ensures multiset(s[..k] + [c] + s[k..]) == multiset(s) + multiset{c}
  {
    assert s == s[..k] + s[k..];
  }

  /** An element no smaller than the one before it is no smaller than any before. */
  lemma NotBelow(s: seq<Col>, c: Col, i: nat, k: nat)
    requires SortedByName(s) && i < k <= |s| && !Less(c.name, s[k - 1].name)
    ensures !Less(c.name, s[i].name)
  {
    if Less(c.name, s[i].name) {
      LessTotal(s[i].name, s[k - 1].name);
      if i < k - 1 && s[i].name != s[k - 1].name { LessTransitive(c.name, s[i].name, s[k - 1].name); }
    }
  }

  lemma InsertSorted(s: seq<Col>, c: Col, k: nat)
    requires SortedByName(s) && k <= |s|
    requires k > 0 ==> !Less(c.name, s[k - 1].name)
    requires forall i :: k <= i < |s| ==> Less(c.name, s[i].name)
    ensures SortedByName(s[..k] + [c] + s[k..])
  {
    var t := s[..k] + [c] + s[k..];
    forall i, j | 0 <= i < j < |t| ensures !Less(t[j].name, t[i].name) {
      if j == k {
        assert t[j] == c && t[i] == s[i];
        NotBelow(s, c, i, k);
      } else if i == k {
        assert t[i] == c && t[j] == s[j - 1];
        LessTotal(s[j - 1].name, c.name);
      } else {
        assert t[i] == s[if i < k then i else i - 1] && t[j] == s[if j < k then j else j - 1];
      }
    }
  }

  /** The set of entries that exist. */
  method ValidEntries(cols: seq<Col>, rootItems: seq<Node>) returns (valid: set<Entry>)
    ensures forall e :: e in valid <==> e in ColEntries(cols) + ItemEntries(rootItems)
  {
    valid := {};
    for i := 0 to |cols|
      invariant forall e :: e in valid <==> e in ColEntries(cols)[..i]
    {
      assert ColEntries(cols)[..i + 1] == ColEntries(cols)[..i] + [Entry(COLLECTION_KIND, cols[i].id)];
      valid := valid + {Entry(COLLECTION_KIND, cols[i].id)};
    }
    for i := 0 to |rootItems|
      invariant forall e :: e in valid <==> e in ColEntries(cols) || e in ItemEntries(rootItems)[..i]
    {
      assert ItemEntries(rootItems)[..i + 1] == ItemEntries(rootItems)[..i] + [Entry(ITEM_KIND, rootItems[i].id)];
      valid := valid + {Entry(ITEM_KIND, rootItems[i].id)};
    }
  }

  /** The first loop: stored entries that exist, each once. */
  method KeepListed(layout: seq<Entry>, valid: set<Entry>, ghost candidates: seq<Entry>)
    returns (next: seq<Entry>, changed: bool)
    requires forall e :: e in valid <==> e in candidates
    ensures next == Kept(layout, candidates)
    ensures changed <==> |next| < |layout|
    ensures !changed ==> next == layout
  {
    next, changed := [], false;
    var kept: set<Entry> := {};
    for i := 0 to |layout|
      invariant next == Kept(layout[..i], candidates)
      invariant forall e :: e in kept <==> e in next
      invariant |next| <= i && (changed <==> |next| < i)
      invariant !changed ==> next == layout[..i]
    {
      var e := layout[i];
      assert layout[..i + 1] == layout[..i] + [e] && layout[..i + 1][..i] == layout[..i];
      if e !in valid || e in kept {
        changed := true;
      } else {
        kept := kept + {e};
        next := next + [e];
      }
    }
    assert layout[..|layout|] == layout;
  }

  /** The second loop: candidates not yet listed, in order. */
  method AppendMissing(listed: seq<Entry>, candidates: seq<Entry>) returns (next: seq<Entry>, added: bool)
    ensures next == Completed(listed, candidates)
    ensures added <==> next != listed
  {
    next, added := listed, false;
    var kept := set e | e in listed;
    for i := 0 to |candidates|
      invariant Completed(listed, candidates) == Completed(next, candidates[i..])
      invariant forall e :: e in kept <==> e in next
      invariant listed <= next && (added <==> next != listed)
    {
      var e := candidates[i];
      assert candidates[i..][1..] == candidates[i + 1..];
      if e !in kept {
        kept := kept + {e};
        next := next + [e];
        added := true;
      }
    }
  }

  /** reconcileSidebarLayout; `sorted` is the order the sort gave to the collections. */
  method ReconcileSidebarLayout(layout: seq<Entry>, cols: seq<Col>, rootItems: seq<Node>)
    returns (next: seq<Entry>, changed: bool, ghost sorted: seq<Col>)
    ensures multiset(sorted) == multiset(cols) && SortedByName(sorted)
    ensures next == Reconciled(layout, ColEntries(sorted) + ItemEntries(rootItems))
    ensures changed <==> next != layout
  {
    var inOrder := SortByName(cols);
    sorted := inOrder;
    var candidates := ColEntries(inOrder) + ItemEntries(rootItems);
    var valid := ValidEntries(cols, rootItems);
    SameEntries(cols, inOrder);
    var listed, dropped := KeepListed(layout, valid, candidates);
    var added: bool;
    next, added := AppendMissing(listed, candidates);
    changed := dropped || added;
    if dropped { DropChanges(layout, candidates); }
    if !dropped && added {
      assert |listed| < |next| by {
        KeptMeaning(layout, candidates);
        CompletedMeaning(listed, candidates);
      }
    }
  }

  lemma SameEntries(a: seq<Col>, b: seq<Col>)
    requires multiset(a) == multiset(b)
    ensures forall e :: e in ColEntries(a) <==> e in ColEntries(b)
  {
    forall e | e in ColEntries(a) ensures e in ColEntries(b) { SameEntriesOne(a, b, e); }
    forall e | e in ColEntries(b) ensures e in ColEntries(a) { SameEntriesOne(b, a, e); }
  }

  lemma SameEntriesOne(a: seq<Col>, b: seq<Col>, e: Entry)
    requires multiset(a) == multiset(b) && e in ColEntries(a)
    ensures e in ColEntries(b)
  {
    var i :| 0 <= i < |a| && ColEntries(a)[i] == e;
    assert a[i] in multiset(b);
    var j :| 0 <= j < |b| && b[j] == a[i];
    assert ColEntries(b)[j] == e;
  }

  // ---------------------------------------------------------------- mutators

  /** layoutRemove: the kept entries are moved to the front of the slice. */
  method LayoutRemove(layout: array<Entry>, kind: string, id: string) returns (n: nat)
    modifies layout
    ensures n <= layout.Length && layout[..n] == Without(old(layout[..]), Entry(kind, id))
  {
    n := 0;
    for i := 0 to layout.Length
      invariant n <= i
      invariant layout[..n] == Without(old(layout[..])[..i], Entry(kind, id))
      invariant forall k :: i <= k < layout.Length ==> layout[k] == old(layout[k])
    {
      var e := layout[i];
      assert old(layout[..])[..i + 1] == old(layout[..])[..i] + [e];
      WithoutSnoc(old(layout[..])[..i], e, Entry(kind, id));
      if !(e.kind == kind && e.id == id) {
        layout[n] := e;
        n := n + 1;
      }
    }
    assert old(layout[..])[..layout.Length] == old(layout[..]);
  }

  lemma {:induction false} WithoutSnoc<T>(s: seq<T>, y: T, x: T)
    ensures Without(s + [y], x) == Without(s, x) + (if y == x then [] else [y])
  {
    if s == [] {
      assert [y][1..] == [];
    } else {
      assert (s + [y])[1..] == s[1..] + [y];
      WithoutSnoc(s[1..], y, x);
    }
  }

  /** layoutMove: None when there is no such entry. */
  method LayoutMove(layout: seq<Entry>, kind: string, id: string, position: int) returns (r: Option<seq<Entry>>)
    ensures Entry(kind, id) !in layout ==> r == None
    ensures Entry(kind, id) in layout ==>
      r == Some(MoveWithin(layout, FirstIndex(layout, Entry(kind, id)), position))
  {
    var srcIdx := -1;
    for i := 0 to |layout|
      invariant srcIdx == -1
      invariant Entry(kind, id) !in layout[..i]
    {
      if layout[i].kind == kind && layout[i].id == id {
        srcIdx := i;
        break;
      }
    }
    if srcIdx == -1 { return None; }
    FirstIndexIs(layout, Entry(kind, id), srcIdx);
    var entry := layout[srcIdx];
    var rest := layout[..srcIdx] + layout[srcIdx + 1..];
    var pos := if srcIdx < position then position - 1 else position;
    return Some(InsertAt(rest, entry, pos));
  }
}
