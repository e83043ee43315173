/** What retiring text items keeps (src/document_repair.cpp). */
module RetirementKeeps {
  import opened Bytes
  import opened Documents
  import opened Retirement

  /** The item a reference is to name afterwards. */
  ghost function Heir(absorbedBy: map<Ref, Ref>, r: Ref): Ref {
    if r in absorbedBy then absorbedBy[r] else r
  }

  /** A child the node is to list: an item that stays, its own or one of a text it absorbed. */
  ghost predicate KeptChild(d: Document, absorbedBy: map<Ref, Ref>, node: Ref, c: Ref) {
    && Resolves(d, c) && c !in absorbedBy
    && ItemAt(d, c).parent.Some? && Heir(absorbedBy, ItemAt(d, c).parent.value) == node
  }

  lemma {:induction false} ParentsAre(texts: seq<Item>, retired: set<Ref>, n: nat)
    requires n <= |texts|
    ensures forall p: Ref :: p in ParentsOf(texts, retired, n) <==>
      exists i: nat :: i < n && NameOf(texts, i) in retired && texts[i].parent == Some(p)
  {
    if n > 0 {
      ParentsAre(texts, retired, n - 1);
      forall p: Ref ensures p in ParentsOf(texts, retired, n) <==>
        exists i: nat :: i < n && NameOf(texts, i) in retired && texts[i].parent == Some(p)
      {
        if p in ParentsOf(texts, retired, n - 1) {
          var i: nat :| i < n - 1 && NameOf(texts, i) in retired && texts[i].parent == Some(p);
          assert i < n && NameOf(texts, i) in retired && texts[i].parent == Some(p);
        }
      }
    }
  }

  /** A retired item's parent is a node the pruning visits. */
  lemma ParentIsVisited(d: Document, absorbedBy: map<Ref, Ref>, node: Ref, c: Ref)
    requires WellFormed(d) && Absorption(d, absorbedBy)
    requires c in absorbedBy && c in ChildrenOf(d, node)
    ensures node !in absorbedBy && Prunable(d, node)
    ensures node in ParentsOf(d.arenas[Texts], absorbedBy.Keys, |d.arenas[Texts]|)
  {
    var texts := d.arenas[Texts];
    assert Resolves(d, c) && ItemAt(d, c).parent == Some(node);
    TextsInPlace(d);
    ParentsAre(texts, absorbedBy.Keys, |texts|);
    assert NameOf(texts, c.index) == At(Texts, c.index) == c;
    assert texts[c.index].parent == Some(node);
  }

  /** A pruned list holds exactly what it held, less the retired. */
  lemma PrunedList(d: Document, absorbedBy: map<Ref, Ref>, node: Ref, item: Item)
    requires WellFormed(d) && Absorption(d, absorbedBy) && Resolves(d, node) && Distinct(item.children)
    requires item == ItemAt(d, node).(children := item.children)
    requires forall c: Ref :: c in item.children && c in absorbedBy ==> c in ChildrenOf(d, node)
    ensures
      var parents := ParentsOf(d.arenas[Texts], absorbedBy.Keys, |d.arenas[Texts]|);
      var pruned := PruneItem(item, node.arena, absorbedBy.Keys, parents);
      && pruned == item.(children := pruned.children)
      && Distinct(pruned.children)
      && forall c: Ref :: c in pruned.children <==> c in item.children && c !in absorbedBy
  {
    WithoutIs(item.children, absorbedBy.Keys);
    forall c: Ref | c in item.children && c in absorbedBy
      ensures node.arena == Groups || (item.selfRef.Some? && item.selfRef.value == node)
      ensures node in ParentsOf(d.arenas[Texts], absorbedBy.Keys, |d.arenas[Texts]|)
    {
      ParentIsVisited(d, absorbedBy, node, c);
    }
    hide Without, ParentsOf, WellFormed, Absorption;
  }

  lemma ListHolds(d: Document, absorbedBy: map<Ref, Ref>, node: Ref, c: Ref)
    requires WellFormed(d) && Absorption(d, absorbedBy)
    requires node !in absorbedBy && !(node.At? && node.arena == Texts)
    ensures c in ChildrenOf(d, node) && c !in absorbedBy <==> KeptChild(d, absorbedBy, node, c)
  {
    if c in ChildrenOf(d, node) { assert Resolves(d, c); }
  }

  lemma Listed(d: Document, node: Ref, c: Ref)
    requires WellFormed(d) && c in ChildrenOf(d, node)
    ensures Resolves(d, c) && ItemAt(d, c).parent == Some(node)
  {
  }

  lemma TextHolds(d: Document, absorbedBy: map<Ref, Ref>, order: seq<Ref>, i: nat, c: Ref)
    requires WellFormed(d) && Absorption(d, absorbedBy) && IsOrder(order, absorbedBy)
    requires i < |d.arenas[Texts]| && At(Texts, i) !in absorbedBy
    ensures
      var texts := d.arenas[Texts];
      (c in texts[i].children && c !in absorbedBy) || Gained(texts, absorbedBy, order, i, c)
      <==> KeptChild(d, absorbedBy, At(Texts, i), c)
    ensures Gained(d.arenas[Texts], absorbedBy, order, i, c) ==> c !in absorbedBy
  {
    hide WellFormed;
    var texts := d.arenas[Texts];
    assert ChildrenOf(d, At(Texts, i)) == texts[i].children;
    if c in texts[i].children {
      Listed(d, At(Texts, i), c);
    }
    if Gained(texts, absorbedBy, order, i, c) {
      var j: nat :| j < |texts| && At(Texts, j) in order && At(Texts, j) in absorbedBy
        && absorbedBy[At(Texts, j)] == At(Texts, i) && c in texts[j].children;
      Listed(d, At(Texts, j), c);
    }
    if KeptChild(d, absorbedBy, At(Texts, i), c) {
      var p := ItemAt(d, c).parent.value;
      LinkedBothWays(d, p, c);
      if p in absorbedBy {
        assert p == At(Texts, p.index) && c in texts[p.index].children && p in order;
        assert Gained(texts, absorbedBy, order, i, c);
      }
    }
  }

  /** A node of the pruned document, against the node it came from. */
  lemma PrunedNode(d: Document, absorbedBy: map<Ref, Ref>, order: seq<Ref>, node: Ref)
    requires WellFormed(d) && Absorption(d, absorbedBy) && IsOrder(order, absorbedBy)
    requires IsNode(d, node) && node !in absorbedBy
    ensures
      var p := Pruned(d, absorbedBy, order);
      var slot := Slot(absorbedBy, node);
      && IsNode(p, slot)
      && (node.At? ==> ItemAt(p, slot) == ItemAt(d, node).(children := ChildrenOf(p, slot)))
      && Distinct(ChildrenOf(p, slot))
      && (forall c: Ref :: c in ChildrenOf(p, slot) <==> KeptChild(d, absorbedBy, node, c))
  {
    hide WellFormed, Absorption, Without, ParentsOf, AdoptAll, Kept, KeptChild, PruneItem, Stay;
    if node.At? && node.arena == Texts {
      PrunedText(d, absorbedBy, order, node.index);
    } else if node.At? {
      PrunedOther(d, absorbedBy, order, node);
    } else {
      PrunedRoot(d, absorbedBy, order, node);
    }
  }

  lemma PrunedRoot(d: Document, absorbedBy: map<Ref, Ref>, order: seq<Ref>, node: Ref)
    requires WellFormed(d) && Absorption(d, absorbedBy) && IsOrder(order, absorbedBy)
    requires (node.Body? || node.Furniture?) && node !in absorbedBy
    ensures Distinct(ChildrenOf(Pruned(d, absorbedBy, order), node))
    ensures forall c: Ref :: c in ChildrenOf(Pruned(d, absorbedBy, order), node) <==> KeptChild(d, absorbedBy, node, c)
  {
    WithoutIs(ChildrenOf(d, node), absorbedBy.Keys);
    assert Distinct(ChildrenOf(d, node));
    hide Without, KeptChild, AdoptAll, Kept, ParentsOf;
    forall c: Ref ensures c in ChildrenOf(Pruned(d, absorbedBy, order), node) <==> KeptChild(d, absorbedBy, node, c) {
      ListHolds(d, absorbedBy, node, c);
      hide WellFormed, Absorption;
    }
  }

  lemma PrunedOther(d: Document, absorbedBy: map<Ref, Ref>, order: seq<Ref>, node: Ref)
    requires WellFormed(d) && Absorption(d, absorbedBy) && IsOrder(order, absorbedBy)
    requires Resolves(d, node) && node.arena != Texts && node !in absorbedBy
    ensures
      var p := Pruned(d, absorbedBy, order);
      && Resolves(p, node)
      && ItemAt(p, node) == ItemAt(d, node).(children := ItemAt(p, node).children)
      && Distinct(ItemAt(p, node).children)
      && (forall c: Ref :: c in ItemAt(p, node).children <==> KeptChild(d, absorbedBy, node, c))
  {
    assert Distinct(ChildrenOf(d, node));
    PrunedList(d, absorbedBy, node, ItemAt(d, node));
    hide KeptChild, AdoptAll, Kept, ParentsOf, PruneItem;
    forall c: Ref ensures c in ItemAt(d, node).children && c !in absorbedBy <==> KeptChild(d, absorbedBy, node, c) {
      ListHolds(d, absorbedBy, node, c);
      hide WellFormed, Absorption;
    }
    hide WellFormed, Absorption;
  }

  lemma PrunedText(d: Document, absorbedBy: map<Ref, Ref>, order: seq<Ref>, i: nat)
    requires WellFormed(d) && Absorption(d, absorbedBy) && IsOrder(order, absorbedBy)
    requires i < |d.arenas[Texts]| && At(Texts, i) !in absorbedBy
    ensures
      var p, slot, node := Pruned(d, absorbedBy, order), At(Texts, Stay(absorbedBy, i)), At(Texts, i);
      && Resolves(p, slot)
      && ItemAt(p, slot) == ItemAt(d, node).(children := ItemAt(p, slot).children)
      && Distinct(ItemAt(p, slot).children)
      && (forall c: Ref :: c in ItemAt(p, slot).children <==> KeptChild(d, absorbedBy, node, c))
  {
    hide AdoptAll, Kept, ParentsOf, PruneItem, Stay, WellFormed, Absorption, KeptChild, Distinct;
    var texts, node := d.arenas[Texts], At(Texts, i);
    var adopted := AdoptAll(texts, absorbedBy, order);
    AdoptedText(d, absorbedBy, order, i);
    KeptText(d, absorbedBy, order, i);
    PrunedList(d, absorbedBy, node, adopted[i]);
  }

  /** A text that stays, after the adoptions: what it lists. */
  lemma AdoptedText(d: Document, absorbedBy: map<Ref, Ref>, order: seq<Ref>, i: nat)
    requires WellFormed(d) && Absorption(d, absorbedBy) && IsOrder(order, absorbedBy)
    requires i < |d.arenas[Texts]| && At(Texts, i) !in absorbedBy
    ensures
      var texts, adopted := d.arenas[Texts], AdoptAll(d.arenas[Texts], absorbedBy, order);
      && |adopted| == |texts|
      && adopted[i] == texts[i].(children := adopted[i].children) && Distinct(adopted[i].children)
      && (forall c: Ref :: c in adopted[i].children && c !in absorbedBy <==> KeptChild(d, absorbedBy, At(Texts, i), c))
      && (forall c: Ref :: c in adopted[i].children && c in absorbedBy ==> c in ChildrenOf(d, At(Texts, i)))
  {
    var texts, adopted := d.arenas[Texts], AdoptAll(d.arenas[Texts], absorbedBy, order);
    AdoptAllIs(d, absorbedBy, order);
    hide AdoptAll, Gained, KeptChild, Distinct, WellFormed, Absorption;
    assert AdoptedItem(texts, absorbedBy, order, i, adopted[i]);
    forall c: Ref
      ensures c in adopted[i].children && c !in absorbedBy <==> KeptChild(d, absorbedBy, At(Texts, i), c)
      ensures c in adopted[i].children && c in absorbedBy ==> c in ChildrenOf(d, At(Texts, i))
    {
      TextHolds(d, absorbedBy, order, i, c);
    }
  }

  /** A text that stays sits in its slot among the kept ones. */
  lemma KeptText(d: Document, absorbedBy: map<Ref, Ref>, order: seq<Ref>, i: nat)
    requires WellFormed(d) && Absorption(d, absorbedBy) && IsOrder(order, absorbedBy)
    requires i < |d.arenas[Texts]|
    ensures
      var adopted := AdoptAll(d.arenas[Texts], absorbedBy, order);
      && |adopted| == |d.arenas[Texts]|
      && |Kept(adopted, absorbedBy.Keys, |adopted|)| == Stay(absorbedBy, |adopted|)
      && (At(Texts, i) !in absorbedBy ==>
            Stay(absorbedBy, i) < Stay(absorbedBy, |adopted|)
            && Kept(adopted, absorbedBy.Keys, |adopted|)[Stay(absorbedBy, i)] == adopted[i])
  {
    var texts, adopted := d.arenas[Texts], AdoptAll(d.arenas[Texts], absorbedBy, order);
    AdoptAllIs(d, absorbedBy, order);
    TextsInPlace(d);
    hide AdoptAll, Kept, Stay, InPlace, WellFormed, Absorption, AdoptedItem;
    AdoptedInPlace(texts, absorbedBy, order, adopted);
    KeptAt(adopted, absorbedBy, |adopted|, i);
  }

  // ----- The retired document.

  /** The size of every arena: the texts shrink by the retired ones. */
  lemma RetiredSizes(d: Document, absorbedBy: map<Ref, Ref>, order: seq<Ref>)
    requires WellFormed(d) && Absorption(d, absorbedBy) && IsOrder(order, absorbedBy)
    ensures
      var f := Retire(d, absorbedBy, order);
      forall a: Arena :: |f.arenas[a]| == if a == Texts then Stay(absorbedBy, |d.arenas[Texts]|) else |d.arenas[a]|
  {
    hide AdoptAll, Kept, ParentsOf, PruneItem, Stay, InPlace, Named, Closed, TwoSided, ListedOnce, RewriteItem;
    var texts := d.arenas[Texts];
    var adopted := AdoptAll(texts, absorbedBy, order);
    AdoptAllIs(d, absorbedBy, order);
    TextsInPlace(d);
    AdoptedInPlace(texts, absorbedBy, order, adopted);
    KeptAt(adopted, absorbedBy, |adopted|, 0);
  }

  /** Every item that remains is an item that stayed, in its slot. */
  lemma SlotsAreFilled(d: Document, absorbedBy: map<Ref, Ref>, order: seq<Ref>, r: Ref) returns (from: Ref)
    requires WellFormed(d) && Absorption(d, absorbedBy) && IsOrder(order, absorbedBy)
    requires Resolves(Retire(d, absorbedBy, order), r)
    ensures Resolves(d, from) && from !in absorbedBy && Slot(absorbedBy, from) == r
  {
    RetiredSizes(d, absorbedBy, order);
    hide Retire, Stay, WellFormed;
    if r.arena == Texts {
      var i := SlotSurjective(absorbedBy, |d.arenas[Texts]|, r.index);
      from := At(Texts, i);
    } else {
      from := r;
    }
  }

  ghost function NewRefs(absorbedBy: map<Ref, Ref>, refs: seq<Ref>): seq<Ref> {
    seq(|refs|, i requires 0 <= i < |refs| => NewRef(absorbedBy, refs[i]))
  }

  /** An item that stays: same content, same place among the ones that stay, its name and all its
      references renewed, and exactly the children it is to have. */
  lemma RetiredItem(d: Document, absorbedBy: map<Ref, Ref>, order: seq<Ref>, r: Ref)
    requires WellFormed(d) && Absorption(d, absorbedBy) && IsOrder(order, absorbedBy)
    requires Resolves(d, r) && r !in absorbedBy
    ensures
      var f, slot, item := Retire(d, absorbedBy, order), Slot(absorbedBy, r), ItemAt(d, r);
      && Resolves(f, slot)
      && ItemAt(f, slot).content == item.content && ItemAt(f, slot).code == item.code
      && ItemAt(f, slot).selfRef == (if item.selfRef.Some? then Some(slot) else None)
      && ItemAt(f, slot).parent == (if item.parent.Some? then Some(NewRef(absorbedBy, item.parent.value)) else None)
      && ItemAt(f, slot).links == NewRefs(absorbedBy, item.links)
  {
    PrunedNode(d, absorbedBy, order, r);
    RenumberingNames(d, absorbedBy, order);
    var item := ItemAt(d, r);
    assert item.selfRef.Some? ==> item.selfRef.value == r;
    assert item.parent.Some? ==> IsNode(d, item.parent.value);
    forall i | 0 <= i < |item.links| ensures IsNode(d, item.links[i]) {
      assert item.links[i] in item.links;
    }
    hide WellFormed, Absorption, Pruned, Renumbering, KeptChild, Stay;
  }

  /** The list a node keeps, before and after its references are renamed. */
  lemma RenamedChildren(d: Document, absorbedBy: map<Ref, Ref>, order: seq<Ref>, node: Ref) returns (before: seq<Ref>)
    requires WellFormed(d) && Absorption(d, absorbedBy) && IsOrder(order, absorbedBy)
    requires IsNode(d, node) && node !in absorbedBy
    ensures before == ChildrenOf(Pruned(d, absorbedBy, order), Slot(absorbedBy, node))
    ensures Distinct(before) && (forall q :: q in before <==> KeptChild(d, absorbedBy, node, q))
    ensures |ChildrenOf(Retire(d, absorbedBy, order), Slot(absorbedBy, node))| == |before|
    ensures forall i :: 0 <= i < |before| ==> ChildrenOf(Retire(d, absorbedBy, order), Slot(absorbedBy, node))[i] == Slot(absorbedBy, before[i])
  {
    PrunedNode(d, absorbedBy, order, node);
    RenumberingNames(d, absorbedBy, order);
    var p, mapping, slot := Pruned(d, absorbedBy, order), Renumbering(d, absorbedBy, order), Slot(absorbedBy, node);
    before := ChildrenOf(p, slot);
    hide WellFormed, Absorption, Pruned, Renumbering, Stay;
    assert ChildrenOf(Retire(d, absorbedBy, order), slot) == RenamedAll(mapping, before);
    forall i | 0 <= i < |before| ensures Renamed(mapping, before[i]) == Slot(absorbedBy, before[i]) {
      assert before[i] in before;
    }
  }

  lemma SlotsDistinct(d: Document, absorbedBy: map<Ref, Ref>, node: Ref, before: seq<Ref>, after: seq<Ref>)
    requires Distinct(before) && forall q :: q in before ==> KeptChild(d, absorbedBy, node, q)
    requires |after| == |before| && forall i :: 0 <= i < |before| ==> after[i] == Slot(absorbedBy, before[i])
    ensures Distinct(after)
  {
    hide Slot, KeptChild;
    forall i, j | 0 <= i < j < |before| ensures after[i] != after[j] {
      assert before[i] in before && before[j] in before;
      KeptChildStays(d, absorbedBy, node, before[i]);
      KeptChildStays(d, absorbedBy, node, before[j]);
      if Slot(absorbedBy, before[i]) == Slot(absorbedBy, before[j]) {
        SlotInjective(absorbedBy, before[i], before[j]);
      }
    }
  }

  /** The children of a node that stays, by their new names. */
  lemma RetiredChildren(d: Document, absorbedBy: map<Ref, Ref>, order: seq<Ref>, node: Ref, c: Ref)
    requires WellFormed(d) && Absorption(d, absorbedBy) && IsOrder(order, absorbedBy)
    requires IsNode(d, node) && node !in absorbedBy
    ensures
      var f := Retire(d, absorbedBy, order);
      && Distinct(ChildrenOf(f, Slot(absorbedBy, node)))
      && (c in ChildrenOf(f, Slot(absorbedBy, node)) <==>
            exists q: Ref :: KeptChild(d, absorbedBy, node, q) && c == Slot(absorbedBy, q))
  {
    hide WellFormed, Absorption, IsOrder, IsNode, Retire, Pruned, Slot, KeptChild, ChildrenOf, Distinct;
    var before := RenamedChildren(d, absorbedBy, order, node);
    var after := ChildrenOf(Retire(d, absorbedBy, order), Slot(absorbedBy, node));
    SlotsDistinct(d, absorbedBy, node, before, after);
    SlotsHold(d, absorbedBy, node, before, after, c);
  }

  lemma SlotsHold(d: Document, absorbedBy: map<Ref, Ref>, node: Ref, before: seq<Ref>, after: seq<Ref>, c: Ref)
    requires forall q :: q in before <==> KeptChild(d, absorbedBy, node, q)
    requires |after| == |before| && forall i :: 0 <= i < |before| ==> after[i] == Slot(absorbedBy, before[i])
    ensures c in after <==> exists q: Ref :: KeptChild(d, absorbedBy, node, q) && c == Slot(absorbedBy, q)
  {
    hide KeptChild, Slot;
    if exists q: Ref :: KeptChild(d, absorbedBy, node, q) && c == Slot(absorbedBy, q) {
      var q: Ref :| KeptChild(d, absorbedBy, node, q) && c == Slot(absorbedBy, q);
      var i :| 0 <= i < |before| && before[i] == q;
      assert after[i] == Slot(absorbedBy, q);
    }
    if c in after {
      var i :| 0 <= i < |after| && after[i] == c;
      assert before[i] in before;
      assert KeptChild(d, absorbedBy, node, before[i]);
    }
  }

  lemma KeptChildStays(d: Document, absorbedBy: map<Ref, Ref>, node: Ref, c: Ref)
    requires KeptChild(d, absorbedBy, node, c)
    ensures Resolves(d, c) && c !in absorbedBy
  {
  }

  /** A node of the retired document is the slot of a node that stayed. */
  lemma NodeFrom(d: Document, absorbedBy: map<Ref, Ref>, order: seq<Ref>, node: Ref) returns (from: Ref)
    requires WellFormed(d) && Absorption(d, absorbedBy) && IsOrder(order, absorbedBy)
    requires IsNode(Retire(d, absorbedBy, order), node)
    ensures IsNode(d, from) && from !in absorbedBy && Slot(absorbedBy, from) == node
  {
    if node.At? {
      from := SlotsAreFilled(d, absorbedBy, order, node);
    } else {
      from := node;
    }
  }

  lemma RetiredLinkedBothWays(d: Document, absorbedBy: map<Ref, Ref>, order: seq<Ref>, node: Ref, c: Ref)
    requires WellFormed(d) && Absorption(d, absorbedBy) && IsOrder(order, absorbedBy)
    requires Resolves(Retire(d, absorbedBy, order), c)
    ensures
      var f := Retire(d, absorbedBy, order);
      c in ChildrenOf(f, node) <==> ItemAt(f, c).parent == Some(node)
  {
    var f := Retire(d, absorbedBy, order);
    var q := SlotsAreFilled(d, absorbedBy, order, c);
    RetiredItem(d, absorbedBy, order, q);
    var parent := ItemAt(d, q).parent;
    assert parent.Some? ==> IsNode(d, parent.value);
    if IsNode(f, node) {
      var n := NodeFrom(d, absorbedBy, order, node);
      RetiredChildren(d, absorbedBy, order, n, c);
      hide WellFormed, Retire;
      if c in ChildrenOf(f, node) {
        var q' :| KeptChild(d, absorbedBy, n, q') && c == Slot(absorbedBy, q');
        SlotInjective(absorbedBy, q, q');
      }
      if ItemAt(f, c).parent == Some(node) {
        HeirStays(d, absorbedBy, parent.value);
        SlotInjective(absorbedBy, Heir(absorbedBy, parent.value), n);
        assert KeptChild(d, absorbedBy, n, q);
      }
    } else {
      assert ChildrenOf(f, node) == [];
      if parent.Some? {
        HeirStays(d, absorbedBy, parent.value);
        NewNode(d, absorbedBy, order, Heir(absorbedBy, parent.value));
      }
    }
  }

  lemma HeirStays(d: Document, absorbedBy: map<Ref, Ref>, r: Ref)
    requires Absorption(d, absorbedBy) && IsNode(d, r)
    ensures IsNode(d, Heir(absorbedBy, r)) && Heir(absorbedBy, r) !in absorbedBy
    ensures NewRef(absorbedBy, r) == Slot(absorbedBy, Heir(absorbedBy, r))
  {
  }

  lemma NewNode(d: Document, absorbedBy: map<Ref, Ref>, order: seq<Ref>, r: Ref)
    requires WellFormed(d) && Absorption(d, absorbedBy) && IsOrder(order, absorbedBy)
    requires IsNode(d, r) && r !in absorbedBy
    ensures IsNode(Retire(d, absorbedBy, order), Slot(absorbedBy, r))
  {
    if r.At? { RetiredItem(d, absorbedBy, order, r); }
  }

  /** Retiring keeps the document well-formed: dense names, no dangling reference, links both ways. */
  lemma RetireKeepsWellFormed(d: Document, absorbedBy: map<Ref, Ref>, order: seq<Ref>)
    requires WellFormed(d) && Absorption(d, absorbedBy) && IsOrder(order, absorbedBy)
    ensures WellFormed(Retire(d, absorbedBy, order))
  {
    var f := Retire(d, absorbedBy, order);
    assert TwoSided(f) by {
      forall node, c: Ref | Resolves(f, c) ensures c in ChildrenOf(f, node) <==> ItemAt(f, c).parent == Some(node) {
        RetiredLinkedBothWays(d, absorbedBy, order, node, c);
      }
    }
    assert Named(f) by {
      forall r: Ref | Resolves(f, r) && ItemAt(f, r).selfRef.Some? ensures ItemAt(f, r).selfRef.value == r {
        var from := SlotsAreFilled(d, absorbedBy, order, r);
        RetiredItem(d, absorbedBy, order, from);
      }
    }
    assert ListedOnce(f) by {
      forall node: Ref ensures Distinct(ChildrenOf(f, node)) {
        if IsNode(f, node) {
          var n := NodeFrom(d, absorbedBy, order, node);
          RetiredChildren(d, absorbedBy, order, n, Body);
        }
      }
    }
    RetireCloses(d, absorbedBy, order);
  }

  lemma RetireCloses(d: Document, absorbedBy: map<Ref, Ref>, order: seq<Ref>)
    requires WellFormed(d) && Absorption(d, absorbedBy) && IsOrder(order, absorbedBy)
    ensures Closed(Retire(d, absorbedBy, order))
  {
    var f := Retire(d, absorbedBy, order);
    hide Retire, Slot;
    forall node, c: Ref | c in ChildrenOf(f, node) ensures Resolves(f, c) {
      var n := NodeFrom(d, absorbedBy, order, node);
      RetiredChildren(d, absorbedBy, order, n, c);
      var q :| KeptChild(d, absorbedBy, n, q) && c == Slot(absorbedBy, q);
      RetiredItem(d, absorbedBy, order, q);
    }
    forall r: Ref | Resolves(f, r) && ItemAt(f, r).parent.Some? ensures IsNode(f, ItemAt(f, r).parent.value) {
      var from := SlotsAreFilled(d, absorbedBy, order, r);
      RetiredItem(d, absorbedBy, order, from);
      assert IsNode(d, ItemAt(d, from).parent.value);
      HeirStays(d, absorbedBy, ItemAt(d, from).parent.value);
      NewNode(d, absorbedBy, order, Heir(absorbedBy, ItemAt(d, from).parent.value));
    }
    forall r, l: Ref | Resolves(f, r) && l in ItemAt(f, r).links ensures IsNode(f, l) {
      var from := SlotsAreFilled(d, absorbedBy, order, r);
      RetiredItem(d, absorbedBy, order, from);
      var links := ItemAt(d, from).links;
      var i :| 0 <= i < |links| && NewRefs(absorbedBy, links)[i] == l;
      assert links[i] in links;
      assert IsNode(d, links[i]);
      HeirStays(d, absorbedBy, links[i]);
      NewNode(d, absorbedBy, order, Heir(absorbedBy, links[i]));
    }
  }
}
