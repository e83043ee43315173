/** Retiring text items whose survivors may be retired as well (src/document_repair.cpp).

    Adoption follows a chain of absorptions to its end; the renumbering looks one absorption up in
    what it has recorded so far, so that where a reference goes depends on the order of the visits. */
module RetirementChains {
  import opened Bytes
  import opened Documents
  import opened Retirement
  import opened RetirementKeeps

  // ----- The end of a chain.

  /** Whom r's chain of absorptions ends with, among n texts. */
  function Last(absorbedBy: map<Ref, Ref>, n: nat, r: Ref): Ref {
    Survivor(absorbedBy, r, n + 1)
  }

  function Heirs(absorbedBy: map<Ref, Ref>, n: nat): map<Ref, Ref> {
    map r: Ref | r in absorbedBy :: Last(absorbedBy, n, r)
  }

  /** No chain goes round in a circle. */
  ghost predicate ChainsEnd(absorbedBy: map<Ref, Ref>, n: nat) {
    forall r: Ref :: r in absorbedBy ==> Last(absorbedBy, n, r) !in absorbedBy
  }

  lemma ChainEnds(absorbedBy: map<Ref, Ref>, n: nat, r: Ref)
    requires ChainsEnd(absorbedBy, n) && r in absorbedBy
    ensures Last(absorbedBy, n, r) !in absorbedBy
  {
  }

  /** Texts absorbed by texts, along chains that end with one that stays; no retired text a child of
      another one. */
  ghost predicate Chains(d: Document, absorbedBy: map<Ref, Ref>) {
    && ChainsEnd(absorbedBy, |d.arenas[Texts]|)
    && forall r: Ref :: r in absorbedBy ==>
      && Resolves(d, r) && r.arena == Texts
      && Resolves(d, absorbedBy[r]) && absorbedBy[r].arena == Texts
      && (ItemAt(d, r).parent.Some? ==>
            ItemAt(d, r).parent.value !in absorbedBy && Prunable(d, ItemAt(d, r).parent.value))
  }

  lemma {:induction false} SurvivorIsText(d: Document, absorbedBy: map<Ref, Ref>, r: Ref, hops: nat)
    requires Chains(d, absorbedBy) && Resolves(d, r) && r.arena == Texts
    ensures Resolves(d, Survivor(absorbedBy, r, hops)) && Survivor(absorbedBy, r, hops).arena == Texts
    decreases hops
  {
    if hops > 0 && r in absorbedBy {
      SurvivorIsText(d, absorbedBy, absorbedBy[r], hops - 1);
    }
  }

  lemma HeirsAbsorb(d: Document, absorbedBy: map<Ref, Ref>)
    requires Chains(d, absorbedBy)
    ensures Absorption(d, Heirs(absorbedBy, |d.arenas[Texts]|))
  {
    var heirs := Heirs(absorbedBy, |d.arenas[Texts]|);
    forall r: Ref | r in heirs ensures Resolves(d, heirs[r]) && heirs[r].arena == Texts {
      SurvivorIsText(d, absorbedBy, r, |d.arenas[Texts]| + 1);
    }
    hide Survivor, Prunable;
  }

  /** Adoption does not tell a chain from its end. */
  lemma {:induction false} SameAdoption(texts: seq<Item>, absorbedBy: map<Ref, Ref>, order: seq<Ref>)
    requires forall r :: r in order ==> r in absorbedBy
    requires ChainsEnd(absorbedBy, |texts|)
    ensures AdoptAll(texts, absorbedBy, order) == AdoptAll(texts, Heirs(absorbedBy, |texts|), order)
  {
    if order != [] {
      var before, r := order[..|order| - 1], order[|order| - 1];
      SameAdoption(texts, absorbedBy, before);
      AdoptionKeepsNames(texts, absorbedBy, before);
      var heirs := Heirs(absorbedBy, |texts|);
      assert Survivor(heirs, heirs[r], |texts|) == heirs[r] == Survivor(absorbedBy, absorbedBy[r], |texts|);
      hide Position, Survivor, Adopt;
    }
  }

  lemma {:induction false} SameStay(absorbedBy: map<Ref, Ref>, heirs: map<Ref, Ref>, n: nat)
    requires absorbedBy.Keys == heirs.Keys
    ensures Stay(absorbedBy, n) == Stay(heirs, n)
  {
    if n > 0 {
      SameStay(absorbedBy, heirs, n - 1);
      assert At(Texts, n - 1) in absorbedBy.Keys <==> At(Texts, n - 1) in heirs.Keys;
    }
  }

  lemma SameSlot(absorbedBy: map<Ref, Ref>, n: nat, r: Ref)
    ensures Slot(absorbedBy, r) == Slot(Heirs(absorbedBy, n), r)
  {
    var heirs := Heirs(absorbedBy, n);
    assert absorbedBy.Keys == heirs.Keys;
    if r.At? { SameStay(absorbedBy, heirs, r.index); }
  }

  /** What is left before the references are rewritten is the same for a chain and for its end. */
  lemma SamePruned(d: Document, absorbedBy: map<Ref, Ref>, order: seq<Ref>)
    requires Chains(d, absorbedBy) && IsOrder(order, absorbedBy)
    ensures
      var heirs := Heirs(absorbedBy, |d.arenas[Texts]|);
      Absorption(d, heirs) && IsOrder(order, heirs) && Pruned(d, absorbedBy, order) == Pruned(d, heirs, order)
  {
    HeirsAbsorb(d, absorbedBy);
    SameAdoption(d.arenas[Texts], absorbedBy, order);
    assert absorbedBy.Keys == Heirs(absorbedBy, |d.arenas[Texts]|).Keys;
    hide AdoptAll, Kept, ParentsOf, PruneItem, Without, Absorption, Last;
  }

  // ----- Where a reference goes.

  /** How far up its chain r is followed when the texts are visited in that order: the survivor of a
      text counts as far as it was followed itself when that text was visited. */
  function Followed(absorbedBy: map<Ref, Ref>, order: seq<Ref>, r: Ref): Ref
    requires forall q :: q in order ==> q in absorbedBy
  {
    if order == [] then r
    else
      var before, visited := order[..|order| - 1], order[|order| - 1];
      Followed(absorbedBy, before, if r == visited then absorbedBy[visited] else r)
  }

  /** Along r's chain every survivor that is itself retired is visited before the text it absorbed. */
  ghost predicate SurvivorsFirst(absorbedBy: map<Ref, Ref>, order: seq<Ref>, r: Ref)
    decreases |order|
  {
    r in absorbedBy ==> exists k: nat :: k < |order| && order[k] == r && SurvivorsFirst(absorbedBy, order[..k], absorbedBy[r])
  }

  /** Every retired survivor is visited before the texts it absorbed. */
  ghost predicate ChainOrder(absorbedBy: map<Ref, Ref>, order: seq<Ref>)
    requires forall q :: q in order ==> q in absorbedBy
  {
    forall k: nat :: k < |order| && absorbedBy[order[k]] in absorbedBy ==> absorbedBy[order[k]] in order[..k]
  }

  /** The name a reference gets: its place, or an old name left behind. */
  ghost function NewName(absorbedBy: map<Ref, Ref>, order: seq<Ref>, r: Ref): Ref
    requires forall q :: q in order ==> q in absorbedBy
  {
    var f := Followed(absorbedBy, order, r);
    if f in absorbedBy then f else Slot(absorbedBy, f)
  }

  lemma {:induction false} WithAbsorbedFollows(names: map<Ref, Ref>, absorbedBy: map<Ref, Ref>, order: seq<Ref>, r: Ref)
    requires forall q :: q in order ==> q in absorbedBy
    ensures Renamed(WithAbsorbed(names, absorbedBy, order), r) == Renamed(names, Followed(absorbedBy, order, r))
    decreases |order|
  {
    if order != [] {
      var before, visited := order[..|order| - 1], order[|order| - 1];
      WithAbsorbedFollows(names, absorbedBy, before, if r == visited then absorbedBy[visited] else r);
    }
  }

  lemma {:induction false} FollowedIsNode(d: Document, absorbedBy: map<Ref, Ref>, order: seq<Ref>, r: Ref)
    requires Chains(d, absorbedBy) && IsNode(d, r) && forall q :: q in order ==> q in absorbedBy
    ensures IsNode(d, Followed(absorbedBy, order, r))
    decreases |order|
  {
    if order != [] {
      var before, visited := order[..|order| - 1], order[|order| - 1];
      FollowedIsNode(d, absorbedBy, before, if r == visited then absorbedBy[visited] else r);
    }
  }

  /** Every reference of the document, followed exactly as far as the visits allow. */
  lemma ReferencesFollow(d: Document, absorbedBy: map<Ref, Ref>, order: seq<Ref>, r: Ref)
    requires Named(d) && Chains(d, absorbedBy) && IsOrder(order, absorbedBy) && IsNode(d, r)
    ensures Renamed(Renumbering(d, absorbedBy, order), r) == NewName(absorbedBy, order, r)
  {
    var texts := d.arenas[Texts];
    TextsInPlace(d);
    WithAbsorbedFollows(KeptNames(texts, absorbedBy.Keys, |texts|), absorbedBy, order, r);
    FollowedIsNode(d, absorbedBy, order, r);
    KeptNamesAre(texts, absorbedBy, |texts|, Followed(absorbedBy, order, r));
    hide KeptNames, WithAbsorbed, Named, InPlace, Followed, Chains, Stay;
  }

  /** A reference leaves the retired texts exactly when its chain is visited from the end down. */
  lemma {:induction false} FollowedIff(absorbedBy: map<Ref, Ref>, order: seq<Ref>, r: Ref)
    requires Distinct(order) && forall q :: q in order ==> q in absorbedBy
    ensures Followed(absorbedBy, order, r) !in absorbedBy <==> SurvivorsFirst(absorbedBy, order, r)
    decreases |order|
  {
    if order != [] {
      var before, visited := order[..|order| - 1], order[|order| - 1];
      var next := if r == visited then absorbedBy[visited] else r;
      assert Followed(absorbedBy, order, r) == Followed(absorbedBy, before, next);
      hide Followed, SurvivorsFirst;
      FollowedIff(absorbedBy, before, next);
      SurvivorsBefore(absorbedBy, order, r);
    }
  }

  /** The last visit decides for its own text; for the others it does not count. */
  lemma SurvivorsBefore(absorbedBy: map<Ref, Ref>, order: seq<Ref>, r: Ref)
    requires order != [] && Distinct(order) && forall q :: q in order ==> q in absorbedBy
    ensures
      var before, visited := order[..|order| - 1], order[|order| - 1];
      SurvivorsFirst(absorbedBy, order, r) <==> SurvivorsFirst(absorbedBy, before, if r == visited then absorbedBy[visited] else r)
  {
    var before, visited := order[..|order| - 1], order[|order| - 1];
    forall k: nat | k < |before| ensures order[..k] == before[..k] && before[k] == order[k] && order[k] != visited {
    }
  }

  /** Once out of the retired texts, a reference is at the end of its chain. */
  lemma {:induction false} FollowedIsSurvivor(absorbedBy: map<Ref, Ref>, order: seq<Ref>, r: Ref, hops: nat)
    requires forall q :: q in order ==> q in absorbedBy
    requires Followed(absorbedBy, order, r) !in absorbedBy && Survivor(absorbedBy, r, hops) !in absorbedBy
    ensures Followed(absorbedBy, order, r) == Survivor(absorbedBy, r, hops)
    decreases |order|
  {
    if order != [] {
      var before, visited := order[..|order| - 1], order[|order| - 1];
      if r == visited {
        FollowedIsSurvivor(absorbedBy, before, absorbedBy[r], hops - 1);
      } else {
        FollowedIsSurvivor(absorbedBy, before, r, hops);
      }
    }
  }

  lemma {:induction false} ChainOrderVisits(absorbedBy: map<Ref, Ref>, order: seq<Ref>, r: Ref)
    requires forall q :: q in order ==> q in absorbedBy
    requires ChainOrder(absorbedBy, order) && (r in absorbedBy ==> r in order)
    ensures SurvivorsFirst(absorbedBy, order, r)
    decreases |order|
  {
    if r in absorbedBy {
      var k: nat :| k < |order| && order[k] == r;
      forall j: nat | j < k ensures order[..k][..j] == order[..j] && order[..k][j] == order[j] {
      }
      ChainOrderVisits(absorbedBy, order[..k], absorbedBy[r]);
    }
  }

  lemma FirstsIff(absorbedBy: map<Ref, Ref>, order: seq<Ref>)
    requires IsOrder(order, absorbedBy)
    ensures (forall r: Ref :: r in absorbedBy ==> SurvivorsFirst(absorbedBy, order, r)) <==> ChainOrder(absorbedBy, order)
  {
    if ChainOrder(absorbedBy, order) {
      forall r: Ref | r in absorbedBy ensures SurvivorsFirst(absorbedBy, order, r) {
        ChainOrderVisits(absorbedBy, order, r);
      }
    } else {
      var k: nat :| k < |order| && absorbedBy[order[k]] in absorbedBy && absorbedBy[order[k]] !in order[..k];
      if SurvivorsFirst(absorbedBy, order, order[k]) {
        var j: nat :| j < |order| && order[j] == order[k] && SurvivorsFirst(absorbedBy, order[..j], absorbedBy[order[k]]);
        assert false;
      }
    }
  }

  lemma FollowedToEndIff(absorbedBy: map<Ref, Ref>, order: seq<Ref>, n: nat, r: Ref)
    requires IsOrder(order, absorbedBy) && Last(absorbedBy, n, r) !in absorbedBy
    ensures Followed(absorbedBy, order, r) == Last(absorbedBy, n, r) <==> SurvivorsFirst(absorbedBy, order, r)
  {
    FollowedIff(absorbedBy, order, r);
    hide SurvivorsFirst;
    if Followed(absorbedBy, order, r) !in absorbedBy { FollowedIsSurvivor(absorbedBy, order, r, n + 1); }
  }

  /** Every reference is followed to the end of its chain exactly when every retired survivor is visited
      before the texts it absorbed. */
  lemma AllFollowedIff(absorbedBy: map<Ref, Ref>, order: seq<Ref>, n: nat)
    requires IsOrder(order, absorbedBy) && ChainsEnd(absorbedBy, n)
    ensures (forall r: Ref :: r in absorbedBy ==> Followed(absorbedBy, order, r) == Last(absorbedBy, n, r)) <==> ChainOrder(absorbedBy, order)
  {
    FirstsIff(absorbedBy, order);
    hide ChainOrder, ChainsEnd, Last, Followed;
    if ChainOrder(absorbedBy, order) {
      forall r: Ref | r in absorbedBy ensures Followed(absorbedBy, order, r) == Last(absorbedBy, n, r) {
        ChainEnds(absorbedBy, n, r);
        FollowedToEndIff(absorbedBy, order, n, r);
      }
    } else {
      var r: Ref :| r in absorbedBy && !SurvivorsFirst(absorbedBy, order, r);
      ChainEnds(absorbedBy, n, r);
      FollowedToEndIff(absorbedBy, order, n, r);
    }
  }

  // ----- The document it makes.

  /** A reference goes to the place of the text its chain ends with, or is left with an old name that
      happens to be that place's. */
  ghost predicate Arrives(absorbedBy: map<Ref, Ref>, order: seq<Ref>, n: nat, r: Ref)
    requires forall q :: q in order ==> q in absorbedBy
  {
    SurvivorsFirst(absorbedBy, order, r) || Followed(absorbedBy, order, r) == Slot(absorbedBy, Last(absorbedBy, n, r))
  }

  /** A reference goes to the place of the text its chain ends with, or is left with an old name that
      some text has taken since. */
  ghost predicate Lands(absorbedBy: map<Ref, Ref>, order: seq<Ref>, n: nat, r: Ref)
    requires forall q :: q in order ==> q in absorbedBy
  {
    SurvivorsFirst(absorbedBy, order, r) ||
    var f := Followed(absorbedBy, order, r); f.At? && f.index < Stay(absorbedBy, n)
  }

  lemma ArrivesIff(d: Document, absorbedBy: map<Ref, Ref>, order: seq<Ref>, r: Ref)
    requires Chains(d, absorbedBy) && IsOrder(order, absorbedBy)
    ensures
      var n := |d.arenas[Texts]|;
      NewName(absorbedBy, order, r) == Slot(absorbedBy, Last(absorbedBy, n, r)) <==> Arrives(absorbedBy, order, n, r)
  {
    var n := |d.arenas[Texts]|;
    FollowedIff(absorbedBy, order, r);
    assert Last(absorbedBy, n, r) !in absorbedBy;
    if Followed(absorbedBy, order, r) !in absorbedBy {
      FollowedIsSurvivor(absorbedBy, order, r, n + 1);
    }
    hide SurvivorsFirst, Followed, Survivor, Stay;
  }

  /** What stays goes to its place, whatever the order. */
  lemma StaysNamed(d: Document, absorbedBy: map<Ref, Ref>, order: seq<Ref>, r: Ref)
    requires Named(d) && Chains(d, absorbedBy) && IsOrder(order, absorbedBy) && IsNode(d, r) && r !in absorbedBy
    ensures Renamed(Renumbering(d, absorbedBy, order), r) == Slot(absorbedBy, r)
  {
    ReferencesFollow(d, absorbedBy, order, r);
    FollowedIff(absorbedBy, order, r);
    FollowedIsSurvivor(absorbedBy, order, r, 0);
  }

  /** The references an item holds, followed as far as the visits allow. */
  lemma ItemFollows(d: Document, absorbedBy: map<Ref, Ref>, order: seq<Ref>, r: Ref, pruned: Item)
    requires WellFormed(d) && Chains(d, absorbedBy) && IsOrder(order, absorbedBy)
    requires Resolves(d, r) && r !in absorbedBy && pruned == ItemAt(d, r).(children := pruned.children)
    ensures
      var item, slot, after := ItemAt(d, r), Slot(absorbedBy, r), RewriteItem(Renumbering(d, absorbedBy, order), pruned);
      && after.selfRef == (if item.selfRef.Some? then Some(slot) else None)
      && after.parent == (if item.parent.Some? then Some(NewName(absorbedBy, order, item.parent.value)) else None)
      && |after.links| == |item.links|
      && (forall i :: 0 <= i < |item.links| ==> after.links[i] == NewName(absorbedBy, order, item.links[i]))
  {
    var item := ItemAt(d, r);
    if item.selfRef.Some? { StaysNamed(d, absorbedBy, order, r); }
    if item.parent.Some? { ReferencesFollow(d, absorbedBy, order, item.parent.value); }
    var mapping := Renumbering(d, absorbedBy, order);
    forall i | 0 <= i < |item.links| ensures Renamed(mapping, item.links[i]) == NewName(absorbedBy, order, item.links[i]) {
      assert item.links[i] in item.links;
      ReferencesFollow(d, absorbedBy, order, item.links[i]);
    }
    hide Renumbering, NewName, Chains, Closed, TwoSided, ListedOnce, Slot;
  }

  /** An item that stays, with its references followed as far as the visits allow. */
  lemma ChainedItem(d: Document, absorbedBy: map<Ref, Ref>, order: seq<Ref>, r: Ref)
    requires WellFormed(d) && Chains(d, absorbedBy) && IsOrder(order, absorbedBy)
    requires Resolves(d, r) && r !in absorbedBy
    ensures
      var f, slot, item := Retire(d, absorbedBy, order), Slot(absorbedBy, r), ItemAt(d, r);
      && Resolves(f, slot)
      && ItemAt(f, slot).selfRef == (if item.selfRef.Some? then Some(slot) else None)
      && ItemAt(f, slot).parent == (if item.parent.Some? then Some(NewName(absorbedBy, order, item.parent.value)) else None)
      && |ItemAt(f, slot).links| == |item.links|
      && (forall i :: 0 <= i < |item.links| ==> ItemAt(f, slot).links[i] == NewName(absorbedBy, order, item.links[i]))
  {
    var n := |d.arenas[Texts]|;
    SamePruned(d, absorbedBy, order);
    PrunedNode(d, Heirs(absorbedBy, n), order, r);
    SameSlot(absorbedBy, n, r);
    var p, slot := Pruned(d, absorbedBy, order), Slot(absorbedBy, r);
    hide Pruned, Renumbering, KeptChild, Absorption, Chains, NewName, WellFormed, Slot, Heirs, RewriteItem;
    RewrittenAt(Renumbering(d, absorbedBy, order), p, slot);
    ItemFollows(d, absorbedBy, order, r, ItemAt(p, slot));
  }

  lemma RewrittenAt(mapping: map<Ref, Ref>, p: Document, node: Ref)
    ensures Resolves(RewriteDocument(mapping, p), node) <==> Resolves(p, node)
    ensures Resolves(p, node) ==> ItemAt(RewriteDocument(mapping, p), node) == RewriteItem(mapping, ItemAt(p, node))
    ensures ChildrenOf(RewriteDocument(mapping, p), node) == RenamedAll(mapping, ChildrenOf(p, node))
  {
  }

  /** Against the document for the ends of the chains: the same items in the same places, listed by
      the same nodes. */
  lemma SameNodes(d: Document, absorbedBy: map<Ref, Ref>, order: seq<Ref>, node: Ref)
    requires WellFormed(d) && Chains(d, absorbedBy) && IsOrder(order, absorbedBy)
    ensures
      var heirs := Heirs(absorbedBy, |d.arenas[Texts]|);
      && Absorption(d, heirs) && IsOrder(order, heirs)
      && (Resolves(Retire(d, absorbedBy, order), node) <==> Resolves(Retire(d, heirs, order), node))
      && ChildrenOf(Retire(d, absorbedBy, order), node) == ChildrenOf(Retire(d, heirs, order), node)
  {
    var heirs := Heirs(absorbedBy, |d.arenas[Texts]|);
    SamePruned(d, absorbedBy, order);
    var p := Pruned(d, heirs, order);
    hide WellFormed, Pruned, Renumbering, Absorption, Chains, Heirs, Slot, KeptChild, RewriteDocument;
    RewrittenAt(Renumbering(d, absorbedBy, order), p, node);
    RewrittenAt(Renumbering(d, heirs, order), p, node);
    SameChildren(d, absorbedBy, order, node);
  }

  /** Only items that stay are listed after the pruning. */
  lemma PrunedListsStay(d: Document, absorbedBy: map<Ref, Ref>, order: seq<Ref>, node: Ref, c: Ref)
    requires WellFormed(d) && Absorption(d, absorbedBy) && IsOrder(order, absorbedBy)
    requires c in ChildrenOf(Pruned(d, absorbedBy, order), node)
    ensures Resolves(d, c) && c !in absorbedBy
  {
    hide WellFormed, Pruned, Renumbering, Absorption, Slot, RewriteDocument, Stay, KeptChild;
    RewrittenAt(Renumbering(d, absorbedBy, order), Pruned(d, absorbedBy, order), node);
    var from := NodeFrom(d, absorbedBy, order, node);
    PrunedNode(d, absorbedBy, order, from);
    KeptChildStays(d, absorbedBy, from, c);
  }

  lemma SameChildren(d: Document, absorbedBy: map<Ref, Ref>, order: seq<Ref>, node: Ref)
    requires WellFormed(d) && Chains(d, absorbedBy) && IsOrder(order, absorbedBy)
    requires Absorption(d, Heirs(absorbedBy, |d.arenas[Texts]|)) && IsOrder(order, Heirs(absorbedBy, |d.arenas[Texts]|))
    ensures
      var heirs := Heirs(absorbedBy, |d.arenas[Texts]|);
      var children := ChildrenOf(Pruned(d, heirs, order), node);
      RenamedAll(Renumbering(d, absorbedBy, order), children) == RenamedAll(Renumbering(d, heirs, order), children)
  {
    var heirs := Heirs(absorbedBy, |d.arenas[Texts]|);
    var children := ChildrenOf(Pruned(d, heirs, order), node);
    hide WellFormed, Pruned, Renumbering, Absorption, Chains, Heirs, ChildrenOf, IsOrder, RenamedAll, Renamed;
    forall i | 0 <= i < |children|
      ensures Renamed(Renumbering(d, absorbedBy, order), children[i]) == Renamed(Renumbering(d, heirs, order), children[i])
    {
      assert children[i] in children;
      PrunedListsStay(d, heirs, order, node, children[i]);
      KeptBoth(d, absorbedBy, order, children[i]);
    }
    RenamedAlike(Renumbering(d, absorbedBy, order), Renumbering(d, heirs, order), children);
  }

  lemma RenamedAlike(mapping: map<Ref, Ref>, other: map<Ref, Ref>, refs: seq<Ref>)
    requires forall i :: 0 <= i < |refs| ==> Renamed(mapping, refs[i]) == Renamed(other, refs[i])
    ensures RenamedAll(mapping, refs) == RenamedAll(other, refs)
  {
    hide Renamed;
  }

  lemma KeptBoth(d: Document, absorbedBy: map<Ref, Ref>, order: seq<Ref>, c: Ref)
    requires WellFormed(d) && Chains(d, absorbedBy) && IsOrder(order, absorbedBy)
    requires Absorption(d, Heirs(absorbedBy, |d.arenas[Texts]|)) && IsOrder(order, Heirs(absorbedBy, |d.arenas[Texts]|))
    requires Resolves(d, c) && c !in Heirs(absorbedBy, |d.arenas[Texts]|)
    ensures Renamed(Renumbering(d, absorbedBy, order), c) ==
            Renamed(Renumbering(d, Heirs(absorbedBy, |d.arenas[Texts]|), order), c)
  {
    StaysNamed(d, absorbedBy, order, c);
    RenumberingNames(d, Heirs(absorbedBy, |d.arenas[Texts]|), order);
    SameSlot(absorbedBy, |d.arenas[Texts]|, c);
    hide Renumbering, Slot, Chains, Absorption, WellFormed;
  }

  // ----- When the result is well-formed.

  /** Every item that stays has its parent and its links arrive or land. */
  ghost predicate HeldLand(d: Document, absorbedBy: map<Ref, Ref>, order: seq<Ref>)
    requires forall q :: q in order ==> q in absorbedBy
  {
    var n := |d.arenas[Texts]|;
    forall r: Ref :: Resolves(d, r) && r !in absorbedBy ==>
      && (ItemAt(d, r).parent.Some? ==> Lands(absorbedBy, order, n, ItemAt(d, r).parent.value))
      && (forall l: Ref :: l in ItemAt(d, r).links ==> Lands(absorbedBy, order, n, l))
  }

  ghost predicate ParentsArrive(d: Document, absorbedBy: map<Ref, Ref>, order: seq<Ref>)
    requires forall q :: q in order ==> q in absorbedBy
  {
    forall r: Ref :: Resolves(d, r) && r !in absorbedBy && ItemAt(d, r).parent.Some? ==>
      Arrives(absorbedBy, order, |d.arenas[Texts]|, ItemAt(d, r).parent.value)
  }

  /** Out of the retired texts, a reference names something that remains. */
  lemma ArrivedIsNode(d: Document, absorbedBy: map<Ref, Ref>, order: seq<Ref>, f: Ref)
    requires WellFormed(d) && Chains(d, absorbedBy) && IsOrder(order, absorbedBy) && IsNode(d, f) && f !in absorbedBy
    ensures IsNode(Retire(d, absorbedBy, order), Slot(absorbedBy, f))
  {
    var heirs := Heirs(absorbedBy, |d.arenas[Texts]|);
    SameNodes(d, absorbedBy, order, Slot(absorbedBy, f));
    SameSlot(absorbedBy, |d.arenas[Texts]|, f);
    assert f !in heirs;
    hide Retire, Slot, Absorption, WellFormed, Chains, Heirs;
    NewNode(d, heirs, order, f);
  }

  lemma TextsLeft(d: Document, absorbedBy: map<Ref, Ref>, order: seq<Ref>)
    requires WellFormed(d) && Chains(d, absorbedBy) && IsOrder(order, absorbedBy)
    ensures
      var n := |d.arenas[Texts]|;
      IsOrder(order, Heirs(absorbedBy, n)) && |Retire(d, Heirs(absorbedBy, n), order).arenas[Texts]| == Stay(absorbedBy, n)
  {
    var n := |d.arenas[Texts]|;
    HeirsAbsorb(d, absorbedBy);
    SameStay(absorbedBy, Heirs(absorbedBy, n), n);
    assert IsOrder(order, Heirs(absorbedBy, n));
    hide Retire, Stay, Absorption, WellFormed, Chains, Heirs;
    RetiredSizes(d, Heirs(absorbedBy, n), order);
  }

  /** An old name left behind names something exactly when enough texts remain. */
  lemma LeftNameIsNode(d: Document, absorbedBy: map<Ref, Ref>, order: seq<Ref>, f: Ref)
    requires WellFormed(d) && Chains(d, absorbedBy) && IsOrder(order, absorbedBy) && f in absorbedBy
    ensures f.At? && (IsNode(Retire(d, absorbedBy, order), f) <==> f.index < Stay(absorbedBy, |d.arenas[Texts]|))
  {
    assert f.At? && f.arena == Texts;
    hide Retire, Stay, Absorption, WellFormed, Chains, Heirs, ChildrenOf;
    SameNodes(d, absorbedBy, order, f);
    TextsLeft(d, absorbedBy, order);
  }

  lemma LandsIff(d: Document, absorbedBy: map<Ref, Ref>, order: seq<Ref>, r: Ref)
    requires WellFormed(d) && Chains(d, absorbedBy) && IsOrder(order, absorbedBy) && IsNode(d, r)
    ensures IsNode(Retire(d, absorbedBy, order), NewName(absorbedBy, order, r)) <==> Lands(absorbedBy, order, |d.arenas[Texts]|, r)
  {
    var f := Followed(absorbedBy, order, r);
    FollowedIff(absorbedBy, order, r);
    FollowedIsNode(d, absorbedBy, order, r);
    hide Retire, SurvivorsFirst, Followed, Stay, Slot, WellFormed, Chains, IsNode;
    if f in absorbedBy {
      LeftNameIsNode(d, absorbedBy, order, f);
    } else {
      ArrivedIsNode(d, absorbedBy, order, f);
    }
  }

  /** A remaining item is one that stayed, in its slot. */
  lemma ChainedFrom(d: Document, absorbedBy: map<Ref, Ref>, order: seq<Ref>, q: Ref) returns (from: Ref)
    requires WellFormed(d) && Chains(d, absorbedBy) && IsOrder(order, absorbedBy)
    requires Resolves(Retire(d, absorbedBy, order), q)
    ensures Resolves(d, from) && from !in absorbedBy && Slot(absorbedBy, from) == q
  {
    SameNodes(d, absorbedBy, order, q);
    from := SlotsAreFilled(d, Heirs(absorbedBy, |d.arenas[Texts]|), order, q);
    SameSlot(absorbedBy, |d.arenas[Texts]|, from);
    hide Retire, WellFormed, Chains, Absorption, Slot;
  }

  lemma ChainedChildren(d: Document, absorbedBy: map<Ref, Ref>, order: seq<Ref>, node: Ref, c: Ref)
    requires WellFormed(d) && Chains(d, absorbedBy) && IsOrder(order, absorbedBy)
    requires c in ChildrenOf(Retire(d, absorbedBy, order), node)
    ensures Resolves(Retire(d, absorbedBy, order), c)
  {
    SameNodes(d, absorbedBy, order, node);
    SameNodes(d, absorbedBy, order, c);
    RetireCloses(d, Heirs(absorbedBy, |d.arenas[Texts]|), order);
    hide Retire, WellFormed, Chains, Absorption;
  }

  lemma HeldThenCloses(d: Document, absorbedBy: map<Ref, Ref>, order: seq<Ref>)
    requires WellFormed(d) && Chains(d, absorbedBy) && IsOrder(order, absorbedBy)
    requires HeldLand(d, absorbedBy, order)
    ensures Closed(Retire(d, absorbedBy, order))
  {
    var f := Retire(d, absorbedBy, order);
    hide Retire, Slot, NewName, Chains, Lands;
    forall node, c: Ref | c in ChildrenOf(f, node) ensures Resolves(f, c) {
      ChainedChildren(d, absorbedBy, order, node, c);
    }
    forall q: Ref | Resolves(f, q) && ItemAt(f, q).parent.Some? ensures IsNode(f, ItemAt(f, q).parent.value) {
      var from := ChainedFrom(d, absorbedBy, order, q);
      ChainedItem(d, absorbedBy, order, from);
      LandsIff(d, absorbedBy, order, ItemAt(d, from).parent.value);
    }
    forall q, l: Ref | Resolves(f, q) && l in ItemAt(f, q).links ensures IsNode(f, l) {
      var from := ChainedFrom(d, absorbedBy, order, q);
      ChainedItem(d, absorbedBy, order, from);
      var links := ItemAt(d, from).links;
      var i :| 0 <= i < |ItemAt(f, q).links| && ItemAt(f, q).links[i] == l;
      assert links[i] in links;
      LandsIff(d, absorbedBy, order, links[i]);
    }
  }

  lemma ClosedThenLands(d: Document, absorbedBy: map<Ref, Ref>, order: seq<Ref>, r: Ref)
    requires WellFormed(d) && Chains(d, absorbedBy) && IsOrder(order, absorbedBy)
    requires Closed(Retire(d, absorbedBy, order)) && Resolves(d, r) && r !in absorbedBy
    ensures
      var n, item := |d.arenas[Texts]|, ItemAt(d, r);
      && (item.parent.Some? ==> Lands(absorbedBy, order, n, item.parent.value))
      && (forall i :: 0 <= i < |item.links| ==> Lands(absorbedBy, order, n, item.links[i]))
  {
    var n, f := |d.arenas[Texts]|, Retire(d, absorbedBy, order);
    ChainedItem(d, absorbedBy, order, r);
    var item, after := ItemAt(d, r), ItemAt(f, Slot(absorbedBy, r));
    assert item.parent.Some? ==> IsNode(d, item.parent.value);
    assert forall l: Ref :: l in item.links ==> IsNode(d, l);
    hide Retire, Slot, NewName, Chains, Lands, WellFormed, IsNode;
    if item.parent.Some? { LandsIff(d, absorbedBy, order, item.parent.value); }
    forall i | 0 <= i < |item.links| ensures Lands(absorbedBy, order, n, item.links[i]) {
      assert after.links[i] in after.links;
      assert item.links[i] in item.links;
      LandsIff(d, absorbedBy, order, item.links[i]);
    }
  }

  lemma ClosedThenHeld(d: Document, absorbedBy: map<Ref, Ref>, order: seq<Ref>)
    requires WellFormed(d) && Chains(d, absorbedBy) && IsOrder(order, absorbedBy)
    requires Closed(Retire(d, absorbedBy, order))
    ensures HeldLand(d, absorbedBy, order)
  {
    var n := |d.arenas[Texts]|;
    hide Retire, Chains, Lands, WellFormed, Closed;
    forall r: Ref | Resolves(d, r) && r !in absorbedBy
      ensures ItemAt(d, r).parent.Some? ==> Lands(absorbedBy, order, n, ItemAt(d, r).parent.value)
      ensures forall l: Ref :: l in ItemAt(d, r).links ==> Lands(absorbedBy, order, n, l)
    {
      ClosedThenLands(d, absorbedBy, order, r);
    }
  }

  /** No reference dangles exactly when every reference an item that stays holds, to its parent or
      otherwise, is to a text whose retired survivors were visited first, or is left with a name that
      another text has taken. */
  lemma ChainedRetireClosedIff(d: Document, absorbedBy: map<Ref, Ref>, order: seq<Ref>)
    requires WellFormed(d) && Chains(d, absorbedBy) && IsOrder(order, absorbedBy)
    ensures Closed(Retire(d, absorbedBy, order)) <==> HeldLand(d, absorbedBy, order)
  {
    hide Closed, HeldLand, Retire, WellFormed, Chains;
    if Closed(Retire(d, absorbedBy, order)) { ClosedThenHeld(d, absorbedBy, order); }
    if HeldLand(d, absorbedBy, order) { HeldThenCloses(d, absorbedBy, order); }
  }

  /** The parent an item is to have: the place of the text the parent's chain ends with. */
  lemma ParentToBe(d: Document, absorbedBy: map<Ref, Ref>, order: seq<Ref>, r: Ref, node: Ref)
    requires WellFormed(d) && Chains(d, absorbedBy) && IsOrder(order, absorbedBy)
    requires Resolves(d, r) && r !in absorbedBy
    ensures
      var n, f, slot := |d.arenas[Texts]|, Retire(d, absorbedBy, order), Slot(absorbedBy, r);
      slot in ChildrenOf(f, node) <==>
        ItemAt(d, r).parent.Some? && node == Slot(absorbedBy, Last(absorbedBy, n, ItemAt(d, r).parent.value))
  {
    var n, slot := |d.arenas[Texts]|, Slot(absorbedBy, r);
    var heirs := Heirs(absorbedBy, n);
    SameNodes(d, absorbedBy, order, node);
    SameSlot(absorbedBy, n, r);
    RetiredItem(d, heirs, order, r);
    RetiredLinkedBothWays(d, heirs, order, node, slot);
    if ItemAt(d, r).parent.Some? {
      var p := ItemAt(d, r).parent.value;
      SameSlot(absorbedBy, n, Last(absorbedBy, n, p));
      assert NewRef(heirs, p) == Slot(heirs, Last(absorbedBy, n, p));
    }
    hide Retire, Slot, WellFormed, Chains, Absorption;
  }

  lemma LinkedThenArrives(d: Document, absorbedBy: map<Ref, Ref>, order: seq<Ref>, r: Ref)
    requires WellFormed(d) && Chains(d, absorbedBy) && IsOrder(order, absorbedBy)
    requires TwoSided(Retire(d, absorbedBy, order))
    requires Resolves(d, r) && r !in absorbedBy && ItemAt(d, r).parent.Some?
    ensures Arrives(absorbedBy, order, |d.arenas[Texts]|, ItemAt(d, r).parent.value)
  {
    hide Retire, Slot, NewName, Chains, Arrives, WellFormed, Last, TwoSided, ChildrenOf, ItemAt, Resolves;
    var n, p, slot := |d.arenas[Texts]|, ItemAt(d, r).parent.value, Slot(absorbedBy, r);
    var node := Slot(absorbedBy, Last(absorbedBy, n, p));
    ChainedItem(d, absorbedBy, order, r);
    ParentToBe(d, absorbedBy, order, r, node);
    LinkAt(Retire(d, absorbedBy, order), node, slot);
    ArrivesIff(d, absorbedBy, order, p);
  }

  lemma LinkAt(d: Document, node: Ref, c: Ref)
    requires TwoSided(d) && Resolves(d, c)
    ensures c in ChildrenOf(d, node) <==> ItemAt(d, c).parent == Some(node)
  {
  }

  lemma ArriveThenLinked(d: Document, absorbedBy: map<Ref, Ref>, order: seq<Ref>, node: Ref, c: Ref)
    requires WellFormed(d) && Chains(d, absorbedBy) && IsOrder(order, absorbedBy)
    requires ParentsArrive(d, absorbedBy, order) && Resolves(Retire(d, absorbedBy, order), c)
    ensures
      var f := Retire(d, absorbedBy, order);
      c in ChildrenOf(f, node) <==> ItemAt(f, c).parent == Some(node)
  {
    var r := ChainedFrom(d, absorbedBy, order, c);
    ChainedItem(d, absorbedBy, order, r);
    ParentToBe(d, absorbedBy, order, r, node);
    if ItemAt(d, r).parent.Some? {
      ArrivesIff(d, absorbedBy, order, ItemAt(d, r).parent.value);
      assert Arrives(absorbedBy, order, |d.arenas[Texts]|, ItemAt(d, r).parent.value);
    }
    hide Retire, Slot, NewName, Chains, Arrives, WellFormed, Last, ParentsArrive;
  }

  lemma LinkedIff(d: Document, absorbedBy: map<Ref, Ref>, order: seq<Ref>)
    requires WellFormed(d) && Chains(d, absorbedBy) && IsOrder(order, absorbedBy)
    ensures TwoSided(Retire(d, absorbedBy, order)) <==> ParentsArrive(d, absorbedBy, order)
  {
    var f := Retire(d, absorbedBy, order);
    hide Retire, Chains, WellFormed, Arrives;
    if TwoSided(f) {
      forall r: Ref | Resolves(d, r) && r !in absorbedBy && ItemAt(d, r).parent.Some?
        ensures Arrives(absorbedBy, order, |d.arenas[Texts]|, ItemAt(d, r).parent.value)
      {
        LinkedThenArrives(d, absorbedBy, order, r);
      }
    }
    if ParentsArrive(d, absorbedBy, order) {
      forall node, c: Ref | Resolves(f, c) ensures c in ChildrenOf(f, node) <==> ItemAt(f, c).parent == Some(node) {
        ArriveThenLinked(d, absorbedBy, order, node, c);
      }
    }
  }

  /** The whole predicate is kept exactly when, besides, every item that stays finds the place of the
      text its parent's chain ends with. */
  lemma ChainedRetireWellFormedIff(d: Document, absorbedBy: map<Ref, Ref>, order: seq<Ref>)
    requires WellFormed(d) && Chains(d, absorbedBy) && IsOrder(order, absorbedBy)
    ensures WellFormed(Retire(d, absorbedBy, order)) <==> HeldLand(d, absorbedBy, order) && ParentsArrive(d, absorbedBy, order)
  {
    var f := Retire(d, absorbedBy, order);
    ChainedRetireClosedIff(d, absorbedBy, order);
    LinkedIff(d, absorbedBy, order);
    ChainedNames(d, absorbedBy, order);
    ChainedListedOnce(d, absorbedBy, order);
    assert WellFormed(f) <==> Closed(f) && TwoSided(f) by { hide Retire, Closed, TwoSided, Named, ListedOnce; }
    hide Retire, WellFormed, Chains, HeldLand, ParentsArrive;
  }

  lemma ChainedNames(d: Document, absorbedBy: map<Ref, Ref>, order: seq<Ref>)
    requires WellFormed(d) && Chains(d, absorbedBy) && IsOrder(order, absorbedBy)
    ensures Named(Retire(d, absorbedBy, order))
  {
    var f := Retire(d, absorbedBy, order);
    hide Retire, Slot, NewName, Chains, WellFormed;
    forall q: Ref | Resolves(f, q) && ItemAt(f, q).selfRef.Some? ensures ItemAt(f, q).selfRef.value == q {
      var from := ChainedFrom(d, absorbedBy, order, q);
      ChainedItem(d, absorbedBy, order, from);
    }
  }

  lemma ChainedListedOnce(d: Document, absorbedBy: map<Ref, Ref>, order: seq<Ref>)
    requires WellFormed(d) && Chains(d, absorbedBy) && IsOrder(order, absorbedBy)
    ensures ListedOnce(Retire(d, absorbedBy, order))
  {
    var heirs := Heirs(absorbedBy, |d.arenas[Texts]|);
    HeirsAbsorb(d, absorbedBy);
    assert IsOrder(order, heirs);
    RetireKeepsWellFormed(d, heirs, order);
    hide Retire, Chains, Absorption, Distinct, Heirs;
    forall node: Ref ensures Distinct(ChildrenOf(Retire(d, absorbedBy, order), node)) {
      SameNodes(d, absorbedBy, order, node);
    }
  }

  /** With every retired survivor visited before the texts it absorbed, chains do no harm. */
  lemma RetireInChainOrder(d: Document, absorbedBy: map<Ref, Ref>, order: seq<Ref>)
    requires WellFormed(d) && Chains(d, absorbedBy) && IsOrder(order, absorbedBy) && ChainOrder(absorbedBy, order)
    ensures WellFormed(Retire(d, absorbedBy, order))
  {
    ChainedRetireWellFormedIff(d, absorbedBy, order);
    AllArrive(d, absorbedBy, order);
    hide Retire, WellFormed, Chains, ChainOrder, HeldLand, ParentsArrive;
  }

  lemma AllArrive(d: Document, absorbedBy: map<Ref, Ref>, order: seq<Ref>)
    requires IsOrder(order, absorbedBy) && ChainOrder(absorbedBy, order)
    ensures HeldLand(d, absorbedBy, order) && ParentsArrive(d, absorbedBy, order)
  {
    FirstsIff(absorbedBy, order);
    assert forall r: Ref :: SurvivorsFirst(absorbedBy, order, r);
    hide SurvivorsFirst, ChainOrder, Followed, Last, Stay;
  }

  // ----- The order decides.

  function Prose(i: nat, links: seq<Ref>): Item {
    Item(Some(At(Texts, i)), Some(Body), [], links, "", false)
  }

  /** Three lines; the first refers to the second. */
  ghost function ThreeLines(): Document {
    Document(EMPTY.arenas[Texts := [Prose(0, [At(Texts, 1)]), Prose(1, []), Prose(2, [])]],
             [At(Texts, 0), At(Texts, 1), At(Texts, 2)], [])
  }

  ghost function Chain(): map<Ref, Ref> {
    map[At(Texts, 1) := At(Texts, 2), At(Texts, 2) := At(Texts, 0)]
  }

  lemma ThreeLinesItems(r: Ref)
    requires Resolves(ThreeLines(), r)
    ensures r in [At(Texts, 0), At(Texts, 1), At(Texts, 2)] && r == At(Texts, r.index)
    ensures ItemAt(ThreeLines(), r) == Prose(r.index, if r.index == 0 then [At(Texts, 1)] else [])
  {
    assert ThreeLines().arenas[Texts] == [Prose(0, [At(Texts, 1)]), Prose(1, []), Prose(2, [])];
    var lines := [At(Texts, 0), At(Texts, 1), At(Texts, 2)];
    assert lines[r.index] == At(Texts, r.index);
  }

  lemma ThreeLinesChildren(node: Ref)
    ensures ChildrenOf(ThreeLines(), node) == if node.Body? then [At(Texts, 0), At(Texts, 1), At(Texts, 2)] else []
    ensures Resolves(ThreeLines(), At(Texts, 0)) && Resolves(ThreeLines(), At(Texts, 1)) && Resolves(ThreeLines(), At(Texts, 2))
  {
    if Resolves(ThreeLines(), node) {
      hide ThreeLines;
      ThreeLinesItems(node);
    }
  }

  lemma ThreeLinesWellFormed()
    ensures WellFormed(ThreeLines())
  {
    hide ThreeLines, ItemAt, ChildrenOf, Resolves;
    var d := ThreeLines();
    forall r: Ref | Resolves(d, r)
      ensures r in [At(Texts, 0), At(Texts, 1), At(Texts, 2)] && r == At(Texts, r.index)
      ensures ItemAt(d, r) == Prose(r.index, if r.index == 0 then [At(Texts, 1)] else [])
    {
      ThreeLinesItems(r);
    }
    forall node: Ref ensures ChildrenOf(d, node) == if node.Body? then [At(Texts, 0), At(Texts, 1), At(Texts, 2)] else [] {
      ThreeLinesChildren(node);
    }
    ThreeLinesChildren(Body);
  }

  lemma ThreeLinesChain()
    ensures Chains(ThreeLines(), Chain())
    ensures IsOrder([At(Texts, 1), At(Texts, 2)], Chain()) && IsOrder([At(Texts, 2), At(Texts, 1)], Chain())
  {
    var d := ThreeLines();
    assert d.arenas[Texts] == [Prose(0, [At(Texts, 1)]), Prose(1, []), Prose(2, [])];
    assert Survivor(Chain(), At(Texts, 0), 2) == At(Texts, 0);
    assert Survivor(Chain(), At(Texts, 2), 3) == At(Texts, 0);
    assert Survivor(Chain(), At(Texts, 2), 4) == At(Texts, 0);
  }

  lemma LeftBehind()
    ensures !HeldLand(ThreeLines(), Chain(), [At(Texts, 1), At(Texts, 2)])
  {
    var d, absorbedBy, one, two := ThreeLines(), Chain(), At(Texts, 1), At(Texts, 2);
    assert [one, two][..1] == [one] && [one][..0] == [];
    assert Followed(absorbedBy, [one, two], one) == Followed(absorbedBy, [one], one) == Followed(absorbedBy, [], two) == two;
    FollowedIff(absorbedBy, [one, two], one);
    assert Stay(absorbedBy, 3) == Stay(absorbedBy, 2) == Stay(absorbedBy, 1) == 1;
    assert !Lands(absorbedBy, [one, two], 3, one) by { hide SurvivorsFirst, Followed, Stay; }
    hide Lands;
    assert one in ItemAt(d, At(Texts, 0)).links;
  }

  /** The second line is absorbed by the third and that by the first. With the second visited first,
      the first line's reference to it is left with the third's old name, which is gone; the other way
      round all is well. */
  lemma VisitOrderDecides()
    ensures
      var d, absorbedBy, one, two := ThreeLines(), Chain(), At(Texts, 1), At(Texts, 2);
      && WellFormed(d) && Chains(d, absorbedBy) && IsOrder([one, two], absorbedBy) && IsOrder([two, one], absorbedBy)
      && !Closed(Retire(d, absorbedBy, [one, two]))
      && WellFormed(Retire(d, absorbedBy, [two, one]))
  {
    var d, absorbedBy, one, two := ThreeLines(), Chain(), At(Texts, 1), At(Texts, 2);
    ThreeLinesWellFormed();
    ThreeLinesChain();
    LeftBehind();
    assert ChainOrder(absorbedBy, [two, one]);
    hide Retire, WellFormed, Chains, Closed, IsOrder, HeldLand, ThreeLines, Chain, ChainOrder;
    ChainedRetireClosedIff(d, absorbedBy, [one, two]);
    RetireInChainOrder(d, absorbedBy, [two, one]);
  }
}
