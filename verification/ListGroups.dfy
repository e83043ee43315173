/** Gathering runs of list items in the body into groups (src/document_assembly.cpp). */
module ListGroups {
  import opened Bytes
  import opened Documents
  import opened GroupSplit

  /** A body child that is a list item parented to the body; `isList` tells which texts are list items. */
  predicate InBody(arenas: Arenas, isList: nat -> bool, r: Ref) {
    IsText(r) && r.index < |arenas[Texts]| && isList(r.index) && arenas[Texts][r.index].parent == Some(Body)
  }

  ghost function Adopted(texts: seq<Item>, run: seq<Ref>, parent: Ref): seq<Item> {
    seq(|texts|, i requires 0 <= i < |texts| => if At(Texts, i) in run then texts[i].(parent := Some(parent)) else texts[i])
  }

  function NewGroup(arenas: Arenas): Ref { At(Groups, |arenas[Groups]|) }

  function ListGroup(arenas: Arenas, run: seq<Ref>): Item {
    Item(Some(NewGroup(arenas)), Some(Body), run, [], "list", false)
  }

  /** The arenas once a run belongs to a new group. */
  ghost function Gathered(arenas: Arenas, run: seq<Ref>): Arenas {
    arenas[Groups := arenas[Groups] + [ListGroup(arenas, run)]][Texts := Adopted(arenas[Texts], run, NewGroup(arenas))]
  }

  ghost predicate CanWrap(d: Document, isList: nat -> bool, at: nat, end: nat) {
    at < end <= |d.body| && forall k :: at <= k < end ==> InBody(d.arenas, isList, d.body[k])
  }

  /** The body's children from at to end, moved into one new group in their place. */
  ghost function Wrap(d: Document, at: nat, end: nat): Document
    requires at <= end <= |d.body|
  {
    Document(Gathered(d.arenas, d.body[at..end]), d.body[..at] + [NewGroup(d.arenas)] + d.body[end..], d.furniture)
  }

  lemma WrapItems(d: Document, at: nat, end: nat, r: Ref)
    requires at <= end <= |d.body|
    ensures
      var e, fresh_, run := Wrap(d, at, end), NewGroup(d.arenas), d.body[at..end];
      && (Resolves(e, r) <==> Resolves(d, r) || r == fresh_)
      && (Resolves(d, r) ==> ItemAt(e, r) == if IsText(r) && r in run then ItemAt(d, r).(parent := Some(fresh_)) else ItemAt(d, r))
      && (r == fresh_ ==> ItemAt(e, r) == ListGroup(d.arenas, run))
  {
    if r.At? { assert r == At(r.arena, r.index); }
  }

  lemma WrapChildren(d: Document, at: nat, end: nat, node: Ref)
    requires at <= end <= |d.body|
    ensures
      var e, fresh_ := Wrap(d, at, end), NewGroup(d.arenas);
      ChildrenOf(e, node) ==
        if node.Body? then d.body[..at] + [fresh_] + d.body[end..] else if node == fresh_ then d.body[at..end] else ChildrenOf(d, node)
  {
    WrapItems(d, at, end, node);
    hide Adopted;
  }

  lemma BodyParts(body: seq<Ref>, at: nat, end: nat, c: Ref)
    requires at <= end <= |body| && Distinct(body)
    ensures c in body <==> c in body[..at] || c in body[at..end] || c in body[end..]
    ensures c in body[at..end] ==> c !in body[..at] && c !in body[end..]
  {
    assert body == body[..at] + body[at..end] + body[end..];
  }

  lemma FreshUnlisted(d: Document, node: Ref)
    requires WellFormed(d)
    ensures NewGroup(d.arenas) !in ChildrenOf(d, node)
  {
    assert !Resolves(d, NewGroup(d.arenas));
  }

  lemma LinkedAt(d: Document, node: Ref, c: Ref)
    requires WellFormed(d) && Resolves(d, c)
    ensures c in ChildrenOf(d, node) <==> ItemAt(d, c).parent == Some(node)
    ensures ItemAt(d, c).parent.Some? ==> IsNode(d, ItemAt(d, c).parent.value)
  {
  }

  lemma RunIsTexts(d: Document, isList: nat -> bool, at: nat, end: nat, c: Ref)
    requires CanWrap(d, isList, at, end) && c in d.body[at..end]
    ensures IsText(c)
  {
    var k :| 0 <= k < end - at && d.body[at..end][k] == c;
    assert d.body[at + k] == c;
  }

  lemma AmongThree(a: seq<Ref>, f: Ref, b: seq<Ref>, c: Ref)
    ensures c in a + [f] + b <==> c in a || c == f || c in b
  {
  }

  /** An old item: its lists, and its parent where it was gathered. */
  lemma WrapLinksOld(d: Document, isList: nat -> bool, at: nat, end: nat, node: Ref, c: Ref)
    requires WellFormed(d) && CanWrap(d, isList, at, end) && Resolves(d, c) && Resolves(Wrap(d, at, end), c)
    ensures c in ChildrenOf(Wrap(d, at, end), node) <==> ItemAt(Wrap(d, at, end), c).parent == Some(node)
  {
    var fresh_ := NewGroup(d.arenas);
    assert !Resolves(d, fresh_) && Distinct(d.body) by { assert Distinct(ChildrenOf(d, Body)); }
    hide Wrap, WellFormed, InBody, CanWrap, Distinct;
    WrapItems(d, at, end, c);
    WrapChildren(d, at, end, node);
    LinkedAt(d, node, c);
    LinkedAt(d, Body, c);
    BodyParts(d.body, at, end, c);
    AmongThree(d.body[..at], fresh_, d.body[end..], c);
    if c in d.body[at..end] { RunIsTexts(d, isList, at, end, c); }
    assert c != fresh_ && !IsNode(d, fresh_);
  }

  lemma WrapLinksNew(d: Document, at: nat, end: nat, node: Ref)
    requires WellFormed(d) && at <= end <= |d.body|
    ensures
      var e, fresh_ := Wrap(d, at, end), NewGroup(d.arenas);
      Resolves(e, fresh_) && (fresh_ in ChildrenOf(e, node) <==> ItemAt(e, fresh_).parent == Some(node))
  {
    var fresh_ := NewGroup(d.arenas);
    hide Wrap, WellFormed;
    WrapItems(d, at, end, fresh_);
    WrapChildren(d, at, end, node);
    FreshUnlisted(d, node);
    FreshUnlisted(d, Body);
    AmongThree(d.body[..at], fresh_, d.body[end..], fresh_);
    assert d.body == d.body[..at] + d.body[at..end] + d.body[end..];
  }

  lemma WrapLinks(d: Document, isList: nat -> bool, at: nat, end: nat, node: Ref, c: Ref)
    requires WellFormed(d) && CanWrap(d, isList, at, end) && Resolves(Wrap(d, at, end), c)
    ensures c in ChildrenOf(Wrap(d, at, end), node) <==> ItemAt(Wrap(d, at, end), c).parent == Some(node)
  {
    hide WellFormed, CanWrap, Wrap;
    assert at <= end <= |d.body| by { WrapBounds(d, isList, at, end); }
    WrapItems(d, at, end, c);
    if c == NewGroup(d.arenas) { WrapLinksNew(d, at, end, node); } else { WrapLinksOld(d, isList, at, end, node, c); }
  }

  lemma WrapBounds(d: Document, isList: nat -> bool, at: nat, end: nat)
    requires CanWrap(d, isList, at, end)
    ensures at <= end <= |d.body|
  {
  }

  lemma WrapListsOnce(d: Document, at: nat, end: nat, node: Ref)
    requires WellFormed(d) && at <= end <= |d.body|
    ensures Distinct(ChildrenOf(Wrap(d, at, end), node))
  {
    WrapChildren(d, at, end, node);
    FreshUnlisted(d, Body);
    assert Distinct(ChildrenOf(d, node)) && Distinct(ChildrenOf(d, Body));
    hide Wrap, WellFormed;
    if node.Body? {
      forall i | 0 <= i < |d.body| ensures d.body[i] != NewGroup(d.arenas) {
        assert d.body[i] in ChildrenOf(d, Body);
      }
    }
  }

  lemma WrapCloses(d: Document, at: nat, end: nat)
    requires WellFormed(d) && at <= end <= |d.body|
    ensures Closed(Wrap(d, at, end))
  {
    var e, fresh_ := Wrap(d, at, end), NewGroup(d.arenas);
    hide Wrap;
    forall r: Ref ensures Resolves(d, r) || r == fresh_ ==> Resolves(e, r) { WrapItems(d, at, end, r); }
    forall node, c: Ref | c in ChildrenOf(e, node) ensures Resolves(e, c) {
      WrapChildren(d, at, end, node);
      if c != fresh_ {
        assert c in ChildrenOf(d, node) || c in ChildrenOf(d, Body);
        assert Resolves(d, c);
      }
    }
    forall r: Ref | Resolves(e, r) && ItemAt(e, r).parent.Some? ensures IsNode(e, ItemAt(e, r).parent.value) {
      WrapItems(d, at, end, r);
      if Resolves(d, r) { assert ItemAt(d, r).parent.Some? ==> IsNode(d, ItemAt(d, r).parent.value); }
    }
    forall r, l: Ref | Resolves(e, r) && l in ItemAt(e, r).links ensures IsNode(e, l) {
      WrapItems(d, at, end, r);
      assert Resolves(d, r) && l in ItemAt(d, r).links;
      assert IsNode(d, l);
    }
  }

  /** Wrapping a run keeps the document well-formed. */
  lemma WrapKeepsWellFormed(d: Document, isList: nat -> bool, at: nat, end: nat)
    requires WellFormed(d) && CanWrap(d, isList, at, end)
    ensures WellFormed(Wrap(d, at, end))
  {
    var e := Wrap(d, at, end);
    WrapCloses(d, at, end);
    assert TwoSided(e) by {
      forall node, c: Ref | Resolves(e, c) ensures c in ChildrenOf(e, node) <==> ItemAt(e, c).parent == Some(node) {
        WrapLinks(d, isList, at, end, node, c);
      }
    }
    assert ListedOnce(e) by {
      forall node: Ref ensures Distinct(ChildrenOf(e, node)) { WrapListsOnce(d, at, end, node); }
    }
    assert Named(e) by {
      hide Wrap;
      forall r: Ref | Resolves(e, r) && ItemAt(e, r).selfRef.Some? ensures ItemAt(e, r).selfRef.value == r {
        WrapItems(d, at, end, r);
      }
    }
  }

  lemma {:induction false} TextsFlatten(d: Document, refs: seq<Ref>)
    requires forall k :: 0 <= k < |refs| ==> IsText(refs[k])
    ensures Flatten(d, refs) == refs
  {
    if refs != [] { TextsFlatten(d, refs[1..]); }
  }

  lemma WrapFlat(d: Document, at: nat, end: nat, r: Ref)
    requires at <= end <= |d.body|
    ensures r != NewGroup(d.arenas) ==> Flat(Wrap(d, at, end), r) == Flat(d, r)
    ensures Flat(Wrap(d, at, end), NewGroup(d.arenas)) == d.body[at..end]
  {
    hide Adopted;
  }

  /** And leaves the body, read through its groups, as it was. */
  lemma WrapKeepsContent(d: Document, isList: nat -> bool, at: nat, end: nat)
    requires WellFormed(d) && CanWrap(d, isList, at, end)
    ensures Flatten(Wrap(d, at, end), Wrap(d, at, end).body) == Flatten(d, d.body)
  {
    var e, fresh_ := Wrap(d, at, end), NewGroup(d.arenas);
    var before, run, after := d.body[..at], d.body[at..end], d.body[end..];
    assert e.body == before + ([fresh_] + after) && d.body == before + (run + after);
    FreshUnlisted(d, Body);
    hide Wrap, Flat, WellFormed, CanWrap, InBody, Flatten;
    forall r | r in d.body ensures Flat(e, r) == Flat(d, r) { WrapFlat(d, at, end, r); }
    WrapFlat(d, at, end, fresh_);
    forall k | 0 <= k < |run| ensures IsText(run[k]) { RunIsTexts(d, isList, at, end, run[k]); }
    TextsFlatten(d, run);
    FlattenSame(d, e, before);
    FlattenSame(d, e, after);
    FlattenAround(e, before, [fresh_], after);
    FlattenAround(d, before, run, after);
    FlattenOne(e, fresh_);
  }

  // ----- The program.

  /** The body as it stands while its children from `at` on are still to be walked. */
  ghost function Walking(arenas: Arenas, children: seq<Ref>, body: seq<Ref>, at: nat, furniture: seq<Ref>): Document
    requires at <= |body|
  {
    Document(arenas, children + body[at..], furniture)
  }

  /** None of these is still a list item of the body. */
  ghost predicate NoneInBody(arenas: Arenas, isList: nat -> bool, refs: seq<Ref>) {
    forall k :: 0 <= k < |refs| ==> !InBody(arenas, isList, refs[k])
  }

  lemma GatheredInBody(arenas: Arenas, isList: nat -> bool, run: seq<Ref>, r: Ref)
    ensures InBody(Gathered(arenas, run), isList, r) <==> InBody(arenas, isList, r) && r !in run
  {
    if IsText(r) { assert r == At(Texts, r.index); }
  }

  lemma GroupGathered(arenas: Arenas, run: seq<Ref>)
    ensures |Gathered(arenas, run)[Groups]| == |arenas[Groups]| + 1
    ensures Gathered(arenas, run)[Groups][|arenas[Groups]|] == ListGroup(arenas, run)
  {
  }

  lemma NothingGathered(arenas: Arenas)
    ensures Gathered(arenas, []) == arenas[Groups := arenas[Groups] + [ListGroup(arenas, [])]]
  {
    assert Adopted(arenas[Texts], [], NewGroup(arenas)) == arenas[Texts];
  }

  /** One more item joins the group being filled. */
  lemma GatherOne(arenas: Arenas, run: seq<Ref>, r: Ref)
    requires IsText(r) && r.index < |arenas[Texts]| && r !in run
    ensures
      var g, have := Gathered(arenas, run), NewGroup(arenas);
      && have.index < |g[Groups]| && r.index < |g[Texts]|
      && Gathered(arenas, run + [r]) ==
           g[Texts := g[Texts][r.index := g[Texts][r.index].(parent := Some(have))]]
            [Groups := g[Groups][have.index := ListGroup(arenas, run + [r])]]
  {
    var g, have, more := Gathered(arenas, run), NewGroup(arenas), Gathered(arenas, run + [r]);
    assert r == At(Texts, r.index);
    assert more[Texts] == g[Texts][r.index := g[Texts][r.index].(parent := Some(have))];
    assert more[Groups] == g[Groups][have.index := ListGroup(arenas, run + [r])];
  }

  /** The run of list items that starts at `at` moves into a new group. */
  method GatherRun(doc: DocumentObject, isList: nat -> bool, at: nat) returns (end: nat)
    requires at < |doc.body| && InBody(doc.arenas, isList, doc.body[at]) && Distinct(doc.body)
    modifies doc`arenas
    ensures at < end <= |doc.body| && doc.arenas == Gathered(old(doc.arenas), doc.body[at..end])
    ensures forall k :: at <= k < end ==> InBody(old(doc.arenas), isList, doc.body[k])
    ensures end < |doc.body| ==> !InBody(old(doc.arenas), isList, doc.body[end])
  {
    ghost var was := doc.arenas;
    var group := NewGroup(doc.arenas);
    NothingGathered(was);
    doc.arenas := doc.arenas[Groups := doc.arenas[Groups] + [ListGroup(doc.arenas, [])]];
    end := at;
    assert doc.body[at..at] == [];
    while end < |doc.body|
      invariant at <= end <= |doc.body| && doc.arenas == Gathered(was, doc.body[at..end])
      invariant forall k :: at <= k < end ==> InBody(was, isList, doc.body[k])
    {
      var r := doc.body[end];
      assert r !in doc.body[at..end];
      GatheredInBody(was, isList, doc.body[at..end], r);
      if !InBody(doc.arenas, isList, r) { break; }
      GatherOne(was, doc.body[at..end], r);
      assert doc.body[at..end + 1] == doc.body[at..end] + [r];
      hide Gathered;
      var item := doc.arenas[Groups][group.index];
      assert item == ListGroup(was, doc.body[at..end]) by { GroupGathered(was, doc.body[at..end]); }
      doc.arenas := doc.arenas[Texts := doc.arenas[Texts][r.index := doc.arenas[Texts][r.index].(parent := Some(group))]]
                              [Groups := doc.arenas[Groups][group.index := item.(children := item.children + [r])]];
      end := end + 1;
    }
  }

  /** Between two runs: the document with the children walked so far and those still to come is well-formed,
      reads the same through its groups, and holds no more list items among the children walked. */
  ghost predicate Grouping(was: Document, isList: nat -> bool, arenas: Arenas, children: seq<Ref>, at: nat) {
    && at <= |was.body|
    && WellFormed(Walking(arenas, children, was.body, at, was.furniture))
    && Flatten(Walking(arenas, children, was.body, at, was.furniture), children + was.body[at..]) == Flatten(was, was.body)
    && NoneInBody(arenas, isList, children)
  }

  lemma GroupingSkips(was: Document, isList: nat -> bool, arenas: Arenas, children: seq<Ref>, at: nat)
    requires Grouping(was, isList, arenas, children, at) && at < |was.body| && !InBody(arenas, isList, was.body[at])
    ensures Grouping(was, isList, arenas, children + [was.body[at]], at + 1)
  {
    hide InBody;
    assert children + [was.body[at]] + was.body[at + 1..] == children + was.body[at..];
  }

  lemma GroupingWraps(was: Document, isList: nat -> bool, arenas: Arenas, children: seq<Ref>, at: nat, end: nat)
    requires Grouping(was, isList, arenas, children, at) && at < end <= |was.body|
    requires forall k :: at <= k < end ==> InBody(arenas, isList, was.body[k])
    ensures Grouping(was, isList, Gathered(arenas, was.body[at..end]), children + [NewGroup(arenas)], end)
  {
    var d := Walking(arenas, children, was.body, at, was.furniture);
    var from, to := |children|, |children| + (end - at);
    var run := was.body[at..end];
    assert d.body[from..to] == run && d.body[..from] == children && d.body[to..] == was.body[end..];
    assert forall k :: from <= k < to ==> d.body[k] == was.body[at + (k - from)];
    WrapKeepsWellFormed(d, isList, from, to);
    WrapKeepsContent(d, isList, from, to);
    forall r ensures InBody(Gathered(arenas, run), isList, r) ==> InBody(arenas, isList, r) {
      GatheredInBody(arenas, isList, run, r);
    }
    hide InBody, WellFormed, Flatten, Gathered;
    assert Wrap(d, from, to) == Walking(Gathered(arenas, run), children + [NewGroup(arenas)], was.body, end, was.furniture);
    NotInBody(Gathered(arenas, run), isList, arenas);
  }

  lemma NotInBody(gathered: Arenas, isList: nat -> bool, arenas: Arenas)
    ensures !InBody(gathered, isList, NewGroup(arenas))
  {
  }

  /** A group that was not there when the arenas held n groups. */
  predicate IsNew(r: Ref, n: nat) { r.At? && r.arena == Groups && r.index >= n }

  ghost predicate NoNewNeighbours(children: seq<Ref>, n: nat) {
    forall k :: 0 <= k < |children| - 1 ==> !(IsNew(children[k], n) && IsNew(children[k + 1], n))
  }

  /** Nothing but list items that the body listed is in a group made, and no such group is empty. */
  ghost predicate HoldsListItems(was: Document, isList: nat -> bool, arenas: Arenas) {
    forall g :: |was.arenas[Groups]| <= g < |arenas[Groups]| ==> IsListGroup(was, isList, arenas[Groups][g])
  }

  ghost predicate IsListGroup(was: Document, isList: nat -> bool, group: Item) {
    group.children != [] && forall c :: c in group.children ==> IsListItem(isList, c) && c in was.body
  }

  ghost predicate IsListItem(isList: nat -> bool, c: Ref) {
    c.At? && c.arena == Texts && isList(c.index)
  }

  lemma GatherHolds(was: Document, isList: nat -> bool, arenas: Arenas, at: nat, end: nat)
    requires HoldsListItems(was, isList, arenas) && at < end <= |was.body|
    requires forall k :: at <= k < end ==> InBody(arenas, isList, was.body[k])
    ensures HoldsListItems(was, isList, Gathered(arenas, was.body[at..end]))
  {
    var run := was.body[at..end];
    forall c | c in run ensures IsListItem(isList, c) && c in was.body {
      var k :| 0 <= k < |run| && run[k] == c;
      assert InBody(arenas, isList, was.body[at + k]);
    }
    GroupGathered(arenas, run);
  }

  /** A list item among the body's children is one that the body is the parent of. */
  lemma BareItems(d: Document, isList: nat -> bool)
    requires WellFormed(d) && NoneInBody(d.arenas, isList, d.body)
    ensures forall c :: c in d.body ==> !IsListItem(isList, c)
  {
    forall c | c in d.body ensures !IsListItem(isList, c) {
      assert c in ChildrenOf(d, Body);
      LinkedAt(d, Body, c);
      var k :| 0 <= k < |d.body| && d.body[k] == c;
      assert !InBody(d.arenas, isList, d.body[k]);
    }
  }

  lemma OldNotNew(d: Document, at: nat)
    requires WellFormed(d) && at < |d.body|
    ensures !IsNew(d.body[at], |d.arenas[Groups]|)
  {
    assert d.body[at] in ChildrenOf(d, Body);
    assert Resolves(d, d.body[at]);
  }

  /** Every maximal run of the body's own list items becomes one group in its place; the document stays
      well-formed, its body reads the same through the groups, none of its children is a bare list item, the groups
      made hold list items and nothing else, and no two of them stand side by side. */
  method GroupListItems(doc: DocumentObject, isList: nat -> bool) returns (made: nat)
    requires WellFormed(doc.Value())
    modifies doc
    ensures WellFormed(doc.Value())
    ensures Flatten(doc.Value(), doc.body) == old(Flatten(doc.Value(), doc.body))
    ensures forall c :: c in doc.body ==> !IsListItem(isList, c)
    ensures HoldsListItems(old(doc.Value()), isList, doc.arenas)
    ensures NoNewNeighbours(doc.body, |old(doc.arenas)[Groups]|)
    ensures made + |old(doc.arenas)[Groups]| == |doc.arenas[Groups]|
  {
    hide InBody, Gathered, WellFormed, Flatten, Grouping, HoldsListItems, IsListItem, NoneInBody;
    ghost var was := doc.Value();
    var children: seq<Ref> := [];
    made := 0;
    var at := 0;
    GroupingStarts(was, isList);
    NoGroupsMade(was, isList);
    while at < |doc.body|
      invariant at <= |doc.body| && doc.body == was.body && doc.furniture == was.furniture
      invariant Grouping(was, isList, doc.arenas, children, at) && HoldsListItems(was, isList, doc.arenas)
      invariant made + |was.arenas[Groups]| == |doc.arenas[Groups]| && NoNewNeighbours(children, |was.arenas[Groups]|)
      invariant children != [] && IsNew(children[|children| - 1], |was.arenas[Groups]|) && at < |doc.body| ==>
        !InBody(doc.arenas, isList, doc.body[at])
    {
      if !InBody(doc.arenas, isList, doc.body[at]) {
        GroupingSkips(was, isList, doc.arenas, children, at);
        OldNotNew(was, at);
        children := children + [doc.body[at]];
        at := at + 1;
        continue;
      }
      DistinctBody(was);
      var group, start := NewGroup(doc.arenas), at;
      ghost var arenas := doc.arenas;
      at := GatherRun(doc, isList, start);
      GroupingWraps(was, isList, arenas, children, start, at);
      GatherHolds(was, isList, arenas, start, at);
      GroupGathered(arenas, doc.body[start..at]);
      if at < |doc.body| { GatheredInBody(arenas, isList, doc.body[start..at], doc.body[at]); }
      children := children + [group];
      made := made + 1;
    }
    GroupingEnds(was, isList, doc.arenas, children);
    BareItems(Document(doc.arenas, children, was.furniture), isList);
    doc.body := children;
  }

  lemma NoGroupsMade(was: Document, isList: nat -> bool)
    ensures HoldsListItems(was, isList, was.arenas)
  {
  }

  lemma GroupingStarts(was: Document, isList: nat -> bool)
    requires WellFormed(was)
    ensures Grouping(was, isList, was.arenas, [], 0)
  {
    assert [] + was.body[0..] == was.body;
    assert Walking(was.arenas, [], was.body, 0, was.furniture) == was;
  }

  lemma GroupingEnds(was: Document, isList: nat -> bool, arenas: Arenas, children: seq<Ref>)
    requires Grouping(was, isList, arenas, children, |was.body|)
    ensures
      var d := Document(arenas, children, was.furniture);
      WellFormed(d) && Flatten(d, children) == Flatten(was, was.body) && NoneInBody(arenas, isList, children)
  {
    assert children + was.body[|was.body|..] == children;
  }

  lemma DistinctBody(d: Document)
    requires WellFormed(d)
    ensures Distinct(d.body)
  {
    assert Distinct(ChildrenOf(d, Body));
  }
}
