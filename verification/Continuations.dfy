/** Joining paragraphs split over pages and columns (src/document_repair.cpp). */
module Continuations {
  import opened Bytes
  import opened Documents
  import opened GroupSplit
  import opened Retirement
  import opened RetirementKeeps
  import opened RetirementOrder

  /** What the pass asks of items without changing the answer: which texts are prose, which body children are
      furniture to look past, when an item continues a head, how two texts join, and how many may. The head
      is asked about together with the items joined into it so far, itself first: it carries the places
      of all of them. */
  datatype Rules = Rules(prose: nat -> bool, furniture: Ref -> bool, continues: (Item, seq<Ref>, Item) -> bool,
                         join: (string, string) -> string, maximum: int)

  predicate IsProse(texts: seq<Item>, rules: Rules, r: Ref) {
    IsText(r) && r.index < |texts| && rules.prose(r.index)
  }

  /** The head takes the tail's text behind its own, and what else the tail refers to. */
  function Absorbing(head: Item, tail: Item, rules: Rules): Item {
    head.(content := rules.join(head.content, tail.content), links := head.links + tail.links)
  }

  // ----- What is collected.

  /** The items of a list that one survivor absorbs, in the list's order. */
  ghost function AbsorbedInto(refs: seq<Ref>, absorbedBy: map<Ref, Ref>, survivor: Ref): seq<Ref> {
    if refs == [] then []
    else
      var last := refs[|refs| - 1];
      AbsorbedInto(refs[..|refs| - 1], absorbedBy, survivor)
      + (if last in absorbedBy && absorbedBy[last] == survivor then [last] else [])
  }

  function TextAt(texts: seq<Item>, r: Ref): string {
    if IsText(r) && r.index < |texts| then texts[r.index].content else ""
  }

  /** A text with others joined behind it one after the other. */
  ghost function JoinedAll(join: (string, string) -> string, first: string, texts: seq<Item>, refs: seq<Ref>): string {
    if refs == [] then first
    else join(JoinedAll(join, first, texts, refs[..|refs| - 1]), TextAt(texts, refs[|refs| - 1]))
  }

  function LinksAt(texts: seq<Item>, r: Ref): seq<Ref> {
    if IsText(r) && r.index < |texts| then texts[r.index].links else []
  }

  /** Links with those of others behind them, one item after the other. */
  ghost function LinksAll(first: seq<Ref>, texts: seq<Item>, refs: seq<Ref>): seq<Ref> {
    if refs == [] then first
    else LinksAll(first, texts, refs[..|refs| - 1]) + LinksAt(texts, refs[|refs| - 1])
  }

  /** The item with the others joined into it in turn. */
  ghost predicate IsJoined(item: Item, join: (string, string) -> string, was: seq<Item>, i: nat, refs: seq<Ref>)
    requires i < |was|
  {
    item.content == JoinedAll(join, was[i].content, was, refs) && item.links == LinksAll(was[i].links, was, refs)
  }

  /** The texts differ only in content and links. */
  ghost predicate SameFrames(was: seq<Item>, texts: seq<Item>) {
    |texts| == |was| && forall i :: 0 <= i < |was| ==> texts[i].(content := was[i].content, links := was[i].links) == was[i]
  }

  /** Links an item has gained name nodes its text had. */
  ghost predicate LinksFrom(was: seq<Item>, texts: seq<Item>) {
    forall i, l :: 0 <= i < |texts| && l in texts[i].links ==> exists j :: 0 <= j < |was| && l in was[j].links
  }

  /** After the first n children: who absorbs whom, and every survivor's text. */
  ghost predicate Collected(d: Document, rules: Rules, n: nat, texts: seq<Item>, absorbedBy: map<Ref, Ref>)
    requires n <= |d.body|
  {
    && SameFrames(d.arenas[Texts], texts) && LinksFrom(d.arenas[Texts], texts)
    && ProseAbsorbed(d.body[..n], rules, texts, absorbedBy)
    && ContentsJoined(d.body[..n], rules, d.arenas[Texts], texts, absorbedBy)
    && RestKept(d.body[..n], d.arenas[Texts], texts)
  }

  ghost predicate ProseAbsorbed(walked: seq<Ref>, rules: Rules, texts: seq<Item>, absorbedBy: map<Ref, Ref>) {
    forall r :: r in absorbedBy ==>
      && r in walked && IsProse(texts, rules, r)
      && absorbedBy[r] in walked && IsProse(texts, rules, absorbedBy[r]) && absorbedBy[r] !in absorbedBy
  }

  ghost predicate ContentsJoined(walked: seq<Ref>, rules: Rules, was: seq<Item>, texts: seq<Item>, absorbedBy: map<Ref, Ref>)
    requires |texts| == |was|
  {
    forall i: nat :: i < |texts| && At(Texts, i) !in absorbedBy ==>
      IsJoined(texts[i], rules.join, was, i, AbsorbedInto(walked, absorbedBy, At(Texts, i)))
  }

  ghost predicate RestKept(walked: seq<Ref>, was: seq<Item>, texts: seq<Item>)
    requires |texts| == |was|
  {
    forall i: nat :: i < |texts| && At(Texts, i) !in walked ==> texts[i] == was[i]
  }

  lemma {:induction false} AbsorbedIntoSame(refs: seq<Ref>, a: map<Ref, Ref>, b: map<Ref, Ref>, survivor: Ref)
    requires forall r :: r in refs ==> (r in a <==> r in b) && (r in a ==> a[r] == b[r])
    ensures AbsorbedInto(refs, a, survivor) == AbsorbedInto(refs, b, survivor)
  {
    if refs != [] { AbsorbedIntoSame(refs[..|refs| - 1], a, b, survivor); }
  }

  lemma AbsorbedIntoNext(body: seq<Ref>, n: nat, absorbedBy: map<Ref, Ref>, survivor: Ref)
    requires n < |body|
    ensures AbsorbedInto(body[..n + 1], absorbedBy, survivor)
         == AbsorbedInto(body[..n], absorbedBy, survivor) + (if body[n] in absorbedBy && absorbedBy[body[n]] == survivor then [body[n]] else [])
  {
    assert body[..n + 1][..n] == body[..n];
  }

  lemma NotBefore(d: Document, n: nat)
    requires WellFormed(d) && n < |d.body|
    ensures d.body[n] !in d.body[..n] && d.body[..n + 1] == d.body[..n] + [d.body[n]]
  {
    assert Distinct(ChildrenOf(d, Body));
  }

  lemma CollectSkip(d: Document, rules: Rules, n: nat, texts: seq<Item>, absorbedBy: map<Ref, Ref>)
    requires WellFormed(d) && n < |d.body| && Collected(d, rules, n, texts, absorbedBy)
    ensures Collected(d, rules, n + 1, texts, absorbedBy)
  {
    hide WellFormed, SameFrames, LinksFrom, IsJoined, AbsorbedInto, IsProse;
    NotBefore(d, n);
    assert d.body[n] !in absorbedBy;
    forall i: nat | i < |texts| && At(Texts, i) !in absorbedBy
      ensures AbsorbedInto(d.body[..n + 1], absorbedBy, At(Texts, i)) == AbsorbedInto(d.body[..n], absorbedBy, At(Texts, i))
    {
      AbsorbedIntoNext(d.body, n, absorbedBy, At(Texts, i));
      assert AbsorbedInto(d.body[..n], absorbedBy, At(Texts, i)) + [] == AbsorbedInto(d.body[..n], absorbedBy, At(Texts, i));
    }
  }

  /** The survivor an item can be absorbed into while the first n children are walked. */
  ghost predicate IsAnchor(d: Document, rules: Rules, n: nat, texts: seq<Item>, absorbedBy: map<Ref, Ref>, a: Ref)
    requires n <= |d.body|
  {
    a in d.body[..n] && IsProse(texts, rules, a) && a !in absorbedBy
  }

  lemma AbsorbedFrames(was: seq<Item>, texts: seq<Item>, rules: Rules, a: nat, r: nat)
    requires SameFrames(was, texts) && LinksFrom(was, texts) && a < |texts| && r < |texts|
    ensures SameFrames(was, texts[a := Absorbing(texts[a], texts[r], rules)]) && LinksFrom(was, texts[a := Absorbing(texts[a], texts[r], rules)])
  {
    var next := texts[a := Absorbing(texts[a], texts[r], rules)];
    forall i, l | 0 <= i < |next| && l in next[i].links ensures exists j :: 0 <= j < |was| && l in was[j].links {
      assert l in texts[i].links || l in texts[r].links;
    }
  }

  lemma AbsorbedLists(d: Document, n: nat, absorbedBy: map<Ref, Ref>, a: Ref, s: Ref)
    requires WellFormed(d) && n < |d.body| && d.body[n] !in absorbedBy
    ensures AbsorbedInto(d.body[..n + 1], absorbedBy[d.body[n] := a], s)
         == AbsorbedInto(d.body[..n], absorbedBy, s) + (if s == a then [d.body[n]] else [])
  {
    var more := absorbedBy[d.body[n] := a];
    NotBefore(d, n);
    hide WellFormed;
    AbsorbedIntoNext(d.body, n, more, s);
    AbsorbedIntoSame(d.body[..n], more, absorbedBy, s);
  }

  lemma AbsorbContent(d: Document, rules: Rules, n: nat, texts: seq<Item>, absorbedBy: map<Ref, Ref>, a: Ref, i: nat)
    requires WellFormed(d) && n < |d.body| && Collected(d, rules, n, texts, absorbedBy) && d.body[n] !in absorbedBy
    requires IsAnchor(d, rules, n, texts, absorbedBy, a) && IsProse(texts, rules, d.body[n])
    requires i < |texts| && At(Texts, i) !in absorbedBy && At(Texts, i) != d.body[n]
    ensures IsJoined(texts[a.index := Absorbing(texts[a.index], texts[d.body[n].index], rules)][i], rules.join, d.arenas[Texts], i,
                     AbsorbedInto(d.body[..n + 1], absorbedBy[d.body[n] := a], At(Texts, i)))
  {
    var r := d.body[n];
    NotBefore(d, n);
    AbsorbedLists(d, n, absorbedBy, a, At(Texts, i));
    assert r == At(Texts, r.index) && a == At(Texts, a.index);
    hide WellFormed, SameFrames, LinksFrom, AbsorbedInto;
    var before := AbsorbedInto(d.body[..n], absorbedBy, At(Texts, i));
    if i == a.index {
      assert (before + [r])[..|before|] == before;
      assert TextAt(d.arenas[Texts], r) == texts[r.index].content && LinksAt(d.arenas[Texts], r) == texts[r.index].links;
    } else {
      assert before + [] == before;
    }
  }

  lemma AbsorbProse(walked: seq<Ref>, rules: Rules, texts: seq<Item>, next: seq<Item>, absorbedBy: map<Ref, Ref>, r: Ref, a: Ref)
    requires ProseAbsorbed(walked, rules, texts, absorbedBy) && |next| == |texts| && r !in walked
    requires a in walked && a !in absorbedBy && IsProse(texts, rules, a) && IsProse(texts, rules, r)
    ensures ProseAbsorbed(walked + [r], rules, next, absorbedBy[r := a])
  {
    var more := absorbedBy[r := a];
    forall x | x in more
      ensures x in walked + [r] && IsProse(next, rules, x)
      ensures more[x] in walked + [r] && IsProse(next, rules, more[x]) && more[x] !in more
    {
      if x != r { assert x in absorbedBy && absorbedBy[x] in walked; }
    }
  }

  lemma AbsorbRest(walked: seq<Ref>, was: seq<Item>, texts: seq<Item>, item: Item, r: Ref, a: nat)
    requires |texts| == |was| && RestKept(walked, was, texts) && a < |texts| && At(Texts, a) in walked
    ensures RestKept(walked + [r], was, texts[a := item])
  {
  }

  lemma CollectAbsorb(d: Document, rules: Rules, n: nat, texts: seq<Item>, absorbedBy: map<Ref, Ref>, a: Ref)
    requires WellFormed(d) && n < |d.body| && Collected(d, rules, n, texts, absorbedBy)
    requires IsAnchor(d, rules, n, texts, absorbedBy, a) && IsProse(texts, rules, d.body[n])
    ensures Collected(d, rules, n + 1, texts[a.index := Absorbing(texts[a.index], texts[d.body[n].index], rules)], absorbedBy[d.body[n] := a])
  {
    var r, was := d.body[n], d.arenas[Texts];
    var item := Absorbing(texts[a.index], texts[r.index], rules);
    var next, more := texts[a.index := item], absorbedBy[r := a];
    hide WellFormed, SameFrames, LinksFrom, AbsorbedInto, IsJoined, Absorbing, RestKept;
    NotBefore(d, n);
    AbsorbedFrames(was, texts, rules, a.index, r.index);
    assert r !in absorbedBy && r == At(Texts, r.index) && a == At(Texts, a.index);
    forall i: nat | i < |next| && At(Texts, i) !in more
      ensures IsJoined(next[i], rules.join, was, i, AbsorbedInto(d.body[..n + 1], more, At(Texts, i)))
    {
      AbsorbContent(d, rules, n, texts, absorbedBy, a, i);
    }
    assert ContentsJoined(d.body[..n + 1], rules, was, next, more) by { assert |next| == |was|; }
    hide ContentsJoined, ProseAbsorbed;
    AbsorbProse(d.body[..n], rules, texts, next, absorbedBy, r, a);
    AbsorbRest(d.body[..n], was, texts, item, r, a.index);
  }

  // ----- Which items are absorbed.

  datatype State = State(texts: seq<Item>, absorbedBy: map<Ref, Ref>, anchor: Option<Ref>, parts: seq<Ref>)

  predicate Follows(s: State, rules: Rules, r: Ref) {
    && s.anchor.Some? && IsProse(s.texts, rules, s.anchor.value) && IsProse(s.texts, rules, r) && |s.absorbedBy| < rules.maximum
    && rules.continues(s.texts[s.anchor.value.index], s.parts, s.texts[r.index])
  }

  /** Child r: looked past as furniture, ending the paragraph as no prose, absorbed, or the new anchor. */
  function Next(s: State, rules: Rules, r: Ref): State {
    if rules.furniture(r) then s
    else if !IsProse(s.texts, rules, r) then s.(anchor := None, parts := [])
    else if Follows(s, rules, r) then
      var a := s.anchor.value;
      State(s.texts[a.index := Absorbing(s.texts[a.index], s.texts[r.index], rules)], s.absorbedBy[r := a], s.anchor, s.parts + [r])
    else s.(anchor := Some(r), parts := [r])
  }

  ghost function Walk(d: Document, rules: Rules, n: nat): State
    requires n <= |d.body|
  {
    if n == 0 then State(d.arenas[Texts], map[], None, []) else Next(Walk(d, rules, n - 1), rules, d.body[n - 1])
  }

  /** The walk's head is a child read before that was not absorbed, and what is joined into it is itself
      and the items it absorbed, in body order. */
  ghost predicate HeadCarries(seen: seq<Ref>, absorbedBy: map<Ref, Ref>, anchor: Option<Ref>, parts: seq<Ref>) {
    && (forall r :: r in absorbedBy ==> r in seen && absorbedBy[r] in seen)
    && (anchor.None? ==> parts == [])
    && (anchor.Some? ==> anchor.value in seen && anchor.value !in absorbedBy
                         && parts == [anchor.value] + AbsorbedInto(seen, absorbedBy, anchor.value))
  }

  lemma {:induction false} NoneAbsorbed(refs: seq<Ref>, absorbedBy: map<Ref, Ref>, survivor: Ref)
    requires forall r :: r in refs && r in absorbedBy ==> absorbedBy[r] != survivor
    ensures AbsorbedInto(refs, absorbedBy, survivor) == []
  {
    if refs != [] { NoneAbsorbed(refs[..|refs| - 1], absorbedBy, survivor); }
  }

  lemma CarriesOn(seen: seq<Ref>, absorbedBy: map<Ref, Ref>, anchor: Option<Ref>, parts: seq<Ref>, r: Ref)
    requires HeadCarries(seen, absorbedBy, anchor, parts) && r !in seen
    ensures HeadCarries(seen + [r], absorbedBy, anchor, parts)
    ensures HeadCarries(seen + [r], absorbedBy, None, [])
  {
    if anchor.Some? {
      assert (seen + [r])[..|seen|] == seen;
      assert AbsorbedInto(seen + [r], absorbedBy, anchor.value) == AbsorbedInto(seen, absorbedBy, anchor.value) + [];
    }
    hide AbsorbedInto;
  }

  lemma CarriesNew(seen: seq<Ref>, absorbedBy: map<Ref, Ref>, r: Ref)
    requires HeadCarries(seen, absorbedBy, None, []) && r !in seen
    ensures HeadCarries(seen + [r], absorbedBy, Some(r), [r])
  {
    NoneAbsorbed(seen + [r], absorbedBy, r);
    hide AbsorbedInto;
  }

  lemma CarriesMore(seen: seq<Ref>, absorbedBy: map<Ref, Ref>, a: Ref, parts: seq<Ref>, r: Ref)
    requires HeadCarries(seen, absorbedBy, Some(a), parts) && r !in seen
    ensures HeadCarries(seen + [r], absorbedBy[r := a], Some(a), parts + [r])
  {
    var more := absorbedBy[r := a];
    assert (seen + [r])[..|seen|] == seen;
    assert AbsorbedInto(seen + [r], more, a) == AbsorbedInto(seen, more, a) + [r];
    AbsorbedIntoSame(seen, more, absorbedBy, a);
    hide AbsorbedInto;
    assert [a] + AbsorbedInto(seen, absorbedBy, a) + [r] == [a] + (AbsorbedInto(seen, absorbedBy, a) + [r]);
  }

  lemma {:induction false} WalkCarries(d: Document, rules: Rules, n: nat)
    requires WellFormed(d) && n <= |d.body|
    ensures
      var s := Walk(d, rules, n);
      HeadCarries(d.body[..n], s.absorbedBy, s.anchor, s.parts)
  {
    hide IsProse, Follows, Absorbing, AbsorbedInto;
    if n > 0 {
      WalkCarries(d, rules, n - 1);
      NotBefore(d, n - 1);
      var s, seen, r := Walk(d, rules, n - 1), d.body[..n - 1], d.body[n - 1];
      hide WellFormed, HeadCarries;
      CarriesOn(seen, s.absorbedBy, s.anchor, s.parts, r);
      NoHead(seen, s.absorbedBy, s.anchor, s.parts);
      CarriesNew(seen, s.absorbedBy, r);
      FollowsHead(s, rules, r);
      if s.anchor.Some? { CarriesMore(seen, s.absorbedBy, s.anchor.value, s.parts, r); }
    }
  }

  lemma NoHead(seen: seq<Ref>, absorbedBy: map<Ref, Ref>, anchor: Option<Ref>, parts: seq<Ref>)
    requires HeadCarries(seen, absorbedBy, anchor, parts)
    ensures HeadCarries(seen, absorbedBy, None, [])
  {
    hide AbsorbedInto;
  }

  lemma FollowsHead(s: State, rules: Rules, r: Ref)
    ensures Follows(s, rules, r) ==> s.anchor.Some?
  {
  }

  // ----- What is collected can be retired.

  ghost function WithTexts(d: Document, texts: seq<Item>): Document {
    d.(arenas := d.arenas[Texts := texts])
  }

  lemma FramesKeep(d: Document, texts: seq<Item>, r: Ref)
    requires SameFrames(d.arenas[Texts], texts)
    ensures Resolves(WithTexts(d, texts), r) <==> Resolves(d, r)
    ensures Resolves(d, r) ==>
        var e, f := ItemAt(d, r), ItemAt(WithTexts(d, texts), r);
        f.selfRef == e.selfRef && f.parent == e.parent && f.children == e.children
    ensures ChildrenOf(WithTexts(d, texts), r) == ChildrenOf(d, r)
  {
    assert WithTexts(d, texts).arenas[Texts] == texts;
    if Resolves(d, r) && r.arena == Texts {
      var i := r.index;
      assert texts[i].(content := d.arenas[Texts][i].content, links := d.arenas[Texts][i].links) == d.arenas[Texts][i];
    }
  }

  lemma FramesKeepWellFormed(d: Document, texts: seq<Item>)
    requires WellFormed(d) && SameFrames(d.arenas[Texts], texts) && LinksFrom(d.arenas[Texts], texts)
    ensures WellFormed(WithTexts(d, texts))
  {
    var e := WithTexts(d, texts);
    forall r: Ref, l | Resolves(e, r) && l in ItemAt(e, r).links ensures IsNode(d, l) {
      FramesKeep(d, texts, r);
      if r.arena == Texts {
        var j :| 0 <= j < |d.arenas[Texts]| && l in d.arenas[Texts][j].links;
        assert Resolves(d, At(Texts, j)) && l in ItemAt(d, At(Texts, j)).links;
      } else {
        assert l in ItemAt(d, r).links;
      }
    }
    hide LinksFrom, SameFrames, WithTexts;
    forall r: Ref
      ensures Resolves(e, r) <==> Resolves(d, r)
      ensures IsNode(e, r) <==> IsNode(d, r)
      ensures ChildrenOf(e, r) == ChildrenOf(d, r)
      ensures Resolves(d, r) ==> ItemAt(e, r).selfRef == ItemAt(d, r).selfRef && ItemAt(e, r).parent == ItemAt(d, r).parent
    {
      FramesKeep(d, texts, r);
    }
    assert Named(e);
    assert Closed(e) by {
      forall node, c: Ref | c in ChildrenOf(e, node) ensures Resolves(e, c) { assert c in ChildrenOf(d, node); }
    }
    assert TwoSided(e) by {
      forall node, c: Ref | Resolves(e, c) ensures c in ChildrenOf(e, node) <==> ItemAt(e, c).parent == Some(node) {
        assert c in ChildrenOf(d, node) <==> ItemAt(d, c).parent == Some(node);
      }
    }
    assert ListedOnce(e) by {
      forall node: Ref ensures Distinct(ChildrenOf(e, node)) { assert Distinct(ChildrenOf(d, node)); }
    }
  }

  /** Every absorption collected is one of direct body children by direct body children that stay. */
  lemma CollectedAbsorption(d: Document, rules: Rules, texts: seq<Item>, absorbedBy: map<Ref, Ref>)
    requires WellFormed(d) && Collected(d, rules, |d.body|, texts, absorbedBy)
    ensures Absorption(WithTexts(d, texts), absorbedBy)
  {
    var e := WithTexts(d, texts);
    assert d.body[..|d.body|] == d.body;
    forall r: Ref | r in absorbedBy
      ensures Resolves(e, r) && r.arena == Texts && Resolves(e, absorbedBy[r]) && absorbedBy[r].arena == Texts && absorbedBy[r] !in absorbedBy
      ensures ItemAt(e, r).parent == Some(Body)
    {
      FramesKeep(d, texts, r);
      assert r in ChildrenOf(d, Body);
    }
    assert Body !in absorbedBy;
    hide Collected, WithTexts, WellFormed;
  }

  // ----- The program.

  /** Where the program stands after the first n children. */
  ghost predicate Walked(d: Document, rules: Rules, n: nat, s: State, order: seq<Ref>)
    requires n <= |d.body|
  {
    && s == Walk(d, rules, n) && Collected(d, rules, n, s.texts, s.absorbedBy)
    && IsOrder(order, s.absorbedBy) && |order| == |s.absorbedBy| && |order| <= Max(0, rules.maximum)
    && (s.anchor.Some? ==> IsAnchor(d, rules, n, s.texts, s.absorbedBy, s.anchor.value))
  }

  lemma WalkedStart(d: Document, rules: Rules)
    ensures Walked(d, rules, 0, State(d.arenas[Texts], map[], None, []), [])
  {
    NothingCollected(d, rules);
    hide Collected;
  }

  /** A child that is not absorbed: looked past, ending the paragraph or the next head. */
  lemma WalkedOn(d: Document, rules: Rules, n: nat, s: State, order: seq<Ref>)
    requires WellFormed(d) && n < |d.body| && Walked(d, rules, n, s, order) && (Follows(s, rules, d.body[n]) ==> rules.furniture(d.body[n]))
    ensures Walked(d, rules, n + 1, Next(s, rules, d.body[n]), order)
  {
    hide Collected, WellFormed, Absorbing, IsOrder, IsProse;
    CollectSkip(d, rules, n, s.texts, s.absorbedBy);
    AnchorStays(d, rules, n, s.texts, s.absorbedBy, s.anchor);
    ChildNotAbsorbed(d, rules, n, s.texts, s.absorbedBy);
  }

  lemma WalkedJoin(d: Document, rules: Rules, n: nat, s: State, order: seq<Ref>)
    requires WellFormed(d) && n < |d.body| && Walked(d, rules, n, s, order) && Follows(s, rules, d.body[n]) && !rules.furniture(d.body[n])
    ensures Walked(d, rules, n + 1, Next(s, rules, d.body[n]), order + [d.body[n]])
  {
    hide Collected, WellFormed, Absorbing, IsProse;
    CollectAbsorb(d, rules, n, s.texts, s.absorbedBy, s.anchor.value);
    AnchorAbsorbs(d, rules, n, s.texts, s.absorbedBy, s.anchor.value);
    ChildNotAbsorbed(d, rules, n, s.texts, s.absorbedBy);
  }

  lemma WalkedFacts(d: Document, rules: Rules, n: nat, s: State, order: seq<Ref>)
    requires n <= |d.body| && Walked(d, rules, n, s, order)
    ensures |order| == |s.absorbedBy|
    ensures s.anchor.Some? ==> IsProse(s.texts, rules, s.anchor.value) && s.anchor.value.At? && s.anchor.value.index < |s.texts|
  {
    hide Collected, Walk;
  }

  method CollectContinuations(doc: DocumentObject, rules: Rules) returns (absorbedBy: map<Ref, Ref>, order: seq<Ref>)
    requires WellFormed(doc.Value())
    modifies doc`arenas
    ensures Collected(old(doc.Value()), rules, |doc.body|, doc.arenas[Texts], absorbedBy)
    ensures absorbedBy == Walk(old(doc.Value()), rules, |doc.body|).absorbedBy
    ensures doc.Value() == WithTexts(old(doc.Value()), doc.arenas[Texts])
    ensures IsOrder(order, absorbedBy) && |order| == |absorbedBy| && |order| <= Max(0, rules.maximum)
  {
    hide Walked, WellFormed, Absorbing, Walk, Collected, IsOrder;
    ghost var d := doc.Value();
    absorbedBy, order := map[], [];
    var anchor: Option<Ref>, parts: seq<Ref> := None, [];
    WalkedStart(d, rules);
    for index: nat := 0 to |doc.body|
      invariant doc.Value() == WithTexts(d, doc.arenas[Texts])
      invariant Walked(d, rules, index, State(doc.arenas[Texts], absorbedBy, anchor, parts), order)
    {
      var r, texts := doc.body[index], doc.arenas[Texts];
      ghost var s := State(texts, absorbedBy, anchor, parts);
      WalkedFacts(d, rules, index, s, order);
      if rules.furniture(r) {
        WalkedOn(d, rules, index, s, order);
        continue;
      }
      if !IsProse(texts, rules, r) {
        WalkedOn(d, rules, index, s, order);
        anchor, parts := None, [];
        continue;
      }
      if anchor.Some? && |order| < rules.maximum && rules.continues(texts[anchor.value.index], parts, texts[r.index]) {
        WalkedJoin(d, rules, index, s, order);
        doc.arenas := doc.arenas[Texts := texts[anchor.value.index := Absorbing(texts[anchor.value.index], texts[r.index], rules)]];
        absorbedBy := absorbedBy[r := anchor.value];
        order, parts := order + [r], parts + [r];
        continue;
      }
      WalkedOn(d, rules, index, s, order);
      anchor, parts := Some(r), [r];
    }
    WalkedDone(d, rules, State(doc.arenas[Texts], absorbedBy, anchor, parts), order);
  }

  lemma WalkedDone(d: Document, rules: Rules, s: State, order: seq<Ref>)
    requires Walked(d, rules, |d.body|, s, order)
    ensures Collected(d, rules, |d.body|, s.texts, s.absorbedBy) && s == Walk(d, rules, |d.body|)
    ensures IsOrder(order, s.absorbedBy) && |order| == |s.absorbedBy| && |order| <= Max(0, rules.maximum)
  {
    hide Collected, Walk, IsOrder;
  }

  lemma NothingCollected(d: Document, rules: Rules)
    ensures Collected(d, rules, 0, d.arenas[Texts], map[])
  {
  }

  lemma ChildNotAbsorbed(d: Document, rules: Rules, n: nat, texts: seq<Item>, absorbedBy: map<Ref, Ref>)
    requires WellFormed(d) && n < |d.body| && Collected(d, rules, n, texts, absorbedBy)
    ensures d.body[n] !in absorbedBy && d.body[n] in d.body[..n + 1]
  {
    NotBefore(d, n);
    hide WellFormed;
  }

  lemma AnchorStays(d: Document, rules: Rules, n: nat, texts: seq<Item>, absorbedBy: map<Ref, Ref>, anchor: Option<Ref>)
    requires n < |d.body| && (anchor.Some? ==> IsAnchor(d, rules, n, texts, absorbedBy, anchor.value))
    ensures anchor.Some? ==> IsAnchor(d, rules, n + 1, texts, absorbedBy, anchor.value)
  {
    assert d.body[..n + 1] == d.body[..n] + [d.body[n]];
  }

  lemma AnchorAbsorbs(d: Document, rules: Rules, n: nat, texts: seq<Item>, absorbedBy: map<Ref, Ref>, a: Ref)
    requires WellFormed(d) && n < |d.body| && IsAnchor(d, rules, n, texts, absorbedBy, a) && IsProse(texts, rules, d.body[n])
    ensures IsAnchor(d, rules, n + 1, texts[a.index := Absorbing(texts[a.index], texts[d.body[n].index], rules)], absorbedBy[d.body[n] := a], a)
  {
    NotBefore(d, n);
    hide WellFormed;
  }

  lemma {:induction false} NoneRetired(n: nat)
    ensures Stay(map[], n) == n
  {
    if n > 0 { NoneRetired(n - 1); }
  }

  /** Afterwards the document is well-formed; every text that stays carries its own text with those of the
      items it absorbed joined behind it in body order; and as many texts are gone as were absorbed. */
  method MergeContinuations(doc: DocumentObject, rules: Rules) returns (merges: nat, ghost absorbedBy: map<Ref, Ref>)
    requires WellFormed(doc.Value())
    modifies doc
    ensures absorbedBy == Walk(old(doc.Value()), rules, |old(doc.body)|).absorbedBy
    ensures Outcome(old(doc.Value()), doc.Value(), rules, absorbedBy) && merges == |absorbedBy| && merges <= Max(0, rules.maximum)
  {
    ghost var d := doc.Value();
    var absorbed, order := CollectContinuations(doc, rules);
    absorbedBy := absorbed;
    merges := |absorbed|;
    ghost var texts := doc.arenas[Texts];
    MergeOutcome(d, rules, texts, absorbed, order);
    hide Collected, WellFormed, Retire, Stay, Outcome, WithTexts;
    if merges > 0 { RetireTextItems(doc, absorbed, order); } else { assert absorbed == map[]; }
  }

  ghost predicate MergedAt(d: Document, e: Document, rules: Rules, absorbedBy: map<Ref, Ref>, i: nat)
    requires i < |d.arenas[Texts]|
  {
    var slot, refs := Slot(absorbedBy, At(Texts, i)), AbsorbedInto(d.body, absorbedBy, At(Texts, i));
    && Resolves(e, slot)
    && ItemAt(e, slot).content == JoinedAll(rules.join, d.arenas[Texts][i].content, d.arenas[Texts], refs)
    && ItemAt(e, slot).links == NewRefs(absorbedBy, LinksAll(d.arenas[Texts][i].links, d.arenas[Texts], refs))
  }

  ghost predicate Outcome(d: Document, e: Document, rules: Rules, absorbedBy: map<Ref, Ref>) {
    && WellFormed(e) && |e.arenas[Texts]| == Stay(absorbedBy, |d.arenas[Texts]|) && BodyKept(d, e, absorbedBy)
    && forall i: nat :: i < |d.arenas[Texts]| && At(Texts, i) !in absorbedBy ==> MergedAt(d, e, rules, absorbedBy, i)
  }

  lemma MergeOutcome(d: Document, rules: Rules, texts: seq<Item>, absorbedBy: map<Ref, Ref>, order: seq<Ref>)
    requires WellFormed(d) && Collected(d, rules, |d.body|, texts, absorbedBy) && IsOrder(order, absorbedBy)
    ensures Outcome(d, Retire(WithTexts(d, texts), absorbedBy, order), rules, absorbedBy)
    ensures absorbedBy == map[] ==> Outcome(d, WithTexts(d, texts), rules, absorbedBy)
  {
    hide BodyKept, WellFormed, Retire, Stay, Absorption, Collected, MergedAt, IsOrder;
    var mid := WithTexts(d, texts);
    var e := Retire(mid, absorbedBy, order);
    CollectedParts(d, rules, texts, absorbedBy);
    FramesKeepWellFormed(d, texts);
    CollectedAbsorption(d, rules, texts, absorbedBy);
    RetireKeepsWellFormed(mid, absorbedBy, order);
    RetiredSizes(mid, absorbedBy, order);
    RetiredBody(mid, absorbedBy, order);
    SameBody(d, mid, e, absorbedBy);
    forall i: nat | i < |texts| && At(Texts, i) !in absorbedBy ensures MergedAt(d, e, rules, absorbedBy, i) {
      MergedItem(d, rules, texts, absorbedBy, order, i);
    }
    hide SameFrames, LinksFrom, WithTexts;
    if absorbedBy == map[] { NoMerge(d, rules, texts); }
  }

  lemma CollectedParts(d: Document, rules: Rules, texts: seq<Item>, absorbedBy: map<Ref, Ref>)
    requires Collected(d, rules, |d.body|, texts, absorbedBy)
    ensures SameFrames(d.arenas[Texts], texts) && LinksFrom(d.arenas[Texts], texts) && |texts| == |d.arenas[Texts]|
    ensures ContentsJoined(d.body, rules, d.arenas[Texts], texts, absorbedBy)
  {
    assert d.body[..|d.body|] == d.body;
    hide IsJoined, AbsorbedInto;
  }

  lemma MergedItem(d: Document, rules: Rules, texts: seq<Item>, absorbedBy: map<Ref, Ref>, order: seq<Ref>, i: nat)
    requires |texts| == |d.arenas[Texts]| && ContentsJoined(d.body, rules, d.arenas[Texts], texts, absorbedBy)
    requires WellFormed(WithTexts(d, texts)) && Absorption(WithTexts(d, texts), absorbedBy) && IsOrder(order, absorbedBy)
    requires i < |texts| && At(Texts, i) !in absorbedBy
    ensures MergedAt(d, Retire(WithTexts(d, texts), absorbedBy, order), rules, absorbedBy, i)
  {
    hide WellFormed, Retire, JoinedAll, LinksAll, AbsorbedInto, Stay, Absorption, NewRefs;
    RetiredItem(WithTexts(d, texts), absorbedBy, order, At(Texts, i));
  }

  lemma BodyUntouched(d: Document, e: Document)
    requires e.body == d.body
    ensures BodyKept(d, e, map[])
  {
    hide Precedes;
    forall q: Ref ensures Slot(map[], q) == q {
      if q.At? { NoneRetired(q.index); }
    }
  }

  lemma NoMerge(d: Document, rules: Rules, texts: seq<Item>)
    requires Collected(d, rules, |d.body|, texts, map[]) && WellFormed(WithTexts(d, texts))
    ensures Outcome(d, WithTexts(d, texts), rules, map[])
  {
    hide BodyKept, WellFormed, SameFrames, LinksFrom, Stay, Collected, ContentsJoined, MergedAt;
    CollectedParts(d, rules, texts, map[]);
    NoneRetired(|texts|);
    BodyUntouched(d, WithTexts(d, texts));
    forall i: nat | i < |texts| ensures MergedAt(d, WithTexts(d, texts), rules, map[], i) {
      UnmergedItem(d, rules, texts, i);
    }
  }

  lemma UnmergedItem(d: Document, rules: Rules, texts: seq<Item>, i: nat)
    requires |texts| == |d.arenas[Texts]| && ContentsJoined(d.body, rules, d.arenas[Texts], texts, map[]) && i < |texts|
    ensures MergedAt(d, WithTexts(d, texts), rules, map[], i)
  {
    hide JoinedAll, LinksAll, AbsorbedInto, Stay, NewRefs;
    NoneRetired(i);
    NoneRenamed(texts[i].links);
  }

  lemma NoneRenamed(refs: seq<Ref>)
    ensures NewRefs(map[], refs) == refs
  {
    forall k | 0 <= k < |refs| ensures NewRef(map[], refs[k]) == refs[k] {
      if refs[k].At? { NoneRetired(refs[k].index); }
    }
  }
}
