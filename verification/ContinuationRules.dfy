/** Which paragraphs continue which (src/document_repair.cpp), by their places in the body and by what each head has
    taken so far, without the walk that finds it out. */
module ContinuationRules {
  import opened Bytes
  import opened Documents
  import opened Continuations

  /** Position p holds the last child before n that is not furniture. */
  ghost predicate LastWritten(d: Document, rules: Rules, n: nat, p: nat) {
    p < n <= |d.body| && !rules.furniture(d.body[p]) && forall k :: p < k < n ==> rules.furniture(d.body[k])
  }

  /** The paragraph a text belongs to, by the text that starts it. */
  ghost function HeadOf(absorbedBy: map<Ref, Ref>, r: Ref): Ref {
    if r in absorbedBy then absorbedBy[r] else r
  }

  /** The children before n that are absorbed. */
  ghost function TakenBefore(d: Document, absorbedBy: map<Ref, Ref>, n: nat): set<Ref>
    requires n <= |d.body|
  {
    set r | r in d.body[..n] && r in absorbedBy
  }

  ghost predicate Prose(d: Document, rules: Rules, r: Ref) {
    IsProse(d.arenas[Texts], rules, r)
  }

  /** The item that starts a paragraph, with all it has taken of the first n children, is found to go on with r. */
  ghost predicate GoesOn(d: Document, rules: Rules, absorbedBy: map<Ref, Ref>, n: nat, head: Ref, item: Item, r: Ref)
    requires n <= |d.body| && IsText(head) && head.index < |d.arenas[Texts]| && IsText(r) && r.index < |d.arenas[Texts]|
  {
    var texts, taken := d.arenas[Texts], AbsorbedInto(d.body[..n], absorbedBy, head);
    && item == texts[head.index].(content := item.content, links := item.links)
    && IsJoined(item, rules.join, texts, head.index, taken)
    && rules.continues(item, [head] + taken, texts[r.index])
  }

  /** Child n is absorbed by `head`: both it and the last child before it that is not furniture are prose, `head`
      starts that one's paragraph, fewer than the maximum were absorbed before, and the paragraph goes on with it. */
  ghost predicate Continues(d: Document, rules: Rules, absorbedBy: map<Ref, Ref>, n: nat, p: nat, head: Ref, item: Item)
    requires n < |d.body|
  {
    && !rules.furniture(d.body[n]) && Prose(d, rules, d.body[n])
    && LastWritten(d, rules, n, p) && Prose(d, rules, d.body[p]) && head == HeadOf(absorbedBy, d.body[p])
    && IsText(head) && head.index < |d.arenas[Texts]|
    && |TakenBefore(d, absorbedBy, n)| < rules.maximum
    && GoesOn(d, rules, absorbedBy, n, head, item, d.body[n])
  }

  // ----- The walk, read back.

  /** The walk's absorptions so far are those of `all` among the children walked. */
  ghost predicate SoFar(d: Document, n: nat, part: map<Ref, Ref>, all: map<Ref, Ref>)
    requires n <= |d.body|
  {
    && (forall r :: r in part ==> r in d.body[..n] && r in all && all[r] == part[r])
    && (forall r :: r in d.body[..n] && r in all ==> r in part)
  }

  lemma {:induction false} WalkFits(d: Document, rules: Rules, n: nat, m: nat)
    requires WellFormed(d) && n <= m <= |d.body|
    ensures SoFar(d, n, Walk(d, rules, n).absorbedBy, Walk(d, rules, m).absorbedBy)
    decreases m
  {
    hide WellFormed, Walk, SoFar;
    if n == m {
      WalkKeys(d, rules, n);
      SoFarSelf(d, n, Walk(d, rules, n).absorbedBy);
    } else {
      WalkFits(d, rules, n, m - 1);
      NotBefore(d, m - 1);
      StepAdds(d, rules, m - 1);
      SoFarMore(d, n, m - 1, Walk(d, rules, n).absorbedBy, Walk(d, rules, m - 1).absorbedBy, Walk(d, rules, m).absorbedBy);
    }
  }

  lemma SoFarSelf(d: Document, n: nat, part: map<Ref, Ref>)
    requires n <= |d.body| && forall r :: r in part ==> r in d.body[..n]
    ensures SoFar(d, n, part, part)
  {
  }

  lemma SoFarMore(d: Document, n: nat, m: nat, part: map<Ref, Ref>, mid: map<Ref, Ref>, all: map<Ref, Ref>)
    requires n <= m < |d.body| && SoFar(d, n, part, mid) && d.body[m] !in d.body[..m]
    requires forall r :: r != d.body[m] ==> (r in all <==> r in mid) && (r in mid ==> all[r] == mid[r])
    ensures SoFar(d, n, part, all)
  {
    forall r | r in d.body[..n] ensures r != d.body[m] {
      var k :| 0 <= k < n && d.body[..n][k] == r;
      assert d.body[..m][k] == r;
    }
  }

  lemma StepAdds(d: Document, rules: Rules, n: nat)
    requires n < |d.body|
    ensures
      var was, now := Walk(d, rules, n).absorbedBy, Walk(d, rules, n + 1).absorbedBy;
      forall r :: r != d.body[n] ==> (r in now <==> r in was) && (r in was ==> now[r] == was[r])
  {
    hide Follows, IsProse, Absorbing;
  }

  lemma {:induction false} WalkKeys(d: Document, rules: Rules, n: nat)
    requires n <= |d.body|
    ensures forall r :: r in Walk(d, rules, n).absorbedBy ==> r in d.body[..n]
  {
    if n > 0 {
      WalkKeys(d, rules, n - 1);
      StepAdds(d, rules, n - 1);
      hide Walk;
      assert d.body[..n] == d.body[..n - 1] + [d.body[n - 1]];
    }
  }

  // ----- The head the walk holds.

  /** The head is the one of the last child that is not furniture, if that is prose. */
  ghost predicate HeadIs(d: Document, rules: Rules, n: nat, anchor: Option<Ref>, absorbedBy: map<Ref, Ref>) {
    && (forall p: nat :: LastWritten(d, rules, n, p) ==>
          if Prose(d, rules, d.body[p]) then anchor == Some(HeadOf(absorbedBy, d.body[p])) else anchor.None?)
    && ((forall p: nat :: !LastWritten(d, rules, n, p)) ==> anchor.None?)
  }

  lemma ProseSame(d: Document, rules: Rules, texts: seq<Item>, r: Ref)
    requires |texts| == |d.arenas[Texts]|
    ensures IsProse(texts, rules, r) <==> Prose(d, rules, r)
  {
  }

  lemma {:induction false} WalkLength(d: Document, rules: Rules, n: nat)
    requires n <= |d.body|
    ensures |Walk(d, rules, n).texts| == |d.arenas[Texts]|
  {
    hide Absorbing;
    if n > 0 { WalkLength(d, rules, n - 1); }
  }

  lemma LastNext(d: Document, rules: Rules, n: nat, p: nat)
    requires n < |d.body|
    ensures LastWritten(d, rules, n + 1, p) <==> if rules.furniture(d.body[n]) then LastWritten(d, rules, n, p) else p == n
  {
  }

  lemma {:induction false} WalkHead(d: Document, rules: Rules, n: nat)
    requires WellFormed(d) && n <= |d.body|
    ensures HeadIs(d, rules, n, Walk(d, rules, n).anchor, Walk(d, rules, n).absorbedBy)
  {
    hide WellFormed, Absorbing, Prose, IsProse;
    if n > 0 {
      WalkHead(d, rules, n - 1);
      WalkKeys(d, rules, n - 1);
      NotBefore(d, n - 1);
      HeadStep(d, rules, n - 1, Walk(d, rules, n - 1));
    } else {
      forall p: nat ensures !LastWritten(d, rules, 0, p) {}
    }
  }

  lemma HeadStep(d: Document, rules: Rules, n: nat, s: State)
    requires n < |d.body| && s == Walk(d, rules, n) && HeadIs(d, rules, n, s.anchor, s.absorbedBy)
    requires d.body[n] !in s.absorbedBy && d.body[n] !in d.body[..n]
    ensures HeadIs(d, rules, n + 1, Next(s, rules, d.body[n]).anchor, Next(s, rules, d.body[n]).absorbedBy)
  {
    hide Walk, Absorbing, Prose, IsProse, LastWritten, Follows, HeadIs;
    var r := d.body[n];
    WalkLength(d, rules, n);
    ProseSame(d, rules, s.texts, r);
    FollowsHead(s, rules, r);
    if rules.furniture(r) {
      HeadPasses(d, rules, n, s.anchor, s.absorbedBy);
    } else {
      var next := Next(s, rules, r);
      HeadOfLast(d, rules, n, next.anchor, next.absorbedBy);
    }
  }

  lemma HeadPasses(d: Document, rules: Rules, n: nat, anchor: Option<Ref>, absorbedBy: map<Ref, Ref>)
    requires n < |d.body| && rules.furniture(d.body[n]) && HeadIs(d, rules, n, anchor, absorbedBy)
    ensures HeadIs(d, rules, n + 1, anchor, absorbedBy)
  {
    hide Prose, LastWritten, HeadOf;
    var m := n + 1;
    forall p: nat ensures LastWritten(d, rules, m, p) <==> LastWritten(d, rules, n, p) { LastNext(d, rules, n, p); }
  }

  lemma HeadOfLast(d: Document, rules: Rules, n: nat, anchor: Option<Ref>, absorbedBy: map<Ref, Ref>)
    requires n < |d.body| && !rules.furniture(d.body[n])
    requires if Prose(d, rules, d.body[n]) then anchor == Some(HeadOf(absorbedBy, d.body[n])) else anchor.None?
    ensures HeadIs(d, rules, n + 1, anchor, absorbedBy)
  {
    hide Prose, LastWritten, HeadOf;
    LastNext(d, rules, n, n);
    var m := n + 1;
    forall p: nat ensures LastWritten(d, rules, m, p) ==> p == n { LastNext(d, rules, n, p); }
  }

  // ----- What the walk has joined.

  lemma {:induction false} WalkCollects(d: Document, rules: Rules, n: nat)
    requires WellFormed(d) && n <= |d.body|
    ensures exists order :: Walked(d, rules, n, Walk(d, rules, n), order)
  {
    hide WellFormed, Walked, Absorbing, IsProse;
    if n == 0 {
      WalkedStart(d, rules);
      assert Walked(d, rules, 0, Walk(d, rules, 0), []);
    } else {
      WalkCollects(d, rules, n - 1);
      var s, r := Walk(d, rules, n - 1), d.body[n - 1];
      var order :| Walked(d, rules, n - 1, s, order);
      hide Walk;
      if Follows(s, rules, r) && !rules.furniture(r) {
        WalkedJoin(d, rules, n - 1, s, order);
        assert Walked(d, rules, n, Next(s, rules, r), order + [r]);
      } else {
        WalkedOn(d, rules, n - 1, s, order);
        assert Walked(d, rules, n, Next(s, rules, r), order);
      }
      WalkNext(d, rules, n);
    }
  }

  lemma WalkNext(d: Document, rules: Rules, n: nat)
    requires 0 < n <= |d.body|
    ensures Walk(d, rules, n) == Next(Walk(d, rules, n - 1), rules, d.body[n - 1])
  {
    hide Next;
  }

  lemma WalkJoined(d: Document, rules: Rules, n: nat, head: Ref)
    requires WellFormed(d) && n <= |d.body| && IsText(head) && head.index < |d.arenas[Texts]|
    requires head !in Walk(d, rules, n).absorbedBy
    ensures
      var s := Walk(d, rules, n);
      && |s.texts| == |d.arenas[Texts]|
      && s.texts[head.index] == d.arenas[Texts][head.index].(content := s.texts[head.index].content, links := s.texts[head.index].links)
      && IsJoined(s.texts[head.index], rules.join, d.arenas[Texts], head.index, AbsorbedInto(d.body[..n], s.absorbedBy, head))
    ensures n < |d.body| && IsText(d.body[n]) && d.body[n].index < |d.arenas[Texts]| ==>
      Walk(d, rules, n).texts[d.body[n].index] == d.arenas[Texts][d.body[n].index]
  {
    WalkCollects(d, rules, n);
    hide Walk, IsJoined, AbsorbedInto, LinksFrom, ProseAbsorbed;
    assert head == At(Texts, head.index);
    if n < |d.body| && IsText(d.body[n]) {
      NotBefore(d, n);
      assert d.body[n] == At(Texts, d.body[n].index);
    }
    hide WellFormed;
  }

  lemma TakenIsKeys(d: Document, n: nat, part: map<Ref, Ref>, all: map<Ref, Ref>)
    requires n <= |d.body| && SoFar(d, n, part, all)
    ensures TakenBefore(d, all, n) == part.Keys && |TakenBefore(d, all, n)| == |part|
  {
    assert TakenBefore(d, all, n) == part.Keys;
  }

  lemma SoFarInto(d: Document, n: nat, part: map<Ref, Ref>, all: map<Ref, Ref>, head: Ref)
    requires n <= |d.body| && SoFar(d, n, part, all)
    ensures AbsorbedInto(d.body[..n], part, head) == AbsorbedInto(d.body[..n], all, head)
  {
    AbsorbedIntoSame(d.body[..n], part, all, head);
  }

  lemma ProseText(d: Document, rules: Rules, r: Ref)
    requires Prose(d, rules, r)
    ensures IsText(r) && r.index < |d.arenas[Texts]|
  {
  }

  /** Where the walk absorbs child n, the rule holds; where the rule holds, it does. */
  lemma FollowsContinues(d: Document, rules: Rules, all: map<Ref, Ref>, n: nat)
    requires WellFormed(d) && n < |d.body| && SoFar(d, n, Walk(d, rules, n).absorbedBy, all)
    requires Follows(Walk(d, rules, n), rules, d.body[n]) && !rules.furniture(d.body[n])
    ensures Walk(d, rules, n).anchor.Some?
    ensures exists p: nat, item :: Continues(d, rules, all, n, p, Walk(d, rules, n).anchor.value, item)
  {
    hide WellFormed, Walk, IsProse, SoFar, HeadIs, LastWritten, HeadOf, TakenBefore, Prose, IsJoined, AbsorbedInto;
    var s, r := Walk(d, rules, n), d.body[n];
    var head := s.anchor.value;
    WalkHead(d, rules, n);
    WalkLength(d, rules, n);
    HeadStays(d, rules, n, s);
    ProseSame(d, rules, s.texts, r);
    ProseSame(d, rules, s.texts, head);
    ProseText(d, rules, r);
    ProseText(d, rules, head);
    TakenIsKeys(d, n, s.absorbedBy, all);
    var p := HeadPlace(d, rules, n, s.anchor, s.absorbedBy, all);
    HeldItem(d, rules, n, all, head);
    assert GoesOn(d, rules, all, n, head, s.texts[head.index], r);
    hide GoesOn;
    assert |TakenBefore(d, all, n)| < rules.maximum;
    assert Continues(d, rules, all, n, p, head, s.texts[head.index]);
  }

  lemma ContinuesFollows(d: Document, rules: Rules, all: map<Ref, Ref>, n: nat, p: nat, head: Ref, item: Item)
    requires WellFormed(d) && n < |d.body| && SoFar(d, n, Walk(d, rules, n).absorbedBy, all)
    requires Continues(d, rules, all, n, p, head, item)
    ensures
      var s, r := Walk(d, rules, n), d.body[n];
      s.anchor == Some(head) && Follows(s, rules, r) && !rules.furniture(r)
  {
    hide WellFormed, Walk, IsProse, SoFar, HeadIs, LastWritten, HeadOf, TakenBefore, Prose, IsJoined, AbsorbedInto, GoesOn;
    var s, r := Walk(d, rules, n), d.body[n];
    WalkHead(d, rules, n);
    WalkLength(d, rules, n);
    HeadStays(d, rules, n, s);
    HeadFound(d, rules, n, p, s.anchor, s.absorbedBy, all);
    ProseSame(d, rules, s.texts, r);
    ProseSame(d, rules, s.texts, head);
    ProseText(d, rules, r);
    ProseText(d, rules, head);
    TakenIsKeys(d, n, s.absorbedBy, all);
    HeldItem(d, rules, n, all, head);
    GoesOnOnce(d, rules, all, n, head, item, s.texts[head.index], r);
    assert |s.absorbedBy| == |TakenBefore(d, all, n)|;
  }

  lemma HeadStays(d: Document, rules: Rules, n: nat, s: State)
    requires WellFormed(d) && n <= |d.body| && s == Walk(d, rules, n)
    ensures s.anchor.Some? ==> s.anchor.value !in s.absorbedBy && IsProse(s.texts, rules, s.anchor.value)
  {
    WalkCollects(d, rules, n);
    hide WellFormed, Walk, Collected, IsProse;
  }

  lemma HeadPlace(d: Document, rules: Rules, n: nat, anchor: Option<Ref>, part: map<Ref, Ref>, all: map<Ref, Ref>) returns (p: nat)
    requires n <= |d.body| && HeadIs(d, rules, n, anchor, part) && anchor.Some? && SoFar(d, n, part, all)
    ensures LastWritten(d, rules, n, p) && Prose(d, rules, d.body[p]) && HeadOf(all, d.body[p]) == anchor.value
  {
    hide Prose;
    p :| LastWritten(d, rules, n, p);
    assert d.body[..n][p] == d.body[p];
  }

  lemma HeadFound(d: Document, rules: Rules, n: nat, p: nat, anchor: Option<Ref>, part: map<Ref, Ref>, all: map<Ref, Ref>)
    requires n <= |d.body| && HeadIs(d, rules, n, anchor, part) && SoFar(d, n, part, all)
    requires LastWritten(d, rules, n, p) && Prose(d, rules, d.body[p])
    ensures anchor == Some(HeadOf(all, d.body[p]))
  {
    hide Prose;
    assert d.body[..n][p] == d.body[p];
  }

  /** The head as the walk holds it is the one that has taken what it absorbed so far. */
  lemma HeldItem(d: Document, rules: Rules, n: nat, all: map<Ref, Ref>, head: Ref)
    requires WellFormed(d) && n < |d.body| && Prose(d, rules, d.body[n]) && Prose(d, rules, head)
    requires Walk(d, rules, n).anchor == Some(head) && head !in Walk(d, rules, n).absorbedBy
    requires SoFar(d, n, Walk(d, rules, n).absorbedBy, all)
    ensures
      var s, texts := Walk(d, rules, n), d.arenas[Texts];
      && |s.texts| == |texts| && s.texts[d.body[n].index] == texts[d.body[n].index]
      && s.parts == [head] + AbsorbedInto(d.body[..n], all, head)
      && s.texts[head.index] == texts[head.index].(content := s.texts[head.index].content, links := s.texts[head.index].links)
      && IsJoined(s.texts[head.index], rules.join, texts, head.index, AbsorbedInto(d.body[..n], all, head))
  {
    WalkJoined(d, rules, n, head);
    WalkCarries(d, rules, n);
    hide WellFormed, Walk, IsJoined, AbsorbedInto;
    SoFarInto(d, n, Walk(d, rules, n).absorbedBy, all, head);
  }

  lemma GoesOnOnce(d: Document, rules: Rules, all: map<Ref, Ref>, n: nat, head: Ref, item: Item, held: Item, r: Ref)
    requires n <= |d.body| && IsText(head) && head.index < |d.arenas[Texts]| && IsText(r) && r.index < |d.arenas[Texts]|
    requires GoesOn(d, rules, all, n, head, item, r)
    requires held == d.arenas[Texts][head.index].(content := held.content, links := held.links)
    requires IsJoined(held, rules.join, d.arenas[Texts], head.index, AbsorbedInto(d.body[..n], all, head))
    ensures held == item && rules.continues(held, [head] + AbsorbedInto(d.body[..n], all, head), d.arenas[Texts][r.index])
  {
    hide AbsorbedInto, JoinedAll, LinksAll;
  }

  /** A child of the body is absorbed, and by `head`, exactly when it continues the paragraph of the last child
      before it that is not furniture; and nothing but children of the body is. */
  lemma AbsorbedExactly(d: Document, rules: Rules, n: nat, head: Ref)
    requires WellFormed(d) && n < |d.body|
    ensures
      var all := Walk(d, rules, |d.body|).absorbedBy;
      && (d.body[n] in all && all[d.body[n]] == head <==> exists p: nat, item :: Continues(d, rules, all, n, p, head, item))
      && (forall r :: r in all ==> r in d.body)
  {
    hide WellFormed, Walk, Continues, SoFar, Follows;
    var all := Walk(d, rules, |d.body|).absorbedBy;
    var s, r := Walk(d, rules, n), d.body[n];
    WalkFits(d, rules, n, |d.body|);
    if Follows(s, rules, r) && !rules.furniture(r) { FollowsContinues(d, rules, all, n); }
    if exists p: nat, item :: Continues(d, rules, all, n, p, head, item) {
      var p: nat, item :| Continues(d, rules, all, n, p, head, item);
      ContinuesFollows(d, rules, all, n, p, head, item);
    }
    WalkKeys(d, rules, |d.body|);
    assert d.body[..|d.body|] == d.body;
    WalkFits(d, rules, n + 1, |d.body|);
    WalkKeys(d, rules, n);
    NotBefore(d, n);
    StepTakes(d, rules, n, all, head);
  }

  lemma StepTakes(d: Document, rules: Rules, n: nat, all: map<Ref, Ref>, head: Ref)
    requires n < |d.body| && SoFar(d, n + 1, Walk(d, rules, n + 1).absorbedBy, all) && d.body[n] !in Walk(d, rules, n).absorbedBy
    ensures
      var s, r := Walk(d, rules, n), d.body[n];
      r in all && all[r] == head <==> Follows(s, rules, r) && !rules.furniture(r) && s.anchor.value == head
  {
    WalkNext(d, rules, n + 1);
    hide Walk, Absorbing;
    assert d.body[..n + 1][n] == d.body[n];
  }
}
