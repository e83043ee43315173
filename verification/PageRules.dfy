/** The order of one page by its boxes and labels alone (src/document_reading_order.cpp): which float a caption
    labels, which chains make up each part of the page, and what stands before what. */
module PageRules {
  import opened Bytes
  import opened Sorting
  import opened XyCut
  import opened BodyChains
  import opened BodyOrder

  // ----- Who rides with whom.

  /** Position h starts the chain of position p: a placed item its own; behind an item that carries followers, that
      item; before any, the first of the unplaced items that stand together. */
  ghost predicate StartsChainOf(entries: seq<Entry>, p: nat, h: nat)
    requires p < |entries|
  {
    if entries[p].place.Some? then h == p
    else if exists q :: Carries(entries, p, q) then
      Carries(entries, p, h) && forall q :: h < q ==> !Carries(entries, p, q)
    else
      h <= p && (forall k :: h <= k <= p ==> entries[k].place.None?) && (h == 0 || entries[h - 1].place.Some?)
  }

  /** Before p, a placed item that is no page header, page footer or footnote. */
  ghost predicate Carries(entries: seq<Entry>, p: nat, q: int)
    requires p < |entries|
  {
    0 <= q < p && entries[q].place.Some? && entries[q].kind !in {PageHeader, PageFooter, Footnote}
  }

  lemma CarriesIs(entries: seq<Entry>, p: nat, q: int)
    requires p < |entries|
    ensures Carries(entries, p, q) <==> 0 <= q < p && IsCarrier(entries[q])
  {
  }

  lemma {:induction false} HeadOfIs(entries: seq<Entry>, p: nat)
    requires p < |entries|
    ensures StartsChainOf(entries, p, HeadOf(entries, p))
  {
    forall q ensures Carries(entries, p, q) <==> 0 <= q < p && IsCarrier(entries[q]) { CarriesIs(entries, p, q); }
    if entries[p].place.None? && LastCarrier(entries, p).None? {
      if p > 0 && entries[p - 1].place.None? {
        HeadOfIs(entries, p - 1);
        var prior := p - 1;
        forall q ensures !Carries(entries, prior, q) { CarriesIs(entries, prior, q); }
      }
    } else if entries[p].place.None? {
      assert Carries(entries, p, LastCarrier(entries, p).value);
    }
  }

  // ----- Which float a caption labels.

  /** Heights y in the one box and z in the other. */
  ghost predicate Heights(box: OrderBox, target: OrderBox, y: real, z: real) {
    box.top <= y <= box.bottom && target.top <= z <= target.bottom
  }

  /** The gap is the least distance between a height of the one box and a height of the other. */
  lemma GapIs(box: OrderBox, target: OrderBox, y: real, z: real) returns (a: real, b: real)
    requires box.top < box.bottom && target.top < target.bottom && Heights(box, target, y, z)
    ensures VerticalGap(box, target) <= if y <= z then z - y else y - z
    ensures Heights(box, target, a, b) && VerticalGap(box, target) == if a <= b then b - a else a - b
  {
    if box.top >= target.bottom {
      a, b := box.top, target.bottom;
    } else if box.bottom <= target.top {
      a, b := box.bottom, target.top;
    } else {
      a := if box.top >= target.top then box.top else target.top;
      b := a;
    }
  }

  /** From l to r both boxes extend. */
  ghost predicate Shared(box: OrderBox, target: OrderBox, l: real, r: real) {
    box.left <= l && target.left <= l && r <= box.right && r <= target.right
  }

  /** They share at least three tenths of the caption's width, and some heights of theirs lie no more than one and a
      half of the caption's height apart. */
  ghost predicate MayLabel(box: OrderBox, target: OrderBox) {
    && (exists l, r :: Shared(box, target, l, r) && 10.0 * (r - l) >= 3.0 * (box.right - box.left))
    && exists y, z :: Heights(box, target, y, z) && 2.0 * (if y <= z then z - y else y - z) <= 3.0 * (box.bottom - box.top)
  }

  lemma LabelsIff(box: OrderBox, target: OrderBox)
    requires box.top < box.bottom && target.top < target.bottom
    ensures Labels(box, target) <==> MayLabel(box, target)
  {
    var l, r := MaxReal(box.left, target.left), MinReal(box.right, target.right);
    assert Shared(box, target, l, r);
    var y, z := GapIs(box, target, box.top, target.top);
    if MayLabel(box, target) {
      var v, w :| Heights(box, target, v, w) && 2.0 * (if v <= w then w - v else v - w) <= 3.0 * (box.bottom - box.top);
      var y', z' := GapIs(box, target, v, w);
    }
    hide VerticalGap;
  }

  ghost predicate FloatKind(chains: seq<Chain>, c: nat) {
    c < |chains| && chains[c].kind in {Table, Picture}
  }

  ghost predicate CanLabel(chains: seq<Chain>, caption: nat, c: nat) {
    FloatKind(chains, c) && MayLabel(BoxOf(chains, caption), BoxOf(chains, c))
  }

  ghost function Distance(chains: seq<Chain>, caption: nat, c: nat): real {
    VerticalGap(BoxOf(chains, caption), BoxOf(chains, c))
  }

  /** Of the first n members, the k-th is the nearest float the caption may label, the first of several. */
  ghost predicate Nearest(chains: seq<Chain>, members: seq<nat>, n: nat, caption: nat, k: nat)
    requires n <= |members|
  {
    && k < n && CanLabel(chains, caption, members[k])
    && (forall j :: 0 <= j < n && CanLabel(chains, caption, members[j]) ==>
          Distance(chains, caption, members[k]) <= Distance(chains, caption, members[j]))
    && (forall j :: 0 <= j < k && CanLabel(chains, caption, members[j]) ==>
          Distance(chains, caption, members[k]) < Distance(chains, caption, members[j]))
  }

  ghost predicate NearestOrNone(chains: seq<Chain>, members: seq<nat>, n: nat, caption: nat, best: Option<nat>)
    requires n <= |members|
  {
    match best
    case None => forall j :: 0 <= j < n ==> !CanLabel(chains, caption, members[j])
    case Some(f) => exists k: nat :: k < n && members[k] == f && Nearest(chains, members, n, caption, k)
  }

  lemma {:induction false} TargetPrefix(chains: seq<Chain>, caption: nat, floats: seq<nat>, more: seq<nat>, n: nat)
    requires n <= |floats| && floats <= more
    ensures Target(chains, caption, floats, n) == Target(chains, caption, more, n)
  {
    hide Labels, VerticalGap, BoxOf;
    if n > 0 { TargetPrefix(chains, caption, floats, more, n - 1); }
  }

  lemma NearestStays(chains: seq<Chain>, members: seq<nat>, n: nat, caption: nat, best: Option<nat>)
    requires n < |members| && NearestOrNone(chains, members, n, caption, best)
    requires CanLabel(chains, caption, members[n]) ==> best.Some? && Distance(chains, caption, best.value) <= Distance(chains, caption, members[n])
    ensures NearestOrNone(chains, members, n + 1, caption, best)
  {
    hide CanLabel, Distance;
    if best.Some? {
      var k: nat :| k < n && members[k] == best.value && Nearest(chains, members, n, caption, k);
      assert Nearest(chains, members, n + 1, caption, k);
    }
  }

  lemma NearestMoves(chains: seq<Chain>, members: seq<nat>, n: nat, caption: nat, best: Option<nat>)
    requires n < |members| && NearestOrNone(chains, members, n, caption, best) && CanLabel(chains, caption, members[n])
    requires best.Some? ==> Distance(chains, caption, members[n]) < Distance(chains, caption, best.value)
    ensures NearestOrNone(chains, members, n + 1, caption, Some(members[n]))
  {
    hide CanLabel, Distance;
    if best.Some? {
      var k: nat :| k < n && members[k] == best.value && Nearest(chains, members, n, caption, k);
    }
    assert Nearest(chains, members, n + 1, caption, n);
  }

  lemma TargetStep(chains: seq<Chain>, caption: nat, floats: seq<nat>, f: nat)
    ensures
      var best, next := Target(chains, caption, floats, |floats|), Target(chains, caption, floats + [f], |floats| + 1);
      next ==
        if Labels(BoxOf(chains, caption), BoxOf(chains, f)) && (best.None? || Distance(chains, caption, f) < Distance(chains, caption, best.value))
        then Some(f) else best
  {
    hide Labels, VerticalGap, BoxOf;
    TargetPrefix(chains, caption, floats, floats + [f], |floats|);
  }

  lemma FloatIs(chains: seq<Chain>, c: nat)
    ensures IsFloat(chains)(c) <==> FloatKind(chains, c)
  {
  }

  lemma BoxesUpright(chains: seq<Chain>, members: seq<nat>, c: nat)
    requires Placed(chains, members) && c in members
    ensures BoxOf(chains, c).top < BoxOf(chains, c).bottom
  {
  }

  /** The target the program picks is the nearest float among the page's members. */
  lemma {:induction false} TargetIs(chains: seq<Chain>, members: seq<nat>, n: nat, caption: nat)
    requires Placed(chains, members) && n <= |members| && caption in members
    ensures
      var floats := Select(members[..n], IsFloat(chains));
      NearestOrNone(chains, members, n, caption, Target(chains, caption, floats, |floats|))
  {
    if n == 0 {
      assert members[..0] == [];
    } else {
      TargetIs(chains, members, n - 1, caption);
      var c := members[n - 1];
      var floats := Select(members[..n - 1], IsFloat(chains));
      assert members[..n] == members[..n - 1] + [c];
      SelectGrows(members[..n - 1], c, IsFloat(chains));
      FloatIs(chains, c);
      BoxesUpright(chains, members, caption);
      BoxesUpright(chains, members, c);
      LabelsIff(BoxOf(chains, caption), BoxOf(chains, c));
      TargetStep(chains, caption, floats, c);
      hide Select, Target, Labels, MayLabel, VerticalGap, BoxOf, NearestOrNone, Placed;
      var best := Target(chains, caption, floats, |floats|);
      if CanLabel(chains, caption, c) && (best.None? || Distance(chains, caption, c) < Distance(chains, caption, best.value)) {
        NearestMoves(chains, members, n - 1, caption, best);
        assert floats + [c] == floats + [c];
      } else {
        NearestStays(chains, members, n - 1, caption, best);
        assert floats + [] == floats;
      }
    }
  }

  // ----- The parts of a page.

  ghost function Rank(kind: Kind): nat {
    match kind
    case PageHeader => 2
    case PageFooter => 2
    case Footnote => 1
    case _ => 0
  }

  ghost predicate CaptionOf(chains: seq<Chain>, members: seq<nat>, c: nat, k: nat) {
    c < |chains| && chains[c].kind.Caption? && Nearest(chains, members, |members|, c, k)
  }

  ghost predicate IsBound(chains: seq<Chain>, members: seq<nat>, c: nat) {
    exists k: nat :: CaptionOf(chains, members, c, k)
  }

  ghost predicate IsBoundTo(chains: seq<Chain>, members: seq<nat>, c: nat, f: nat) {
    exists k: nat :: k < |members| && members[k] == f && CaptionOf(chains, members, c, k)
  }

  lemma OneNearest(chains: seq<Chain>, members: seq<nat>, caption: nat, k: nat, m: nat)
    requires Nearest(chains, members, |members|, caption, k) && Nearest(chains, members, |members|, caption, m)
    ensures k == m
  {
    hide CanLabel, Distance;
  }

  lemma RoleIs(chains: seq<Chain>, members: seq<nat>, c: nat)
    requires Placed(chains, members) && c in members
    ensures
      var role := RoleOf(chains, Select(members, IsFloat(chains)), c);
      && c < |chains|
      && (forall n :: role == Apart(n) <==> n > 0 && Rank(chains[c].kind) == n)
      && (role == Text <==> Rank(chains[c].kind) == 0 && !chains[c].kind.Caption?)
      && (role == Loose <==> chains[c].kind.Caption? && !IsBound(chains, members, c))
      && (forall f :: role == BoundTo(f) <==> IsBoundTo(chains, members, c, f))
  {
    TargetIs(chains, members, |members|, c);
    assert members[..|members|] == members;
    var best := Target(chains, c, Select(members, IsFloat(chains)), |Select(members, IsFloat(chains))|);
    hide Select, Target, Nearest;
    forall k: nat, m: nat | CaptionOf(chains, members, c, k) && CaptionOf(chains, members, c, m) ensures k == m {
      OneNearest(chains, members, c, k, m);
    }
    if best.Some? {
      var k: nat :| k < |members| && members[k] == best.value && Nearest(chains, members, |members|, c, k);
      assert chains[c].kind.Caption? ==> CaptionOf(chains, members, c, k);
    } else {
      forall k: nat ensures !CaptionOf(chains, members, c, k) { NoneNearest(chains, members, c, k); }
    }
  }

  lemma NoneNearest(chains: seq<Chain>, members: seq<nat>, c: nat, k: nat)
    requires forall j :: 0 <= j < |members| ==> !CanLabel(chains, c, members[j])
    ensures !CaptionOf(chains, members, c, k)
  {
    hide CanLabel;
  }

  /** The three parts that are cut: the main text with the captions no float claims, the footnotes, the page
      furniture. */
  lemma PartsAre(chains: seq<Chain>, members: seq<nat>, c: nat)
    requires Placed(chains, members)
    ensures
      var floats := Select(members, IsFloat(chains));
      && (c in MainOf(chains, members, floats) <==>
            c in members && c < |chains| && Rank(chains[c].kind) == 0 && !IsBound(chains, members, c))
      && (c in With(chains, members, floats, Apart(1)) <==> c in members && c < |chains| && chains[c].kind.Footnote?)
      && (c in With(chains, members, floats, Apart(2)) <==>
            c in members && c < |chains| && (chains[c].kind.PageHeader? || chains[c].kind.PageFooter?))
  {
    var floats := Select(members, IsFloat(chains));
    if c in members { RoleIs(chains, members, c); }
    SelectIs(members, HasRole(chains, floats, Text));
    SelectIs(members, HasRole(chains, floats, Loose));
    SelectIs(members, HasRole(chains, floats, Apart(1)));
    SelectIs(members, HasRole(chains, floats, Apart(2)));
    hide Select, RoleOf, Nearest, Placed;
    assert c in members && IsBound(chains, members, c) ==> chains[c].kind.Caption?;
  }

  /** Main text before footnotes, footnotes before page furniture. */
  lemma PageRanks(chains: seq<Chain>, members: seq<nat>, gutter: Gutter)
    requires Placed(chains, members) && NoRepeats(members)
    ensures
      var order := PageOrder(chains, members, gutter);
      forall i, j :: 0 <= i < j < |order| ==> order[i] < |chains| && order[j] < |chains| && Rank(chains[order[i]].kind) <= Rank(chains[order[j]].kind)
  {
    hide PageOrder, NoRepeats, Phase, Rank, Placed;
    var order := PageOrder(chains, members, gutter);
    PagePhases(chains, members, gutter);
    PagePermutes(chains, members, gutter);
    forall i | 0 <= i < |order| ensures order[i] < |chains| && Rank(chains[order[i]].kind) == Phase(KindOf(chains, order[i])) {
      MembersAgree(order, members, order[i]);
      RankIs(chains, members, order[i]);
    }
  }

  lemma RankIs(chains: seq<Chain>, members: seq<nat>, c: nat)
    requires Placed(chains, members) && c in members
    ensures c < |chains| && Rank(chains[c].kind) == Phase(KindOf(chains, c))
  {
  }

  // ----- Captions behind their floats.

  /** Exactly the captions the float has, in the members' order. */
  ghost predicate CaptionsOf(chains: seq<Chain>, members: seq<nat>, f: nat, block: seq<nat>) {
    && (forall c :: c in block <==> c in members && IsBoundTo(chains, members, c, f))
    && (forall c, e :: Precedes(block, c, e) ==> Precedes(members, c, e))
  }

  lemma {:induction false} SelectPrecedes(s: seq<nat>, p: nat -> bool, c: nat, e: nat)
    requires Precedes(Select(s, p), c, e)
    ensures Precedes(s, c, e)
  {
    if s != [] {
      var rest := Select(s[1..], p);
      SelectIs(s[1..], p);
      var first: seq<nat> := if p(s[0]) then [s[0]] else [];
      var i, j :| 0 <= i < j < |first + rest| && (first + rest)[i] == c && (first + rest)[j] == e;
      assert s == [s[0]] + s[1..];
      if i >= |first| {
        assert rest[i - |first|] == c && rest[j - |first|] == e;
        assert Precedes(rest, c, e);
        SelectPrecedes(s[1..], p, c, e);
        PrecedesConcat([s[0]], s[1..], c, e);
      } else {
        assert c == s[0] && rest[j - |first|] == e;
        assert e in s[1..];
        PrecedesConcat([s[0]], s[1..], c, e);
      }
    }
  }

  lemma BlockIs(chains: seq<Chain>, members: seq<nat>, f: nat)
    requires Placed(chains, members)
    ensures CaptionsOf(chains, members, f, With(chains, members, Select(members, IsFloat(chains)), BoundTo(f)))
  {
    var floats := Select(members, IsFloat(chains));
    var block := With(chains, members, floats, BoundTo(f));
    SelectIs(members, HasRole(chains, floats, BoundTo(f)));
    forall c | c in members ensures RoleOf(chains, floats, c) == BoundTo(f) <==> IsBoundTo(chains, members, c, f) {
      RoleIs(chains, members, c);
    }
    forall c, e | Precedes(block, c, e) ensures Precedes(members, c, e) {
      SelectPrecedes(members, HasRole(chains, floats, BoundTo(f)), c, e);
    }
    hide Select, RoleOf, IsBoundTo, Precedes;
  }

  /** Behind every chain of the main text stand exactly the captions that label it, and those only there. */
  lemma CaptionsBehind(chains: seq<Chain>, members: seq<nat>, gutter: Gutter, f: nat) returns (at: nat, block: seq<nat>)
    requires Placed(chains, members) && f in members && f < |chains| && Rank(chains[f].kind) == 0 && !IsBound(chains, members, f)
    ensures
      var order := PageOrder(chains, members, gutter);
      at < |order| && order[at] == f && at + 1 + |block| <= |order| && order[at + 1..at + 1 + |block|] == block
    ensures CaptionsOf(chains, members, f, block)
  {
    hide CutOrder, With, MainOf, Placed, CaptionsOf, IsBound, Rank, ReadsAgainst, ReadBefore, Select, WithCaptions;
    var floats := Select(members, IsFloat(chains));
    PartsPlaced(chains, members, floats);
    PartsAre(chains, members, f);
    BlockIs(chains, members, f);
    block := With(chains, members, floats, BoundTo(f));
    var mainOf := MainOf(chains, members, floats);
    var cut := CutOrder(chains, mainOf, gutter);
    var k := CutPlace(chains, mainOf, gutter, f);
    at := CaptionsFollow(chains, members, floats, cut, k);
    var all := WithCaptions(chains, members, floats, cut);
    SliceInFront(all, CutOrder(chains, With(chains, members, floats, Apart(1)), gutter),
                 CutOrder(chains, With(chains, members, floats, Apart(2)), gutter), at, |block|);
  }

  lemma CutPlace(chains: seq<Chain>, members: seq<nat>, gutter: Gutter, c: nat) returns (k: nat)
    requires Placed(chains, members) && c in members
    ensures k < |CutOrder(chains, members, gutter)| && CutOrder(chains, members, gutter)[k] == c
  {
    hide CutOrder, Placed, ReadsAgainst, ReadBefore;
    CutOrderIs(chains, members, gutter);
    MembersAgree(CutOrder(chains, members, gutter), members, c);
    k :| 0 <= k < |CutOrder(chains, members, gutter)| && CutOrder(chains, members, gutter)[k] == c;
  }

  lemma SliceInFront(a: seq<nat>, b: seq<nat>, c: seq<nat>, at: nat, n: nat)
    requires at + 1 + n <= |a|
    ensures (a + b + c)[at] == a[at] && (a + b + c)[at + 1..at + 1 + n] == a[at + 1..at + 1 + n]
  {
  }
}
