/** The body in reading order, page by page (src/document_reading_order.cpp). */
module BodyOrder {
  import opened Bytes
  import opened Sorting
  import opened XyCut
  import opened CutChoice
  import opened BodyChains

  const CAPTION_OVERLAP_SHARE: real := 0.3
  const CAPTION_GAP_HEIGHTS: real := 1.5
  const BAND_OVER_GUTTER: real := 2.0
  const MINIMUM_PLACED_SHARE: real := 0.5

  type Gutter = (seq<OrderBox>, seq<nat>, Gap) -> bool

  ghost predicate AllSound(chains: seq<Chain>) {
    forall c :: 0 <= c < |chains| ==> Sound(chains[c].place) && chains[c].positions != []
  }

  function PageOf(chain: Chain): int { if chain.place.Some? then chain.place.value.page else 0 }

  /** Chains by index, all of them placed. */
  ghost predicate Placed(chains: seq<Chain>, members: seq<nat>) {
    forall c :: c in members ==> c < |chains| && chains[c].place.Some? && Sound(chains[c].place)
  }

  function Select(members: seq<nat>, p: nat -> bool): seq<nat> {
    if members == [] then [] else (if p(members[0]) then [members[0]] else []) + Select(members[1..], p)
  }

  lemma {:induction false} SelectIs(members: seq<nat>, p: nat -> bool)
    ensures forall x :: x in Select(members, p) <==> x in members && p(x)
  {
    if members != [] {
      SelectIs(members[1..], p);
      assert members == [members[0]] + members[1..];
    }
  }

  /** How often an element is selected: as often as it occurs, or not at all. */
  lemma {:induction false} SelectCounts(members: seq<nat>, p: nat -> bool, x: nat)
    ensures multiset(Select(members, p))[x] == if p(x) then multiset(members)[x] else 0
  {
    if members != [] {
      SelectCounts(members[1..], p, x);
      assert members == [members[0]] + members[1..];
    }
  }

  // ----- Which float a caption labels.

  /** The vertical distance between a caption and a float, zero where they are level. */
  function VerticalGap(box: OrderBox, target: OrderBox): real {
    if box.top >= target.bottom then box.top - target.bottom
    else if box.bottom <= target.top then target.top - box.bottom
    else 0.0
  }

  function MinReal(a: real, b: real): real { if a <= b then a else b }

  predicate Labels(box: OrderBox, target: OrderBox) {
    && MinReal(box.right, target.right) - MaxReal(box.left, target.left) >= CAPTION_OVERLAP_SHARE * (box.right - box.left)
    && VerticalGap(box, target) <= CAPTION_GAP_HEIGHTS * (box.bottom - box.top)
  }

  function BoxOf(chains: seq<Chain>, c: nat): OrderBox {
    if c < |chains| && chains[c].place.Some? then chains[c].place.value.box else OrderBox(0.0, 0.0, 0.0, 0.0)
  }

  /** The first of the nearest floats among the first n that the caption may label. */
  function Target(chains: seq<Chain>, caption: nat, floats: seq<nat>, n: nat): Option<nat>
    requires n <= |floats|
  {
    if n == 0 then None
    else
      var best := Target(chains, caption, floats, n - 1);
      var box, f := BoxOf(chains, caption), floats[n - 1];
      if Labels(box, BoxOf(chains, f)) && (best.None? || VerticalGap(box, BoxOf(chains, f)) < VerticalGap(box, BoxOf(chains, best.value)))
      then Some(f) else best
  }

  lemma {:induction false} TargetIsNearest(chains: seq<Chain>, caption: nat, floats: seq<nat>, n: nat)
    requires n <= |floats|
    ensures
      var best, box := Target(chains, caption, floats, n), BoxOf(chains, caption);
      && (best.Some? <==> exists k :: 0 <= k < n && Labels(box, BoxOf(chains, floats[k])))
      && (best.Some? ==> best.value in floats && Labels(box, BoxOf(chains, best.value)))
      && (best.Some? ==> forall k :: 0 <= k < n && Labels(box, BoxOf(chains, floats[k])) ==>
            VerticalGap(box, BoxOf(chains, best.value)) <= VerticalGap(box, BoxOf(chains, floats[k])))
  {
    hide Labels, VerticalGap, BoxOf;
    if n > 0 { TargetIsNearest(chains, caption, floats, n - 1); }
  }

  method CaptionTarget(chains: seq<Chain>, caption: nat, floats: seq<nat>) returns (best: Option<nat>)
    requires Placed(chains, floats) && Placed(chains, [caption])
    ensures best == Target(chains, caption, floats, |floats|)
  {
    assert caption in [caption];
    var box := chains[caption].place.value.box;
    if box.right - box.left <= 0.0 || box.bottom - box.top <= 0.0 { return None; }
    best := None;
    var bestGap := 0.0;
    for n := 0 to |floats|
      invariant best == Target(chains, caption, floats, n)
      invariant best.Some? ==> bestGap == VerticalGap(box, BoxOf(chains, best.value))
    {
      assert floats[n] in floats;
      var target := chains[floats[n]].place.value.box;
      var overlap := MinReal(box.right, target.right) - MaxReal(box.left, target.left);
      if overlap < CAPTION_OVERLAP_SHARE * (box.right - box.left) { continue; }
      var gap := 0.0;
      if box.top >= target.bottom { gap := box.top - target.bottom; }
      else if box.bottom <= target.top { gap := target.top - box.bottom; }
      if gap > CAPTION_GAP_HEIGHTS * (box.bottom - box.top) { continue; }
      if best.None? || gap < bestGap { best, bestGap := Some(floats[n]), gap; }
    }
  }

  // ----- The cut over some chains.

  function Boxes(chains: seq<Chain>, members: seq<nat>): seq<OrderBox> {
    seq(|members|, k requires 0 <= k < |members| => BoxOf(chains, members[k]))
  }

  function Pick(members: seq<nat>, order: seq<nat>): seq<nat> {
    seq(|order|, k requires 0 <= k < |order| => if order[k] < |members| then members[order[k]] else 0)
  }

  lemma PlacedUpright(chains: seq<Chain>, members: seq<nat>)
    requires Placed(chains, members)
    ensures AllUpright(Boxes(chains, members))
  {
    forall k | 0 <= k < |members| ensures BoxOf(chains, members[k]).left <= BoxOf(chains, members[k]).right
      && BoxOf(chains, members[k]).top <= BoxOf(chains, members[k]).bottom
    {
      assert members[k] in members;
    }
  }

  function CutOrder(chains: seq<Chain>, members: seq<nat>, gutter: Gutter): seq<nat>
    requires Placed(chains, members)
  {
    PlacedUpright(chains, members);
    Pick(members, XyCutOrder(Boxes(chains, members), Policy(BAND_OVER_GUTTER, gutter)))
  }

  function Without(s: seq<nat>, k: nat): seq<nat>
    requires k < |s|
  {
    s[..k] + s[k + 1..]
  }

  lemma WithoutOne(s: seq<nat>, k: nat)
    requires k < |s|
    ensures multiset(s) == multiset{s[k]} + multiset(Without(s, k))
  {
    assert s == s[..k] + [s[k]] + s[k + 1..];
  }

  lemma PickWithout(members: seq<nat>, s: seq<nat>, k: nat)
    requires k < |s|
    ensures multiset(Pick(members, s)) == multiset{Pick(members, s)[k]} + multiset(Pick(members, Without(s, k)))
  {
    assert Without(Pick(members, s), k) == Pick(members, Without(s, k));
    WithoutOne(Pick(members, s), k);
  }

  lemma {:induction false} PickPermutes(members: seq<nat>, a: seq<nat>, b: seq<nat>)
    requires multiset(a) == multiset(b)
    ensures multiset(Pick(members, a)) == multiset(Pick(members, b))
    decreases |a|
  {
    hide Without, Pick;
    if a == [] {
      assert |multiset(b)| == 0;
      assert b == [];
    } else {
      MembersAgree(a, b, a[0]);
      var k :| 0 <= k < |b| && b[k] == a[0];
      LessOne(a, 0);
      LessOne(b, k);
      WithoutShorter(a, 0);
      PickPermutes(members, Without(a, 0), Without(b, k));
      PickedOne(members, a, 0);
      PickedOne(members, b, k);
    }
  }

  lemma LessOne(s: seq<nat>, k: nat)
    requires k < |s|
    ensures multiset(Without(s, k)) == multiset(s) - multiset{s[k]}
  {
    WithoutOne(s, k);
    hide Without;
  }

  lemma PickedOne(members: seq<nat>, s: seq<nat>, k: nat)
    requires k < |s|
    ensures multiset(Pick(members, s)) == multiset{if s[k] < |members| then members[s[k]] else 0} + multiset(Pick(members, Without(s, k)))
  {
    hide Without;
    PickWithout(members, s, k);
  }

  lemma WithoutShorter(s: seq<nat>, k: nat)
    requires k < |s|
    ensures |Without(s, k)| < |s|
  {
  }

  /** The gaps between the chains' boxes call for c before e. */
  ghost predicate ReadBefore(chains: seq<Chain>, members: seq<nat>, gutter: Gutter, c: nat, e: nat) {
    exists i: nat, j: nat :: i < |members| && j < |members| && members[i] == c && members[j] == e
      && ComesFirst(Boxes(chains, members), UpTo(|members|), Policy(BAND_OVER_GUTTER, gutter), i, j)
  }

  lemma PickInOrder(members: seq<nat>, cut: seq<nat>, i: nat, j: nat)
    requires i < |members| && j < |members| && Precedes(cut, i, j)
    ensures Precedes(Pick(members, cut), members[i], members[j])
  {
    var a, b :| 0 <= a < b < |cut| && cut[a] == i && cut[b] == j;
    assert Pick(members, cut)[a] == members[i] && Pick(members, cut)[b] == members[j];
  }

  lemma CutOrderByGaps(chains: seq<Chain>, members: seq<nat>, gutter: Gutter, c: nat, e: nat)
    requires Placed(chains, members) && ReadBefore(chains, members, gutter, c, e)
    ensures Precedes(CutOrder(chains, members, gutter), c, e)
  {
    hide ComesFirst, Order, Precedes, Pick;
    PlacedUpright(chains, members);
    var boxes, policy := Boxes(chains, members), Policy(BAND_OVER_GUTTER, gutter);
    var i: nat, j: nat :| i < |members| && j < |members| && members[i] == c && members[j] == e
      && ComesFirst(boxes, UpTo(|members|), policy, i, j);
    AllAreUpright(boxes);
    OrderIsByGaps(boxes, UpTo(|boxes|), policy, i, j);
    PickInOrder(members, XyCutOrder(boxes, policy), i, j);
  }

  /** The cut keeps every chain once, reads down each column, so that nothing comes before a chain that
      starts above it and overlaps it horizontally, and puts one before another where the gaps call for it. */
  lemma CutOrderIs(chains: seq<Chain>, members: seq<nat>, gutter: Gutter)
    requires Placed(chains, members)
    ensures
      var order := CutOrder(chains, members, gutter);
      && multiset(order) == multiset(members)
      && (forall i, j :: 0 <= i < j < |order| ==> !ReadsAgainst(BoxOf(chains, order[i]), BoxOf(chains, order[j])))
      && (forall c, e :: ReadBefore(chains, members, gutter, c, e) ==> Precedes(order, c, e))
  {
    forall c, e | ReadBefore(chains, members, gutter, c, e) ensures Precedes(CutOrder(chains, members, gutter), c, e) {
      CutOrderByGaps(chains, members, gutter, c, e);
    }
    hide ReadBefore, Precedes;
    PlacedUpright(chains, members);
    var boxes := Boxes(chains, members);
    var cut := XyCutOrder(boxes, Policy(BAND_OVER_GUTTER, gutter));
    ReadsDownColumns(boxes, Policy(BAND_OVER_GUTTER, gutter));
    PickPermutes(members, cut, UpTo(|members|));
    assert Pick(members, UpTo(|members|)) == members;
    hide XyCutOrder, ReadsAgainst, BoxOf;
    forall i, j | 0 <= i < j < |cut|
      ensures !ReadsAgainst(BoxOf(chains, Pick(members, cut)[i]), BoxOf(chains, Pick(members, cut)[j]))
    {
      assert boxes[cut[i]] == BoxOf(chains, Pick(members, cut)[i]) && boxes[cut[j]] == BoxOf(chains, Pick(members, cut)[j]);
    }
  }

  method CutChains(chains: seq<Chain>, members: seq<nat>, gutter: Gutter) returns (ordered: seq<nat>)
    requires Placed(chains, members)
    ensures ordered == CutOrder(chains, members, gutter)
  {
    hide Order, BoxOf;
    PlacedUpright(chains, members);
    var boxes := Boxes(chains, members);
    AllAreUpright(boxes);
    var cut := OrderMembers(boxes, UpTo(|boxes|), Policy(BAND_OVER_GUTTER, gutter), []);
    OrderPermutes(boxes, UpTo(|boxes|), Policy(BAND_OVER_GUTTER, gutter));
    ordered := [];
    for k := 0 to |cut|
      invariant ordered == Pick(members, cut[..k])
    {
      MembersAgree(cut, UpTo(|boxes|), cut[k]);
      ordered := ordered + [members[cut[k]]];
    }
    assert cut[..|cut|] == cut;
  }

  // ----- One page.

  function KindOf(chains: seq<Chain>, c: nat): Kind { if c < |chains| then chains[c].kind else Plain }

  /** Main text reads first, footnotes next, page furniture last. */
  function Phase(kind: Kind): nat {
    if IsFurniture(kind) then 2 else if kind.Footnote? then 1 else 0
  }

  function IsFloat(chains: seq<Chain>): nat -> bool {
    (c: nat) => KindOf(chains, c).Table? || KindOf(chains, c).Picture?
  }

  /** The part a chain plays on its page: text, a caption without or with a float, or apart from the flow. */
  datatype Role = Text | Loose | BoundTo(float: nat) | Apart(phase: nat)

  function RoleOf(chains: seq<Chain>, floats: seq<nat>, c: nat): Role {
    var kind := KindOf(chains, c);
    if Phase(kind) > 0 then Apart(Phase(kind))
    else if !kind.Caption? then Text
    else match Target(chains, c, floats, |floats|)
      case None => Loose
      case Some(f) => BoundTo(f)
  }

  function HasRole(chains: seq<Chain>, floats: seq<nat>, role: Role): nat -> bool {
    (c: nat) => RoleOf(chains, floats, c) == role
  }

  function With(chains: seq<Chain>, members: seq<nat>, floats: seq<nat>, role: Role): seq<nat> {
    Select(members, HasRole(chains, floats, role))
  }

  /** The chains of the main cut: the text, then the captions no float claims. */
  function MainOf(chains: seq<Chain>, members: seq<nat>, floats: seq<nat>): seq<nat> {
    With(chains, members, floats, Text) + With(chains, members, floats, Loose)
  }

  /** Each chain followed by the captions bound to it. */
  function WithCaptions(chains: seq<Chain>, members: seq<nat>, floats: seq<nat>, order: seq<nat>): seq<nat> {
    if order == [] then []
    else [order[0]] + With(chains, members, floats, BoundTo(order[0])) + WithCaptions(chains, members, floats, order[1..])
  }

  lemma SelectedPlaced(chains: seq<Chain>, members: seq<nat>, p: nat -> bool)
    requires Placed(chains, members)
    ensures Placed(chains, Select(members, p))
  {
    SelectIs(members, p);
  }

  lemma PartsPlaced(chains: seq<Chain>, members: seq<nat>, floats: seq<nat>)
    requires Placed(chains, members)
    ensures Placed(chains, MainOf(chains, members, floats))
    ensures forall role :: Placed(chains, With(chains, members, floats, role))
  {
    forall role ensures Placed(chains, With(chains, members, floats, role)) {
      SelectedPlaced(chains, members, HasRole(chains, floats, role));
    }
    assert Placed(chains, With(chains, members, floats, Text)) && Placed(chains, With(chains, members, floats, Loose));
  }

  function PageOrder(chains: seq<Chain>, members: seq<nat>, gutter: Gutter): seq<nat>
    requires Placed(chains, members)
  {
    var floats := Select(members, IsFloat(chains));
    PartsPlaced(chains, members, floats);
    WithCaptions(chains, members, floats, CutOrder(chains, MainOf(chains, members, floats), gutter))
    + CutOrder(chains, With(chains, members, floats, Apart(1)), gutter)
    + CutOrder(chains, With(chains, members, floats, Apart(2)), gutter)
  }

  ghost predicate NoRepeats(s: seq<nat>) {
    forall x: nat :: multiset(s)[x] <= 1
  }

  function Times(n: nat, m: nat): nat { n * m }

  lemma {:induction false} CaptionsCount(chains: seq<Chain>, members: seq<nat>, floats: seq<nat>, order: seq<nat>, x: nat)
    ensures
      var role := RoleOf(chains, floats, x);
      multiset(WithCaptions(chains, members, floats, order))[x]
        == multiset(order)[x] + (if role.BoundTo? then Times(multiset(order)[role.float], multiset(members)[x]) else 0)
  {
    hide RoleOf, Times, With, WithCaptions;
    var role, n := RoleOf(chains, floats, x), multiset(members)[x];
    if order == [] {
      NoCaptions(chains, members, floats);
      if role.BoundTo? { TimesStep(0, n); }
    } else {
      CaptionsCount(chains, members, floats, order[1..], x);
      HeadCounts(order, x);
      RoleCounts(chains, members, floats, BoundTo(order[0]), x);
      WithCaptionsHead(chains, members, floats, order, x);
      if role.BoundTo? {
        HeadCounts(order, role.float);
        TimesStep(multiset(order[1..])[role.float], n);
      }
    }
  }

  lemma TimesStep(n: nat, m: nat)
    ensures Times(0, m) == 0 && Times(n + 1, m) == Times(n, m) + m && Times(1, m) == m
  {
  }

  lemma NoCaptions(chains: seq<Chain>, members: seq<nat>, floats: seq<nat>)
    ensures WithCaptions(chains, members, floats, []) == []
  {
  }

  lemma HeadCounts(s: seq<nat>, x: nat)
    requires s != []
    ensures multiset(s)[x] == (if s[0] == x then 1 else 0) + multiset(s[1..])[x]
  {
    assert s == [s[0]] + s[1..];
  }

  lemma WithCaptionsHead(chains: seq<Chain>, members: seq<nat>, floats: seq<nat>, order: seq<nat>, x: nat)
    requires order != []
    ensures multiset(WithCaptions(chains, members, floats, order))[x]
         == (if order[0] == x then 1 else 0) + multiset(With(chains, members, floats, BoundTo(order[0])))[x]
            + multiset(WithCaptions(chains, members, floats, order[1..]))[x]
  {
    hide With;
  }

  lemma RoleCounts(chains: seq<Chain>, members: seq<nat>, floats: seq<nat>, role: Role, x: nat)
    ensures multiset(With(chains, members, floats, role))[x] == if RoleOf(chains, floats, x) == role then multiset(members)[x] else 0
  {
    SelectCounts(members, HasRole(chains, floats, role), x);
  }

  lemma BoundToMain(chains: seq<Chain>, members: seq<nat>, c: nat)
    requires NoRepeats(members)
    ensures
      var floats := Select(members, IsFloat(chains));
      RoleOf(chains, floats, c).BoundTo? ==> multiset(MainOf(chains, members, floats))[RoleOf(chains, floats, c).float] == 1
  {
    var floats := Select(members, IsFloat(chains));
    var role := RoleOf(chains, floats, c);
    if role.BoundTo? {
      TargetIsNearest(chains, c, floats, |floats|);
      SelectIs(members, IsFloat(chains));
      RoleCounts(chains, members, floats, Text, role.float);
      RoleCounts(chains, members, floats, Loose, role.float);
      assert role.float in multiset(members);
    }
  }

  lemma ThreeCounts(a: seq<nat>, b: seq<nat>, c: seq<nat>, x: nat)
    ensures multiset(a + b + c)[x] == multiset(a)[x] + multiset(b)[x] + multiset(c)[x]
  {
  }

  lemma MainCounts(chains: seq<Chain>, members: seq<nat>, floats: seq<nat>, x: nat)
    ensures multiset(MainOf(chains, members, floats))[x] == if RoleOf(chains, floats, x) in {Text, Loose} then multiset(members)[x] else 0
  {
    hide With, RoleOf;
    RoleCounts(chains, members, floats, Text, x);
    RoleCounts(chains, members, floats, Loose, x);
  }

  /** How often each of the three parts of a page's order holds a chain. */
  lemma PageCounts(chains: seq<Chain>, members: seq<nat>, gutter: Gutter, x: nat)
    requires Placed(chains, members) && NoRepeats(members)
    ensures multiset(PageOrder(chains, members, gutter))[x] == multiset(members)[x]
  {
    var floats := Select(members, IsFloat(chains));
    PartsPlaced(chains, members, floats);
    var mainOf, notes, furniture := MainOf(chains, members, floats), With(chains, members, floats, Apart(1)), With(chains, members, floats, Apart(2));
    hide CutOrder, With, RoleOf, Select, ReadsAgainst, NoRepeats, Placed, MainOf, WithCaptions;
    CutOrderIs(chains, mainOf, gutter);
    CutOrderIs(chains, notes, gutter);
    CutOrderIs(chains, furniture, gutter);
    CaptionsCount(chains, members, floats, CutOrder(chains, mainOf, gutter), x);
    BoundToMain(chains, members, x);
    MainCounts(chains, members, floats, x);
    RoleCounts(chains, members, floats, Apart(1), x);
    RoleCounts(chains, members, floats, Apart(2), x);
    RoleIsOneOf(chains, floats, x);
    TimesStep(0, multiset(members)[x]);
    ThreeCounts(WithCaptions(chains, members, floats, CutOrder(chains, mainOf, gutter)),
                CutOrder(chains, notes, gutter), CutOrder(chains, furniture, gutter), x);
  }

  /** A page's order holds each of its chains once. */
  lemma PagePermutes(chains: seq<Chain>, members: seq<nat>, gutter: Gutter)
    requires Placed(chains, members) && NoRepeats(members)
    ensures multiset(PageOrder(chains, members, gutter)) == multiset(members)
  {
    hide PageOrder, Placed, NoRepeats;
    forall x: nat ensures multiset(PageOrder(chains, members, gutter))[x] == multiset(members)[x] {
      PageCounts(chains, members, gutter, x);
    }
  }

  lemma RoleIsOneOf(chains: seq<Chain>, floats: seq<nat>, x: nat)
    ensures RoleOf(chains, floats, x) in [Text, Loose, Apart(1), Apart(2)] || RoleOf(chains, floats, x).BoundTo?
  {
  }

  // ----- What a page's order says.

  ghost predicate PhasesAscend(chains: seq<Chain>, order: seq<nat>) {
    forall i, j :: 0 <= i < j < |order| ==> Phase(KindOf(chains, order[i])) <= Phase(KindOf(chains, order[j]))
  }

  lemma {:induction false} CaptionsInMain(chains: seq<Chain>, members: seq<nat>, floats: seq<nat>, order: seq<nat>)
    requires forall x :: x in order ==> Phase(KindOf(chains, x)) == 0
    ensures forall x :: x in WithCaptions(chains, members, floats, order) ==> Phase(KindOf(chains, x)) == 0
  {
    if order != [] {
      CaptionsInMain(chains, members, floats, order[1..]);
      SelectIs(members, HasRole(chains, floats, BoundTo(order[0])));
    }
  }

  lemma PartPhases(chains: seq<Chain>, members: seq<nat>, floats: seq<nat>)
    ensures forall x :: x in MainOf(chains, members, floats) ==> Phase(KindOf(chains, x)) == 0
    ensures forall n, x :: x in With(chains, members, floats, Apart(n)) ==> Phase(KindOf(chains, x)) == n
  {
    SelectIs(members, HasRole(chains, floats, Text));
    SelectIs(members, HasRole(chains, floats, Loose));
    forall n, x | x in With(chains, members, floats, Apart(n)) ensures Phase(KindOf(chains, x)) == n {
      SelectIs(members, HasRole(chains, floats, Apart(n)));
    }
  }

  lemma PagePhases(chains: seq<Chain>, members: seq<nat>, gutter: Gutter)
    requires Placed(chains, members)
    ensures PhasesAscend(chains, PageOrder(chains, members, gutter))
  {
    var floats := Select(members, IsFloat(chains));
    PartsPlaced(chains, members, floats);
    PartPhases(chains, members, floats);
    var mainOf, notes, furniture := MainOf(chains, members, floats), With(chains, members, floats, Apart(1)), With(chains, members, floats, Apart(2));
    CutOrderIs(chains, mainOf, gutter);
    CutOrderIs(chains, notes, gutter);
    CutOrderIs(chains, furniture, gutter);
    var a, b, c := CutOrder(chains, mainOf, gutter), CutOrder(chains, notes, gutter), CutOrder(chains, furniture, gutter);
    hide CutOrder, ReadsAgainst, With, MainOf, Phase, Placed;
    forall x | x in a ensures Phase(KindOf(chains, x)) == 0 { MembersAgree(a, mainOf, x); }
    CaptionsInMain(chains, members, floats, a);
    forall x | x in b ensures Phase(KindOf(chains, x)) == 1 { MembersAgree(b, notes, x); }
    forall x | x in c ensures Phase(KindOf(chains, x)) == 2 { MembersAgree(c, furniture, x); }
    ThreePhases(chains, WithCaptions(chains, members, floats, a), b, c);
  }

  lemma ThreePhases(chains: seq<Chain>, a: seq<nat>, b: seq<nat>, c: seq<nat>)
    requires forall x :: x in a ==> Phase(KindOf(chains, x)) == 0
    requires forall x :: x in b ==> Phase(KindOf(chains, x)) == 1
    requires forall x :: x in c ==> Phase(KindOf(chains, x)) == 2
    ensures PhasesAscend(chains, a + b + c)
  {
    hide Phase;
    var s := a + b + c;
    forall i | 0 <= i < |s| ensures Phase(KindOf(chains, s[i])) == if i < |a| then 0 else if i < |a| + |b| then 1 else 2 {
      if i < |a| { assert s[i] in a; } else if i < |a| + |b| { assert s[i] in b; } else { assert s[i] in c; }
    }
  }

  lemma SliceAt(before: seq<nat>, middle: seq<nat>, after: seq<nat>, n: nat)
    requires n == |before|
    ensures (before + middle + after)[n..n + |middle|] == middle
  {
  }

  lemma SliceShift(before: seq<nat>, after: seq<nat>, m: nat, n: nat)
    requires m <= n <= |after|
    ensures (before + after)[|before| + m..|before| + n] == after[m..n]
  {
  }

  /** The captions bound to a float stand right behind it, in body order. */
  lemma {:induction false} CaptionsFollow(chains: seq<Chain>, members: seq<nat>, floats: seq<nat>, order: seq<nat>, k: nat) returns (at: nat)
    requires k < |order|
    ensures
      var all, bound := WithCaptions(chains, members, floats, order), With(chains, members, floats, BoundTo(order[k]));
      at < |all| && all[at] == order[k] && at + 1 + |bound| <= |all| && all[at + 1..at + 1 + |bound|] == bound
  {
    var bound := With(chains, members, floats, BoundTo(order[k]));
    var first := [order[0]] + With(chains, members, floats, BoundTo(order[0]));
    var rest := WithCaptions(chains, members, floats, order[1..]);
    assert WithCaptions(chains, members, floats, order) == first + rest;
    hide With, WithCaptions;
    if k == 0 {
      at := 0;
      SliceAt([order[0]], bound, rest, 1);
    } else {
      var n := CaptionsFollow(chains, members, floats, order[1..], k - 1);
      at := |first| + n;
      SliceShift(first, rest, n + 1, n + 1 + |bound|);
    }
  }

  /** The captions put in between move no two chains past each other. */
  lemma CaptionsKeepOrder(chains: seq<Chain>, members: seq<nat>, floats: seq<nat>, order: seq<nat>, c: nat, e: nat)
    requires Precedes(order, c, e)
    ensures Precedes(WithCaptions(chains, members, floats, order), c, e)
  {
    var i, j :| 0 <= i < j < |order| && order[i] == c && order[j] == e;
    CaptionsBetween(chains, members, floats, order, i, j);
  }

  lemma {:induction false} CaptionsBetween(chains: seq<Chain>, members: seq<nat>, floats: seq<nat>, order: seq<nat>, i: nat, j: nat)
    requires i < j < |order|
    ensures Precedes(WithCaptions(chains, members, floats, order), order[i], order[j])
  {
    var first := [order[0]] + With(chains, members, floats, BoundTo(order[0]));
    var rest := WithCaptions(chains, members, floats, order[1..]);
    assert WithCaptions(chains, members, floats, order) == first + rest;
    hide With, WithCaptions, Precedes;
    PrecedesConcat(first, rest, order[i], order[j]);
    if i == 0 {
      var n := CaptionsFollow(chains, members, floats, order[1..], j - 1);
      assert rest[n] in rest;
    } else {
      CaptionsBetween(chains, members, floats, order[1..], i - 1, j - 1);
    }
  }

  /** On a page that is cut: two chains of the same part of it stand as the gaps of that part call for. */
  ghost predicate PartReads(chains: seq<Chain>, members: seq<nat>, gutter: Gutter, c: nat, e: nat) {
    var floats := Select(members, IsFloat(chains));
    || ReadBefore(chains, MainOf(chains, members, floats), gutter, c, e)
    || ReadBefore(chains, With(chains, members, floats, Apart(1)), gutter, c, e)
    || ReadBefore(chains, With(chains, members, floats, Apart(2)), gutter, c, e)
  }

  lemma PageByGaps(chains: seq<Chain>, members: seq<nat>, gutter: Gutter, c: nat, e: nat)
    requires Placed(chains, members) && PartReads(chains, members, gutter, c, e)
    ensures Precedes(PageOrder(chains, members, gutter), c, e)
  {
    var floats := Select(members, IsFloat(chains));
    PartsPlaced(chains, members, floats);
    hide ReadBefore, CutOrder, Precedes, With, MainOf, WithCaptions, Placed;
    var mainOf, notes, furniture := MainOf(chains, members, floats), With(chains, members, floats, Apart(1)), With(chains, members, floats, Apart(2));
    var a, b, d := WithCaptions(chains, members, floats, CutOrder(chains, mainOf, gutter)), CutOrder(chains, notes, gutter), CutOrder(chains, furniture, gutter);
    if ReadBefore(chains, mainOf, gutter, c, e) {
      CutOrderByGaps(chains, mainOf, gutter, c, e);
      CaptionsKeepOrder(chains, members, floats, CutOrder(chains, mainOf, gutter), c, e);
    } else if ReadBefore(chains, notes, gutter, c, e) {
      CutOrderByGaps(chains, notes, gutter, c, e);
    } else {
      CutOrderByGaps(chains, furniture, gutter, c, e);
    }
    PrecedesConcat(a, b, c, e);
    PrecedesConcat(a + b, d, c, e);
  }

  // ----- The program for one page.

  lemma SelectStep(s: seq<nat>, head: nat, rest: seq<nat>, p: nat -> bool)
    requires s == [head] + rest
    ensures Select(s, p) == (if p(head) then [head] else []) + Select(rest, p)
  {
    assert s[1..] == rest;
  }

  lemma {:induction false} SelectGrows(s: seq<nat>, x: nat, p: nat -> bool)
    ensures Select(s + [x], p) == Select(s, p) + (if p(x) then [x] else [])
  {
    if s == [] {
      SelectStep(s + [x], x, [], p);
    } else {
      SelectGrows(s[1..], x, p);
      assert s + [x] == [s[0]] + (s[1..] + [x]);
      SelectStep(s + [x], s[0], s[1..] + [x], p);
      SelectStep(s, s[0], s[1..], p);
      hide Select;
    }
  }

  lemma {:induction false} SelectTwice(s: seq<nat>, p: nat -> bool, q: nat -> bool)
    requires forall x: nat :: q(x) ==> p(x)
    ensures Select(Select(s, p), q) == Select(s, q)
  {
    if s != [] {
      SelectTwice(s[1..], p, q);
      var rest := Select(s[1..], p);
      if p(s[0]) {
        assert Select(s, p) == [s[0]] + rest && ([s[0]] + rest)[1..] == rest;
      } else {
        assert Select(s, p) == rest;
      }
    }
  }

  function IsCaption(chains: seq<Chain>): nat -> bool {
    (c: nat) => KindOf(chains, c).Caption?
  }

  /** The first loop: every member to the list of its role, captions still together. */
  method Classify(chains: seq<Chain>, members: seq<nat>) returns (text: seq<nat>, floats: seq<nat>, captions: seq<nat>, notes: seq<nat>, furniture: seq<nat>)
    requires Placed(chains, members)
    ensures floats == Select(members, IsFloat(chains)) && captions == Select(members, IsCaption(chains))
    ensures text == With(chains, members, floats, Text)
    ensures notes == With(chains, members, floats, Apart(1)) && furniture == With(chains, members, floats, Apart(2))
  {
    text, floats, captions, notes, furniture := [], [], [], [], [];
    ghost var all := Select(members, IsFloat(chains));
    for n := 0 to |members|
      invariant floats == Select(members[..n], IsFloat(chains)) && captions == Select(members[..n], IsCaption(chains))
      invariant text == With(chains, members[..n], all, Text)
      invariant notes == With(chains, members[..n], all, Apart(1)) && furniture == With(chains, members[..n], all, Apart(2))
    {
      var c := members[n];
      assert members[..n + 1] == members[..n] + [c];
      SelectGrows(members[..n], c, IsFloat(chains));
      SelectGrows(members[..n], c, IsCaption(chains));
      SelectGrows(members[..n], c, HasRole(chains, all, Text));
      SelectGrows(members[..n], c, HasRole(chains, all, Apart(1)));
      SelectGrows(members[..n], c, HasRole(chains, all, Apart(2)));
      assert c in members;
      hide Select, Target, Placed;
      var kind := chains[c].kind;
      if IsFurniture(kind) {
        furniture := furniture + [c];
      } else if kind.Footnote? {
        notes := notes + [c];
      } else if kind.Caption? {
        captions := captions + [c];
      } else {
        text := text + [c];
        if kind.Table? || kind.Picture? { floats := floats + [c]; }
      }
    }
    assert members[..|members|] == members;
  }

  ghost predicate BoundSoFar(chains: seq<Chain>, captions: seq<nat>, floats: seq<nat>, bound: map<nat, seq<nat>>) {
    forall f: nat :: With(chains, captions, floats, BoundTo(f)) == if f in bound then bound[f] else []
  }

  lemma BoundGrows(chains: seq<Chain>, captions: seq<nat>, floats: seq<nat>, bound: map<nat, seq<nat>>, c: nat, f: nat)
    requires BoundSoFar(chains, captions, floats, bound) && RoleOf(chains, floats, c) == BoundTo(f)
    ensures BoundSoFar(chains, captions + [c], floats, bound[f := (if f in bound then bound[f] else []) + [c]])
  {
    forall g: nat { SelectGrows(captions, c, HasRole(chains, floats, BoundTo(g))); }
    hide Select, RoleOf;
  }

  lemma LooseGrows(chains: seq<Chain>, captions: seq<nat>, floats: seq<nat>, bound: map<nat, seq<nat>>, c: nat)
    requires BoundSoFar(chains, captions, floats, bound) && RoleOf(chains, floats, c) == Loose
    ensures BoundSoFar(chains, captions + [c], floats, bound)
  {
    forall g: nat { SelectGrows(captions, c, HasRole(chains, floats, BoundTo(g))); }
    hide Select, RoleOf;
  }

  /** The second loop: each caption to its float, or to the main text. */
  method BindCaptions(chains: seq<Chain>, captions: seq<nat>, floats: seq<nat>) returns (bound: map<nat, seq<nat>>, loose: seq<nat>)
    requires Placed(chains, captions) && Placed(chains, floats)
    requires forall c :: c in captions ==> KindOf(chains, c).Caption?
    ensures loose == With(chains, captions, floats, Loose) && BoundSoFar(chains, captions, floats, bound)
  {
    bound, loose := map[], [];
    hide BoundSoFar, Target;
    NoneBound(chains, floats);
    for n := 0 to |captions|
      invariant loose == With(chains, captions[..n], floats, Loose) && BoundSoFar(chains, captions[..n], floats, bound)
    {
      var c := captions[n];
      assert captions[..n + 1] == captions[..n] + [c];
      assert c in captions;
      SelectGrows(captions[..n], c, HasRole(chains, floats, Loose));
      hide Select;
      var target := CaptionTarget(chains, c, floats);
      assert RoleOf(chains, floats, c) == if target.Some? then BoundTo(target.value) else Loose;
      if target.Some? {
        BoundGrows(chains, captions[..n], floats, bound, c, target.value);
        bound := bound[target.value := (if target.value in bound then bound[target.value] else []) + [c]];
      } else {
        LooseGrows(chains, captions[..n], floats, bound, c);
        loose := loose + [c];
      }
    }
    assert captions[..|captions|] == captions;
  }

  lemma NoneBound(chains: seq<Chain>, floats: seq<nat>)
    ensures BoundSoFar(chains, [], floats, map[]) && With(chains, [], floats, Loose) == []
  {
  }

  lemma {:induction false} WithCaptionsGrows(chains: seq<Chain>, members: seq<nat>, floats: seq<nat>, order: seq<nat>, x: nat)
    ensures WithCaptions(chains, members, floats, order + [x])
         == WithCaptions(chains, members, floats, order) + [x] + With(chains, members, floats, BoundTo(x))
  {
    hide With;
    if order == [] {
      assert order + [x] == [x] && [x][1..] == [];
    } else {
      assert (order + [x])[1..] == order[1..] + [x];
      WithCaptionsGrows(chains, members, floats, order[1..], x);
    }
  }

  lemma CaptionRoles(chains: seq<Chain>, members: seq<nat>, floats: seq<nat>)
    ensures forall f: nat :: With(chains, Select(members, IsCaption(chains)), floats, BoundTo(f)) == With(chains, members, floats, BoundTo(f))
    ensures With(chains, Select(members, IsCaption(chains)), floats, Loose) == With(chains, members, floats, Loose)
  {
    forall f: nat { SelectTwice(members, IsCaption(chains), HasRole(chains, floats, BoundTo(f))); }
    SelectTwice(members, IsCaption(chains), HasRole(chains, floats, Loose));
  }

  method OrderPage(chains: seq<Chain>, members: seq<nat>, gutter: Gutter) returns (ordered: seq<nat>)
    requires Placed(chains, members)
    ensures ordered == PageOrder(chains, members, gutter)
  {
    hide CutOrder, Placed, With, BoundSoFar;
    var text, floats, captions, notes, furniture := Classify(chains, members);
    SelectedPlaced(chains, members, IsFloat(chains));
    SelectedPlaced(chains, members, IsCaption(chains));
    SelectIs(members, IsCaption(chains));
    PartsPlaced(chains, members, floats);
    var bound, loose := BindCaptions(chains, captions, floats);
    CaptionRoles(chains, members, floats);
    hide Select;
    var cut := CutChains(chains, text + loose, gutter);
    ordered := WithFollowers(chains, members, captions, floats, cut, bound);
    var cutNotes := CutChains(chains, notes, gutter);
    var cutFurniture := CutChains(chains, furniture, gutter);
    ordered := ordered + cutNotes + cutFurniture;
  }

  /** The third loop: each chain of the cut, then the captions bound to it. */
  method WithFollowers(chains: seq<Chain>, ghost members: seq<nat>, ghost captions: seq<nat>, ghost floats: seq<nat>, cut: seq<nat>, bound: map<nat, seq<nat>>)
      returns (ordered: seq<nat>)
    requires BoundSoFar(chains, captions, floats, bound)
    requires forall f: nat :: With(chains, captions, floats, BoundTo(f)) == With(chains, members, floats, BoundTo(f))
    ensures ordered == WithCaptions(chains, members, floats, cut)
  {
    hide With;
    ordered := [];
    for n := 0 to |cut|
      invariant ordered == WithCaptions(chains, members, floats, cut[..n])
    {
      assert cut[..n + 1] == cut[..n] + [cut[n]];
      WithCaptionsGrows(chains, members, floats, cut[..n], cut[n]);
      assert With(chains, captions, floats, BoundTo(cut[n])) == if cut[n] in bound then bound[cut[n]] else [];
      ordered := ordered + [cut[n]];
      if cut[n] in bound { ordered := ordered + bound[cut[n]]; }
    }
    assert cut[..|cut|] == cut;
  }
}
