/** A title set in several lines: the lines behind its first are folded into it and retired (src/heading_hierarchy.cpp). */
module TitleLines {
  import opened Bytes
  import opened Documents
  import opened Continuations
  import opened Retirement
  import opened RetirementKeeps
  import opened RetirementOrder

  /** A heading the pass looks at: the name it goes by and its place among the texts. */
  type Heading = (Ref, nat)

  ghost predicate NamesHeadings(texts: seq<Item>, found: seq<Heading>) {
    forall h :: h in found ==> h.1 < |texts| && h.0 == NameOf(texts, h.1)
  }

  // ----- What is folded.

  predicate IsHeading(found: seq<Heading>, r: Ref) {
    exists k :: 0 <= k < |found| && found[k].0 == r
  }

  /** The first n lines are headings that stand one behind the other in the body, the first at `at`. */
  ghost predicate RunsAt(body: seq<Ref>, found: seq<Heading>, lines: seq<Ref>, at: nat, n: nat) {
    && n <= |lines| && at + n <= |body|
    && forall k :: 0 <= k < n ==> body[at + k] == lines[k] && IsHeading(found, lines[k])
  }

  ghost predicate IsRun(body: seq<Ref>, found: seq<Heading>, lines: seq<Ref>, n: nat) {
    exists at: nat :: RunsAt(body, found, lines, at, n)
  }

  /** The lines behind the first, each absorbed by it. */
  function LinesAbsorbed(lines: seq<Ref>, n: nat): (m: map<Ref, Ref>)
    requires 0 < n <= |lines|
    ensures forall r :: r in m <==> r in lines[1..n]
    ensures forall r :: r in m ==> m[r] == lines[0]
  {
    map r | r in lines[1..n] :: lines[0]
  }

  /** The first line with the others' texts behind its own. */
  ghost function Titled(join: (string, string) -> string, texts: seq<Item>, lines: seq<Ref>, n: nat): (titled: seq<Item>)
    requires 0 < n <= |lines| && IsText(lines[0]) && lines[0].index < |texts|
    ensures |titled| == |texts|
  {
    var head := texts[lines[0].index];
    texts[lines[0].index := head.(content := JoinedAll(join, head.content, texts, lines[1..n]))]
  }

  // ----- What is folded can be retired.

  lemma HeadingName(d: Document, found: seq<Heading>, h: Heading)
    requires Named(d) && NamesHeadings(d.arenas[Texts], found) && h in found
    ensures h.0 == At(Texts, h.1) && Resolves(d, h.0)
  {
    var texts := d.arenas[Texts];
    assert Resolves(d, At(Texts, h.1));
    assert texts[h.1].selfRef.Some? ==> texts[h.1].selfRef.value == At(Texts, h.1);
  }

  lemma LineResolves(d: Document, found: seq<Heading>, r: Ref)
    requires Named(d) && NamesHeadings(d.arenas[Texts], found) && IsHeading(found, r)
    ensures IsText(r) && Resolves(d, r)
  {
    var k :| 0 <= k < |found| && found[k].0 == r;
    HeadingName(d, found, found[k]);
  }

  /** The lines of a run are distinct children of the body. */
  lemma RunDistinct(d: Document, found: seq<Heading>, lines: seq<Ref>, at: nat, n: nat)
    requires WellFormed(d) && RunsAt(d.body, found, lines, at, n)
    ensures Distinct(lines[..n]) && forall k :: 0 <= k < n ==> lines[k] in ChildrenOf(d, Body)
  {
    ListSound(d, Body);
    hide WellFormed, IsHeading;
    forall i, j | 0 <= i < j < n ensures lines[i] != lines[j] {
      assert d.body[at + i] != d.body[at + j];
    }
  }

  lemma RunLine(d: Document, found: seq<Heading>, lines: seq<Ref>, at: nat, n: nat, k: nat)
    requires WellFormed(d) && NamesHeadings(d.arenas[Texts], found) && RunsAt(d.body, found, lines, at, n) && k < n
    ensures IsText(lines[k]) && Resolves(d, lines[k]) && ItemAt(d, lines[k]).parent == Some(Body)
  {
    assert lines[k] == d.body[at + k];
    LineResolves(d, found, lines[k]);
    LinkedBothWays(d, Body, lines[k]);
  }

  lemma RunMember(d: Document, found: seq<Heading>, lines: seq<Ref>, at: nat, n: nat, r: Ref)
    requires WellFormed(d) && NamesHeadings(d.arenas[Texts], found) && RunsAt(d.body, found, lines, at, n) && 0 < n && r in lines[1..n]
    ensures IsText(r) && Resolves(d, r) && ItemAt(d, r).parent == Some(Body)
  {
    hide WellFormed, NamesHeadings, IsHeading, ItemAt, Resolves;
    var k :| 0 <= k < |lines[1..n]| && lines[1..n][k] == r;
    RunLine(d, found, lines, at, n, k + 1);
  }

  lemma RunOrder(lines: seq<Ref>, n: nat)
    requires 0 < n <= |lines| && Distinct(lines[..n])
    ensures lines[0] !in lines[1..n] && IsOrder(lines[1..n], LinesAbsorbed(lines, n))
  {
    forall k | 0 <= k < |lines[1..n]| ensures lines[1..n][k] != lines[0] {
      assert lines[..n][k + 1] != lines[..n][0];
    }
    forall i, j | 0 <= i < j < |lines[1..n]| ensures lines[1..n][i] != lines[1..n][j] {
      assert lines[..n][i + 1] != lines[..n][j + 1];
    }
  }

  lemma BodyAbsorption(d: Document, absorbedBy: map<Ref, Ref>, survivor: Ref)
    requires IsText(survivor) && Resolves(d, survivor) && survivor !in absorbedBy
    requires forall r :: r in absorbedBy ==> absorbedBy[r] == survivor
    requires forall r :: r in absorbedBy ==> IsText(r) && Resolves(d, r) && ItemAt(d, r).parent == Some(Body)
    ensures Absorption(d, absorbedBy)
  {
    hide Resolves, ItemAt;
    assert Body !in absorbedBy;
  }

  /** Every line folded away is a child of the body absorbed by one that stays: there is no chain. */
  lemma TitleAbsorption(d: Document, found: seq<Heading>, lines: seq<Ref>, n: nat)
    requires WellFormed(d) && NamesHeadings(d.arenas[Texts], found) && 0 < n && IsRun(d.body, found, lines, n)
    ensures Distinct(lines[..n]) && Absorption(d, LinesAbsorbed(lines, n))
  {
    var at: nat :| RunsAt(d.body, found, lines, at, n);
    hide RunsAt, IsRun, IsHeading, Resolves, ItemAt, LinesAbsorbed, IsOrder, NamesHeadings, Distinct, WellFormed, Absorption;
    RunDistinct(d, found, lines, at, n);
    RunOrder(lines, n);
    var absorbedBy := LinesAbsorbed(lines, n);
    RunLine(d, found, lines, at, n, 0);
    forall r | r in absorbedBy ensures IsText(r) && Resolves(d, r) && ItemAt(d, r).parent == Some(Body) {
      RunMember(d, found, lines, at, n, r);
    }
    BodyAbsorption(d, absorbedBy, lines[0]);
  }

  // ----- What the document becomes.

  /** The document well-formed, its body in order, of the lines only the first left, which has all their text;
      other texts as they were. */
  ghost predicate Outcome(d: Document, e: Document, join: (string, string) -> string, lines: seq<Ref>, n: nat)
    requires 0 < n <= |lines|
  {
    var absorbedBy := LinesAbsorbed(lines, n);
    && WellFormed(e) && |e.arenas[Texts]| == Stay(absorbedBy, |d.arenas[Texts]|) && BodyKept(d, e, absorbedBy)
    && forall i: nat :: i < |d.arenas[Texts]| && At(Texts, i) !in absorbedBy ==> KeptText(d, e, join, lines, n, i)
  }

  ghost predicate KeptText(d: Document, e: Document, join: (string, string) -> string, lines: seq<Ref>, n: nat, i: nat)
    requires 0 < n <= |lines| && i < |d.arenas[Texts]|
  {
    var slot, was := Slot(LinesAbsorbed(lines, n), At(Texts, i)), d.arenas[Texts][i].content;
    Resolves(e, slot) && ItemAt(e, slot).content
      == if At(Texts, i) == lines[0] then JoinedAll(join, was, d.arenas[Texts], lines[1..n]) else was
  }

  lemma TitledFrames(d: Document, join: (string, string) -> string, lines: seq<Ref>, n: nat)
    requires 0 < n <= |lines| && IsText(lines[0]) && Resolves(d, lines[0])
    ensures SameFrames(d.arenas[Texts], Titled(join, d.arenas[Texts], lines, n))
    ensures LinksFrom(d.arenas[Texts], Titled(join, d.arenas[Texts], lines, n))
  {
    hide JoinedAll;
    var was, texts := d.arenas[Texts], Titled(join, d.arenas[Texts], lines, n);
    forall i, l | 0 <= i < |texts| && l in texts[i].links ensures exists j :: 0 <= j < |was| && l in was[j].links {
      assert l in was[i].links;
    }
  }

  lemma AbsorptionStays(d: Document, texts: seq<Item>, absorbedBy: map<Ref, Ref>)
    requires Absorption(d, absorbedBy) && SameFrames(d.arenas[Texts], texts)
    ensures Absorption(WithTexts(d, texts), absorbedBy)
  {
    hide SameFrames, WithTexts;
    forall r: Ref
      ensures Resolves(WithTexts(d, texts), r) <==> Resolves(d, r)
      ensures Resolves(d, r) ==> ItemAt(WithTexts(d, texts), r).selfRef == ItemAt(d, r).selfRef
      ensures Resolves(d, r) ==> ItemAt(WithTexts(d, texts), r).parent == ItemAt(d, r).parent
    {
      FramesKeep(d, texts, r);
    }
    hide Resolves, ItemAt;
  }

  /** Whatever the order of the visits: the title is joined in one line and nothing else is lost. */
  lemma TitleOutcome(d: Document, found: seq<Heading>, join: (string, string) -> string, lines: seq<Ref>, n: nat, order: seq<Ref>)
    requires WellFormed(d) && NamesHeadings(d.arenas[Texts], found) && 0 < n && IsRun(d.body, found, lines, n)
    requires IsOrder(order, LinesAbsorbed(lines, n))
    ensures IsText(lines[0]) && lines[0].index < |d.arenas[Texts]|
    ensures Outcome(d, Retire(WithTexts(d, Titled(join, d.arenas[Texts], lines, n)), LinesAbsorbed(lines, n), order), join, lines, n)
  {
    var at: nat :| RunsAt(d.body, found, lines, at, n);
    LineResolves(d, found, lines[0]);
    var absorbedBy, texts := LinesAbsorbed(lines, n), Titled(join, d.arenas[Texts], lines, n);
    TitleAbsorption(d, found, lines, n);
    TitledFrames(d, join, lines, n);
    AbsorptionStays(d, texts, absorbedBy);
    FramesKeepWellFormed(d, texts);
    hide WellFormed, Absorption, SameFrames, LinksFrom, RunsAt, IsRun, Retire, IsOrder, JoinedAll, LinesAbsorbed, Stay;
    var mid := WithTexts(d, texts);
    RetireKeepsWellFormed(mid, absorbedBy, order);
    RetiredSizes(mid, absorbedBy, order);
    RetiredBody(mid, absorbedBy, order);
    SameBody(d, mid, Retire(mid, absorbedBy, order), absorbedBy);
    hide BodyKept;
    forall i: nat | i < |texts| && At(Texts, i) !in absorbedBy ensures KeptText(d, Retire(mid, absorbedBy, order), join, lines, n, i) {
      RetiredItem(mid, absorbedBy, order, At(Texts, i));
    }
  }

  // ----- The program.

  /** The first place of each reference in a list. */
  ghost predicate IsPlaces(refs: seq<Ref>, places: map<Ref, nat>) {
    && (forall r :: r in places <==> r in refs)
    && forall r :: r in places ==> places[r] < |refs| && refs[places[r]] == r && r !in refs[..places[r]]
  }

  method Places(refs: seq<Ref>) returns (places: map<Ref, nat>)
    ensures IsPlaces(refs, places)
  {
    places := map[];
    for index: nat := 0 to |refs|
      invariant forall r :: r in places <==> r in refs[..index]
      invariant forall r :: r in places ==> places[r] < index && refs[places[r]] == r && r !in refs[..places[r]]
    {
      assert refs[..index + 1] == refs[..index] + [refs[index]];
      if refs[index] !in places { places := places[refs[index] := index]; }
    }
    assert refs[..|refs|] == refs;
  }

  ghost predicate IsHeadings(found: seq<Heading>, headings: map<Ref, nat>) {
    && (forall r :: r in headings <==> IsHeading(found, r))
    && forall r :: r in headings ==> (r, headings[r]) in found
  }

  method HeadingPlaces(found: seq<Heading>) returns (places: map<Ref, nat>)
    ensures IsHeadings(found, places)
  {
    places := map[];
    for k: nat := 0 to |found|
      invariant forall r :: r in places <==> exists j :: 0 <= j < k && found[j].0 == r
      invariant forall r :: r in places ==> (r, places[r]) in found
    {
      if found[k].0 !in places { places := places[found[k].0 := found[k].1]; }
    }
  }

  lemma RunAtHead(body: seq<Ref>, found: seq<Heading>, lines: seq<Ref>, at: nat, n: nat)
    requires Distinct(body) && lines != [] && at < |body| && body[at] == lines[0] && 0 < n
    ensures IsRun(body, found, lines, n) <==> RunsAt(body, found, lines, at, n)
  {
    hide IsHeading;
    forall other: nat | RunsAt(body, found, lines, other, n) ensures other == at {
      assert body[other + 0] == lines[0];
    }
  }

  /** One more line: the next child of the body is it, and it is a heading. */
  lemma RunGrows(body: seq<Ref>, found: seq<Heading>, lines: seq<Ref>, at: nat, n: nat)
    requires RunsAt(body, found, lines, at, n) && n < |lines|
    ensures RunsAt(body, found, lines, at, n + 1) <==> at + n < |body| && body[at + n] == lines[n] && IsHeading(found, lines[n])
  {
    hide IsHeading;
  }

  lemma AbsorbsNext(lines: seq<Ref>, n: nat)
    requires 0 < n < |lines|
    ensures LinesAbsorbed(lines, n + 1) == LinesAbsorbed(lines, n)[lines[n] := lines[0]]
  {
    assert lines[1..n + 1] == lines[1..n] + [lines[n]];
  }

  lemma TitledNext(join: (string, string) -> string, texts: seq<Item>, lines: seq<Ref>, n: nat)
    requires 0 < n < |lines| && IsText(lines[0]) && lines[0].index < |texts|
    requires IsText(lines[n]) && lines[n].index < |texts| && lines[n] != lines[0]
    ensures
      var was := Titled(join, texts, lines, n);
      var head, tail := was[lines[0].index], was[lines[n].index];
      Titled(join, texts, lines, n + 1) == was[lines[0].index := head.(content := join(head.content, tail.content))]
  {
    var refs := lines[1..n + 1];
    assert refs[..|refs| - 1] == lines[1..n] && refs[|refs| - 1] == lines[n];
    assert lines[0] == At(Texts, lines[0].index) && lines[n] == At(Texts, lines[n].index);
  }

  lemma ShortRun(body: seq<Ref>, found: seq<Heading>, lines: seq<Ref>)
    ensures |lines| < 2 || lines[0] !in body || !IsHeading(found, lines[0]) ==> !IsRun(body, found, lines, 2)
  {
    hide IsHeading;
  }

  lemma HeadingIndex(d: Document, found: seq<Heading>, r: Ref, index: nat)
    requires WellFormed(d) && NamesHeadings(d.arenas[Texts], found) && (r, index) in found
    ensures r == At(Texts, index) && index < |d.arenas[Texts]|
  {
    HeadingName(d, found, (r, index));
  }

  lemma HeadRuns(d: Document, found: seq<Heading>, lines: seq<Ref>, at: nat)
    requires lines != [] && at < |d.body| && d.body[at] == lines[0] && IsHeading(found, lines[0])
    ensures RunsAt(d.body, found, lines, at, 1) && LinesAbsorbed(lines, 1) == map[]
  {
    hide IsHeading;
  }

  lemma OneLineTitled(d: Document, join: (string, string) -> string, lines: seq<Ref>)
    requires lines != [] && IsText(lines[0]) && lines[0].index < |d.arenas[Texts]|
    ensures WithTexts(d, Titled(join, d.arenas[Texts], lines, 1)) == d
  {
    var texts := d.arenas[Texts];
    assert lines[1..1] == [];
    assert Titled(join, texts, lines, 1) == texts;
    assert d.arenas[Texts := texts] == d.arenas;
  }

  /** What the loop's test says of the next line. */
  lemma NextLine(d: Document, found: seq<Heading>, lines: seq<Ref>, positions: map<Ref, nat>, headings: map<Ref, nat>, at: nat, n: nat)
    requires WellFormed(d) && IsPlaces(d.body, positions) && IsHeadings(found, headings)
    requires RunsAt(d.body, found, lines, at, n) && 0 < n < |lines|
    ensures
      var r := lines[n];
      RunsAt(d.body, found, lines, at, n + 1) <==> r in positions && r in headings && positions[r] == at + n
    ensures RunsAt(d.body, found, lines, at, n + 1) ==> lines[n] !in lines[..n]
  {
    hide WellFormed, IsHeading;
    ListSound(d, Body);
    forall k | 0 <= k < n && RunsAt(d.body, found, lines, at, n + 1) ensures lines[k] != lines[n] {
      assert d.body[at + k] != d.body[at + n];
    }
    RunGrows(d.body, found, lines, at, n);
    if at + n < |d.body| && d.body[at + n] == lines[n] { assert lines[n] in d.body; }
  }

  lemma NoLongerRun(body: seq<Ref>, found: seq<Heading>, lines: seq<Ref>, at: nat)
    ensures !RunsAt(body, found, lines, at, |lines| + 1)
  {
  }

  lemma FoldedNext(d: Document, join: (string, string) -> string, lines: seq<Ref>, n: nat)
    requires 0 < n < |lines| && IsText(lines[0]) && lines[0].index < |d.arenas[Texts]|
    requires IsText(lines[n]) && lines[n].index < |d.arenas[Texts]| && lines[n] != lines[0]
    ensures
      var mid := WithTexts(d, Titled(join, d.arenas[Texts], lines, n));
      var was := mid.arenas[Texts];
      var head, tail := was[lines[0].index], was[lines[n].index];
      WithTexts(mid, was[lines[0].index := head.(content := join(head.content, tail.content))])
      == WithTexts(d, Titled(join, d.arenas[Texts], lines, n + 1))
  {
    TitledNext(join, d.arenas[Texts], lines, n);
    hide Titled;
    var texts := Titled(join, d.arenas[Texts], lines, n + 1);
    assert d.arenas[Texts := Titled(join, d.arenas[Texts], lines, n)][Texts := texts] == d.arenas[Texts := texts];
  }

  /** What the loop leaves behind, retired. */
  lemma TitleMerged(d: Document, found: seq<Heading>, join: (string, string) -> string, lines: seq<Ref>, at: nat, n: nat)
    requires WellFormed(d) && NamesHeadings(d.arenas[Texts], found) && 0 < n
    requires RunsAt(d.body, found, lines, at, n) && !RunsAt(d.body, found, lines, at, n + 1)
    ensures IsText(lines[0]) && lines[0].index < |d.arenas[Texts]|
    ensures IsRun(d.body, found, lines, n) && !IsRun(d.body, found, lines, n + 1) && IsOrder(lines[1..n], LinesAbsorbed(lines, n))
    ensures Outcome(d, Retire(WithTexts(d, Titled(join, d.arenas[Texts], lines, n)), LinesAbsorbed(lines, n), lines[1..n]), join, lines, n)
  {
    RunHead(d.body, found, lines, at, n);
    hide WellFormed, NamesHeadings, RunsAt, IsRun, IsOrder, LinesAbsorbed, Outcome, Titled, Retire, WithTexts;
    ListSound(d, Body);
    RunAtHead(d.body, found, lines, at, n);
    RunAtHead(d.body, found, lines, at, n + 1);
    TitleAbsorption(d, found, lines, n);
    RunOrder(lines, n);
    TitleOutcome(d, found, join, lines, n, lines[1..n]);
  }

  lemma RunHead(body: seq<Ref>, found: seq<Heading>, lines: seq<Ref>, at: nat, n: nat)
    requires RunsAt(body, found, lines, at, n) && 0 < n
    ensures lines != [] && at < |body| && body[at] == lines[0]
  {
    hide IsHeading;
    assert body[at + 0] == lines[0];
  }

  /** The tail's text put behind the head's, in place. */
  method FoldLine(doc: DocumentObject, head: nat, tail: nat, join: (string, string) -> string)
    requires head < |doc.arenas[Texts]| && tail < |doc.arenas[Texts]|
    modifies doc`arenas
    ensures
      var was := old(doc.arenas[Texts]);
      doc.Value() == WithTexts(old(doc.Value()), was[head := was[head].(content := join(was[head].content, was[tail].content))])
  {
    var texts := doc.arenas[Texts];
    var joined := texts[head].(content := join(texts[head].content, texts[tail].content));
    doc.arenas := doc.arenas[Texts := texts[head := joined]];
  }

  /** Where the program's loop stands after the first n lines. */
  ghost predicate Folded(d: Document, e: Document, found: seq<Heading>, join: (string, string) -> string, lines: seq<Ref>,
                         at: nat, n: nat, absorbed: map<Ref, Ref>, order: seq<Ref>)
  {
    && 0 < n <= |lines| && RunsAt(d.body, found, lines, at, n) && IsText(lines[0]) && lines[0].index < |d.arenas[Texts]|
    && absorbed == LinesAbsorbed(lines, n) && |absorbed| == n - 1 && order == lines[1..n]
    && e == WithTexts(d, Titled(join, d.arenas[Texts], lines, n))
  }

  lemma FoldStart(d: Document, found: seq<Heading>, join: (string, string) -> string, lines: seq<Ref>, at: nat, head: nat)
    requires WellFormed(d) && NamesHeadings(d.arenas[Texts], found) && lines != []
    requires at < |d.body| && d.body[at] == lines[0] && IsHeading(found, lines[0]) && (lines[0], head) in found
    ensures Folded(d, d, found, join, lines, at, 1, map[], []) && lines[0] == At(Texts, head)
  {
    hide WellFormed, NamesHeadings, IsHeading, RunsAt, LinesAbsorbed, Titled, WithTexts;
    HeadRuns(d, found, lines, at);
    HeadingIndex(d, found, lines[0], head);
    OneLineTitled(d, join, lines);
  }

  lemma FoldStep(d: Document, e: Document, found: seq<Heading>, join: (string, string) -> string, lines: seq<Ref>,
                 at: nat, n: nat, absorbed: map<Ref, Ref>, order: seq<Ref>, tail: nat)
    requires WellFormed(d) && NamesHeadings(d.arenas[Texts], found) && Folded(d, e, found, join, lines, at, n, absorbed, order)
    requires n < |lines| && RunsAt(d.body, found, lines, at, n + 1) && lines[n] !in lines[..n] && (lines[n], tail) in found
    ensures lines[0].At? && lines[0].index < |e.arenas[Texts]| && tail < |e.arenas[Texts]|
    ensures
      var was := e.arenas[Texts];
      var head := was[lines[0].index];
      Folded(d, WithTexts(e, was[lines[0].index := head.(content := join(head.content, was[tail].content))]),
             found, join, lines, at, n + 1, absorbed[lines[n] := lines[0]], order + [lines[n]])
  {
    hide WellFormed, NamesHeadings, IsHeading, RunsAt, LinesAbsorbed, Titled;
    HeadingIndex(d, found, lines[n], tail);
    FoldedNext(d, join, lines, n);
    AbsorbsNext(lines, n);
  }

  /** The program's loop: folds what follows the first line, child of the body by child. */
  method CollectTitleLines(doc: DocumentObject, found: seq<Heading>, lines: seq<Ref>, positions: map<Ref, nat>, headings: map<Ref, nat>,
                           join: (string, string) -> string)
    returns (absorbed: map<Ref, Ref>, order: seq<Ref>)
    requires WellFormed(doc.Value()) && NamesHeadings(doc.arenas[Texts], found) && lines != []
    requires IsPlaces(doc.body, positions) && IsHeadings(found, headings) && lines[0] in positions && lines[0] in headings
    modifies doc`arenas
    ensures
      var d, at, n := old(doc.Value()), positions[lines[0]], |order| + 1;
      Folded(d, doc.Value(), found, join, lines, at, n, absorbed, order) && !RunsAt(d.body, found, lines, at, n + 1)
  {
    hide WellFormed, IsHeading, NamesHeadings, RunsAt, Folded;
    ghost var d := doc.Value();
    var at, head := positions[lines[0]], headings[lines[0]];
    FoldStart(d, found, join, lines, at, head);
    absorbed, order := map[], [];
    var expected, line: nat := at + 1, 1;
    while line < |lines|
      invariant 1 <= line <= |lines| && expected == at + line && |order| == line - 1
      invariant Folded(d, doc.Value(), found, join, lines, at, line, absorbed, order)
    {
      var r := lines[line];
      FoldedRuns(d, doc.Value(), found, join, lines, at, line, absorbed, order);
      NextLine(d, found, lines, positions, headings, at, line);
      if r !in positions || r !in headings || positions[r] != expected { return; }
      FoldStep(d, doc.Value(), found, join, lines, at, line, absorbed, order, headings[r]);
      FoldLine(doc, head, headings[r], join);
      absorbed, order := absorbed[r := lines[0]], order + [r];
      expected, line := expected + 1, line + 1;
    }
    NoLongerRun(d.body, found, lines, at);
  }

  lemma FoldedRuns(d: Document, e: Document, found: seq<Heading>, join: (string, string) -> string, lines: seq<Ref>,
                   at: nat, n: nat, absorbed: map<Ref, Ref>, order: seq<Ref>)
    requires Folded(d, e, found, join, lines, at, n, absorbed, order)
    ensures RunsAt(d.body, found, lines, at, n)
  {
  }

  /** Folds the lines of a title into its first and retires them. */
  method MergeTitleLines(doc: DocumentObject, found: seq<Heading>, lines: seq<Ref>, join: (string, string) -> string) returns (merged: nat)
    requires WellFormed(doc.Value()) && NamesHeadings(doc.arenas[Texts], found)
    modifies doc
    ensures merged > 0 ==> IsRun(old(doc.body), found, lines, merged + 1)
    ensures !IsRun(old(doc.body), found, lines, merged + 2)
    ensures merged == 0 ==> doc.Value() == old(doc.Value())
    ensures merged > 0 ==> Outcome(old(doc.Value()), doc.Value(), join, lines, merged + 1)
  {
    hide WellFormed, IsHeading, NamesHeadings, RunsAt, IsRun, Titled, LinesAbsorbed, Outcome, Retire, WithTexts;
    ghost var d := doc.Value();
    ShortRun(d.body, found, lines);
    if |lines| < 2 { return 0; }
    var positions := Places(doc.body);
    var headings := HeadingPlaces(found);
    if lines[0] !in positions || lines[0] !in headings { return 0; }
    var absorbed, order := CollectTitleLines(doc, found, lines, positions, headings, join);
    merged := |absorbed|;
    OneLineTitled(d, join, lines);
    TitleMerged(d, found, join, lines, positions[lines[0]], merged + 1);
    if absorbed != map[] { RetireTextItems(doc, absorbed, order); }
  }
}
