/** What the texts of a page assembly read like (src/document_assembly.cpp): the lines of a block, the items of
    a page and the plain text of a document, each by what stands beside what. */
module PageTexts {
  import opened Bytes
  import opened LeadBytes
  import opened MarkerSplit
  import opened PageOffsets

  // ----- The lines of a block.

  /** The first n lines are empty. */
  ghost predicate AllEmpty(block: Block, n: nat)
    requires n <= |block.lines|
  {
    forall j :: 0 <= j < n ==> block.lines[j] == []
  }

  /** The line stands between `before` and `after`: behind one separator unless everything before it is empty,
      and the next line behind it in the same way. */
  ghost predicate LineBetween(block: Block, k: nat, before: Text, after: Text)
    requires k < |block.lines|
  {
    var separator := if block.code then '\n' as int else ' ' as int;
    var line := block.lines[k];
    && (if AllEmpty(block, k) then before == [] else before != [] && before[|before| - 1] == separator)
    && (k + 1 == |block.lines| ==> after == [])
    && (k + 1 < |block.lines| && before + line != [] ==> [separator] + block.lines[k + 1] <= after)
    && (k + 1 < |block.lines| && before + line == [] ==> block.lines[k + 1] <= after)
  }

  lemma {:induction false} MergedEmpty(block: Block, n: nat)
    requires n <= |block.lines|
    ensures Merged(block, n) == [] <==> AllEmpty(block, n)
  {
    if n > 0 {
      MergedEmpty(block, n - 1);
      var before := Merged(block, n - 1);
      assert Merged(block, n) == before + Glue(before, SeparatorOf(block)) + block.lines[n - 1];
      hide Merged;
      assert AllEmpty(block, n) <==> AllEmpty(block, n - 1) && block.lines[n - 1] == [];
    }
  }

  lemma {:induction false} MergedReaches(block: Block, m: nat, n: nat) returns (after: Text)
    requires m <= n <= |block.lines|
    ensures Merged(block, n) == Merged(block, m) + after
    ensures m == n ==> after == []
    ensures m < n ==> Glue(Merged(block, m), SeparatorOf(block)) + block.lines[m] <= after
  {
    if m == n {
      after := [];
    } else {
      var mid := MergedReaches(block, m, n - 1);
      var glue := Glue(Merged(block, n - 1), SeparatorOf(block));
      after := mid + glue + block.lines[n - 1];
      if m == n - 1 { assert mid + glue == glue; }
      hide Merged;
      assert Merged(block, m) + mid + glue + block.lines[n - 1] == Merged(block, m) + after;
    }
  }

  /** Every line stands in the merged text where its charspan says, lines parted by one line break in code and by
      one space elsewhere. */
  lemma MergedReads(block: Block, k: nat, span: Span) returns (before: Text, after: Text)
    requires k < |block.lines| && SpansLine(block, k, span)
    ensures MergedAll(block) == before + block.lines[k] + after && LineBetween(block, k, before, after)
    ensures span.start == LeadCount(before) && span.end == LeadCount(before + block.lines[k])
  {
    hide LeadCount;
    var glue := Glue(Merged(block, k), SeparatorOf(block));
    before := Merged(block, k) + glue;
    assert Merged(block, k + 1) == before + block.lines[k];
    hide Merged;
    MergedEmpty(block, k);
    MergedEmpty(block, k + 1);
    after := MergedReaches(block, k + 1, |block.lines|);
  }

  // ----- The items of a page.

  /** How many of the first n blocks are more than white space. */
  ghost function Written(blocks: seq<Block>, n: nat): nat
    requires n <= |blocks|
  {
    if n == 0 then 0 else Written(blocks, n - 1) + (if ReadsBlank(MergedAll(blocks[n - 1])) then 0 else 1)
  }

  /** Nothing but blanks and the control characters from the tab to the carriage return. */
  ghost predicate ReadsBlank(t: Text) {
    forall b :: b in t ==> b == ' ' as int || b in [9, 10, 11, 12, 13]
  }

  lemma BlankReads(t: Text)
    ensures ReadsBlank(t) <==> AllBlank(t)
  {
    if AllBlank(t) {
      forall b | b in t ensures b == ' ' as int || b in [9, 10, 11, 12, 13] {
        var k :| 0 <= k < |t| && t[k] == b;
        assert IsBlank(t[k]);
      }
    }
    if ReadsBlank(t) {
      forall k | 0 <= k < |t| ensures IsBlank(t[k]) { assert t[k] in t; }
    }
  }

  /** What an item shows of its block: all of it, or, of a list item that starts with a marker, what stands behind
      the marker and one separator. */
  ghost predicate Shows(block: Block, text: Text) {
    var merged := MergedAll(block);
    if block.listItem && SplitOf(merged).Some? then
      exists separator: Text :: IsSeparator(separator) && merged == SplitOf(merged).value.marker + separator + text
    else text == merged
  }

  lemma ShownIs(block: Block)
    ensures Shows(block, ShownText(block))
  {
    hide SplitOf, MergedAll, IsSeparator;
    var merged := MergedAll(block);
    if block.listItem && SplitOf(merged).Some? {
      var separator := SplitRebuilds(merged);
    }
  }

  lemma {:induction false} ItemsCounted(blocks: seq<Block>)
    ensures |ItemTexts(blocks)| == Written(blocks, |blocks|)
  {
    hide MergedAll, ReadsBlank, AllBlank, ShownText;
    if blocks != [] {
      var last := |blocks| - 1;
      ItemsCounted(blocks[..last]);
      BlankReads(MergedAll(blocks[last]));
      WrittenFront(blocks, last, last);
    }
  }

  lemma {:induction false} ItemAt(blocks: seq<Block>, b: nat)
    requires b < |blocks| && !ReadsBlank(MergedAll(blocks[b]))
    ensures Written(blocks, b) < |ItemTexts(blocks)| && ItemTexts(blocks)[Written(blocks, b)] == ShownText(blocks[b])
  {
    hide MergedAll, ReadsBlank, AllBlank, ShownText;
    var last := |blocks| - 1;
    WrittenFront(blocks, last, b);
    hide Written;
    BlankReads(MergedAll(blocks[last]));
    if b < last { ItemAt(blocks[..last], b); } else { ItemsCounted(blocks[..last]); }
  }

  /** Every written block is one item, in order, and there is no other. */
  lemma ItemsInOrder(blocks: seq<Block>)
    ensures |ItemTexts(blocks)| == Written(blocks, |blocks|)
    ensures forall b :: 0 <= b < |blocks| && !ReadsBlank(MergedAll(blocks[b])) ==>
      Written(blocks, b) < |ItemTexts(blocks)| && Shows(blocks[b], ItemTexts(blocks)[Written(blocks, b)])
  {
    hide Shows, MergedAll, ReadsBlank, AllBlank, ShownText, ItemTexts, Written;
    ItemsCounted(blocks);
    forall b | 0 <= b < |blocks| && !ReadsBlank(MergedAll(blocks[b]))
      ensures Written(blocks, b) < |ItemTexts(blocks)| && Shows(blocks[b], ItemTexts(blocks)[Written(blocks, b)])
    {
      ItemAt(blocks, b);
      ShownIs(blocks[b]);
    }
  }

  lemma {:induction false} WrittenFront(blocks: seq<Block>, n: nat, b: nat)
    requires b <= n <= |blocks|
    ensures Written(blocks[..n], b) == Written(blocks, b)
  {
    hide ReadsBlank, MergedAll;
    if b > 0 { WrittenFront(blocks, n, b - 1); }
  }

  // ----- The plain text.

  /** The items' texts stand in the plain text one behind the other, a line break between any two. */
  lemma PlainReads(texts: seq<Text>, k: nat) returns (before: Text, after: Text)
    requires NoneEmpty(texts) && k < |texts|
    ensures PlainText(texts) == before + texts[k] + after
    ensures if k == 0 then before == [] else before != [] && before[|before| - 1] == '\n' as int
    ensures if k + 1 == |texts| then after == [] else ['\n' as int] + texts[k + 1] <= after
  {
    hide PlainText, LeadCount;
    before := PlainText(texts[..k]) + (if k == 0 then [] else [NEWLINE]);
    PlainUpTo(texts, k);
    if k + 1 == |texts| {
      after := [];
      assert texts[..k + 1] == texts;
    } else {
      PlainUpTo(texts, k + 1);
      var rest := PlainReaches(texts, k + 1);
      after := [NEWLINE] + texts[k + 1] + rest;
      Regrouped(before + texts[k], texts[k + 1], rest);
    }
  }

  lemma Regrouped(upTo: Text, next: Text, rest: Text)
    ensures upTo + [NEWLINE] + next + rest == upTo + ([NEWLINE] + next + rest)
    ensures [NEWLINE] + next <= [NEWLINE] + next + rest
  {
  }

  lemma PlainUpTo(texts: seq<Text>, k: nat)
    requires NoneEmpty(texts) && k < |texts|
    ensures PlainText(texts[..k + 1]) == PlainText(texts[..k]) + (if k == 0 then [] else [NEWLINE]) + texts[k]
    ensures k == 0 ==> PlainText(texts[..k]) == []
  {
    assert texts[..k + 1] == texts[..k] + [texts[k]];
    PlainNotEmpty(texts[..k]);
    PlainGrows(texts[..k], texts[k]);
  }

  /** Pages follow one another: item j of page p is the item behind all those of the pages before it. */
  lemma {:induction false} PagesFollow(pages: seq<seq<Block>>, p: nat, j: nat)
    requires p < |pages| && j < |ItemTexts(pages[p])|
    ensures |AllTexts(pages[..p])| + j < |AllTexts(pages)|
    ensures AllTexts(pages)[|AllTexts(pages[..p])| + j] == ItemTexts(pages[p])[j]
    decreases |pages|
  {
    hide ItemTexts;
    var last := |pages| - 1;
    AllTextsNext(pages, last);
    assert pages[..last + 1] == pages;
    if p < last {
      PagesFollow(pages[..last], p, j);
      assert pages[..last][..p] == pages[..p];
    }
  }
}
