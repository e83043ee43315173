/** The offset table a page assembly writes beside its plain text (src/document_assembly.cpp). */
module PageOffsets {
  import opened Bytes
  import opened LeadBytes
  import opened MarkerSplit

  const NEWLINE: Byte := 0x0A
  const SPACE: Byte := 0x20
  const MAX_CHARSPAN: nat := 2147483647

  /** A text block as it is emitted: its lines, whether it is code and whether it becomes a list item. */
  datatype Block = Block(lines: seq<Text>, code: bool, listItem: bool)

  /** One member line's place in the merged text, in code points. */
  datatype Span = Span(start: nat, end: nat)

  /** An item's place in the plain text, in code points. */
  datatype Row = Row(item: nat, start: nat, end: nat)

  datatype Result<T> = Ok(value: T) | RangeExceeded

  // ----- Merging a block's lines.

  function SeparatorOf(block: Block): Byte { if block.code then NEWLINE else SPACE }

  function Glue(merged: Text, separator: Byte): Text { if merged == [] then [] else [separator] }

  /** The first n lines, one separator between what is not empty before and the next line. */
  function Merged(block: Block, n: nat): Text
    requires n <= |block.lines|
  {
    if n == 0 then []
    else Merged(block, n - 1) + Glue(Merged(block, n - 1), SeparatorOf(block)) + block.lines[n - 1]
  }

  function MergedAll(block: Block): Text { Merged(block, |block.lines|) }

  /** A member's charspan reaches from the code points before its line to those up to its end. */
  ghost predicate SpansLine(block: Block, k: nat, span: Span)
    requires k < |block.lines|
  {
    var before := Merged(block, k);
    && span.start == LeadCount(before + Glue(before, SeparatorOf(block)))
    && span.end == LeadCount(Merged(block, k + 1)) && span.end == span.start + LeadCount(block.lines[k])
  }

  lemma MergeStep(block: Block, k: nat)
    requires k < |block.lines|
    ensures
      var before := Merged(block, k);
      && LeadCount(before + Glue(before, SeparatorOf(block))) == LeadCount(before) + (if before == [] then 0 else 1)
      && LeadCount(Merged(block, k + 1)) == LeadCount(before + Glue(before, SeparatorOf(block))) + LeadCount(block.lines[k])
  {
    var before := Merged(block, k);
    var glue := Glue(before, SeparatorOf(block));
    LeadsConcat(before, glue);
    LeadsConcat(before + glue, block.lines[k]);
    OneByte(SeparatorOf(block));
    assert Leads([], 0) == 0;
  }

  lemma OneByte(b: Byte)
    requires b < 0x80
    ensures LeadCount([b]) == 1
  {
    assert Leads([b], 0) == 0;
  }

  method MergeBlock(block: Block) returns (merged: Text, spans: seq<Span>, codePoints: nat)
    ensures merged == MergedAll(block) && codePoints == LeadCount(merged)
    ensures |spans| == |block.lines| && forall k: nat :: k < |spans| ==> SpansLine(block, k, spans[k])
  {
    merged, spans, codePoints := [], [], 0;
    assert Leads([], 0) == 0;
    hide Leads;
    for k: nat := 0 to |block.lines|
      invariant merged == Merged(block, k) && codePoints == LeadCount(merged)
      invariant |spans| == k && forall i: nat :: i < k ==> SpansLine(block, i, spans[i])
    {
      MergeStep(block, k);
      hide LeadCount;
      if merged != [] {
        merged := merged + [SeparatorOf(block)];
        codePoints := codePoints + 1;
      } else {
        assert merged + Glue(merged, SeparatorOf(block)) == merged;
      }
      var length := CountLeads(block.lines[k]);
      spans := spans + [Span(codePoints, codePoints + length)];
      codePoints := codePoints + length;
      merged := merged + block.lines[k];
    }
  }

  // ----- The items of a page.

  ghost predicate AllBlank(t: Text) {
    forall k :: 0 <= k < |t| ==> IsBlank(t[k])
  }

  method IsAllBlank(t: Text) returns (blank: bool)
    ensures blank <==> AllBlank(t)
  {
    for k := 0 to |t|
      invariant forall i :: 0 <= i < k ==> IsBlank(t[i])
    {
      if !IsBlank(t[k]) { return false; }
    }
    return true;
  }

  /** The text an item shows: the merged lines, less a list item's marker and separator. */
  function ShownText(block: Block): Text {
    var merged := MergedAll(block);
    if block.listItem && SplitOf(merged).Some? then SplitOf(merged).value.text else merged
  }

  /** The shown texts of the blocks that are not all blank, in order. */
  ghost function ItemTexts(blocks: seq<Block>): seq<Text> {
    if blocks == [] then []
    else
      var last := blocks[|blocks| - 1];
      ItemTexts(blocks[..|blocks| - 1]) + (if AllBlank(MergedAll(last)) then [] else [ShownText(last)])
  }

  ghost predicate Fits(blocks: seq<Block>) {
    forall b :: 0 <= b < |blocks| ==> LeadCount(MergedAll(blocks[b])) <= 0x7FFF_FFFF
  }

  // ----- The plain text and its rows.

  /** The texts with a line break between any two. */
  function PlainText(texts: seq<Text>): Text {
    if texts == [] then []
    else
      var before := PlainText(texts[..|texts| - 1]);
      before + (if before == [] then [] else [NEWLINE]) + texts[|texts| - 1]
  }

  ghost predicate NoneEmpty(texts: seq<Text>) {
    forall k :: 0 <= k < |texts| ==> texts[k] != []
  }

  /** Row k stands for item k: as wide as its text, and the plain text of the items before it, with the line
      break, reaches just to its start. */
  ghost predicate RowPlaced(texts: seq<Text>, k: nat, row: Row)
    requires k < |texts|
  {
    && row.item == k && row.end == row.start + LeadCount(texts[k])
    && row.start == LeadCount(PlainText(texts[..k])) + (if k == 0 then 0 else 1)
  }

  ghost predicate RowsPlaced(texts: seq<Text>, rows: seq<Row>) {
    |rows| == |texts| && forall k: nat :: k < |rows| ==> RowPlaced(texts, k, rows[k])
  }

  lemma PlainNotEmpty(texts: seq<Text>)
    requires NoneEmpty(texts)
    ensures PlainText(texts) == [] <==> texts == []
  {
    if texts != [] { assert texts[|texts| - 1] != []; }
  }

  lemma PlainGrows(texts: seq<Text>, t: Text)
    requires NoneEmpty(texts) && t != []
    ensures NoneEmpty(texts + [t])
    ensures PlainText(texts + [t]) == PlainText(texts) + (if texts == [] then [] else [NEWLINE]) + t
    ensures LeadCount(PlainText(texts + [t])) == LeadCount(PlainText(texts)) + (if texts == [] then 0 else 1) + LeadCount(t)
  {
    var before := PlainText(texts);
    assert (texts + [t])[..|texts|] == texts;
    PlainNotEmpty(texts);
    LeadsConcat(before, [NEWLINE]);
    LeadsConcat(before + [NEWLINE], t);
    OneByte(NEWLINE);
    assert before + [] == before;
    LeadsConcat(before, t);
  }

  lemma {:induction false} PlainReaches(texts: seq<Text>, k: nat) returns (rest: Text)
    requires k < |texts| && NoneEmpty(texts)
    ensures PlainText(texts) == PlainText(texts[..k + 1]) + rest
  {
    if k + 1 == |texts| {
      rest := [];
      assert texts[..k + 1] == texts && PlainText(texts) + [] == PlainText(texts);
    } else {
      var front, last := texts[..|texts| - 1], texts[|texts| - 1];
      assert texts == front + [last] && front[..k + 1] == texts[..k + 1];
      var mid := PlainReaches(front, k);
      PlainGrows(front, last);
      hide PlainText;
      rest := mid + [NEWLINE] + last;
      assert PlainText(front) + [NEWLINE] + last == PlainText(texts[..k + 1]) + rest;
    }
  }

  /** Every row locates its item: the plain text carries the item's text behind exactly row.start code points,
      and the next row starts one code point behind this one's end. */
  lemma RowsLocateItems(texts: seq<Text>, rows: seq<Row>, k: nat) returns (before: Text, after: Text)
    requires NoneEmpty(texts) && RowsPlaced(texts, rows) && k < |rows|
    ensures PlainText(texts) == before + texts[k] + after
    ensures rows[k].start == LeadCount(before) && rows[k].end == LeadCount(before + texts[k])
    ensures k + 1 < |rows| ==> rows[k + 1].start == rows[k].end + 1
  {
    assert texts[..k + 1] == texts[..k] + [texts[k]];
    PlainGrows(texts[..k], texts[k]);
    before := PlainText(texts[..k]) + (if k == 0 then [] else [NEWLINE]);
    after := PlainReaches(texts, k);
    LeadsConcat(PlainText(texts[..k]), if k == 0 then [] else [NEWLINE]);
    LeadsConcat(before, texts[k]);
    OneByte(NEWLINE);
    assert RowPlaced(texts, k, rows[k]);
    assert k + 1 < |rows| ==> RowPlaced(texts, k + 1, rows[k + 1]);
    assert LeadCount([]) == 0;
    hide PlainText, LeadCount, RowsPlaced;
  }

  lemma RowStays(texts: seq<Text>, more: seq<Text>, k: nat, row: Row)
    requires k < |texts| && RowPlaced(texts, k, row)
    ensures RowPlaced(texts + more, k, row)
  {
    assert (texts + more)[..k] == texts[..k];
  }

  // ----- The program.

  lemma ShownNotEmpty(block: Block)
    requires !AllBlank(MergedAll(block))
    ensures ShownText(block) != []
  {
    var merged := MergedAll(block);
    assert merged != [];
    if SplitOf(merged).Some? { var separator := SplitRebuilds(merged); }
  }

  class AssemblyCursor {
    var textIndex: nat
    var utfOffset: nat
    var hasText: bool

    /** The cursor stands behind the plain text of these items. */
    ghost predicate Stands(texts: seq<Text>)
      reads this
    {
      && NoneEmpty(texts) && textIndex == |texts| && utfOffset == LeadCount(PlainText(texts)) && (hasText <==> texts != [])
    }

    constructor ()
      ensures Stands([])
    {
      textIndex, utfOffset, hasText := 0, 0, false;
      new;
      assert PlainText([]) == [] && Leads([], 0) == 0;
    }

    /** One block: refused when too long, skipped when blank, else one item with its row. */
    method EmitBlock(block: Block, ghost texts: seq<Text>) returns (r: Result<Option<(Text, Row)>>)
      requires Stands(texts)
      modifies this
      ensures r.Ok? <==> LeadCount(MergedAll(block)) <= MAX_CHARSPAN
      ensures !r.Ok? || r.value.None? ==> Stands(texts)
      ensures r.Ok? ==> (r.value.None? <==> AllBlank(MergedAll(block)))
      ensures r.Ok? && r.value.Some? ==> r.value.value.0 == ShownText(block) && Stands(texts + [ShownText(block)])
      ensures r.Ok? && r.value.Some? ==> RowPlaced(texts + [ShownText(block)], |texts|, r.value.value.1)
    {
      hide AllBlank, Merged, LeadCount, PlainText;
      var merged, spans, codePoints := MergeBlock(block);
      if codePoints > MAX_CHARSPAN { return RangeExceeded; }
      var blank := IsAllBlank(merged);
      if blank { return Ok(None); }
      var index := textIndex;
      textIndex := textIndex + 1;
      var text, textCodePoints := merged, codePoints;
      if block.listItem {
        var split := SplitListMarker(merged);
        if split.Some? {
          PrefixLeads(merged);
          text, textCodePoints := split.value.text, codePoints - split.value.prefixCodePoints;
        }
      }
      assert text == ShownText(block) && textCodePoints == LeadCount(text);
      hide SplitOf, MergedAll;
      ShownNotEmpty(block);
      PlainGrows(texts, text);
      if hasText { utfOffset := utfOffset + 1; }
      var start := utfOffset;
      utfOffset := utfOffset + textCodePoints;
      hasText := true;
      assert (texts + [text])[..|texts|] == texts;
      r := Ok(Some((text, Row(index, start, utfOffset))));
    }
  }

  lemma ItemTextsGrow(blocks: seq<Block>, n: nat)
    requires n < |blocks|
    ensures ItemTexts(blocks[..n + 1])
         == ItemTexts(blocks[..n]) + (if AllBlank(MergedAll(blocks[n])) then [] else [ShownText(blocks[n])])
  {
    assert blocks[..n + 1][..n] == blocks[..n];
  }

  /** The rows of items that come behind the texts. */
  ghost predicate RowsBehind(texts: seq<Text>, items: seq<Text>, rows: seq<Row>) {
    |rows| == |items| && forall k: nat :: k < |rows| ==> RowPlaced(texts + items, |texts| + k, rows[k])
  }

  lemma RowsBehindGrow(texts: seq<Text>, items: seq<Text>, rows: seq<Row>, text: Text, row: Row)
    requires RowsBehind(texts, items, rows) && RowPlaced((texts + items) + [text], |texts + items|, row)
    ensures RowsBehind(texts, items + [text], rows + [row])
  {
    assert (texts + items) + [text] == texts + (items + [text]);
    forall k: nat | k < |rows| ensures RowPlaced(texts + (items + [text]), |texts| + k, rows[k]) {
      RowStays(texts + items, [text], |texts| + k, rows[k]);
    }
    hide RowPlaced;
  }

  /** Behind the first n blocks of a page: what the cursor and the page's output stand for. */
  ghost predicate Emitted(cursor: AssemblyCursor, blocks: seq<Block>, n: nat, texts: seq<Text>, items: seq<Text>, rows: seq<Row>)
    requires n <= |blocks|
    reads cursor
  {
    items == ItemTexts(blocks[..n]) && cursor.Stands(texts + items) && RowsBehind(texts, items, rows)
  }

  /** One page: its items' texts and rows, and the cursor moved behind them. */
  method AppendPageData(cursor: AssemblyCursor, blocks: seq<Block>, ghost texts: seq<Text>) returns (r: Result<(seq<Text>, seq<Row>)>)
    requires cursor.Stands(texts)
    modifies cursor
    ensures r.Ok? <==> Fits(blocks)
    ensures r.Ok? ==> r.value.0 == ItemTexts(blocks) && cursor.Stands(texts + ItemTexts(blocks))
    ensures r.Ok? ==> RowsBehind(texts, r.value.0, r.value.1)
  {
    hide MergedAll, LeadCount, Emitted, RowsBehind, ItemTexts;
    var items: seq<Text>, rows: seq<Row> := [], [];
    EmittedNothing(cursor, blocks, texts);
    for n := 0 to |blocks|
      invariant Emitted(cursor, blocks, n, texts, items, rows)
      invariant forall b :: 0 <= b < n ==> LeadCount(MergedAll(blocks[b])) <= 0x7FFF_FFFF
    {
      var emitted := AppendBlock(cursor, blocks, n, texts, items, rows);
      if emitted.RangeExceeded? { return RangeExceeded; }
      items, rows := emitted.value.0, emitted.value.1;
    }
    EmittedAll(cursor, blocks, texts, items, rows);
    return Ok((items, rows));
  }

  lemma EmittedNothing(cursor: AssemblyCursor, blocks: seq<Block>, texts: seq<Text>)
    requires cursor.Stands(texts)
    ensures Emitted(cursor, blocks, 0, texts, [], [])
  {
    assert texts + [] == texts;
  }

  lemma EmittedAll(cursor: AssemblyCursor, blocks: seq<Block>, texts: seq<Text>, items: seq<Text>, rows: seq<Row>)
    requires Emitted(cursor, blocks, |blocks|, texts, items, rows)
    ensures items == ItemTexts(blocks) && cursor.Stands(texts + items) && RowsBehind(texts, items, rows)
  {
    assert blocks[..|blocks|] == blocks;
  }

  method AppendBlock(cursor: AssemblyCursor, blocks: seq<Block>, n: nat, ghost texts: seq<Text>, items: seq<Text>, rows: seq<Row>)
      returns (r: Result<(seq<Text>, seq<Row>)>)
    requires n < |blocks| && Emitted(cursor, blocks, n, texts, items, rows)
    modifies cursor
    ensures r.Ok? <==> LeadCount(MergedAll(blocks[n])) <= MAX_CHARSPAN
    ensures r.Ok? ==> Emitted(cursor, blocks, n + 1, texts, r.value.0, r.value.1)
  {
    hide AllBlank, MergedAll, ShownText, RowPlaced, LeadCount, RowsBehind;
    ItemTextsGrow(blocks, n);
    var emitted := cursor.EmitBlock(blocks[n], texts + items);
    hide ItemTexts;
    if emitted.RangeExceeded? { return RangeExceeded; }
    if emitted.value.None? {
      assert items + [] == items;
      return Ok((items, rows));
    }
    var (text, row) := emitted.value.value;
    RowsBehindGrow(texts, items, rows, text, row);
    assert (texts + items) + [text] == texts + (items + [text]);
    return Ok((items + [text], rows + [row]));
  }

  /** One page folded into the document: its rows go behind the others, its texts behind the plain text. */
  method AppendPageToDocument(cursor: AssemblyCursor, blocks: seq<Block>, plain: Text, rows: seq<Row>, ghost texts: seq<Text>)
      returns (r: Result<(Text, seq<Row>)>)
    requires cursor.Stands(texts) && plain == PlainText(texts) && RowsPlaced(texts, rows)
    modifies cursor
    ensures r.Ok? <==> Fits(blocks)
    ensures r.Ok? ==> cursor.Stands(texts + ItemTexts(blocks))
    ensures r.Ok? ==> r.value.0 == PlainText(texts + ItemTexts(blocks)) && RowsPlaced(texts + ItemTexts(blocks), r.value.1)
  {
    hide ItemTexts, RowPlaced, LeadCount, Fits;
    var page := AppendPageData(cursor, blocks, texts);
    if page.RangeExceeded? { return RangeExceeded; }
    var items := page.value.0;
    var all, text := rows + page.value.1, plain;
    forall k: nat | k < |all| ensures RowPlaced(texts + items, k, all[k]) {
      if k < |rows| { RowStays(texts, items, k, rows[k]); } else { assert all[k] == page.value.1[k - |rows|]; }
    }
    assert texts + items[..0] == texts;
    for n := 0 to |items|
      invariant text == PlainText(texts + items[..n])
      invariant cursor.Stands(texts + items)
    {
      assert texts + items[..n + 1] == (texts + items[..n]) + [items[n]];
      assert items[n] == (texts + items)[|texts| + n];
      PrefixNotEmpty(texts, items, n);
      PlainNotEmpty(texts + items[..n]);
      PlainGrows(texts + items[..n], items[n]);
      hide PlainText, NoneEmpty;
      if text != [] { text := text + [NEWLINE]; }
      text := text + items[n];
    }
    assert items[..|items|] == items;
    return Ok((text, all));
  }

  lemma PrefixNotEmpty(texts: seq<Text>, items: seq<Text>, n: nat)
    requires n < |items| && NoneEmpty(texts + items)
    ensures NoneEmpty(texts + items[..n]) && items[n] != []
  {
    assert forall k :: 0 <= k < |texts + items[..n]| ==> (texts + items[..n])[k] == (texts + items)[k];
    assert items[n] == (texts + items)[|texts| + n];
  }

  ghost function AllTexts(pages: seq<seq<Block>>): seq<Text> {
    if pages == [] then [] else AllTexts(pages[..|pages| - 1]) + ItemTexts(pages[|pages| - 1])
  }

  lemma AllTextsNext(pages: seq<seq<Block>>, p: nat)
    requires p < |pages|
    ensures AllTexts(pages[..p + 1]) == AllTexts(pages[..p]) + ItemTexts(pages[p])
  {
    hide ItemTexts;
    assert pages[..p + 1][..p] == pages[..p];
  }

  lemma NoTexts(pages: seq<seq<Block>>)
    ensures AllTexts(pages[..0]) == [] && PlainText([]) == [] && RowsPlaced([], [])
  {
  }

  /** Any sequence of pages from a fresh cursor: the plain text of all their items, and a row for each. */
  method AssemblePages(pages: seq<seq<Block>>) returns (r: Result<(Text, seq<Row>)>)
    ensures r.Ok? <==> forall p :: 0 <= p < |pages| ==> Fits(pages[p])
    ensures r.Ok? ==> NoneEmpty(AllTexts(pages)) && r.value.0 == PlainText(AllTexts(pages)) && RowsPlaced(AllTexts(pages), r.value.1)
  {
    NoTexts(pages);
    hide Fits, ItemTexts, LeadCount, AllTexts, PlainText, RowsPlaced;
    var cursor := new AssemblyCursor();
    var plain: Text, rows: seq<Row> := [], [];
    for p := 0 to |pages|
      invariant cursor.Stands(AllTexts(pages[..p])) && plain == PlainText(AllTexts(pages[..p]))
      invariant RowsPlaced(AllTexts(pages[..p]), rows)
      invariant forall q :: 0 <= q < p ==> Fits(pages[q])
    {
      AllTextsNext(pages, p);
      var page := AppendPageToDocument(cursor, pages[p], plain, rows, AllTexts(pages[..p]));
      if page.RangeExceeded? { return RangeExceeded; }
      plain, rows := page.value.0, page.value.1;
    }
    assert pages[..|pages|] == pages;
    return Ok((plain, rows));
  }
}
