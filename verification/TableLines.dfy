/** Page lines between tables and prose (src/assembly_blocks.cpp, src/assembly_table_data.cpp). */
module TableLines {
  import opened Bytes
  import opened OcrPages
  import opened Sorting

  predicate Holds(cell: Cell, line: Line) {
    var center := Center(BoundingBox(line.polygon));
    cell.left <= center.x <= cell.right && cell.top <= center.y <= cell.bottom
  }

  // ----- Which lines a table claims.

  predicate IsTable(page: Page, region: Option<nat>) {
    region.Some? && region.value < |page.regions| && page.regions[region.value].name == "table"
  }

  predicate Member(page: Page, r: nat, i: nat) {
    Readable(page, i) && Bound(page, i) == Some(r)
  }

  predicate Claims(page: Page, r: nat, i: nat)
    requires r < |page.regions| && i < |page.lines|
  {
    if page.regions[r].cells != []
    then Member(page, r, i) && exists k :: 0 <= k < |page.regions[r].cells| && Holds(page.regions[r].cells[k], page.lines[i])
    else i in page.regions[r].grid
  }

  method TableClaimedLines(page: Page, r: nat) returns (claimed: seq<bool>)
    requires r < |page.regions|
    ensures |claimed| == |page.lines| && forall i: nat :: i < |page.lines| ==> claimed[i] == Claims(page, r, i)
  {
    var cells := page.regions[r].cells;
    if cells == [] {
      return seq(|page.lines|, i requires 0 <= i => i in page.regions[r].grid);
    }
    claimed := [];
    for index: nat := 0 to |page.lines|
      invariant |claimed| == index && forall i: nat :: i < index ==> claimed[i] == Claims(page, r, i)
    {
      var claim := false;
      if Member(page, r, index) {
        for k := 0 to |cells|
          invariant !claim && forall m :: 0 <= m < k ==> !Holds(cells[m], page.lines[index])
        {
          if Holds(cells[k], page.lines[index]) {
            claim := true;
            break;
          }
        }
      }
      claimed := claimed + [claim];
    }
  }

  // ----- Text blocks.

  datatype Block = Block(region: Option<nat>, suppressed: bool, lines: seq<nat>)

  predicate Aggregates(page: Page, region: Option<nat>) {
    && region.Some? && region.value < |page.regions|
    && page.regions[region.value].name !in ["list", "list_item", "table"]
  }

  predicate IsList(page: Page, region: Option<nat>) {
    region.Some? && region.value < |page.regions| && page.regions[region.value].name in ["list", "list_item"]
  }

  predicate Suppressed(page: Page, i: nat)
    requires i < |page.lines|
  {
    IsTable(page, Bound(page, i)) && Claims(page, Bound(page, i).value, i)
  }

  /** Line i goes on the block. */
  predicate Joins(page: Page, block: Block, i: nat)
    requires i < |page.lines|
  {
    && block.region == Bound(page, i) && block.suppressed == Suppressed(page, i)
    && (Suppressed(page, i) || Aggregates(page, Bound(page, i)) || (IsList(page, Bound(page, i)) && page.continues(block.lines, i)))
  }

  /** The middle of the line lies in the cell, its edges counted in. */
  ghost predicate Covers(cell: Cell, line: Line) {
    Contains(Box(cell.left, cell.top, cell.right, cell.bottom), Center(BoundingBox(line.polygon)))
  }

  /** A line is kept out of the prose when it belongs to a table that holds it: in a recognized cell, or, of a table
      without any, in its grid. */
  lemma SuppressedIff(page: Page, i: nat)
    requires i < |page.lines|
    ensures Suppressed(page, i) <==>
      var home := Bound(page, i);
      && home.Some? && page.regions[home.value].name == "table"
      && (if page.regions[home.value].cells == [] then i in page.regions[home.value].grid
          else page.lines[i].text != "" && exists cell :: cell in page.regions[home.value].cells && Covers(cell, page.lines[i]))
  {
    var home := Bound(page, i);
    if home.Some? && page.regions[home.value].cells != [] {
      HeldIff(page.regions[home.value].cells, page.lines[i]);
    }
    hide Holds, Covers;
  }

  lemma HeldIff(cells: seq<Cell>, line: Line)
    ensures (exists k :: 0 <= k < |cells| && Holds(cells[k], line)) <==> exists cell :: cell in cells && Covers(cell, line)
  {
    hide Center, BoundingBox;
    if exists k :: 0 <= k < |cells| && Holds(cells[k], line) {
      var k :| 0 <= k < |cells| && Holds(cells[k], line);
      assert cells[k] in cells && Covers(cells[k], line);
    }
    if exists cell :: cell in cells && Covers(cell, line) {
      var cell :| cell in cells && Covers(cell, line);
      var k :| 0 <= k < |cells| && cells[k] == cell;
      assert Holds(cells[k], line);
    }
  }

  /** A line goes on a block of its own region and suppression: always when suppressed; of prose, in a list when it
      goes on reading the visual line, in a table never, in any other region always; a line of no region stands alone. */
  lemma JoinsIff(page: Page, block: Block, i: nat)
    requires i < |page.lines|
    ensures Joins(page, block, i) <==>
      && block.region == Bound(page, i) && block.suppressed == Suppressed(page, i)
      && (block.suppressed
          || (block.region.Some?
              && var name := page.regions[block.region.value].name;
                 if name in ["list", "list_item"] then page.continues(block.lines, i) else name != "table"))
  {
    hide Suppressed;
  }

  function Flat(blocks: seq<Block>): seq<nat> {
    if blocks == [] then [] else Flat(blocks[..|blocks| - 1]) + blocks[|blocks| - 1].lines
  }

  /** All of a block's lines have its region and its suppression, and each but the first had cause to join. */
  ghost predicate Whole(page: Page, block: Block) {
    && block.lines != []
    && (forall k :: 0 <= k < |block.lines| ==> Readable(page, block.lines[k]) && Bound(page, block.lines[k]) == block.region)
    && (forall k :: 0 <= k < |block.lines| ==> Suppressed(page, block.lines[k]) == block.suppressed)
    && (forall k :: 0 < k < |block.lines| ==> Joins(page, block.(lines := block.lines[..k]), block.lines[k]))
  }

  /** No block's first line had cause to join the block before it. */
  ghost predicate Apart(page: Page, blocks: seq<Block>) {
    forall b :: 0 < b < |blocks| ==> KeptApart(page, blocks[b - 1], blocks[b])
  }

  ghost predicate KeptApart(page: Page, a: Block, b: Block) {
    b.lines != [] && b.lines[0] < |page.lines| && !Joins(page, a, b.lines[0])
  }

  /** An order of the page's readable lines, each once. */
  ghost predicate OrdersLines(page: Page, order: seq<nat>) {
    forall i: nat :: multiset(order)[i] == if Readable(page, i) then 1 else 0
  }

  lemma FlatAppend(blocks: seq<Block>, block: Block)
    ensures Flat(blocks + [block]) == Flat(blocks) + block.lines
  {
    assert (blocks + [block])[..|blocks|] == blocks;
  }

  ghost predicate Built(page: Page, blocks: seq<Block>) {
    (forall b :: 0 <= b < |blocks| ==> Whole(page, blocks[b])) && Apart(page, blocks)
  }

  lemma JoinWhole(page: Page, last: Block, i: nat)
    requires Whole(page, last) && Readable(page, i) && Joins(page, last, i)
    ensures Whole(page, last.(lines := last.lines + [i]))
  {
    var joined := last.(lines := last.lines + [i]);
    assert Bound(page, i) == last.region && Suppressed(page, i) == last.suppressed;
    hide Joins, Suppressed, Readable;
    forall k | 0 < k < |joined.lines| ensures Joins(page, joined.(lines := joined.lines[..k]), joined.lines[k]) {
      assert joined.lines[..k] == last.lines[..k];
      if k == |last.lines| { assert joined.(lines := joined.lines[..k]) == last; }
    }
  }

  lemma BlockReplace(page: Page, blocks: seq<Block>, joined: Block)
    requires blocks != [] && Built(page, blocks) && Whole(page, joined)
    requires forall a :: KeptApart(page, a, blocks[|blocks| - 1]) ==> KeptApart(page, a, joined)
    ensures Built(page, blocks[..|blocks| - 1] + [joined])
    ensures Flat(blocks[..|blocks| - 1] + [joined]) == Flat(blocks[..|blocks| - 1]) + joined.lines
  {
    hide Whole, KeptApart, Flat;
    var all := blocks[..|blocks| - 1] + [joined];
    FlatAppend(blocks[..|blocks| - 1], joined);
    forall b | 0 < b < |all| ensures KeptApart(page, all[b - 1], all[b]) {
      assert KeptApart(page, blocks[b - 1], blocks[b]);
    }
  }

  lemma JoinLast(page: Page, blocks: seq<Block>, i: nat)
    requires blocks != [] && Built(page, blocks) && Readable(page, i) && Joins(page, blocks[|blocks| - 1], i)
    ensures
      var last := blocks[|blocks| - 1];
      var joined := blocks[..|blocks| - 1] + [last.(lines := last.lines + [i])];
      Built(page, joined) && Flat(joined) == Flat(blocks) + [i]
  {
    var last := blocks[|blocks| - 1];
    var joined := last.(lines := last.lines + [i]);
    assert Whole(page, last);
    JoinWhole(page, last, i);
    hide Joins, Whole, Suppressed, Readable, Built;
    forall a ensures KeptApart(page, a, last) ==> KeptApart(page, a, joined) {
    }
    BlockReplace(page, blocks, joined);
    hide KeptApart;
    assert Flat(blocks) == Flat(blocks[..|blocks| - 1]) + last.lines;
  }

  lemma BlockAppend(page: Page, blocks: seq<Block>, block: Block)
    requires Built(page, blocks) && Whole(page, block)
    requires blocks != [] ==> KeptApart(page, blocks[|blocks| - 1], block)
    ensures Built(page, blocks + [block]) && Flat(blocks + [block]) == Flat(blocks) + block.lines
  {
    hide Whole, KeptApart, Flat;
    FlatAppend(blocks, block);
    var more := blocks + [block];
    forall b | 0 < b < |more| ensures KeptApart(page, more[b - 1], more[b]) {
      if b < |blocks| { assert KeptApart(page, blocks[b - 1], blocks[b]); }
    }
  }

  lemma StartBlock(page: Page, blocks: seq<Block>, i: nat)
    requires Built(page, blocks) && Readable(page, i)
    requires blocks != [] ==> !Joins(page, blocks[|blocks| - 1], i)
    ensures
      var more := blocks + [Block(Bound(page, i), Suppressed(page, i), [i])];
      Built(page, more) && Flat(more) == Flat(blocks) + [i]
  {
    hide Built, Joins, Suppressed, Whole, Flat;
    OneLineWhole(page, i);
    BlockAppend(page, blocks, Block(Bound(page, i), Suppressed(page, i), [i]));
  }

  lemma OneLineWhole(page: Page, i: nat)
    requires Readable(page, i)
    ensures Whole(page, Block(Bound(page, i), Suppressed(page, i), [i]))
  {
    hide Suppressed, Joins;
  }

  /** The lines every table of the page claims. */
  method AllClaims(page: Page) returns (claims: map<nat, seq<bool>>)
    ensures forall q: nat :: q in claims <==> IsTable(page, Some(q))
    ensures forall q: nat :: q in claims ==> q < |page.regions| && |claims[q]| == |page.lines|
    ensures forall q: nat, i: nat :: q in claims && i < |page.lines| ==> claims[q][i] == Claims(page, q, i)
  {
    hide Claims;
    claims := map[];
    for r: nat := 0 to |page.regions|
      invariant forall q: nat :: q in claims <==> q < r && IsTable(page, Some(q))
      invariant forall q: nat :: q in claims ==> |claims[q]| == |page.lines|
      invariant forall q: nat, i: nat :: q in claims && i < |page.lines| ==> claims[q][i] == Claims(page, q, i)
    {
      if page.regions[r].name == "table" {
        var claimed := TableClaimedLines(page, r);
        claims := claims[r := claimed];
      }
    }
  }

  /** The blocks laid end to end are the reading order: no line lost, doubled or moved; each block is of one
      region and wholly suppressed or wholly prose; and lines are in one block exactly as the merge rule says. */
  method BuildTextBlocks(page: Page, order: seq<nat>) returns (blocks: seq<Block>)
    requires OrdersLines(page, order)
    ensures Flat(blocks) == order && Built(page, blocks)
  {
    hide Claims, Built, Flat;
    var claims := AllClaims(page);
    blocks := [];
    NoBlocks(page);
    for n := 0 to |order|
      invariant Built(page, blocks) && Flat(blocks) == order[..n]
    {
      var i := order[n];
      assert order[..n + 1] == order[..n] + [i];
      OrderedReadable(page, order, n);
      var region := Bound(page, i);
      var suppressed := region.Some? && region.value in claims && claims[region.value][i];
      assert suppressed == Suppressed(page, i);
      var merges := suppressed || Aggregates(page, region);
      var same := blocks != [] && blocks[|blocks| - 1].region == region && blocks[|blocks| - 1].suppressed == suppressed;
      if same && (merges || (IsList(page, region) && page.continues(blocks[|blocks| - 1].lines, i))) {
        JoinLast(page, blocks, i);
        var last := blocks[|blocks| - 1];
        blocks := blocks[..|blocks| - 1] + [last.(lines := last.lines + [i])];
        continue;
      }
      StartBlock(page, blocks, i);
      blocks := blocks + [Block(region, suppressed, [i])];
    }
    assert order[..|order|] == order;
  }

  lemma NoBlocks(page: Page)
    ensures Built(page, []) && Flat([]) == []
  {
  }

  lemma OrderedReadable(page: Page, order: seq<nat>, n: nat)
    requires OrdersLines(page, order) && n < |order|
    ensures Readable(page, order[n])
  {
    assert order[n] in multiset(order);
  }

  lemma LastCounts(blocks: seq<Block>, i: nat)
    requires blocks != []
    ensures multiset(Flat(blocks))[i] == multiset(Flat(blocks[..|blocks| - 1]))[i] + multiset(blocks[|blocks| - 1].lines)[i]
    ensures i in blocks[|blocks| - 1].lines <==> multiset(blocks[|blocks| - 1].lines)[i] > 0
  {
    assert i in blocks[|blocks| - 1].lines <==> i in multiset(blocks[|blocks| - 1].lines);
  }

  lemma {:induction false} FlatHome(blocks: seq<Block>, i: nat) returns (home: nat)
    requires multiset(Flat(blocks))[i] == 1
    ensures home < |blocks| && multiset(blocks[home].lines)[i] == 1
    ensures forall b :: 0 <= b < |blocks| && i in blocks[b].lines ==> b == home
  {
    var last := |blocks| - 1;
    LastCounts(blocks, i);
    hide Flat;
    if i in blocks[last].lines {
      home := last;
      NotInFlat(blocks[..last], i);
    } else {
      home := FlatHome(blocks[..last], i);
    }
  }

  lemma {:induction false} NotInFlat(blocks: seq<Block>, i: nat)
    requires multiset(Flat(blocks))[i] == 0
    ensures forall b :: 0 <= b < |blocks| ==> i !in blocks[b].lines
  {
    if blocks != [] {
      LastCounts(blocks, i);
      hide Flat;
      NotInFlat(blocks[..|blocks| - 1], i);
    }
  }

  /** A readable line stands in one block, once. */
  lemma OneBlockEach(page: Page, order: seq<nat>, blocks: seq<Block>, i: nat) returns (home: nat)
    requires OrdersLines(page, order) && Flat(blocks) == order && Readable(page, i)
    ensures home < |blocks| && multiset(blocks[home].lines)[i] == 1
    ensures forall b :: 0 <= b < |blocks| && i in blocks[b].lines ==> b == home
  {
    home := FlatHome(blocks, i);
  }

  // ----- The table's own cells.

  /** The first cell whose box holds the line's center, which alone takes its text. */
  function TakenBy(cells: seq<Cell>, line: Line, n: nat): (k: Option<nat>)
    requires n <= |cells|
    ensures k.Some? ==> k.value < n && Holds(cells[k.value], line) && forall m :: 0 <= m < k.value ==> !Holds(cells[m], line)
    ensures k.None? ==> forall m :: 0 <= m < n ==> !Holds(cells[m], line)
  {
    if n == 0 then None
    else
      var before := TakenBy(cells, line, n - 1);
      if before.Some? then before else if Holds(cells[n - 1], line) then Some(n - 1) else None
  }

  function Members(page: Page, r: nat, n: nat): seq<nat> {
    if n == 0 then [] else Members(page, r, n - 1) + (if Member(page, r, n - 1) then [n - 1] else [])
  }

  function Place(page: Page): nat -> Key {
    (i: nat) =>
      if i < |page.lines| then
        var box := BoundingBox(page.lines[i].polygon);
        (box.top as real, box.left as real)
      else (0.0, 0.0)
  }

  /** The table's lines from top to bottom, then left to right. */
  function TableOrder(page: Page, r: nat): seq<nat> {
    Sorted(Members(page, r, |page.lines|), Place(page))
  }

  function LineAt(page: Page, i: nat): Line {
    if i < |page.lines| then page.lines[i] else Line("", [])
  }

  function LinesOf(page: Page, cells: seq<Cell>, k: nat, lines: seq<nat>): seq<nat> {
    if lines == [] then []
    else (if TakenBy(cells, LineAt(page, lines[0]), |cells|) == Some(k) then [lines[0]] else []) + LinesOf(page, cells, k, lines[1..])
  }

  lemma LinesStep(page: Page, cells: seq<Cell>, k: nat, lines: seq<nat>, head: nat, rest: seq<nat>)
    requires lines == [head] + rest
    ensures LinesOf(page, cells, k, lines)
         == (if TakenBy(cells, LineAt(page, head), |cells|) == Some(k) then [head] else []) + LinesOf(page, cells, k, rest)
  {
    hide TakenBy;
    assert lines[1..] == rest;
  }

  lemma {:induction false} LinesGrow(page: Page, cells: seq<Cell>, k: nat, lines: seq<nat>, i: nat)
    ensures LinesOf(page, cells, k, lines + [i])
         == LinesOf(page, cells, k, lines) + (if TakenBy(cells, LineAt(page, i), |cells|) == Some(k) then [i] else [])
  {
    hide TakenBy, LinesOf, LineAt;
    NoLines(page, cells, k);
    if lines == [] {
      LinesStep(page, cells, k, lines + [i], i, []);
    } else {
      assert lines + [i] == [lines[0]] + (lines[1..] + [i]);
      LinesGrow(page, cells, k, lines[1..], i);
      LinesStep(page, cells, k, lines + [i], lines[0], lines[1..] + [i]);
      LinesStep(page, cells, k, lines, lines[0], lines[1..]);
    }
  }

  lemma NoLines(page: Page, cells: seq<Cell>, k: nat)
    ensures LinesOf(page, cells, k, []) == []
  {
  }

  lemma {:induction false} LinesCount(page: Page, cells: seq<Cell>, k: nat, lines: seq<nat>, i: nat)
    ensures multiset(LinesOf(page, cells, k, lines))[i] == if TakenBy(cells, LineAt(page, i), |cells|) == Some(k) then multiset(lines)[i] else 0
  {
    hide TakenBy;
    if lines != [] {
      LinesCount(page, cells, k, lines[1..], i);
      assert lines == [lines[0]] + lines[1..];
    }
  }

  lemma CountNext(s: seq<nat>, y: nat, i: nat)
    ensures multiset(s + [y])[i] == multiset(s)[i] + (if y == i then 1 else 0)
  {
  }

  lemma MembersNext(page: Page, r: nat, n: nat)
    ensures Members(page, r, n + 1) == if Member(page, r, n) then Members(page, r, n) + [n] else Members(page, r, n)
  {
    hide Member;
    assert Members(page, r, n) + [] == Members(page, r, n);
  }

  lemma MembersCountNext(page: Page, r: nat, n: nat, i: nat)
    requires multiset(Members(page, r, n))[i] == if i < n && Member(page, r, i) then 1 else 0
    ensures multiset(Members(page, r, n + 1))[i] == if i < n + 1 && Member(page, r, i) then 1 else 0
  {
    hide Member, Members;
    MembersNext(page, r, n);
    CountNext(Members(page, r, n), n, i);
  }

  lemma NoMembers(page: Page, r: nat, i: nat)
    ensures multiset(Members(page, r, 0))[i] == 0
  {
  }

  lemma {:induction false} MembersCount(page: Page, r: nat, n: nat, i: nat)
    ensures multiset(Members(page, r, n))[i] == if i < n && Member(page, r, i) then 1 else 0
    decreases n
  {
    hide Member, Members;
    if n == 0 {
      NoMembers(page, r, i);
    } else {
      MembersCount(page, r, n - 1, i);
      MembersCountNext(page, r, n - 1, i);
    }
  }

  /** The lines whose text cell k of a table carries. */
  function CellLines(page: Page, r: nat, k: nat): seq<nat>
    requires r < |page.regions|
  {
    LinesOf(page, page.regions[r].cells, k, TableOrder(page, r))
  }

  lemma CellLinesCount(page: Page, r: nat, k: nat, i: nat)
    requires r < |page.regions|
    ensures multiset(CellLines(page, r, k))[i]
         == if Member(page, r, i) && TakenBy(page.regions[r].cells, LineAt(page, i), |page.regions[r].cells|) == Some(k) then 1 else 0
  {
    var all := Members(page, r, |page.lines|);
    LinesCount(page, page.regions[r].cells, k, TableOrder(page, r), i);
    SortedPermutes(all, Place(page));
    MembersCount(page, r, |page.lines|, i);
  }

  /** Nothing is lost or doubled between a recognized table and the prose: of the blocks, exactly the one that
      holds a line is suppressed if and only if some cell of the line's table carries it, and then one cell
      does, once. */
  lemma TableOrProse(page: Page, blocks: seq<Block>, b: nat, at: nat)
    requires Built(page, blocks) && b < |blocks| && at < |blocks[b].lines|
    requires IsTable(page, blocks[b].region) ==> page.regions[blocks[b].region.value].cells != []
    ensures
      var i, region := blocks[b].lines[at], blocks[b].region;
      && (blocks[b].suppressed <==> IsTable(page, region) && exists k: nat :: i in CellLines(page, region.value, k))
      && (forall r: nat, k: nat, m: nat :: r < |page.regions| && i in CellLines(page, r, k) && i in CellLines(page, r, m) ==> k == m)
      && (forall r: nat, k: nat :: r < |page.regions| && i in CellLines(page, r, k) ==>
            region == Some(r) && k < |page.regions[r].cells| && multiset(CellLines(page, r, k))[i] == 1)
  {
    var i, region := blocks[b].lines[at], blocks[b].region;
    assert Whole(page, blocks[b]);
    assert Bound(page, i) == region && Readable(page, i) && Suppressed(page, i) == blocks[b].suppressed;
    hide Whole, Built, CellLines;
    forall r: nat, k: nat | r < |page.regions|
      ensures i in CellLines(page, r, k) <==> region == Some(r) && TakenBy(page.regions[r].cells, LineAt(page, i), |page.regions[r].cells|) == Some(k)
      ensures i in CellLines(page, r, k) ==> multiset(CellLines(page, r, k))[i] == 1
    {
      CellLinesCount(page, r, k, i);
      assert i in CellLines(page, r, k) <==> i in multiset(CellLines(page, r, k));
    }
    if IsTable(page, region) {
      var taken := TakenBy(page.regions[region.value].cells, LineAt(page, i), |page.regions[region.value].cells|);
      assert taken.Some? ==> i in CellLines(page, region.value, taken.value);
    }
  }

  // ----- Filling the table's data.

  function Joined(page: Page, lines: seq<nat>): string {
    if lines == [] then ""
    else
      var before := Joined(page, lines[..|lines| - 1]);
      before + (if before == "" then "" else " ") + LineAt(page, lines[|lines| - 1]).text
  }

  /** The lines one cell takes among those not taken before it. */
  method TakeLines(page: Page, ghost r: nat, cells: seq<Cell>, k: nat, lines: seq<nat>, taken: array<bool>) returns (text: string)
    requires k < |cells| && taken.Length == |lines| && forall n :: 0 <= n < |lines| ==> lines[n] < |page.lines|
    requires forall n :: 0 <= n < |lines| ==> taken[n] == TakenBy(cells, page.lines[lines[n]], k).Some?
    modifies taken
    ensures forall n :: 0 <= n < |lines| ==> taken[n] == TakenBy(cells, page.lines[lines[n]], k + 1).Some?
    ensures text == Joined(page, LinesOf(page, cells, k, lines))
  {
    text := "";
    hide Joined, LinesOf, Holds;
    NothingJoined(page, cells, k);
    for n := 0 to |lines|
      invariant forall m :: n <= m < |lines| ==> taken[m] == TakenBy(cells, page.lines[lines[m]], k).Some?
      invariant forall m :: 0 <= m < n ==> taken[m] == TakenBy(cells, page.lines[lines[m]], k + 1).Some?
      invariant text == Joined(page, LinesOf(page, cells, k, lines[..n]))
    {
      assert lines[..n + 1] == lines[..n] + [lines[n]];
      LinesGrow(page, cells, k, lines[..n], lines[n]);
      TakenSettles(cells, page.lines[lines[n]], k);
      ghost var sofar := LinesOf(page, cells, k, lines[..n]);
      assert sofar + [] == sofar;
      if taken[n] { continue; }
      if !Holds(cells[k], page.lines[lines[n]]) { continue; }
      taken[n] := true;
      JoinedGrows(page, LinesOf(page, cells, k, lines[..n]), lines[n]);
      if text != "" { text := text + " "; }
      text := text + page.lines[lines[n]].text;
    }
    assert lines[..|lines|] == lines;
  }

  lemma NothingJoined(page: Page, cells: seq<Cell>, k: nat)
    ensures LinesOf(page, cells, k, []) == [] && Joined(page, []) == ""
  {
  }

  lemma JoinedGrows(page: Page, lines: seq<nat>, i: nat)
    ensures Joined(page, lines + [i]) == Joined(page, lines) + (if Joined(page, lines) == "" then "" else " ") + LineAt(page, i).text
  {
    assert (lines + [i])[..|lines|] == lines;
  }

  /** Once a cell has taken a line, no later cell changes that. */
  lemma {:induction false} TakenSettles(cells: seq<Cell>, line: Line, k: nat)
    requires k < |cells|
    ensures TakenBy(cells, line, |cells|) == Some(k) <==> TakenBy(cells, line, k).None? && Holds(cells[k], line)
  {
    var all := TakenBy(cells, line, |cells|);
    if TakenBy(cells, line, k).None? && Holds(cells[k], line) {
      assert all.Some? && all.value == k;
    }
  }

  method TableLines(page: Page, r: nat) returns (lines: seq<nat>)
    ensures lines == TableOrder(page, r)
  {
    hide Member, Place, Sorted;
    var members := [];
    for i: nat := 0 to |page.lines|
      invariant members == Members(page, r, i)
    {
      if Member(page, r, i) { members := members + [i]; }
    }
    lines := Sorted(members, Place(page));
  }

  lemma NothingTaken(page: Page, cells: seq<Cell>)
    ensures forall line: Line :: TakenBy(cells, line, 0) == None
  {
  }

  /** The text of every cell of a table with recognized cells. */
  method CellTexts(page: Page, r: nat) returns (texts: seq<string>)
    requires r < |page.regions|
    ensures |texts| == |page.regions[r].cells| && forall k: nat :: k < |texts| ==> texts[k] == Joined(page, CellLines(page, r, k))
  {
    hide Joined, LinesOf, Members, Member, Place, Holds, TakenBy;
    var cells := page.regions[r].cells;
    var lines := TableLines(page, r);
    TableOrderInRange(page, r);
    hide TableOrder;
    NothingTaken(page, cells);
    var taken := new bool[|lines|](_ => false);
    texts := [];
    for k: nat := 0 to |cells|
      invariant |texts| == k && forall m: nat :: m < k ==> texts[m] == Joined(page, LinesOf(page, cells, m, lines))
      invariant forall n :: 0 <= n < |lines| ==> taken[n] == TakenBy(cells, page.lines[lines[n]], k).Some?
    {
      var text := TakeLines(page, r, cells, k, lines, taken);
      texts := texts + [text];
    }
  }

  lemma TableOrderInRange(page: Page, r: nat)
    ensures forall n :: 0 <= n < |TableOrder(page, r)| ==> TableOrder(page, r)[n] < |page.lines|
  {
    var all, s := Members(page, r, |page.lines|), TableOrder(page, r);
    SortedPermutes(all, Place(page));
    forall n | 0 <= n < |s| ensures s[n] < |page.lines| {
      MembersAgree(s, all, s[n]);
      MembersCount(page, r, |page.lines|, s[n]);
      assert s[n] in multiset(all);
    }
  }
}
