/** What the compound-file reader returns on sound files, and the reader as an object
    (src/content_sniff.cpp). */
module CompoundStreams {
  import opened Bytes
  import opened CompoundFile

  // ----- The head of a stream.

  function HeadOf(v: Volume, stream: Entry, limit: nat): Text
    requires SectorSize(v.sectorBytes)
  {
    var wanted := Min(stream.size, limit);
    if stream.kind != STREAM_OBJECT || wanted == 0 then []
    else if stream.size < v.miniCutoff then MiniRun(v, stream.start, [], wanted, |v.miniFat|)
    else Prefix(RegularBytes(v, Chain(v.fat, stream.start, v.sectorCount)), wanted)
  }

  function RegularBytes(v: Volume, ids: seq<nat>): Text {
    SectorsOf(v.bytes, v.sectorBytes, Readable(v.bytes, v.sectorBytes, ids))
  }

  function SectorsOf(bytes: Text, sectorBytes: nat, ids: seq<nat>): (r: Text)
    ensures r == Sectors(bytes, sectorBytes, ids)
  {
    if ids == [] then [] else SectorAt(bytes, sectorBytes, ids[0]) + SectorsOf(bytes, sectorBytes, ids[1..])
  }

  /** The root storage's own stream, which holds the mini sectors. */
  ghost function MiniStreamBytes(v: Volume): Text {
    Sectors(v.bytes, v.sectorBytes, v.miniStream)
  }

  /** The bytes of a run of mini sectors: 64 bytes of the mini stream each. */
  ghost function MiniSectors(v: Volume, ids: seq<nat>): Text
    requires forall k :: 0 <= k < |ids| ==> MiniInside(v, ids[k])
  {
    if ids == [] then []
    else MiniSlice(v, ids[0]) + MiniSectors(v, ids[1..])
  }

  ghost function MiniSlice(v: Volume, mini: nat): Text
    requires MiniInside(v, mini)
  {
    MiniStreamBytes(v)[mini * MINI_BYTES..mini * MINI_BYTES + MINI_BYTES]
  }

  ghost predicate MiniInside(v: Volume, mini: nat) {
    mini * MINI_BYTES + MINI_BYTES <= v.miniStreamBytes && mini * MINI_BYTES + MINI_BYTES <= |MiniStreamBytes(v)|
  }

  /** A stream whose chain is whole, without a loop, inside the file and long enough. */
  ghost predicate Sound(v: Volume, stream: Entry, ids: seq<nat>)
    requires SectorSize(v.sectorBytes)
  {
    && stream.kind == STREAM_OBJECT && DistinctIds(ids)
    && if stream.size < v.miniCutoff then
         && IsChain(v.miniFat, stream.start, ids)
         && AllReadable(v.bytes, v.sectorBytes, v.miniStream)
         && (forall k :: 0 <= k < |ids| ==> MiniInside(v, ids[k]))
         && stream.size <= |ids| * MINI_BYTES
       else
         && IsChain(v.fat, stream.start, ids)
         && AllReadable(v.bytes, v.sectorBytes, ids)
         && stream.size <= |ids| * v.sectorBytes
  }

  ghost function ContentOf(v: Volume, stream: Entry, ids: seq<nat>): Text
    requires SectorSize(v.sectorBytes) && Sound(v, stream, ids)
  {
    if stream.size < v.miniCutoff then MiniSectors(v, ids) else Sectors(v.bytes, v.sectorBytes, ids)
  }

  lemma SectorLength(bytes: Text, sectorBytes: nat, id: nat)
    requires SectorAt(bytes, sectorBytes, id) != []
    ensures |SectorAt(bytes, sectorBytes, id)| == sectorBytes
  {
  }

  lemma OneMore(n: nat, per: nat)
    ensures (n + 1) * per == per + n * per
  {
  }

  lemma {:induction false} SectorsLength(bytes: Text, sectorBytes: nat, ids: seq<nat>)
    requires AllReadable(bytes, sectorBytes, ids)
    ensures |Sectors(bytes, sectorBytes, ids)| == |ids| * sectorBytes
  {
    if ids != [] {
      SectorLength(bytes, sectorBytes, ids[0]);
      hide SectorAt;
      OneMore(|ids| - 1, sectorBytes);
      SectorsLength(bytes, sectorBytes, ids[1..]);
    }
  }

  lemma {:induction false} SectorsConcat(bytes: Text, sectorBytes: nat, a: seq<nat>, b: seq<nat>)
    ensures Sectors(bytes, sectorBytes, a + b) == Sectors(bytes, sectorBytes, a) + Sectors(bytes, sectorBytes, b)
  {
    if a == [] {
      assert a + b == b;
    } else {
      assert (a + b)[1..] == a[1..] + b;
      SectorsConcat(bytes, sectorBytes, a[1..], b);
    }
  }

  lemma SliceInside(all: Text, before: Text, middle: Text, after: Text, base: nat, within: nat, n: nat)
    requires all == before + (middle + after) && base == |before| && within + n <= |middle|
    ensures base + within + n <= |all| && all[base + within..base + within + n] == middle[within..within + n]
  {
  }

  /** A run of sectors around its k-th. */
  lemma SectorParts(bytes: Text, sectorBytes: nat, ids: seq<nat>, k: nat)
    requires AllReadable(bytes, sectorBytes, ids) && k < |ids|
    ensures |SectorAt(bytes, sectorBytes, ids[k])| == sectorBytes
    ensures |Sectors(bytes, sectorBytes, ids[..k])| == k * sectorBytes
    ensures Sectors(bytes, sectorBytes, ids) ==
      Sectors(bytes, sectorBytes, ids[..k]) + (SectorAt(bytes, sectorBytes, ids[k]) + Sectors(bytes, sectorBytes, ids[k + 1..]))
  {
    assert SectorAt(bytes, sectorBytes, ids[k]) != [];
    assert AllReadable(bytes, sectorBytes, ids[..k]);
    hide SectorAt;
    var rest := ids[k..];
    assert rest[1..] == ids[k + 1..] && ids == ids[..k] + rest;
    SectorsConcat(bytes, sectorBytes, ids[..k], rest);
    SectorsLength(bytes, sectorBytes, ids[..k]);
  }

  /** A slice inside one sector of a run. */
  lemma SectorSlice(bytes: Text, sectorBytes: nat, ids: seq<nat>, k: nat, within: nat, n: nat)
    requires AllReadable(bytes, sectorBytes, ids) && k < |ids| && within + n <= sectorBytes
    ensures |SectorAt(bytes, sectorBytes, ids[k])| == sectorBytes
    ensures k * sectorBytes + within + n <= |Sectors(bytes, sectorBytes, ids)|
    ensures Sectors(bytes, sectorBytes, ids)[k * sectorBytes + within..k * sectorBytes + within + n] ==
            SectorAt(bytes, sectorBytes, ids[k])[within..within + n]
  {
    hide SectorAt, Sectors, AllReadable;
    SectorParts(bytes, sectorBytes, ids, k);
    SliceInside(Sectors(bytes, sectorBytes, ids), Sectors(bytes, sectorBytes, ids[..k]), SectorAt(bytes, sectorBytes, ids[k]),
                Sectors(bytes, sectorBytes, ids[k + 1..]), k * sectorBytes, within, n);
  }

  lemma MiniOffset(mini: nat, sectorBytes: nat)
    requires SectorSize(sectorBytes)
    ensures
      var offset := mini * MINI_BYTES;
      offset % sectorBytes + MINI_BYTES <= sectorBytes && offset / sectorBytes * sectorBytes + offset % sectorBytes == offset
  {
    var offset := mini * MINI_BYTES;
    if sectorBytes == 512 {
      assert offset == mini / 8 * 512 + mini % 8 * 64;
      DivMulAdd(mini / 8, 512, mini % 8 * 64);
    } else {
      assert offset == mini / 64 * 4096 + mini % 64 * 64;
      DivMulAdd(mini / 64, 4096, mini % 64 * 64);
    }
  }

  /** The double indirection of a mini sector lands on its 64 bytes of the mini stream. */
  lemma MiniSectorIsSlice(v: Volume, mini: nat)
    requires SectorSize(v.sectorBytes) && AllReadable(v.bytes, v.sectorBytes, v.miniStream) && MiniInside(v, mini)
    ensures MiniSector(v, mini) == MiniSlice(v, mini)
    ensures |MiniSector(v, mini)| == MINI_BYTES
  {
    hide SectorAt;
    var offset := mini * MINI_BYTES;
    var k, within := offset / v.sectorBytes, offset % v.sectorBytes;
    MiniOffset(mini, v.sectorBytes);
    SectorsLength(v.bytes, v.sectorBytes, v.miniStream);
    if k >= |v.miniStream| { MulMonotone(|v.miniStream|, k, v.sectorBytes); }
    SectorSlice(v.bytes, v.sectorBytes, v.miniStream, k, within, MINI_BYTES);
  }

  lemma {:induction false} MiniRunIsAll(v: Volume, start: nat, ids: seq<nat>, out: Text, wanted: nat, steps: nat)
    requires SectorSize(v.sectorBytes) && AllReadable(v.bytes, v.sectorBytes, v.miniStream)
    requires IsChain(v.miniFat, start, ids) && |ids| <= steps && |out| <= wanted
    requires forall k :: 0 <= k < |ids| ==> MiniInside(v, ids[k])
    ensures MiniRun(v, start, out, wanted, steps) == out + Prefix(MiniSectors(v, ids), wanted - |out|)
    decreases |ids|
  {
    hide MiniSector, SectorAt, MiniStreamBytes;
    if ids != [] && |out| < wanted {
      MiniSectorIsSlice(v, start);
      var sector, rest := MiniSector(v, start), MiniSectors(v, ids[1..]);
      var more := out + sector[..Min(MINI_BYTES, wanted - |out|)];
      MiniRunIsAll(v, v.miniFat[start], ids[1..], more, wanted, steps - 1);
      assert MiniRun(v, start, out, wanted, steps) == MiniRun(v, v.miniFat[start], more, wanted, steps - 1);
      assert MiniSectors(v, ids) == sector + rest;
      assert more + Prefix(rest, wanted - |more|) == out + Prefix(sector + rest, wanted - |out|);
    } else if ids == [] {
      assert out + [] == out;
    } else {
      assert Prefix(MiniSectors(v, ids), 0) == [];
      assert out + [] == out;
    }
  }

  lemma {:induction false} MiniSectorsLength(v: Volume, ids: seq<nat>)
    requires forall k :: 0 <= k < |ids| ==> MiniInside(v, ids[k])
    ensures |MiniSectors(v, ids)| == |ids| * MINI_BYTES
  {
    if ids != [] {
      MiniSectorsLength(v, ids[1..]);
    }
  }

  /** Sectors a file holds have ids below its sector count. */
  lemma ReadableIdBound(bytes: Text, sectorBytes: nat, id: nat)
    requires SectorSize(sectorBytes) && SectorAt(bytes, sectorBytes, id) != []
    ensures id < |bytes| / sectorBytes
  {
    if sectorBytes == 512 {
      assert (id + 1) * 512 + 512 <= |bytes|;
    } else {
      assert (id + 1) * 4096 + 4096 <= |bytes|;
    }
  }

  lemma MiniHeadIsContent(v: Volume, stream: Entry, ids: seq<nat>, wanted: nat)
    requires SectorSize(v.sectorBytes) && Sound(v, stream, ids) && stream.size < v.miniCutoff && wanted <= stream.size
    ensures wanted <= |MiniSectors(v, ids)|
    ensures MiniRun(v, stream.start, [], wanted, |v.miniFat|) == MiniSectors(v, ids)[..wanted]
  {
    hide DistinctIds, IsChain, MiniInside, MiniSectors, MiniRun;
    ChainIds(v.miniFat, stream.start, ids);
    Pigeonhole(ids, |v.miniFat|);
    MiniRunIsAll(v, stream.start, ids, [], wanted, |v.miniFat|);
    MiniSectorsLength(v, ids);
    assert [] + Prefix(MiniSectors(v, ids), wanted) == MiniSectors(v, ids)[..wanted];
  }

  lemma PlainHeadIsContent(v: Volume, stream: Entry, ids: seq<nat>, wanted: nat)
    requires SectorSize(v.sectorBytes) && v.sectorCount == |v.bytes| / v.sectorBytes
    requires Sound(v, stream, ids) && stream.size >= v.miniCutoff && wanted <= stream.size
    ensures wanted <= |Sectors(v.bytes, v.sectorBytes, ids)|
    ensures Prefix(Sectors(v.bytes, v.sectorBytes, Readable(v.bytes, v.sectorBytes, Chain(v.fat, stream.start, v.sectorCount))), wanted)
         == Sectors(v.bytes, v.sectorBytes, ids)[..wanted]
  {
    hide DistinctIds, IsChain, Sectors, SectorAt, Readable, Chain;
    forall k | 0 <= k < |ids| ensures ids[k] < v.sectorCount {
      assert SectorAt(v.bytes, v.sectorBytes, ids[k]) != [];
      ReadableIdBound(v.bytes, v.sectorBytes, ids[k]);
    }
    Pigeonhole(ids, v.sectorCount);
    ChainIsWhole(v.fat, stream.start, ids, v.sectorCount);
    ReadableIsAll(v.bytes, v.sectorBytes, ids);
    SectorsLength(v.bytes, v.sectorBytes, ids);
  }

  /** The head of a sound stream is the first min(size, limit) bytes of its content, whether it is
      kept in regular sectors or in the mini stream. */
  lemma HeadIsContent(v: Volume, stream: Entry, ids: seq<nat>, limit: nat)
    requires SectorSize(v.sectorBytes) && v.sectorCount == |v.bytes| / v.sectorBytes
    requires Sound(v, stream, ids)
    ensures Min(stream.size, limit) <= |ContentOf(v, stream, ids)|
    ensures HeadOf(v, stream, limit) == ContentOf(v, stream, ids)[..Min(stream.size, limit)]
  {
    if stream.size < v.miniCutoff {
      MiniHeadIsContent(v, stream, ids, Min(stream.size, limit));
    } else {
      PlainHeadIsContent(v, stream, ids, Min(stream.size, limit));
    }
  }

  // ----- The entries under the root storage.

  /** A storage's children as the tree the directory keeps them in (section 2.6.4). */
  datatype Tree = Nil | Node(id: nat, entry: Entry, left: Tree, right: Tree)

  ghost predicate Spells(v: Volume, id: nat, t: Tree)
    requires SectorSize(v.sectorBytes)
    decreases t
  {
    match t
    case Nil => id == NO_STREAM || EntryAt(v.bytes, v.sectorBytes, v.directory, id).None?
    case Node(at, entry, left, right) =>
      && id == at && id != NO_STREAM && EntryAt(v.bytes, v.sectorBytes, v.directory, id) == Some(entry)
      && Spells(v, entry.left, left) && Spells(v, entry.right, right)
  }

  ghost function Ids(t: Tree): seq<nat> {
    match t
    case Nil => []
    case Node(id, _, left, right) => [id] + Ids(right) + Ids(left)
  }

  /** The entries of a tree: a node, then its right side, then its left. */
  ghost function Entries(t: Tree): seq<Entry> {
    match t
    case Nil => []
    case Node(_, entry, left, right) => [entry] + Entries(right) + Entries(left)
  }

  ghost function StackEntries(stack: seq<Tree>): seq<Entry> {
    if stack == [] then [] else Entries(stack[|stack| - 1]) + StackEntries(stack[..|stack| - 1])
  }

  ghost predicate StackSpells(v: Volume, pending: seq<nat>, stack: seq<Tree>)
    requires SectorSize(v.sectorBytes)
  {
    |pending| == |stack| && forall i :: 0 <= i < |stack| ==> Spells(v, pending[i], stack[i])
  }

  function Capacity(v: Volume): nat {
    |v.directory| * (v.sectorBytes / ENTRY_BYTES)
  }

  /** The entry is one the directory holds. */
  ghost predicate Listed(v: Volume, entry: Entry)
    requires SectorSize(v.sectorBytes)
  {
    exists id: nat :: EntryAt(v.bytes, v.sectorBytes, v.directory, id) == Some(entry)
  }

  /** The top of a stack that spells trees: a node to visit, or nothing. */
  lemma StackTop(v: Volume, pending: seq<nat>, stack: seq<Tree>)
    requires SectorSize(v.sectorBytes) && StackSpells(v, pending, stack) && |pending| > 0
    ensures
      var id, top := pending[|pending| - 1], stack[|stack| - 1];
      var rest, below := pending[..|pending| - 1], stack[..|stack| - 1];
      var node := EntryAt(v.bytes, v.sectorBytes, v.directory, id);
      if id == NO_STREAM || node.None? then
        StackSpells(v, rest, below) && StackEntries(stack) == StackEntries(below)
      else
        && top.Node? && top.entry == node.value
        && StackSpells(v, rest + [node.value.left, node.value.right], below + [top.left, top.right])
        && StackEntries(stack) == [node.value] + StackEntries(below + [top.left, top.right])
  {
    hide EntryAt;
    var top, below := stack[|stack| - 1], stack[..|stack| - 1];
    assert stack == below + [top];
    assert Spells(v, pending[|pending| - 1], top);
    if top.Node? {
      StackPush(below, top);
    } else {
      assert [] + StackEntries(below) == StackEntries(below);
    }
  }

  /** What is walked so far and what still waits make up the whole. */
  ghost predicate WalkedSoFar(v: Volume, children: seq<Entry>, pending: seq<nat>, stack: seq<Tree>, all: seq<Entry>)
    requires SectorSize(v.sectorBytes)
  {
    StackSpells(v, pending, stack) && children + StackEntries(stack) == all
  }

  lemma WalkStarts(v: Volume, tree: Tree)
    requires SectorSize(v.sectorBytes) && Spells(v, v.root.child, tree)
    ensures WalkedSoFar(v, [], [v.root.child], [tree], Entries(tree))
  {
    hide Spells, Entries;
    assert [tree][..0] == [];
    assert StackEntries([tree][..0]) == [];
    assert StackEntries([tree]) == Entries(tree) + [] == Entries(tree);
    assert [] + Entries(tree) == Entries(tree);
  }

  lemma WalkSteps(v: Volume, children: seq<Entry>, pending: seq<nat>, stack: seq<Tree>, all: seq<Entry>) returns (next: seq<Tree>)
    requires SectorSize(v.sectorBytes) && WalkedSoFar(v, children, pending, stack, all) && |pending| > 0
    ensures
      var id, rest := pending[|pending| - 1], pending[..|pending| - 1];
      var node := EntryAt(v.bytes, v.sectorBytes, v.directory, id);
      if id == NO_STREAM || node.None? then WalkedSoFar(v, children, rest, next, all)
      else WalkedSoFar(v, children + [node.value], rest + [node.value.left, node.value.right], next, all)
  {
    hide EntryAt, StackSpells, StackEntries;
    StackTop(v, pending, stack);
    SpellsSize(v, pending, stack);
    var id := pending[|pending| - 1];
    var node := EntryAt(v.bytes, v.sectorBytes, v.directory, id);
    var top, below := stack[|stack| - 1], stack[..|stack| - 1];
    if id == NO_STREAM || node.None? {
      next := below;
    } else {
      next := below + [top.left, top.right];
      assert children + ([node.value] + StackEntries(next)) == (children + [node.value]) + StackEntries(next);
    }
  }

  lemma WalkEnds(v: Volume, children: seq<Entry>, pending: seq<nat>, stack: seq<Tree>, all: seq<Entry>)
    requires SectorSize(v.sectorBytes) && WalkedSoFar(v, children, pending, stack, all)
    requires pending == [] || |all| <= |children|
    ensures children == all
  {
    assert |all| == |children| + |StackEntries(stack)|;
    assert children + [] == children;
  }

  /** The walk of the directory: at most one entry per place the directory has, and, when the ids
      spell a tree that fits, exactly the tree's entries. */
  method WalkDirectory(v: Volume, ghost tree: Option<Tree>) returns (children: seq<Entry>)
    requires SectorSize(v.sectorBytes)
    requires tree.Some? ==> Spells(v, v.root.child, tree.value)
    ensures |children| <= Capacity(v)
    ensures forall i :: 0 <= i < |children| ==> Listed(v, children[i])
    ensures tree.Some? && |Entries(tree.value)| <= Capacity(v) ==> children == Entries(tree.value)
  {
    hide EntryAt, Capacity, Spells, Listed, WalkedSoFar, Entries;
    children := [];
    var pending: seq<nat> := [v.root.child];
    ghost var stack := if tree.Some? then [tree.value] else [];
    var visited := 0;
    var capacity := Capacity(v);
    if tree.Some? { WalkStarts(v, tree.value); }
    while |pending| > 0 && visited < capacity
      invariant visited == |children| <= capacity
      invariant forall i :: 0 <= i < |children| ==> Listed(v, children[i])
      invariant tree.Some? ==> WalkedSoFar(v, children, pending, stack, Entries(tree.value))
      decreases 2 * (capacity - visited) + |pending|
    {
      var id := pending[|pending| - 1];
      if tree.Some? { stack := WalkSteps(v, children, pending, stack, Entries(tree.value)); }
      pending := pending[..|pending| - 1];
      var node := EntryAt(v.bytes, v.sectorBytes, v.directory, id);
      if id == NO_STREAM || node.None? { continue; }
      visited := visited + 1;
      pending := pending + [node.value.left, node.value.right];
      children := children + [node.value];
      ListedAt(v, id);
    }
    if tree.Some? && |Entries(tree.value)| <= capacity {
      WalkEnds(v, children, pending, stack, Entries(tree.value));
    }
  }

  lemma ListedAt(v: Volume, id: nat)
    requires SectorSize(v.sectorBytes) && EntryAt(v.bytes, v.sectorBytes, v.directory, id).Some?
    ensures Listed(v, EntryAt(v.bytes, v.sectorBytes, v.directory, id).value)
  {
    hide EntryAt;
  }

  lemma SpellsSize(v: Volume, pending: seq<nat>, stack: seq<Tree>)
    requires SectorSize(v.sectorBytes) && StackSpells(v, pending, stack)
    ensures |pending| == |stack|
    ensures stack == [] ==> StackEntries(stack) == []
  {
  }

  lemma StackPush(below: seq<Tree>, top: Tree)
    requires top.Node?
    ensures StackEntries(below + [top]) == [top.entry] + StackEntries(below + [top.left, top.right])
  {
    var stack := below + [top.left, top.right];
    assert stack[..|stack| - 1] == below + [top.left];
    assert (below + [top.left])[..|below|] == below;
    assert (below + [top])[..|below|] == below;
    var rest := StackEntries(below);
    assert ([top.entry] + Entries(top.right) + Entries(top.left)) + rest ==
           [top.entry] + (Entries(top.right) + (Entries(top.left) + rest));
  }

  lemma {:induction false} IdsAreEntries(v: Volume, id: nat, t: Tree)
    requires SectorSize(v.sectorBytes) && Spells(v, id, t)
    ensures |Ids(t)| == |Entries(t)|
    ensures forall k :: 0 <= k < |Ids(t)| ==> Ids(t)[k] < Capacity(v)
    decreases t
  {
    hide EntryAt, Capacity;
    if t.Node? {
      IdsAreEntries(v, t.entry.left, t.left);
      IdsAreEntries(v, t.entry.right, t.right);
      IdInDirectory(v, id);
    }
  }

  lemma EntryPlace(bytes: Text, sectorBytes: nat, directory: seq<nat>, id: nat)
    requires SectorSize(sectorBytes) && EntryAt(bytes, sectorBytes, directory, id).Some?
    ensures sectorBytes / ENTRY_BYTES > 0 && id / (sectorBytes / ENTRY_BYTES) < |directory|
  {
    hide SectorAt, DecodeEntry;
  }

  lemma PlaceBelow(id: nat, per: nat, n: nat)
    requires per > 0 && id / per < n
    ensures id < n * per
  {
    var q, r := id / per, id % per;
    assert id == q * per + r && r < per;
    MulMonotone(q + 1, n, per);
    assert (q + 1) * per == q * per + per;
  }

  lemma IdInDirectory(v: Volume, id: nat)
    requires SectorSize(v.sectorBytes) && EntryAt(v.bytes, v.sectorBytes, v.directory, id).Some?
    ensures id < Capacity(v)
  {
    hide EntryAt;
    EntryPlace(v.bytes, v.sectorBytes, v.directory, id);
    PlaceBelow(id, v.sectorBytes / ENTRY_BYTES, |v.directory|);
  }

  /** A tree with distinct ids fits, so the walk returns each of its entries once. */
  lemma DistinctTreeFits(v: Volume, t: Tree)
    requires SectorSize(v.sectorBytes) && Spells(v, v.root.child, t) && DistinctIds(Ids(t))
    ensures |Entries(t)| <= Capacity(v)
  {
    IdsAreEntries(v, v.root.child, t);
    Pigeonhole(Ids(t), Capacity(v));
  }

  // ----- The reader.

  /** The bytes open as a compound file this reader can walk, with `v` the volume found. */
  ghost predicate Opens(bytes: Text, v: Volume) {
    && |bytes| >= HEADER_BYTES && SIGNATURE <= bytes
    && (U16(bytes, 30) == 9 || U16(bytes, 30) == 12) && U16(bytes, 32) == 6
    && v.sectorBytes == (if U16(bytes, 30) == 9 then 512 else 4096)
    && v.directory != []
    && Describes(v, bytes)
  }

  /** The FAT of the bytes is readable and is one table. */
  lemma FatIsDetermined(bytes: Text, v: Volume, read: bool, fat: seq<nat>)
    requires Opens(bytes, v)
    requires
      var ids := FatSectorIds(bytes, v.sectorBytes, v.sectorCount);
      && (read ==> IsTable(bytes, v.sectorBytes, ids, fat))
      && (!read && ids != [] ==> exists id :: id in ids && SectorAt(bytes, v.sectorBytes, id) == [])
    ensures read && v.fat == fat
  {
    var ids := FatSectorIds(bytes, v.sectorBytes, v.sectorCount);
    hide FatSectorIds, SectorAt;
    assert |v.fat| == |ids| * (v.sectorBytes / 4);
    assert ids != [];
    if read { TableUnique(bytes, v.sectorBytes, ids, fat, v.fat); }
  }

  lemma TableUnique(bytes: Text, sectorBytes: nat, ids: seq<nat>, a: seq<nat>, b: seq<nat>)
    requires SectorSize(sectorBytes) && IsTable(bytes, sectorBytes, ids, a) && IsTable(bytes, sectorBytes, ids, b)
    ensures a == b
  {
    hide SectorAt, U32;
    var per := sectorBytes / 4;
    forall x: nat | x < |a| ensures a[x] == b[x] {
      var k, i := x / per, x % per;
      assert k * per + i == x;
      if k >= |ids| { MulMonotone(|ids|, k, per); }
      assert TableEntry(a, per, k, i) == TableEntry(b, per, k, i);
    }
  }

  // ----- A stream on disk.

  /** Where a stream lies: its own chain; for a small one, whose chain is of mini sectors, also the
      chain of the root storage's stream, that of the mini FAT's sectors, and the table these hold. */
  datatype Layout = Layout(ids: seq<nat>, root: seq<nat>, miniFat: seq<nat>, miniTable: seq<nat>)

  /** A chain that ends, without a loop, of sectors the file holds. */
  ghost predicate WholeChain(bytes: Text, v: Volume, start: nat, ids: seq<nat>) {
    IsChain(v.fat, start, ids) && DistinctIds(ids) && AllReadable(bytes, v.sectorBytes, ids)
  }

  ghost predicate MiniOnDisk(bytes: Text, v: Volume, l: Layout)
    requires SectorSize(v.sectorBytes)
  {
    && WholeChain(bytes, v, v.root.start, l.root)
    && WholeChain(bytes, v, U32(bytes, 60), l.miniFat) && |l.miniFat| <= U32(bytes, 64)
    && IsTable(bytes, v.sectorBytes, l.miniFat, l.miniTable)
    && (forall k :: 0 <= k < |l.ids| ==> WithinRoot(v, l.root, l.ids[k]))
  }

  ghost predicate WithinRoot(v: Volume, root: seq<nat>, mini: nat) {
    mini * MINI_BYTES + MINI_BYTES <= v.root.size && mini * MINI_BYTES + MINI_BYTES <= |root| * v.sectorBytes
  }

  ghost predicate OnDisk(bytes: Text, v: Volume, stream: Entry, l: Layout)
    requires SectorSize(v.sectorBytes)
  {
    && stream.kind == STREAM_OBJECT && DistinctIds(l.ids)
    && (stream.size < v.miniCutoff ==>
          MiniOnDisk(bytes, v, l) && IsChain(l.miniTable, stream.start, l.ids) && stream.size <= |l.ids| * MINI_BYTES)
    && (stream.size >= v.miniCutoff ==>
          WholeChain(bytes, v, stream.start, l.ids) && stream.size <= |l.ids| * v.sectorBytes)
  }

  /** Byte p of a run of sectors, in the file: sector 0 lies behind the header's. */
  ghost predicate StandsAt(bytes: Text, sectorBytes: nat, ids: seq<nat>, p: nat, b: Byte)
    requires sectorBytes > 0
  {
    p / sectorBytes < |ids| &&
    var at := (ids[p / sectorBytes] + 1) * sectorBytes + p % sectorBytes;
    at < |bytes| && bytes[at] == b
  }

  /** The first bytes of the stream, each as it stands in the file. */
  ghost predicate IsHead(bytes: Text, v: Volume, stream: Entry, l: Layout, limit: nat, out: Text)
    requires SectorSize(v.sectorBytes)
  {
    && |out| == Min(stream.size, limit)
    && forall p :: 0 <= p < |out| ==> IsByte(bytes, v, stream, l, p, out[p])
  }

  ghost predicate IsByte(bytes: Text, v: Volume, stream: Entry, l: Layout, p: nat, b: Byte)
    requires SectorSize(v.sectorBytes)
  {
    if stream.size >= v.miniCutoff then StandsAt(bytes, v.sectorBytes, l.ids, p, b)
    else p / MINI_BYTES < |l.ids| && StandsAt(bytes, v.sectorBytes, l.root, MiniPlace(l.ids, p), b)
  }

  /** Where byte p of a run of mini sectors stands in the mini stream. */
  function MiniPlace(ids: seq<nat>, p: nat): nat
    requires p / MINI_BYTES < |ids|
  {
    ids[p / MINI_BYTES] * MINI_BYTES + p % MINI_BYTES
  }

  ghost predicate SameByte(a: Text, i: int, b: Text, j: int) {
    0 <= i < |a| && 0 <= j < |b| && a[i] == b[j]
  }

  lemma WholeChainIsRead(bytes: Text, v: Volume, start: nat, ids: seq<nat>)
    requires Opens(bytes, v) && WholeChain(bytes, v, start, ids)
    ensures Chain(v.fat, start, v.sectorCount) == ids && Readable(bytes, v.sectorBytes, ids) == ids
  {
    OpensSize(bytes, v);
    hide Opens, SectorAt;
    forall k | 0 <= k < |ids| ensures ids[k] < v.sectorCount {
      assert SectorAt(bytes, v.sectorBytes, ids[k]) != [];
      ReadableIdBound(bytes, v.sectorBytes, ids[k]);
    }
    Pigeonhole(ids, v.sectorCount);
    ChainIsWhole(v.fat, start, ids, v.sectorCount);
    ReadableIsAll(bytes, v.sectorBytes, ids);
  }

  lemma OpensTables(bytes: Text, v: Volume)
    requires Opens(bytes, v)
    ensures
      var declared := DeclaredSectors(bytes, v.sectorBytes, Chain(v.fat, U32(bytes, 60), v.sectorCount), U32(bytes, 64));
      && SectorSize(v.sectorBytes) && v.bytes == bytes && v.sectorCount == |bytes| / v.sectorBytes
      && IsTable(bytes, v.sectorBytes, declared, v.miniFat)
      && v.miniStream == Chain(v.fat, v.root.start, v.sectorCount) && v.miniStreamBytes == v.root.size
  {
    hide FatSectorIds, IsTable, Chain, EntryAt;
  }

  /** What the reader made of the mini stream is what the file holds. */
  lemma MiniIsRead(bytes: Text, v: Volume, l: Layout)
    requires Opens(bytes, v) && SectorSize(v.sectorBytes) && MiniOnDisk(bytes, v, l)
    ensures v.miniStream == l.root && v.miniFat == l.miniTable
    ensures forall k :: 0 <= k < |l.ids| ==> MiniInside(v, l.ids[k])
    ensures AllReadable(v.bytes, v.sectorBytes, v.miniStream)
  {
    OpensTables(bytes, v);
    hide Opens, IsTable, Chain, Readable, WithinRoot;
    WholeChainIsRead(bytes, v, v.root.start, l.root);
    WholeChainIsRead(bytes, v, U32(bytes, 60), l.miniFat);
    assert l.miniFat[..Min(|l.miniFat|, U32(bytes, 64))] == l.miniFat;
    TableUnique(bytes, v.sectorBytes, l.miniFat, v.miniFat, l.miniTable);
    SectorsLength(bytes, v.sectorBytes, l.root);
    forall k | 0 <= k < |l.ids| ensures MiniInside(v, l.ids[k]) { InsideRoot(v, l.root, l.ids[k]); }
  }

  lemma InsideRoot(v: Volume, root: seq<nat>, mini: nat)
    requires WithinRoot(v, root, mini) && v.miniStreamBytes == v.root.size && |MiniStreamBytes(v)| == |root| * v.sectorBytes
    ensures MiniInside(v, mini)
  {
  }

  lemma SoundOnDisk(bytes: Text, v: Volume, stream: Entry, l: Layout)
    requires Opens(bytes, v) && SectorSize(v.sectorBytes) && OnDisk(bytes, v, stream, l)
    ensures v.bytes == bytes && v.sectorCount == |bytes| / v.sectorBytes && Sound(v, stream, l.ids)
    ensures stream.size < v.miniCutoff ==> v.miniStream == l.root
  {
    OpensSize(bytes, v);
    hide Opens, IsChain, MiniInside, DistinctIds;
    if stream.size < v.miniCutoff { MiniIsRead(bytes, v, l); }
  }

  lemma SectorPlace(p: nat, sectorBytes: nat, n: nat)
    requires sectorBytes > 0 && p < n * sectorBytes
    ensures p / sectorBytes < n && p / sectorBytes * sectorBytes + p % sectorBytes == p
  {
    var k := p / sectorBytes;
    if k >= n { MulMonotone(n, k, sectorBytes); }
  }

  lemma SectorByte(bytes: Text, sectorBytes: nat, id: nat, within: nat)
    requires SectorAt(bytes, sectorBytes, id) != [] && within < sectorBytes
    ensures (id + 1) * sectorBytes + within < |bytes|
    ensures |SectorAt(bytes, sectorBytes, id)| == sectorBytes
    ensures SectorAt(bytes, sectorBytes, id)[within] == bytes[(id + 1) * sectorBytes + within]
  {
  }

  lemma SliceByte(all: Text, i: nat, middle: Text, within: nat)
    requires i + 1 <= |all| && within + 1 <= |middle| && all[i..i + 1] == middle[within..within + 1]
    ensures SameByte(all, i, middle, within)
  {
    assert all[i..i + 1][0] == all[i];
    assert middle[within..within + 1][0] == middle[within];
  }

  /** One byte of the k-th sector of a run, in the file. */
  lemma RunByte(bytes: Text, sectorBytes: nat, ids: seq<nat>, k: nat, within: nat)
    requires AllReadable(bytes, sectorBytes, ids) && k < |ids| && within < sectorBytes
    ensures SameByte(Sectors(bytes, sectorBytes, ids), k * sectorBytes + within, bytes, (ids[k] + 1) * sectorBytes + within)
  {
    hide SectorAt, Sectors;
    assert SectorAt(bytes, sectorBytes, ids[k]) != [];
    hide AllReadable;
    SectorByte(bytes, sectorBytes, ids[k], within);
    SectorSlice(bytes, sectorBytes, ids, k, within, 1);
    SliceByte(Sectors(bytes, sectorBytes, ids), k * sectorBytes + within, SectorAt(bytes, sectorBytes, ids[k]), within);
  }

  lemma SectorsByte(bytes: Text, sectorBytes: nat, ids: seq<nat>, p: nat)
    requires sectorBytes > 0 && AllReadable(bytes, sectorBytes, ids) && p < |Sectors(bytes, sectorBytes, ids)|
    ensures StandsAt(bytes, sectorBytes, ids, p, Sectors(bytes, sectorBytes, ids)[p])
  {
    hide SectorAt, Sectors, AllReadable;
    SectorsLength(bytes, sectorBytes, ids);
    SectorPlace(p, sectorBytes, |ids|);
    RunByte(bytes, sectorBytes, ids, p / sectorBytes, p % sectorBytes);
  }

  lemma {:induction false} MiniSectorsByte(v: Volume, ids: seq<nat>, p: nat)
    requires (forall k :: 0 <= k < |ids| ==> MiniInside(v, ids[k])) && p < |ids| * MINI_BYTES
    ensures SameByte(MiniSectors(v, ids), p, MiniStreamBytes(v), MiniPlace(ids, p))
  {
    hide MiniStreamBytes;
    MiniSectorsLength(v, ids);
    assert MiniSectors(v, ids) == MiniSlice(v, ids[0]) + MiniSectors(v, ids[1..]);
    hide MiniSectors;
    if p >= MINI_BYTES {
      MiniSectorsByte(v, ids[1..], p - MINI_BYTES);
      assert (p - MINI_BYTES) / MINI_BYTES == p / MINI_BYTES - 1 && (p - MINI_BYTES) % MINI_BYTES == p % MINI_BYTES;
    }
  }

  lemma MiniContentByte(bytes: Text, v: Volume, l: Layout, p: nat)
    requires v.sectorBytes > 0 && v.bytes == bytes && v.miniStream == l.root && AllReadable(bytes, v.sectorBytes, l.root)
    requires (forall k :: 0 <= k < |l.ids| ==> MiniInside(v, l.ids[k])) && p < |l.ids| * MINI_BYTES && p < |MiniSectors(v, l.ids)|
    ensures StandsAt(bytes, v.sectorBytes, l.root, MiniPlace(l.ids, p), MiniSectors(v, l.ids)[p])
  {
    hide MiniSectors, MiniInside, MiniPlace, AllReadable, StandsAt, Sectors;
    MiniSectorsByte(v, l.ids, p);
    SectorsByte(bytes, v.sectorBytes, l.root, MiniPlace(l.ids, p));
  }

  lemma ContentByte(bytes: Text, v: Volume, stream: Entry, l: Layout, p: nat)
    requires Opens(bytes, v) && SectorSize(v.sectorBytes) && OnDisk(bytes, v, stream, l)
    requires Sound(v, stream, l.ids) && p < |ContentOf(v, stream, l.ids)|
    ensures IsByte(bytes, v, stream, l, p, ContentOf(v, stream, l.ids)[p])
  {
    hide Opens, MiniSectors, MiniInside, OnDisk, IsChain, DistinctIds, AllReadable, Sectors, SectorAt, StandsAt, MiniPlace;
    SoundOnDisk(bytes, v, stream, l);
    if stream.size < v.miniCutoff {
      MiniSectorsLength(v, l.ids);
      MiniContentByte(bytes, v, l, p);
    } else {
      SectorsByte(bytes, v.sectorBytes, l.ids, p);
    }
  }

  /** From an opened file to its bytes: with the stream, the root storage's stream and the mini FAT on
      whole chains, the head is byte for byte what stands in the file where these chains lead. */
  lemma HeadIsOnDisk(bytes: Text, v: Volume, stream: Entry, l: Layout, limit: nat)
    requires Opens(bytes, v) && SectorSize(v.sectorBytes) && OnDisk(bytes, v, stream, l)
    ensures IsHead(bytes, v, stream, l, limit, HeadOf(v, stream, limit))
  {
    SoundOnDisk(bytes, v, stream, l);
    hide Opens, Sound, OnDisk, HeadOf, ContentOf, IsByte;
    HeadIsContent(v, stream, l.ids, limit);
    var out, content := HeadOf(v, stream, limit), ContentOf(v, stream, l.ids);
    forall p: nat | p < |out| ensures IsByte(bytes, v, stream, l, p, out[p]) {
      assert out[p] == content[p];
      ContentByte(bytes, v, stream, l, p);
    }
  }

  class File {
    const bytes: Text
    var ok: bool
    var volume: Volume

    constructor (bytes: Text)
      ensures this.bytes == bytes
      ensures ok ==> Opens(bytes, volume)
      ensures !ok ==> forall v :: !Opens(bytes, v)
    {
      this.bytes := bytes;
      ok := false;
      volume := Volume(bytes, 512, 0, 4096, [], [], [], [], 0, Entry([], 0, NO_STREAM, NO_STREAM, NO_STREAM, END_OF_CHAIN, 0));
      new;
      Open();
    }

    method Open()
      requires !ok
      modifies this
      ensures ok ==> Opens(bytes, volume)
      ensures !ok ==> forall v :: !Opens(bytes, v)
    {
      hide FatSectorIds, IsTable, SectorAt, EntryAt, Chain;
      if |bytes| < HEADER_BYTES || !(SIGNATURE <= bytes) { return; }
      var sectorShift, miniShift := U16(bytes, 30), U16(bytes, 32);
      if (sectorShift != 9 && sectorShift != 12) || miniShift != 6 { return; }
      var sectorBytes := if sectorShift == 9 then 512 else 4096;
      var sectorCount := |bytes| / sectorBytes;
      var read, fat := ReadFat(bytes, sectorBytes, sectorCount);
      forall v | Opens(bytes, v) ensures read && v.fat == fat {
        FatIsDetermined(bytes, v, read, fat);
      }
      if !read { return; }
      var directory := ReadChain(fat, U32(bytes, 48), sectorCount);
      if directory == [] { return; }
      var miniChain := ReadChain(fat, U32(bytes, 60), sectorCount);
      var miniFat := ReadChainValues(bytes, sectorBytes, miniChain, U32(bytes, 64));
      var root := EntryAt(bytes, sectorBytes, directory, 0);
      if root.None? || root.value.kind != ROOT_STORAGE { return; }
      var miniStream := ReadChain(fat, root.value.start, sectorCount);
      volume := Volume(bytes, sectorBytes, sectorCount, U32(bytes, 56), fat, miniFat, directory, miniStream,
                       root.value.size, root.value);
      ok := true;
    }

    method RootChildren(ghost tree: Option<Tree>) returns (children: seq<Entry>)
      requires ok ==> Opens(bytes, volume)
      requires ok && tree.Some? ==> Spells(volume, volume.root.child, tree.value)
      ensures !ok ==> children == []
      ensures ok ==> |children| <= Capacity(volume)
      ensures ok && tree.Some? && DistinctIds(Ids(tree.value)) ==> children == Entries(tree.value)
    {
      if !ok { return []; }
      children := WalkDirectory(volume, tree);
      if tree.Some? && DistinctIds(Ids(tree.value)) { DistinctTreeFits(volume, tree.value); }
    }

    method Head(stream: Entry, limit: nat) returns (out: Text)
      requires ok ==> Opens(bytes, volume)
      ensures !ok ==> out == []
      ensures ok ==> out == HeadOf(volume, stream, limit)
      ensures stream.kind != 2 ==> out == []
      ensures ok ==> forall l: Layout :: OnDisk(bytes, volume, stream, l) ==> IsHead(bytes, volume, stream, l, limit, out)
    {
      if ok {
        OpensSize(bytes, volume);
        forall l: Layout | OnDisk(bytes, volume, stream, l)
          ensures IsHead(bytes, volume, stream, l, limit, HeadOf(volume, stream, limit))
        {
          HeadIsOnDisk(bytes, volume, stream, l, limit);
        }
      }
      if !ok || stream.kind != STREAM_OBJECT { return []; }
      var wanted := Min(stream.size, limit);
      if wanted == 0 { return []; }
      hide Opens, MiniRun, Sectors, Readable, Chain, OnDisk, IsHead;
      assert SectorSize(volume.sectorBytes) by { OpensSize(bytes, volume); }
      if stream.size < volume.miniCutoff {
        out := ReadMini(volume, stream.start, wanted);
        return;
      }
      assert volume.bytes == bytes by { OpensSize(bytes, volume); }
      var ids := ReadChain(volume.fat, stream.start, volume.sectorCount);
      out := ReadSectors(bytes, volume.sectorBytes, ids, wanted);
    }
  }

  lemma OpensSize(bytes: Text, v: Volume)
    requires Opens(bytes, v)
    ensures SectorSize(v.sectorBytes) && v.bytes == bytes && v.sectorCount == |bytes| / v.sectorBytes
  {
  }
}
