/** The compound-file reader of the content sniffer (src/content_sniff.cpp), after [MS-CFB]
    sections 2.2 to 2.6.

    Every read is checked against the bytes and every walk is bounded, so all of this is total on
    every byte string. What the walks mean on a sound file is stated without them: a stream is the
    concatenation of the sectors of its chain (section 2.3), a mini stream's sector is 64 bytes of
    the root storage's own stream (section 2.4), a storage's children form a binary tree (2.6). */
module CompoundFile {
  import opened Bytes

  const SIGNATURE: Text := [0xD0, 0xCF, 0x11, 0xE0, 0xA1, 0xB1, 0x1A, 0xE1]
  const HEADER_BYTES := 512
  const ENTRY_BYTES := 128
  const HEADER_DIFAT_ENTRIES := 109
  const NO_STREAM := 0xFFFF_FFFF
  const END_OF_CHAIN := 0xFFFF_FFFE
  const MAX_REGULAR_SECTOR := 0xFFFF_FFFA
  const STREAM_OBJECT := 2
  const ROOT_STORAGE := 5
  const MINI_BYTES := 64

  function U16(bytes: Text, at: nat): (v: nat)
    ensures v < 0x1_0000
  {
    if at + 2 > |bytes| then 0 else (bytes[at] as int) + 0x100 * (bytes[at + 1] as int)
  }

  function U32(bytes: Text, at: nat): (v: nat)
    ensures v < 0x1_0000_0000
  {
    if at + 4 > |bytes| then 0 else U16(bytes, at) + 0x1_0000 * U16(bytes, at + 2)
  }

  /** The bytes of a regular sector; nothing for one the file does not hold whole. */
  function SectorAt(bytes: Text, sectorBytes: nat, id: nat): (sector: Text)
    ensures sector == [] || |sector| == sectorBytes
  {
    if id > MAX_REGULAR_SECTOR then []
    else
      var offset := (id + 1) * sectorBytes;
      if offset + sectorBytes > |bytes| then [] else bytes[offset..offset + sectorBytes]
  }

  predicate SectorSize(n: nat) {
    n == 512 || n == 4096
  }

  // ----- Chains.

  /** The sector ids of a chain, in order, no more than `cap` of them. */
  function Chain(fat: seq<nat>, id: nat, cap: nat): seq<nat>
    decreases cap
  {
    if id > MAX_REGULAR_SECTOR || cap == 0 || id >= |fat| then []
    else [id] + Chain(fat, fat[id], cap - 1)
  }

  /** `ids` is a whole chain: each id leads to the next and the last to an end mark. */
  ghost predicate IsChain(fat: seq<nat>, id: nat, ids: seq<nat>)
    decreases |ids|
  {
    if ids == [] then id > MAX_REGULAR_SECTOR
    else id == ids[0] && id <= MAX_REGULAR_SECTOR && id < |fat| && IsChain(fat, fat[id], ids[1..])
  }

  ghost predicate DistinctIds(ids: seq<nat>) {
    forall i, j :: 0 <= i < j < |ids| ==> ids[i] != ids[j]
  }

  lemma {:induction false} ChainIsWhole(fat: seq<nat>, id: nat, ids: seq<nat>, cap: nat)
    requires IsChain(fat, id, ids) && |ids| <= cap
    ensures Chain(fat, id, cap) == ids
    decreases |ids|
  {
    if ids != [] {
      ChainIsWhole(fat, fat[id], ids[1..], cap - 1);
    }
  }

  lemma {:induction false} ChainIds(fat: seq<nat>, id: nat, ids: seq<nat>)
    requires IsChain(fat, id, ids)
    ensures forall k :: 0 <= k < |ids| ==> ids[k] < |fat| && ids[k] <= MAX_REGULAR_SECTOR
    decreases |ids|
  {
    if ids != [] {
      ChainIds(fat, fat[id], ids[1..]);
    }
  }

  /** Distinct ids below a bound are no more than the bound. */
  lemma {:induction false} Pigeonhole(ids: seq<nat>, bound: nat)
    requires DistinctIds(ids) && forall k :: 0 <= k < |ids| ==> ids[k] < bound
    ensures |ids| <= bound
    decreases bound
  {
    if ids != [] {
      if bound - 1 in ids {
        var k :| 0 <= k < |ids| && ids[k] == bound - 1;
        var rest := ids[..k] + ids[k + 1..];
        assert forall i :: 0 <= i < |rest| ==> rest[i] == if i < k then ids[i] else ids[i + 1];
        Pigeonhole(rest, bound - 1);
      } else {
        assert bound != 0 by { assert ids[0] < bound; }
        Pigeonhole(ids, bound - 1);
      }
    }
  }

  method ReadChain(fat: seq<nat>, start: nat, sectorCount: nat) returns (ids: seq<nat>)
    ensures ids == Chain(fat, start, sectorCount)
  {
    ids := [];
    var id: nat := start;
    while id <= MAX_REGULAR_SECTOR && |ids| < sectorCount
      invariant |ids| <= sectorCount
      invariant ids + Chain(fat, id, sectorCount - |ids|) == Chain(fat, start, sectorCount)
      decreases sectorCount - |ids|
    {
      if id >= |fat| { break; }
      assert Chain(fat, id, sectorCount - |ids|) == [id] + Chain(fat, fat[id], sectorCount - |ids| - 1);
      ids := ids + [id];
      id := fat[id];
    }
    assert Chain(fat, id, sectorCount - |ids|) == [];
  }

  // ----- The allocation tables.

  /** Up to `n` sector ids stored from `at` on, ended by the first that is no regular sector. */
  function TakeIds(bytes: Text, at: nat, n: nat): seq<nat>
    decreases n
  {
    if n == 0 || U32(bytes, at) > MAX_REGULAR_SECTOR then []
    else [U32(bytes, at)] + TakeIds(bytes, at + 4, n - 1)
  }

  /** The ids listed along the DIFAT chain (section 2.5), at most `room` of them. */
  function DifatIds(bytes: Text, sectorBytes: nat, difat: nat, room: nat, steps: nat): seq<nat>
    requires sectorBytes >= 4
    decreases steps
  {
    if difat > MAX_REGULAR_SECTOR || room == 0 || steps == 0 then []
    else
      var sector := SectorAt(bytes, sectorBytes, difat);
      if sector == [] then []
      else
        var per := sectorBytes / 4 - 1;
        var ids := TakeIds(sector, 0, Min(per, room));
        TakeIdsLength(sector, 0, Min(per, room));
        ids + DifatIds(bytes, sectorBytes, U32(sector, 4 * per), room - |ids|, steps - 1)
  }

  lemma {:induction false} TakeIdsLength(bytes: Text, at: nat, n: nat)
    ensures |TakeIds(bytes, at, n)| <= n
    decreases n
  {
    if n != 0 && U32(bytes, at) <= MAX_REGULAR_SECTOR {
      TakeIdsLength(bytes, at + 4, n - 1);
    }
  }

  ghost function FatSectorIds(bytes: Text, sectorBytes: nat, sectorCount: nat): seq<nat>
    requires sectorBytes >= 4
  {
    var declared := U32(bytes, 44);
    var header := TakeIds(bytes, 76, Min(HEADER_DIFAT_ENTRIES, declared));
    TakeIdsLength(bytes, 76, Min(HEADER_DIFAT_ENTRIES, declared));
    header + DifatIds(bytes, sectorBytes, U32(bytes, 68), declared - |header|, sectorCount)
  }

  /** A table of 32-bit entries is the entries of its sectors, one sector after the other. */
  ghost predicate IsTable(bytes: Text, sectorBytes: nat, ids: seq<nat>, table: seq<nat>)
    requires sectorBytes >= 4
  {
    && |table| == |ids| * (sectorBytes / 4)
    && (forall k :: 0 <= k < |ids| ==> SectorAt(bytes, sectorBytes, ids[k]) != [])
    && (forall k, i :: 0 <= k < |ids| && 0 <= i < sectorBytes / 4 ==>
          TableEntry(table, sectorBytes / 4, k, i) == Some(U32(SectorAt(bytes, sectorBytes, ids[k]), 4 * i)))
  }

  ghost function TableEntry(table: seq<nat>, per: nat, k: nat, i: nat): Option<nat> {
    if k * per + i < |table| then Some(table[k * per + i]) else None
  }

  method AppendSector(sector: Text, per: nat, table: seq<nat>) returns (longer: seq<nat>)
    ensures |longer| == |table| + per && longer[..|table|] == table
    ensures forall i: nat :: i < per ==> longer[|table| + i] == U32(sector, 4 * i)
  {
    longer := table;
    for i := 0 to per
      invariant |longer| == |table| + i && longer[..|table|] == table
      invariant forall k: nat :: k < i ==> longer[|table| + k] == U32(sector, 4 * k)
    {
      longer := longer + [U32(sector, 4 * i)];
    }
  }

  lemma TableGrows(bytes: Text, sectorBytes: nat, ids: seq<nat>, table: seq<nat>, id: nat, longer: seq<nat>)
    requires sectorBytes >= 4 && IsTable(bytes, sectorBytes, ids, table)
    requires SectorAt(bytes, sectorBytes, id) != []
    requires |longer| == |table| + sectorBytes / 4 && longer[..|table|] == table
    requires forall i: nat :: i < sectorBytes / 4 ==> longer[|table| + i] == U32(SectorAt(bytes, sectorBytes, id), 4 * i)
    ensures IsTable(bytes, sectorBytes, ids + [id], longer)
  {
    var per := sectorBytes / 4;
    assert |longer| == (|ids| + 1) * per;
    hide SectorAt, U32, TableEntry;
    forall k, i | 0 <= k < |ids| + 1 && 0 <= i < per
      ensures TableEntry(longer, per, k, i) == Some(U32(SectorAt(bytes, sectorBytes, (ids + [id])[k]), 4 * i))
    {
      if k < |ids| { EntryKept(table, longer, per, |ids|, k, i); } else { EntryNew(longer, per, |ids|, i); }
    }
  }

  lemma EntryKept(table: seq<nat>, longer: seq<nat>, per: nat, n: nat, k: nat, i: nat)
    requires |table| == n * per && table <= longer && k < n && i < per
    ensures TableEntry(longer, per, k, i) == TableEntry(table, per, k, i)
  {
    EntryInside(k, i, n, per);
  }

  lemma EntryNew(longer: seq<nat>, per: nat, n: nat, i: nat)
    requires |longer| == (n + 1) * per && i < per
    ensures n * per + i < |longer| && TableEntry(longer, per, n, i) == Some(longer[n * per + i])
  {
    EntryInside(n, i, n + 1, per);
  }

  lemma EntryInside(k: nat, i: nat, n: nat, per: nat)
    requires k < n && i < per
    ensures k * per + i < n * per
  {
    assert (k + 1) * per <= n * per;
  }

  method ReadFat(bytes: Text, sectorBytes: nat, sectorCount: nat) returns (ok: bool, fat: seq<nat>)
    requires SectorSize(sectorBytes)
    ensures ok ==> fat != [] && IsTable(bytes, sectorBytes, FatSectorIds(bytes, sectorBytes, sectorCount), fat)
    ensures !ok && FatSectorIds(bytes, sectorBytes, sectorCount) != [] ==>
      exists id :: id in FatSectorIds(bytes, sectorBytes, sectorCount) && SectorAt(bytes, sectorBytes, id) == []
  {
    hide FatSectorIds, IsTable, SectorAt, U32;
    var ids := ReadFatSectorIds(bytes, sectorBytes, sectorCount);
    fat := [];
    TableStart(bytes, sectorBytes);
    for k := 0 to |ids|
      invariant IsTable(bytes, sectorBytes, ids[..k], fat)
      invariant k > 0 ==> fat != []
    {
      var sector := SectorAt(bytes, sectorBytes, ids[k]);
      if sector == [] {
        assert ids[k] in ids;
        return false, fat;
      }
      var longer := AppendSector(sector, sectorBytes / 4, fat);
      TableGrows(bytes, sectorBytes, ids[..k], fat, ids[k], longer);
      assert ids[..k + 1] == ids[..k] + [ids[k]];
      fat := longer;
    }
    assert ids[..|ids|] == ids;
    ok := fat != [];
  }

  lemma TableStart(bytes: Text, sectorBytes: nat)
    requires sectorBytes >= 4
    ensures IsTable(bytes, sectorBytes, [], [])
  {
  }

  lemma TakeIdsStep(bytes: Text, at: nat, n: nat)
    requires n > 0
    ensures TakeIds(bytes, at, n) ==
      if U32(bytes, at) > MAX_REGULAR_SECTOR then [] else [U32(bytes, at)] + TakeIds(bytes, at + 4, n - 1)
  {
    hide U32;
  }

  lemma TakeNoIds(bytes: Text, at: nat)
    ensures TakeIds(bytes, at, 0) == []
  {
    hide U32;
  }

  /** One id copied, or the end of the run. */
  lemma CopyStep(bytes: Text, at: nat, n: nat, i: nat, ids: seq<nat>)
    requires i < n && ids + TakeIds(bytes, at + 4 * i, n - i) == TakeIds(bytes, at, n)
    ensures
      var id := U32(bytes, at + 4 * i);
      if id > MAX_REGULAR_SECTOR then ids == TakeIds(bytes, at, n)
      else (ids + [id]) + TakeIds(bytes, at + 4 * (i + 1), n - (i + 1)) == TakeIds(bytes, at, n)
  {
    hide TakeIds, U32;
    TakeIdsStep(bytes, at + 4 * i, n - i);
    var id, rest := U32(bytes, at + 4 * i), TakeIds(bytes, at + 4 * i + 4, n - i - 1);
    assert ids + ([id] + rest) == (ids + [id]) + rest;
    assert ids + [] == ids;
  }

  method CopyIds(bytes: Text, at: nat, n: nat) returns (ids: seq<nat>)
    ensures ids == TakeIds(bytes, at, n)
  {
    hide TakeIds, U32;
    ids := [];
    TakeNoIds(bytes, at + 4 * n);
    for i := 0 to n
      invariant ids + TakeIds(bytes, at + 4 * i, n - i) == TakeIds(bytes, at, n)
    {
      CopyStep(bytes, at, n, i, ids);
      var id := U32(bytes, at + 4 * i);
      if id > MAX_REGULAR_SECTOR { return; }
      ids := ids + [id];
    }
    assert ids + [] == ids;
  }

  lemma DifatStep(bytes: Text, sectorBytes: nat, difat: nat, room: nat, steps: nat, ids: seq<nat>)
    requires sectorBytes >= 4 && difat <= MAX_REGULAR_SECTOR && room > 0 && steps > 0
    ensures
      var sector, per := SectorAt(bytes, sectorBytes, difat), sectorBytes / 4 - 1;
      var more, all := TakeIds(sector, 0, Min(per, room)), DifatIds(bytes, sectorBytes, difat, room, steps);
      && (sector == [] ==> ids + all == ids)
      && (sector != [] ==> |more| <= room)
      && (sector != [] && |more| <= room ==>
            ids + all == (ids + more) + DifatIds(bytes, sectorBytes, U32(sector, 4 * per), room - |more|, steps - 1))
  {
    hide SectorAt, U32, TakeIds;
    var sector, per := SectorAt(bytes, sectorBytes, difat), sectorBytes / 4 - 1;
    if sector == [] {
      assert ids + [] == ids;
    } else {
      var more := TakeIds(sector, 0, Min(per, room));
      TakeIdsLength(sector, 0, Min(per, room));
      var rest := DifatIds(bytes, sectorBytes, U32(sector, 4 * per), room - |more|, steps - 1);
      assert ids + (more + rest) == (ids + more) + rest;
    }
  }

  lemma DifatStops(bytes: Text, sectorBytes: nat, difat: nat, room: nat, steps: nat, ids: seq<nat>)
    requires sectorBytes >= 4 && (difat > MAX_REGULAR_SECTOR || room == 0 || steps == 0)
    ensures ids + DifatIds(bytes, sectorBytes, difat, room, steps) == ids
  {
  }

  method ReadFatSectorIds(bytes: Text, sectorBytes: nat, sectorCount: nat) returns (ids: seq<nat>)
    requires sectorBytes >= 4
    ensures ids == FatSectorIds(bytes, sectorBytes, sectorCount)
  {
    hide SectorAt, U32, TakeIds, DifatIds;
    var declared := U32(bytes, 44);
    ids := CopyIds(bytes, 76, Min(HEADER_DIFAT_ENTRIES, declared));
    TakeIdsLength(bytes, 76, Min(HEADER_DIFAT_ENTRIES, declared));
    var difat: nat := U32(bytes, 68);
    var per := sectorBytes / 4 - 1;
    var steps := 0;
    ghost var all := FatSectorIds(bytes, sectorBytes, sectorCount);
    while difat <= MAX_REGULAR_SECTOR && |ids| < declared && steps < sectorCount
      invariant |ids| <= declared && steps <= sectorCount
      invariant ids + DifatIds(bytes, sectorBytes, difat, declared - |ids|, sectorCount - steps) == all
      decreases sectorCount - steps
    {
      DifatStep(bytes, sectorBytes, difat, declared - |ids|, sectorCount - steps, ids);
      steps := steps + 1;
      var sector := SectorAt(bytes, sectorBytes, difat);
      if sector == [] { return; }
      var more := CopyIds(sector, 0, Min(per, declared - |ids|));
      ids := ids + more;
      difat := U32(sector, 4 * per);
    }
    DifatStops(bytes, sectorBytes, difat, declared - |ids|, sectorCount - steps, ids);
  }

  // ----- Entries and the volume.

  /** A directory entry (section 2.6); a name's non-ASCII units become '?'. */
  datatype Entry = Entry(name: Text, kind: Byte, left: nat, right: nat, child: nat, start: nat, size: nat)

  function NarrowName(raw: Text, i: nat, nameBytes: nat): Text
    decreases nameBytes - i
  {
    if i + 1 >= nameBytes || U16(raw, i) == 0 then []
    else [NarrowUnit(U16(raw, i))] + NarrowName(raw, i + 2, nameBytes)
  }

  function NarrowUnit(unit: nat): Byte {
    if unit < 0x80 then unit else 63
  }

  function DecodeEntry(raw: Text, sectorBytes: nat): Entry
    requires |raw| == ENTRY_BYTES
  {
    Entry(NarrowName(raw, 0, Min(U16(raw, 64), 64)), raw[66], U32(raw, 68), U32(raw, 72), U32(raw, 76), U32(raw, 116),
          if sectorBytes == 512 then U32(raw, 120) else 0x1_0000_0000 * U32(raw, 124) + U32(raw, 120))
  }

  function EntryAt(bytes: Text, sectorBytes: nat, directory: seq<nat>, id: nat): Option<Entry>
    requires SectorSize(sectorBytes)
  {
    var per := sectorBytes / ENTRY_BYTES;
    if id / per >= |directory| then None
    else
      var sector := SectorAt(bytes, sectorBytes, directory[id / per]);
      if sector == [] then None
      else
        var at := (id % per) * ENTRY_BYTES;
        EntryInside(0, id % per, 1, per);
        assert (id % per + 1) * ENTRY_BYTES <= per * ENTRY_BYTES;
        Some(DecodeEntry(sector[at..at + ENTRY_BYTES], sectorBytes))
  }

  /** What an opened file knows. */
  datatype Volume = Volume(bytes: Text, sectorBytes: nat, sectorCount: nat, miniCutoff: nat, fat: seq<nat>,
                           miniFat: seq<nat>, directory: seq<nat>, miniStream: seq<nat>, miniStreamBytes: nat, root: Entry)

  /** The readable head of a chain: its sectors up to the first the file does not hold. */
  function Readable(bytes: Text, sectorBytes: nat, ids: seq<nat>): seq<nat> {
    if ids == [] || SectorAt(bytes, sectorBytes, ids[0]) == [] then []
    else [ids[0]] + Readable(bytes, sectorBytes, ids[1..])
  }

  /** The volume is what the header and the tables of the bytes say. */
  ghost predicate Describes(v: Volume, bytes: Text) {
    && v.bytes == bytes && SectorSize(v.sectorBytes)
    && v.sectorCount == |bytes| / v.sectorBytes
    && v.miniCutoff == U32(bytes, 56)
    && v.fat != [] && IsTable(bytes, v.sectorBytes, FatSectorIds(bytes, v.sectorBytes, v.sectorCount), v.fat)
    && v.directory == Chain(v.fat, U32(bytes, 48), v.sectorCount)
    && IsTable(bytes, v.sectorBytes, DeclaredSectors(bytes, v.sectorBytes, Chain(v.fat, U32(bytes, 60), v.sectorCount), U32(bytes, 64)), v.miniFat)
    && EntryAt(bytes, v.sectorBytes, v.directory, 0) == Some(v.root) && v.root.kind == ROOT_STORAGE
    && v.miniStream == Chain(v.fat, v.root.start, v.sectorCount) && v.miniStreamBytes == v.root.size
  }

  /** The mini FAT's sectors: of its chain as many as the header declares, up to the first that cannot be read. */
  function DeclaredSectors(bytes: Text, sectorBytes: nat, ids: seq<nat>, declared: nat): seq<nat> {
    Readable(bytes, sectorBytes, ids[..Min(|ids|, declared)])
  }

  lemma {:induction false} ReadableStops(bytes: Text, sectorBytes: nat, ids: seq<nat>, k: nat)
    requires k <= |ids| && forall j :: 0 <= j < k ==> SectorAt(bytes, sectorBytes, ids[j]) != []
    requires k == |ids| || SectorAt(bytes, sectorBytes, ids[k]) == []
    ensures Readable(bytes, sectorBytes, ids) == ids[..k]
  {
    hide SectorAt;
    if k > 0 {
      ReadableStops(bytes, sectorBytes, ids[1..], k - 1);
      assert ids[..k] == [ids[0]] + ids[1..][..k - 1];
    }
  }

  method ReadChainValues(bytes: Text, sectorBytes: nat, ids: seq<nat>, declared: nat) returns (values: seq<nat>)
    requires SectorSize(sectorBytes)
    ensures IsTable(bytes, sectorBytes, DeclaredSectors(bytes, sectorBytes, ids, declared), values)
  {
    hide IsTable, SectorAt, U32, Readable;
    values := [];
    TableStart(bytes, sectorBytes);
    var per := sectorBytes / 4;
    var k := 0;
    ghost var wanted := ids[..Min(|ids|, declared)];
    while k < |ids|
      invariant k <= |wanted| && |values| == k * per
      invariant IsTable(bytes, sectorBytes, wanted[..k], values)
      invariant forall j :: 0 <= j < k ==> SectorAt(bytes, sectorBytes, wanted[j]) != []
    {
      CountSectors(k, per);
      if |values| / per >= declared { break; }
      var sector := SectorAt(bytes, sectorBytes, ids[k]);
      if sector == [] { break; }
      var longer := AppendSector(sector, per, values);
      TableGrows(bytes, sectorBytes, wanted[..k], values, ids[k], longer);
      assert wanted[..k + 1] == wanted[..k] + [ids[k]];
      values := longer;
      k := k + 1;
    }
    ReadableStops(bytes, sectorBytes, wanted, k);
  }

  lemma MulMonotone(a: nat, b: nat, c: nat)
    requires a <= b
    ensures a * c <= b * c
  {
  }

  /** Whole parts of `per` and a rest divide back. */
  lemma DivMulAdd(n: nat, per: nat, rest: nat)
    requires rest < per
    ensures (n * per + rest) / per == n && (n * per + rest) % per == rest
  {
    var total := n * per + rest;
    var q, m := total / per, total % per;
    assert total == q * per + m && m < per;
    assert (q + 1) * per == q * per + per && (n + 1) * per == n * per + per;
    if q < n {
      MulMonotone(q + 1, n, per);
    } else if n < q {
      MulMonotone(n + 1, q, per);
    }
  }

  lemma CountSectors(n: nat, per: nat)
    requires per > 0
    ensures n * per / per == n && (n + 1) * per == n * per + per
  {
    DivMulAdd(n, per, 0);
  }

  // ----- Streams.

  /** The bytes of a run of sectors. */
  ghost function Sectors(bytes: Text, sectorBytes: nat, ids: seq<nat>): Text {
    if ids == [] then [] else SectorAt(bytes, sectorBytes, ids[0]) + Sectors(bytes, sectorBytes, ids[1..])
  }

  ghost predicate AllReadable(bytes: Text, sectorBytes: nat, ids: seq<nat>) {
    forall k :: 0 <= k < |ids| ==> SectorAt(bytes, sectorBytes, ids[k]) != []
  }

  function Prefix(text: Text, n: nat): Text {
    text[..Min(n, |text|)]
  }

  lemma {:induction false} ReadableIsAll(bytes: Text, sectorBytes: nat, ids: seq<nat>)
    requires AllReadable(bytes, sectorBytes, ids)
    ensures Readable(bytes, sectorBytes, ids) == ids
  {
    if ids != [] {
      assert AllReadable(bytes, sectorBytes, ids[1..]);
      ReadableIsAll(bytes, sectorBytes, ids[1..]);
    }
  }

  lemma NoSectors(bytes: Text, sectorBytes: nat)
    ensures Sectors(bytes, sectorBytes, Readable(bytes, sectorBytes, [])) == []
  {
  }

  lemma NothingMore(all: Text, wanted: nat)
    ensures forall out: Text :: |out| < wanted && out + [] == all ==> out == Prefix(all, wanted)
  {
    forall out: Text | |out| < wanted && out + [] == all ensures out == Prefix(all, wanted) {
      assert out + [] == out;
    }
  }

  lemma ReadableStep(bytes: Text, sectorBytes: nat, ids: seq<nat>, k: nat)
    requires k < |ids|
    ensures
      var sector := SectorAt(bytes, sectorBytes, ids[k]);
      Sectors(bytes, sectorBytes, Readable(bytes, sectorBytes, ids[k..])) ==
        if sector == [] then [] else sector + Sectors(bytes, sectorBytes, Readable(bytes, sectorBytes, ids[k + 1..]))
  {
    hide SectorAt;
    assert ids[k..][1..] == ids[k + 1..];
    var rest := Readable(bytes, sectorBytes, ids[k + 1..]);
    assert ([ids[k]] + rest)[1..] == rest;
  }

  /** Taking the next piece, or only what is still wanted of it. */
  lemma TakePiece(all: Text, out: Text, piece: Text, rest: Text, wanted: nat)
    requires all == out + (piece + rest) && |out| < wanted
    ensures
      var more := out + piece[..Min(|piece|, wanted - |out|)];
      if |more| >= wanted then more == Prefix(all, wanted) else more + rest == all
  {
    if |out| + |piece| >= wanted {
      assert piece[..wanted - |out|] == (piece + rest)[..wanted - |out|];
    } else {
      assert piece[..|piece|] == piece;
      assert (out + piece) + rest == all;
    }
  }

  /** What is read from a chain of regular sectors. */
  method ReadSectors(bytes: Text, sectorBytes: nat, ids: seq<nat>, wanted: nat) returns (out: Text)
    requires wanted > 0
    ensures out == Prefix(Sectors(bytes, sectorBytes, Readable(bytes, sectorBytes, ids)), wanted)
  {
    hide SectorAt, Sectors, Readable, Prefix;
    ghost var all := Sectors(bytes, sectorBytes, Readable(bytes, sectorBytes, ids));
    out := [];
    assert ids[0..] == ids && ids[|ids|..] == [];
    NoSectors(bytes, sectorBytes);
    NothingMore(all, wanted);
    for k := 0 to |ids|
      invariant |out| < wanted
      invariant out + Sectors(bytes, sectorBytes, Readable(bytes, sectorBytes, ids[k..])) == all
    {
      var sector := SectorAt(bytes, sectorBytes, ids[k]);
      ReadableStep(bytes, sectorBytes, ids, k);
      if sector == [] {
        assert out + [] == all;
        break;
      }
      TakePiece(all, out, sector, Sectors(bytes, sectorBytes, Readable(bytes, sectorBytes, ids[k + 1..])), wanted);
      out := out + sector[..Min(|sector|, wanted - |out|)];
      if |out| >= wanted { return; }
    }
  }

  /** A sector of the mini stream: 64 bytes at a place given by two steps of indirection. */
  function MiniSector(v: Volume, mini: nat): (r: Text)
    requires SectorSize(v.sectorBytes)
    ensures r == [] || |r| == MINI_BYTES
  {
    var offset := mini * MINI_BYTES;
    if offset + MINI_BYTES > v.miniStreamBytes || offset / v.sectorBytes >= |v.miniStream| then []
    else
      var sector := SectorAt(v.bytes, v.sectorBytes, v.miniStream[offset / v.sectorBytes]);
      var within := offset % v.sectorBytes;
      if |sector| < within + MINI_BYTES then [] else sector[within..within + MINI_BYTES]
  }

  /** The mini sectors read along a mini chain, up to one that is not there or a full `wanted`. */
  function MiniRun(v: Volume, mini: nat, out: Text, wanted: nat, steps: nat): Text
    requires SectorSize(v.sectorBytes)
    decreases steps
  {
    if mini > MAX_REGULAR_SECTOR || |out| >= wanted || steps == 0 || MiniSector(v, mini) == [] then out
    else
      var more := out + MiniSector(v, mini)[..Min(MINI_BYTES, wanted - |out|)];
      if mini >= |v.miniFat| then more else MiniRun(v, v.miniFat[mini], more, wanted, steps - 1)
  }

  method ReadMini(v: Volume, start: nat, wanted: nat) returns (out: Text)
    requires SectorSize(v.sectorBytes)
    ensures out == MiniRun(v, start, [], wanted, |v.miniFat|)
  {
    hide SectorAt, MiniSector;
    out := [];
    var mini: nat := start;
    var steps := 0;
    while mini <= MAX_REGULAR_SECTOR && |out| < wanted && steps < |v.miniFat|
      invariant steps <= |v.miniFat|
      invariant MiniRun(v, mini, out, wanted, |v.miniFat| - steps) == MiniRun(v, start, [], wanted, |v.miniFat|)
      decreases |v.miniFat| - steps
    {
      steps := steps + 1;
      var sector := ReadMiniSector(v, mini);
      if sector == [] { return; }
      out := out + sector[..Min(MINI_BYTES, wanted - |out|)];
      if mini >= |v.miniFat| { return; }
      mini := v.miniFat[mini];
    }
  }

  method ReadMiniSector(v: Volume, mini: nat) returns (bytes: Text)
    requires SectorSize(v.sectorBytes)
    ensures bytes == MiniSector(v, mini) && (bytes == [] || |bytes| == MINI_BYTES)
  {
    var offset := mini * MINI_BYTES;
    if offset + MINI_BYTES > v.miniStreamBytes { return []; }
    var index := offset / v.sectorBytes;
    if index >= |v.miniStream| { return []; }
    var sector := SectorAt(v.bytes, v.sectorBytes, v.miniStream[index]);
    var within := offset % v.sectorBytes;
    if |sector| < within + MINI_BYTES { return []; }
    return sector[within..within + MINI_BYTES];
  }
}
