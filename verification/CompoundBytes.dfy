/** Where the header, the tables and the directory entries of a compound file stand in its bytes
    (src/content_sniff.cpp, after [MS-CFB] sections 2.2, 2.3, 2.5 and 2.6.1): every field by its place and
    its bytes, least significant first. */
module CompoundBytes {
  import opened Bytes
  import opened CompoundFile
  import opened CompoundStreams

  ghost function Half(bytes: Text, at: nat): int
    requires at + 2 <= |bytes|
  {
    bytes[at] as int + 0x100 * bytes[at + 1] as int
  }

  ghost predicate Holds16(bytes: Text, at: nat, v: nat) {
    at + 2 <= |bytes| && v == Half(bytes, at)
  }

  ghost function Word(bytes: Text, at: nat): int
    requires at + 4 <= |bytes|
  {
    bytes[at] as int + 0x100 * bytes[at + 1] as int + 0x1_0000 * bytes[at + 2] as int + 0x100_0000 * bytes[at + 3] as int
  }

  ghost predicate Holds32(bytes: Text, at: nat, v: nat) {
    at + 4 <= |bytes| && v == Word(bytes, at)
  }

  ghost predicate Holds64(bytes: Text, at: nat, v: nat) {
    at + 8 <= |bytes| && v == Word(bytes, at) + 0x1_0000_0000 * Word(bytes, at + 4)
  }

  lemma Reads16(bytes: Text, at: nat)
    requires at + 2 <= |bytes|
    ensures Holds16(bytes, at, U16(bytes, at))
  {
  }

  lemma Reads32(bytes: Text, at: nat)
    requires at + 4 <= |bytes|
    ensures Holds32(bytes, at, U32(bytes, at))
  {
  }

  lemma OneValue32(bytes: Text, at: nat, v: nat)
    requires Holds32(bytes, at, v)
    ensures U32(bytes, at) == v
  {
  }

  lemma Shifted16(bytes: Text, base: nat, n: nat, at: nat, v: nat)
    requires base + n <= |bytes| && Holds16(bytes[base..base + n], at, v)
    ensures Holds16(bytes, base + at, v)
  {
  }

  lemma Shifted32(bytes: Text, base: nat, n: nat, at: nat, v: nat)
    requires base + n <= |bytes| && Holds32(bytes[base..base + n], at, v)
    ensures Holds32(bytes, base + at, v)
  {
  }

  // ----- Directory entries.

  /** The name stored at `at`: UTF-16 units in the first bytes, as many as the length at 64 counts and no more
      than 32, up to the first zero unit; each an ASCII character or '?'. */
  ghost predicate NameAt(bytes: Text, at: nat, name: Text)
    requires at + 66 <= |bytes|
  {
    var n := Min(Half(bytes, at + 64), 64);
    && 2 * |name| <= n
    && (forall k :: 0 <= k < |name| ==> CharAt(bytes, at, k, name[k]))
    && (2 * |name| + 1 >= n || Holds16(bytes, at + 2 * |name|, 0))
  }

  ghost predicate CharAt(bytes: Text, at: nat, k: nat, c: Byte) {
    at + 2 * k + 2 <= |bytes|
    && Half(bytes, at + 2 * k) != 0
    && c as int == if Half(bytes, at + 2 * k) < 0x80 then Half(bytes, at + 2 * k) else '?' as int
  }

  /** The entry that stands in the 128 bytes from `at` on. */
  ghost predicate EntryStands(bytes: Text, at: nat, e: Entry, sectorBytes: nat) {
    && at + 128 <= |bytes|
    && NameAt(bytes, at, e.name) && e.kind == bytes[at + 66]
    && Holds32(bytes, at + 68, e.left) && Holds32(bytes, at + 72, e.right) && Holds32(bytes, at + 76, e.child)
    && Holds32(bytes, at + 116, e.start)
    && (if sectorBytes == 512 then Holds32(bytes, at + 120, e.size) else Holds64(bytes, at + 120, e.size))
  }

  lemma {:induction false} NarrowNameIs(raw: Text, i: nat, n: nat)
    requires n <= |raw|
    ensures forall k :: 0 <= k < |NarrowName(raw, i, n)| ==> CharAt(raw, i, k, NarrowName(raw, i, n)[k])
    ensures i <= n ==> i + 2 * |NarrowName(raw, i, n)| <= n
    ensures
      var end := i + 2 * |NarrowName(raw, i, n)|;
      end + 1 >= n || Holds16(raw, end, 0)
    decreases n - i
  {
    var name := NarrowName(raw, i, n);
    if name != [] {
      NarrowNameIs(raw, i + 2, n);
      forall k | 0 <= k < |name| ensures CharAt(raw, i, k, name[k]) {
        if k > 0 {
          var rest := NarrowName(raw, i + 2, n);
          assert CharAt(raw, i + 2, k - 1, rest[k - 1]);
        }
      }
    }
  }

  lemma ShiftedChar(bytes: Text, base: nat, n: nat, k: nat, c: Byte)
    requires base + n <= |bytes| && CharAt(bytes[base..base + n], 0, k, c)
    ensures CharAt(bytes, base, k, c)
  {
    Shifted16(bytes, base, n, 0 + 2 * k, Half(bytes[base..base + n], 0 + 2 * k));
  }

  lemma NameStands(bytes: Text, base: nat, raw: Text)
    requires |raw| == ENTRY_BYTES && base + ENTRY_BYTES <= |bytes| && raw == bytes[base..base + ENTRY_BYTES]
    ensures NameAt(bytes, base, NarrowName(raw, 0, Min(U16(raw, 64), 64)))
  {
    hide NarrowName, U16, Half, CharAt;
    var counted := U16(raw, 64);
    var n := Min(counted, 64);
    var name := NarrowName(raw, 0, n);
    NarrowNameIs(raw, 0, n);
    Reads16(raw, 64);
    Shifted16(bytes, base, ENTRY_BYTES, 64, counted);
    forall k | 0 <= k < |name| ensures CharAt(bytes, base, k, name[k]) { ShiftedChar(bytes, base, ENTRY_BYTES, k, name[k]); }
    if 2 * |name| + 1 < n { Shifted16(bytes, base, ENTRY_BYTES, 0 + 2 * |name|, 0); }
  }

  lemma Field(bytes: Text, base: nat, raw: Text, at: nat)
    requires |raw| == ENTRY_BYTES && base + ENTRY_BYTES <= |bytes| && raw == bytes[base..base + ENTRY_BYTES]
    requires at + 4 <= ENTRY_BYTES
    ensures Holds32(bytes, base + at, U32(raw, at))
  {
    hide Holds32, U32;
    Reads32(raw, at);
    Shifted32(bytes, base, ENTRY_BYTES, at, U32(raw, at));
  }

  lemma DecodedStands(bytes: Text, base: nat, raw: Text, sectorBytes: nat)
    requires |raw| == ENTRY_BYTES && base + ENTRY_BYTES <= |bytes| && raw == bytes[base..base + ENTRY_BYTES]
    ensures EntryStands(bytes, base, DecodeEntry(raw, sectorBytes), sectorBytes)
  {
    hide Word, U32, U16, NameAt, NarrowName;
    NameStands(bytes, base, raw);
    Field(bytes, base, raw, 68);
    Field(bytes, base, raw, 72);
    Field(bytes, base, raw, 76);
    Field(bytes, base, raw, 116);
    Field(bytes, base, raw, 120);
    Field(bytes, base, raw, 124);
    assert raw[66] == bytes[base + 66];
  }

  /** Entry `id` of the directory: as many to a sector as fit, in the sectors of the directory's chain. */
  lemma EntryStandsAt(bytes: Text, sectorBytes: nat, directory: seq<nat>, id: nat)
    requires SectorSize(sectorBytes)
    ensures
      var per := sectorBytes / 128;
      match EntryAt(bytes, sectorBytes, directory, id)
      case None => id / per >= |directory| || !SectorInside(bytes, sectorBytes, directory[id / per])
      case Some(e) =>
        && id / per < |directory| && SectorInside(bytes, sectorBytes, directory[id / per])
        && EntryStands(bytes, Place(sectorBytes, directory[id / per], id % per * 128), e, sectorBytes)
  {
    hide EntryStands, DecodeEntry, SectorAt, SectorInside, Place;
    var per := sectorBytes / ENTRY_BYTES;
    if id / per < |directory| {
      var sector := directory[id / per];
      SectorIs(bytes, sectorBytes, sector);
      if SectorInside(bytes, sectorBytes, sector) {
        EntryFits(id, sectorBytes);
        SliceStands(bytes, sectorBytes, sector, id % per * ENTRY_BYTES);
      }
    }
  }

  lemma EntryFits(id: nat, sectorBytes: nat)
    requires SectorSize(sectorBytes)
    ensures id % (sectorBytes / ENTRY_BYTES) * ENTRY_BYTES + ENTRY_BYTES <= sectorBytes
  {
  }

  lemma SliceStands(bytes: Text, sectorBytes: nat, sector: nat, at: nat)
    requires SectorInside(bytes, sectorBytes, sector) && at + ENTRY_BYTES <= sectorBytes
    requires SectorAt(bytes, sectorBytes, sector) == bytes[Place(sectorBytes, sector, 0)..Place(sectorBytes, sector, sectorBytes)]
    ensures |SectorAt(bytes, sectorBytes, sector)| == sectorBytes
    ensures
      var raw := SectorAt(bytes, sectorBytes, sector)[at..at + ENTRY_BYTES];
      EntryStands(bytes, Place(sectorBytes, sector, at), DecodeEntry(raw, sectorBytes), sectorBytes)
  {
    hide EntryStands, DecodeEntry, SectorAt;
    var base := Place(sectorBytes, sector, 0);
    assert Place(sectorBytes, sector, at) == base + at && Place(sectorBytes, sector, sectorBytes) == base + sectorBytes;
    hide Place;
    var raw := bytes[base..base + sectorBytes][at..at + ENTRY_BYTES];
    SliceOfSlice(bytes, base, sectorBytes, at, ENTRY_BYTES);
    DecodedStands(bytes, base + at, raw, sectorBytes);
  }

  lemma SliceOfSlice(bytes: Text, base: nat, n: nat, at: nat, m: nat)
    requires base + n <= |bytes| && at + m <= n
    ensures bytes[base..base + n][at..at + m] == bytes[base + at..base + at + m]
  {
    var inner, outer := bytes[base..base + n], bytes[base + at..base + at + m];
    forall k | 0 <= k < m ensures inner[at..at + m][k] == outer[k] { assert inner[at + k] == bytes[base + at + k]; }
    assert inner[at..at + m] == outer;
  }

  /** Byte `within` of a sector, in the file. */
  ghost function Place(sectorBytes: nat, sector: nat, within: nat): nat {
    (sector + 1) * sectorBytes + within
  }

  ghost predicate SectorInside(bytes: Text, sectorBytes: nat, id: nat) {
    id <= MAX_REGULAR_SECTOR && Place(sectorBytes, id, sectorBytes) <= |bytes|
  }

  lemma SectorIs(bytes: Text, sectorBytes: nat, id: nat)
    requires sectorBytes > 0
    ensures SectorAt(bytes, sectorBytes, id) != [] <==> SectorInside(bytes, sectorBytes, id)
    ensures SectorInside(bytes, sectorBytes, id) ==>
      SectorAt(bytes, sectorBytes, id) == bytes[Place(sectorBytes, id, 0)..Place(sectorBytes, id, sectorBytes)]
  {
  }

  // ----- The tables.

  /** Number i of a sector. */
  ghost predicate SectorHolds(bytes: Text, sectorBytes: nat, id: nat, i: nat, v: nat) {
    SectorInside(bytes, sectorBytes, id) && Holds32(bytes, Place(sectorBytes, id, 4 * i), v)
  }

  lemma SectorNumber(bytes: Text, sectorBytes: nat, id: nat, i: nat)
    requires SectorSize(sectorBytes) && SectorAt(bytes, sectorBytes, id) != [] && i < sectorBytes / 4
    ensures SectorHolds(bytes, sectorBytes, id, i, U32(SectorAt(bytes, sectorBytes, id), 4 * i))
  {
    hide Holds32, U32, SectorAt;
    SectorIs(bytes, sectorBytes, id);
    var sector, base := SectorAt(bytes, sectorBytes, id), Place(sectorBytes, id, 0);
    assert Place(sectorBytes, id, sectorBytes) == base + sectorBytes && Place(sectorBytes, id, 4 * i) == base + 4 * i;
    hide Place;
    Reads32(sector, 4 * i);
    Shifted32(bytes, base, sectorBytes, 4 * i, U32(sector, 4 * i));
  }

  /** An entry of a table stands in the sector its index falls in. */
  lemma TableStands(bytes: Text, sectorBytes: nat, ids: seq<nat>, table: seq<nat>, k: nat, i: nat, at: nat)
    requires at == k * (sectorBytes / 4) + i
    requires SectorSize(sectorBytes) && IsTable(bytes, sectorBytes, ids, table) && k < |ids| && i < sectorBytes / 4
    ensures at < |table| && SectorHolds(bytes, sectorBytes, ids[k], i, table[at])
  {
    hide SectorAt, U32, SectorHolds;
    var per := sectorBytes / 4;
    EntryInside(k, i, |ids|, per);
    assert SectorAt(bytes, sectorBytes, ids[k]) != [];
    assert TableEntry(table, per, k, i) == Some(U32(SectorAt(bytes, sectorBytes, ids[k]), 4 * i));
    SectorNumber(bytes, sectorBytes, ids[k], i);
  }

  /** The ids stored one behind the other from `at` on: n of them, or up to the first that is no regular sector. */
  ghost predicate IdsStand(bytes: Text, at: nat, n: nat, ids: seq<nat>) {
    && |ids| <= n && at + 4 * n <= |bytes|
    && (forall k :: 0 <= k < |ids| ==> ids[k] <= MAX_REGULAR_SECTOR && Holds32(bytes, at + 4 * k, ids[k]))
    && (|ids| < n ==> Word(bytes, at + 4 * |ids|) > MAX_REGULAR_SECTOR)
  }

  lemma {:induction false} TakenStand(bytes: Text, at: nat, n: nat)
    requires at + 4 * n <= |bytes|
    ensures IdsStand(bytes, at, n, TakeIds(bytes, at, n))
    decreases n
  {
    hide Word, U32;
    var ids := TakeIds(bytes, at, n);
    if n > 0 {
      Reads32(bytes, at);
      if U32(bytes, at) <= MAX_REGULAR_SECTOR {
        TakenStand(bytes, at + 4, n - 1);
        IdsStandNext(bytes, at, n, U32(bytes, at), TakeIds(bytes, at + 4, n - 1));
      }
    }
  }

  lemma IdsStandNext(bytes: Text, at: nat, n: nat, first: nat, rest: seq<nat>)
    requires n > 0 && IdsStand(bytes, at + 4, n - 1, rest) && first <= MAX_REGULAR_SECTOR && Holds32(bytes, at, first)
    ensures IdsStand(bytes, at, n, [first] + rest)
  {
    hide Word;
    var ids := [first] + rest;
    forall k | 0 <= k < |ids| ensures ids[k] <= MAX_REGULAR_SECTOR && Holds32(bytes, at + 4 * k, ids[k]) {
      if k > 0 { assert ids[k] == rest[k - 1] && at + 4 + 4 * (k - 1) == at + 4 * k; }
    }
    assert at + 4 + 4 * |rest| == at + 4 * |ids|;
  }

  /** The FAT's sectors: those in the header's 109 places from byte 76 on, at most as many as byte 44 declares,
      then those along the DIFAT chain that starts at the sector byte 68 names. */
  lemma FatSectorsStand(bytes: Text, sectorBytes: nat, sectorCount: nat, declared: nat, difat: nat)
    requires |bytes| >= 512 && SectorSize(sectorBytes) && Holds32(bytes, 44, declared) && Holds32(bytes, 68, difat)
    ensures
      var ids := FatSectorIds(bytes, sectorBytes, sectorCount);
      exists n: nat ::
        && n <= |ids| && IdsStand(bytes, 76, Min(109, declared), ids[..n]) && n <= declared
        && ids[n..] == DifatIds(bytes, sectorBytes, difat, declared - n, sectorCount)
  {
    hide Holds32, U32, DifatIds, TakeIds, IdsStand;
    OneValue32(bytes, 44, declared);
    OneValue32(bytes, 68, difat);
    var header := TakeIds(bytes, 76, Min(109, declared));
    TakenStand(bytes, 76, Min(109, declared));
    TakeIdsLength(bytes, 76, Min(109, declared));
    var rest := DifatIds(bytes, sectorBytes, difat, declared - |header|, sectorCount);
    var ids := header + rest;
    assert ids == FatSectorIds(bytes, sectorBytes, sectorCount);
    assert ids[..|header|] == header && ids[|header|..] == rest;
  }

  /** One sector of the DIFAT chain: its numbers but the last, as many as are wanted, and the last names the next
      sector. */
  lemma DifatSectorStands(bytes: Text, sectorBytes: nat, difat: nat, room: nat, steps: nat, next: nat)
    requires SectorSize(sectorBytes) && room > 0 && steps > 0
    requires SectorHolds(bytes, sectorBytes, difat, sectorBytes / 4 - 1, next)
    ensures
      var ids := DifatIds(bytes, sectorBytes, difat, room, steps);
      exists n: nat ::
        && n <= |ids| && n <= room && IdsStand(bytes, Place(sectorBytes, difat, 0), Min(sectorBytes / 4 - 1, room), ids[..n])
        && ids[n..] == DifatIds(bytes, sectorBytes, next, room - n, steps - 1)
  {
    hide Holds32, U32, SectorAt, TakeIds, IdsStand;
    SectorIs(bytes, sectorBytes, difat);
    var per, sector, base := sectorBytes / 4 - 1, SectorAt(bytes, sectorBytes, difat), Place(sectorBytes, difat, 0);
    assert Place(sectorBytes, difat, sectorBytes) == base + sectorBytes && Place(sectorBytes, difat, 4 * per) == base + 4 * per;
    hide Place;
    var head := TakeIds(sector, 0, Min(per, room));
    TakeIdsLength(sector, 0, Min(per, room));
    TakenStand(sector, 0, Min(per, room));
    ShiftedIds(bytes, base, sectorBytes, Min(per, room), head);
    SectorNumber(bytes, sectorBytes, difat, per);
    OneValue32(bytes, base + 4 * per, next);
    OneValue32(bytes, base + 4 * per, U32(sector, 4 * per));
    var rest := DifatIds(bytes, sectorBytes, next, room - |head|, steps - 1);
    var ids := head + rest;
    assert DifatIds(bytes, sectorBytes, difat, room, steps) == ids;
    hide DifatIds;
    assert ids[..|head|] == head && ids[|head|..] == rest;
  }

  lemma ShiftedIds(bytes: Text, base: nat, n: nat, count: nat, ids: seq<nat>)
    requires base + n <= |bytes| && IdsStand(bytes[base..base + n], 0, count, ids)
    ensures IdsStand(bytes, base, count, ids)
  {
    hide Word;
    forall k | 0 <= k < |ids| ensures Holds32(bytes, base + 4 * k, ids[k]) { Shifted32(bytes, base, n, 0 + 4 * k, ids[k]); }
    if |ids| < count { Shifted32(bytes, base, n, 0 + 4 * |ids|, Word(bytes[base..base + n], 0 + 4 * |ids|)); }
  }

  /** A mini sector is there exactly when the root storage's stream has its 64 bytes and the file the sector they
      fall in; and it is these bytes of the file. */
  lemma MiniSectorStands(v: Volume, mini: nat)
    requires SectorSize(v.sectorBytes)
    ensures
      var k, within := 64 * mini / v.sectorBytes, 64 * mini % v.sectorBytes;
      if 64 * mini + 64 <= v.miniStreamBytes && k < |v.miniStream| && SectorInside(v.bytes, v.sectorBytes, v.miniStream[k]) then
        var at := Place(v.sectorBytes, v.miniStream[k], within);
        at + 64 <= |v.bytes| && MiniSector(v, mini) == v.bytes[at..at + 64]
      else MiniSector(v, mini) == []
  {
    MiniOffset(mini, v.sectorBytes);
    var k, within := 64 * mini / v.sectorBytes, 64 * mini % v.sectorBytes;
    if k < |v.miniStream| {
      SectorIs(v.bytes, v.sectorBytes, v.miniStream[k]);
      MiniInSector(v.bytes, v.sectorBytes, v.miniStream[k], within);
    }
    hide SectorAt, SectorInside, Place;
  }

  lemma MiniInSector(bytes: Text, sectorBytes: nat, sector: nat, within: nat)
    requires within + 64 <= sectorBytes
    ensures SectorInside(bytes, sectorBytes, sector) ==>
      var at := Place(sectorBytes, sector, within);
      && at + 64 <= |bytes| && |SectorAt(bytes, sectorBytes, sector)| == sectorBytes
      && SectorAt(bytes, sectorBytes, sector)[within..within + 64] == bytes[at..at + 64]
  {
    if SectorInside(bytes, sectorBytes, sector) {
      SectorIs(bytes, sectorBytes, sector);
      var base := Place(sectorBytes, sector, 0);
      assert Place(sectorBytes, sector, within) == base + within && Place(sectorBytes, sector, sectorBytes) == base + sectorBytes;
      hide Place, SectorAt;
      SliceOfSlice(bytes, base, sectorBytes, within, 64);
    }
  }

  // ----- The header.

  /** What an opened file read from its header: the sector size at 30 and the mini sector's at 32, both as
      exponents of two, the directory's first sector at 48, the cutoff at 56, and at 60 and 64 the first sector
      and the number of sectors of the mini FAT. */
  ghost predicate HeaderStands(bytes: Text, v: Volume) {
    && |bytes| >= 512 && bytes[..8] == [0xD0, 0xCF, 0x11, 0xE0, 0xA1, 0xB1, 0x1A, 0xE1]
    && ((v.sectorBytes == 512 && Holds16(bytes, 30, 9)) || (v.sectorBytes == 4096 && Holds16(bytes, 30, 12)))
    && Holds16(bytes, 32, 6) && Holds32(bytes, 56, v.miniCutoff)
    && v.directory != [] && Holds32(bytes, 48, v.directory[0])
    && exists first: nat, declared: nat :: MiniFatStands(bytes, v, first, declared)
  }

  ghost predicate MiniFatStands(bytes: Text, v: Volume, first: nat, declared: nat) {
    && Holds32(bytes, 60, first) && Holds32(bytes, 64, declared) && v.sectorBytes >= 4
    && IsTable(bytes, v.sectorBytes, DeclaredSectors(bytes, v.sectorBytes, Chain(v.fat, first, v.sectorCount), declared), v.miniFat)
  }

  lemma OpenedHeader(bytes: Text, v: Volume)
    requires Opens(bytes, v)
    ensures HeaderStands(bytes, v)
    ensures EntryStands(bytes, Place(v.sectorBytes, v.directory[0], 0), v.root, v.sectorBytes) && v.root.kind == 5
  {
    hide Opens, U16, U32, Holds32, Holds16, IsTable, Chain, EntryAt, EntryStands, Place, SectorInside, DeclaredSectors;
    OpensTables(bytes, v);
    OpensHeader(bytes, v);
    Reads16(bytes, 30);
    Reads16(bytes, 32);
    Reads32(bytes, 48);
    Reads32(bytes, 56);
    Reads32(bytes, 60);
    Reads32(bytes, 64);
    assert bytes[..8] == SIGNATURE;
    assert MiniFatStands(bytes, v, U32(bytes, 60), U32(bytes, 64));
    EntryStandsAt(bytes, v.sectorBytes, v.directory, 0);
  }

  lemma OpensHeader(bytes: Text, v: Volume)
    requires Opens(bytes, v)
    ensures |bytes| >= HEADER_BYTES && SIGNATURE <= bytes && U16(bytes, 32) == 6 && v.miniCutoff == U32(bytes, 56)
    ensures (v.sectorBytes == 512 && U16(bytes, 30) == 9) || (v.sectorBytes == 4096 && U16(bytes, 30) == 12)
    ensures v.directory != [] && v.directory[0] == U32(bytes, 48)
    ensures EntryAt(bytes, v.sectorBytes, v.directory, 0) == Some(v.root) && v.root.kind == ROOT_STORAGE
  {
    hide FatSectorIds, IsTable, EntryAt, U16, U32, DeclaredSectors;
  }
}
