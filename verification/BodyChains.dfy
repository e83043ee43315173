/** Chains of body positions that move as one (src/document_reading_order.cpp). */
module BodyChains {
  import opened Bytes
  import opened XyCut

  datatype Kind = Plain | Caption | Footnote | Table | Picture | PageHeader | PageFooter

  datatype Sited = Sited(page: int, box: OrderBox)

  /** What the pass reads of one child of the body. */
  datatype Entry = Entry(place: Option<Sited>, kind: Kind)

  datatype Chain = Chain(place: Option<Sited>, kind: Kind, positions: seq<nat>)

  /** A placement names a page from 1 on and a box with area. */
  ghost predicate Sound(place: Option<Sited>) {
    place.Some? ==> place.value.page >= 1 && place.value.box.left < place.value.box.right && place.value.box.top < place.value.box.bottom
  }

  predicate IsFurniture(kind: Kind) { kind.PageHeader? || kind.PageFooter? }

  predicate CarriesNoFollowers(kind: Kind) { IsFurniture(kind) || kind.Footnote? }

  /** A placed item that unplaced items behind it ride with. */
  predicate IsCarrier(e: Entry) { e.place.Some? && !CarriesNoFollowers(e.kind) }

  // ----- Who rides with whom.

  function LastCarrier(entries: seq<Entry>, n: nat): (r: Option<nat>)
    requires n <= |entries|
    ensures r.Some? ==> r.value < n && IsCarrier(entries[r.value]) && forall k :: r.value < k < n ==> !IsCarrier(entries[k])
    ensures r.None? ==> forall k :: 0 <= k < n ==> !IsCarrier(entries[k])
  {
    if n == 0 then None else if IsCarrier(entries[n - 1]) then Some(n - 1) else LastCarrier(entries, n - 1)
  }

  /** The position whose chain position p belongs to: its own when placed, else the last carrier before it,
      else the start of the run of unplaced positions it stands in. */
  function HeadOf(entries: seq<Entry>, p: nat): (r: nat)
    requires p < |entries|
    ensures r <= p
  {
    if entries[p].place.Some? then p
    else match LastCarrier(entries, p)
      case Some(q) => q
      case None => if p > 0 && entries[p - 1].place.None? then HeadOf(entries, p - 1) else p
  }

  // ----- The chains of the first n positions.

  ghost predicate Chained(entries: seq<Entry>, n: nat, chains: seq<Chain>)
    requires n <= |entries|
  {
    && (forall c, k :: 0 <= c < |chains| && 0 <= k < |chains[c].positions| ==> chains[c].positions[k] < n)
    && (forall c :: 0 <= c < |chains| ==> IsChain(entries, n, chains[c]))
    && (forall c, e :: 0 <= c < e < |chains| ==> chains[c].positions[0] < chains[e].positions[0])
  }

  /** Headed by its first position, whose placement and label it has; the rest ride with it, in order. */
  ghost predicate IsChain(entries: seq<Entry>, n: nat, chain: Chain)
    requires n <= |entries|
  {
    && chain.positions != []
    && (forall k :: 0 <= k < |chain.positions| ==> chain.positions[k] < n && HeadOf(entries, chain.positions[k]) == chain.positions[0])
    && (forall k, m :: 0 <= k < m < |chain.positions| ==> chain.positions[k] < chain.positions[m])
    && chain.place == entries[chain.positions[0]].place && chain.kind == entries[chain.positions[0]].kind
  }

  function Gather(chains: seq<Chain>, order: seq<nat>): seq<nat> {
    if order == [] then []
    else (if order[0] < |chains| then chains[order[0]].positions else []) + Gather(chains, order[1..])
  }

  function Flat(chains: seq<Chain>): seq<nat> {
    if chains == [] then [] else Flat(chains[..|chains| - 1]) + chains[|chains| - 1].positions
  }

  function Joined(chain: Chain, p: nat): Chain { chain.(positions := chain.positions + [p]) }

  lemma FlatLast(chains: seq<Chain>, before: seq<Chain>, last: Chain)
    requires chains == before + [last]
    ensures Flat(chains) == Flat(before) + last.positions
  {
    assert chains[..|chains| - 1] == before;
  }

  lemma {:induction false} FlatUpdate(chains: seq<Chain>, c: nat, p: nat)
    requires c < |chains|
    ensures multiset(Flat(chains[c := Joined(chains[c], p)])) == multiset(Flat(chains)) + multiset{p}
  {
    hide Flat;
    var last := |chains| - 1;
    var before, updated := chains[..last], chains[c := Joined(chains[c], p)];
    FlatLast(chains, before, chains[last]);
    if c < last {
      assert updated == before[c := Joined(before[c], p)] + [chains[last]];
      FlatLast(updated, before[c := Joined(before[c], p)], chains[last]);
      FlatUpdate(before, c, p);
    } else {
      assert updated == before + [Joined(chains[c], p)];
      FlatLast(updated, before, Joined(chains[c], p));
    }
  }

  /** The chain an unplaced position p joins, by the two places the scan remembers. */
  ghost predicate Remembers(entries: seq<Entry>, n: nat, chains: seq<Chain>, lastMain: Option<nat>)
    requires n <= |entries|
  {
    && (lastMain.Some? <==> LastCarrier(entries, n).Some?)
    && (lastMain.Some? ==> lastMain.value < |chains| && chains[lastMain.value].positions != []
                           && chains[lastMain.value].positions[0] == LastCarrier(entries, n).value)
    && (lastMain.None? && chains != [] ==> var back := chains[|chains| - 1].positions; back != [] && back[|back| - 1] == n - 1)
    && (chains == [] <==> n == 0)
  }

  lemma JoinChain(entries: seq<Entry>, n: nat, chains: seq<Chain>, c: nat)
    requires n < |entries| && Chained(entries, n, chains) && c < |chains|
    requires HeadOf(entries, n) == chains[c].positions[0]
    ensures Chained(entries, n + 1, chains[c := Joined(chains[c], n)])
  {
    var joined := Joined(chains[c], n);
    hide HeadOf;
    assert IsChain(entries, n + 1, joined);
    forall e | 0 <= e < |chains| ensures IsChain(entries, n + 1, chains[e]) {
      assert IsChain(entries, n, chains[e]);
    }
  }

  lemma StartChain(entries: seq<Entry>, n: nat, chains: seq<Chain>)
    requires n < |entries| && Chained(entries, n, chains) && HeadOf(entries, n) == n
    ensures Chained(entries, n + 1, chains + [Chain(entries[n].place, entries[n].kind, [n])])
  {
    hide HeadOf;
    assert IsChain(entries, n + 1, Chain(entries[n].place, entries[n].kind, [n]));
    forall e | 0 <= e < |chains| ensures IsChain(entries, n + 1, chains[e]) {
      assert IsChain(entries, n, chains[e]);
    }
  }

  /** In a run of unplaced positions with no carrier before it, the last chain is the run's. */
  lemma BackIsRun(entries: seq<Entry>, n: nat, chains: seq<Chain>)
    requires 0 < n < |entries| && Chained(entries, n, chains) && Remembers(entries, n, chains, None)
    requires entries[n].place.None?
    ensures chains[|chains| - 1].place.None? <==> entries[n - 1].place.None?
    ensures chains[|chains| - 1].place.None? ==> HeadOf(entries, n) == chains[|chains| - 1].positions[0]
    ensures chains[|chains| - 1].place.Some? ==> HeadOf(entries, n) == n
  {
    var back := chains[|chains| - 1];
    assert IsChain(entries, n, back);
    assert HeadOf(entries, n - 1) == back.positions[0];
    assert LastCarrier(entries, n).None? && LastCarrier(entries, n - 1).None?;
    if entries[n - 1].place.None? { RunHeadUnplaced(entries, n - 1); }
  }

  lemma {:induction false} RunHeadUnplaced(entries: seq<Entry>, p: nat)
    requires p < |entries| && entries[p].place.None? && LastCarrier(entries, p).None?
    ensures entries[HeadOf(entries, p)].place.None?
  {
    if p > 0 && entries[p - 1].place.None? { RunHeadUnplaced(entries, p - 1); }
  }

  /** Every body position lands in one chain, the one of the item it rides with. */
  method BuildChains(entries: seq<Entry>) returns (chains: seq<Chain>)
    ensures Chained(entries, |entries|, chains)
    ensures multiset(Flat(chains)) == multiset(UpTo(|entries|))
  {
    hide Chained, Flat, HeadOf, UpTo;
    chains := [];
    var lastMain: Option<nat> := None;
    EmptyChained(entries);
    for position := 0 to |entries|
      invariant Chained(entries, position, chains) && Remembers(entries, position, chains, lastMain)
      invariant multiset(Flat(chains)) == multiset(UpTo(position))
    {
      var e := entries[position];
      UpToNext(position);
      StepHeads(entries, position, chains, lastMain);
      if e.place.None? {
        if lastMain.Some? {
          JoinChain(entries, position, chains, lastMain.value);
          FlatUpdate(chains, lastMain.value, position);
          chains := chains[lastMain.value := Joined(chains[lastMain.value], position)];
        } else if chains != [] && chains[|chains| - 1].place.None? {
          JoinChain(entries, position, chains, |chains| - 1);
          FlatUpdate(chains, |chains| - 1, position);
          chains := chains[|chains| - 1 := Joined(chains[|chains| - 1], position)];
        } else {
          StartChain(entries, position, chains);
          FlatAppend(chains, Chain(None, e.kind, [position]));
          chains := chains + [Chain(None, e.kind, [position])];
        }
        continue;
      }
      StartChain(entries, position, chains);
      FlatAppend(chains, Chain(e.place, e.kind, [position]));
      chains := chains + [Chain(e.place, e.kind, [position])];
      if !CarriesNoFollowers(e.kind) { lastMain := Some(|chains| - 1); }
    }
  }

  lemma UpToNext(n: nat)
    ensures UpTo(n + 1) == UpTo(n) + [n]
  {
  }

  lemma EmptyChained(entries: seq<Entry>)
    ensures Chained(entries, 0, []) && Flat([]) == []
  {
  }

  lemma FlatAppend(chains: seq<Chain>, chain: Chain)
    ensures Flat(chains + [chain]) == Flat(chains) + chain.positions
  {
    assert (chains + [chain])[..|chains|] == chains;
  }

  lemma StepHeads(entries: seq<Entry>, n: nat, chains: seq<Chain>, lastMain: Option<nat>)
    requires n < |entries| && Chained(entries, n, chains) && Remembers(entries, n, chains, lastMain)
    ensures entries[n].place.Some? ==> HeadOf(entries, n) == n
    ensures entries[n].place.None? && lastMain.Some? ==> HeadOf(entries, n) == chains[lastMain.value].positions[0]
    ensures entries[n].place.None? && lastMain.None? && chains != [] && chains[|chains| - 1].place.None? ==>
        HeadOf(entries, n) == chains[|chains| - 1].positions[0]
    ensures entries[n].place.None? && lastMain.None? && !(chains != [] && chains[|chains| - 1].place.None?) ==> HeadOf(entries, n) == n
  {
    if entries[n].place.None? && lastMain.None? && n > 0 { BackIsRun(entries, n, chains); }
  }
}
