/** Documents: arenas of items that refer to each other by name (src/document_merge.cpp,
    src/document_repair.cpp). A canonical reference such as "#/texts/12" is `At(Texts, 12)`. */
module Documents {
  import opened Bytes

  datatype Arena = Groups | Texts | Pictures | Tables | KeyValueItems | FormItems | FieldRegions | FieldItems

  const ARENAS: seq<Arena> := [Groups, Texts, Pictures, Tables, KeyValueItems, FormItems, FieldRegions, FieldItems]

  datatype Ref = Body | Furniture | At(arena: Arena, index: nat) | Foreign(name: string)

  predicate IsText(r: Ref) { r.At? && r.arena == Texts }

  /** An item's own name may be absent; it then goes by its place. `links` are the references an
      item holds besides its place in the tree: captions, footnotes, anchors, graph cells. `code`
      marks the one text variant that keeps its fields outside the common base. */
  datatype Item = Item(selfRef: Option<Ref>, parent: Option<Ref>, children: seq<Ref>, links: seq<Ref>,
                       content: string, code: bool)

  const NO_ITEMS: map<Arena, seq<Item>> :=
    map[Groups := [], Texts := [], Pictures := [], Tables := [],
        KeyValueItems := [], FormItems := [], FieldRegions := [], FieldItems := []]

  ghost predicate Total(m: map<Arena, seq<Item>>) {
    forall a: Arena :: a in m
  }

  lemma NoItemsTotal()
    ensures Total(NO_ITEMS)
  {
    forall a: Arena ensures a in NO_ITEMS {
      match a
      case Groups => case Texts => case Pictures => case Tables =>
      case KeyValueItems => case FormItems => case FieldRegions => case FieldItems =>
    }
  }

  lemma EveryArena()
    ensures forall a: Arena :: a in ARENAS
  {
    forall a: Arena ensures a in ARENAS {
      match a
      case Groups => assert ARENAS[0] == a;
      case Texts => assert ARENAS[1] == a;
      case Pictures => assert ARENAS[2] == a;
      case Tables => assert ARENAS[3] == a;
      case KeyValueItems => assert ARENAS[4] == a;
      case FormItems => assert ARENAS[5] == a;
      case FieldRegions => assert ARENAS[6] == a;
      case FieldItems => assert ARENAS[7] == a;
    }
  }

  type Arenas = m: map<Arena, seq<Item>> | Total(m) witness (NoItemsTotal(); NO_ITEMS)

  datatype Document = Document(arenas: Arenas, body: seq<Ref>, furniture: seq<Ref>)

  const EMPTY: Document := (NoItemsTotal(); Document(NO_ITEMS, [], []))

  /** The item a reference names, when it names one. */
  ghost predicate Resolves(d: Document, r: Ref) {
    r.At? && r.index < |d.arenas[r.arena]|
  }

  ghost function ItemAt(d: Document, r: Ref): Item
    requires Resolves(d, r)
  {
    d.arenas[r.arena][r.index]
  }

  ghost function ChildrenOf(d: Document, node: Ref): seq<Ref> {
    match node
    case Body => d.body
    case Furniture => d.furniture
    case At(_, _) => if Resolves(d, node) then ItemAt(d, node).children else []
    case Foreign(_) => []
  }

  ghost predicate IsNode(d: Document, r: Ref) {
    r.Body? || r.Furniture? || Resolves(d, r)
  }

  /** Items sit where their names say. */
  ghost predicate Named(d: Document) {
    forall r: Ref :: Resolves(d, r) && ItemAt(d, r).selfRef.Some? ==> ItemAt(d, r).selfRef.value == r
  }

  /** Every reference names something: a child an item, a parent or a link a node. */
  ghost predicate Closed(d: Document) {
    && (forall node, c: Ref :: c in ChildrenOf(d, node) ==> Resolves(d, c))
    && (forall r: Ref :: Resolves(d, r) && ItemAt(d, r).parent.Some? ==> IsNode(d, ItemAt(d, r).parent.value))
    && (forall r, l: Ref :: Resolves(d, r) && l in ItemAt(d, r).links ==> IsNode(d, l))
  }

  /** A node lists an item exactly when the item names the node its parent. */
  ghost predicate TwoSided(d: Document) {
    forall node, c: Ref :: Resolves(d, c) ==> (c in ChildrenOf(d, node) <==> ItemAt(d, c).parent == Some(node))
  }

  ghost predicate Distinct<T(!new)>(s: seq<T>) {
    forall i, j :: 0 <= i < j < |s| ==> s[i] != s[j]
  }

  ghost predicate ListedOnce(d: Document) {
    forall node: Ref :: Distinct(ChildrenOf(d, node))
  }

  ghost predicate WellFormed(d: Document) {
    Named(d) && Closed(d) && TwoSided(d) && ListedOnce(d)
  }

  /** Well-formedness at one item and one node, and at one list. */
  lemma LinkedBothWays(d: Document, node: Ref, c: Ref)
    requires WellFormed(d) && Resolves(d, c)
    ensures c in ChildrenOf(d, node) <==> ItemAt(d, c).parent == Some(node)
    ensures ItemAt(d, c).parent.Some? ==> IsNode(d, ItemAt(d, c).parent.value)
  {
  }

  lemma ListSound(d: Document, node: Ref)
    requires WellFormed(d)
    ensures Distinct(ChildrenOf(d, node)) && forall i :: 0 <= i < |ChildrenOf(d, node)| ==> Resolves(d, ChildrenOf(d, node)[i])
  {
    forall i | 0 <= i < |ChildrenOf(d, node)| ensures Resolves(d, ChildrenOf(d, node)[i]) {
      assert ChildrenOf(d, node)[i] in ChildrenOf(d, node);
    }
  }

  // ----- Rewriting references.

  function Renamed(mapping: map<Ref, Ref>, r: Ref): Ref {
    if r in mapping then mapping[r] else r
  }

  function RenamedAll(mapping: map<Ref, Ref>, refs: seq<Ref>): seq<Ref> {
    seq(|refs|, i requires 0 <= i < |refs| => Renamed(mapping, refs[i]))
  }

  function RenamedOption(mapping: map<Ref, Ref>, r: Option<Ref>): Option<Ref> {
    if r.Some? then Some(Renamed(mapping, r.value)) else None
  }

  function RewriteItem(mapping: map<Ref, Ref>, item: Item): Item {
    item.(selfRef := RenamedOption(mapping, item.selfRef),
          parent := RenamedOption(mapping, item.parent),
          children := RenamedAll(mapping, item.children),
          links := RenamedAll(mapping, item.links))
  }

  function RewriteItems(mapping: map<Ref, Ref>, items: seq<Item>): seq<Item> {
    seq(|items|, i requires 0 <= i < |items| => RewriteItem(mapping, items[i]))
  }

  /** Every reference of a document, wherever it sits. */
  ghost function RewriteDocument(mapping: map<Ref, Ref>, d: Document): Document {
    Document(map a: Arena | a in d.arenas :: RewriteItems(mapping, d.arenas[a]),
             RenamedAll(mapping, d.body), RenamedAll(mapping, d.furniture))
  }

  /** A document as an object, changed in place. */
  class DocumentObject {
    var arenas: Arenas
    var body: seq<Ref>
    var furniture: seq<Ref>

    ghost function Value(): Document
      reads this
    {
      Document(arenas, body, furniture)
    }

    constructor (d: Document)
      ensures Value() == d
    {
      arenas, body, furniture := d.arenas, d.body, d.furniture;
    }
  }
}
