// The whole storage of the cursor registry as one value, the invariant that every
// mutex-held section restores, and why each structural change restores it: removing a
// lineage, rewriting rows in place, touching, installing and extending.

module RegistryState {
  import opened Wrappers
  import opened Arena
  import opened RegistryModel

  // Arena columns, recency order, entry chains per lineage, the token of every entry, the
  // contents of both indexes, and the counters.
  datatype Snap = Snap(
    cells: seq<Cell<EntryRow>>, lines: seq<Cell<LineageRow>>, order: seq<nat>,
    chains: map<nat, seq<nat>>, tokenOf: map<nat, Token>, tokenMap: map<Token, nat>, idMap: map<nat, nat>,
    freeEntries: nat, freeLineages: nat, tokenLive: nat, idLive: nat,
    usedSlots: nat, baseBytes: nat, totalBytes: nat)

  function RowAt(cells: seq<Cell<EntryRow>>, i: nat): EntryRow {
    if i < |cells| then cells[i].row else VACANT_ENTRY
  }

  function LineAt(lines: seq<Cell<LineageRow>>, i: nat): LineageRow {
    if i < |lines| then lines[i].row else VACANT_LINEAGE
  }

  function RowsOf(cells: seq<Cell<EntryRow>>, chain: seq<nat>): (rows: seq<EntryRow>)
    ensures |rows| == |chain| && forall k :: 0 <= k < |chain| ==> rows[k] == RowAt(cells, chain[k])
  {
    seq(|chain|, k requires 0 <= k < |chain| => RowAt(cells, chain[k]))
  }

  function ChainAt(chains: map<nat, seq<nat>>, l: nat): seq<nat> {
    if l in chains then chains[l] else []
  }

  function ItemOf(s: Snap, l: nat): Item {
    Item(l, LineAt(s.lines, l), RowsOf(s.cells, ChainAt(s.chains, l)))
  }

  // All lineages, most recently used first.
  function Items(s: Snap): (items: seq<Item>)
    ensures |items| == |s.order| && forall k :: 0 <= k < |items| ==> items[k] == ItemOf(s, s.order[k])
  {
    seq(|s.order|, k requires 0 <= k < |s.order| => ItemOf(s, s.order[k]))
  }

  // ---------------------------------------------------------------- the invariant

  predicate Occupied<T>(cells: seq<Cell<T>>, i: nat) { i < |cells| && cells[i].occupied }

  // One chain: its cells are linked both ways, numbered from zero and owned by the lineage.
  ghost predicate ChainOk(cells: seq<Cell<EntryRow>>, l: nat, chain: seq<nat>) {
    forall k :: 0 <= k < |chain| ==>
      var row := RowAt(cells, chain[k]);
      && Occupied(cells, chain[k])
      && row.lineage == l && row.page == k && row.parent == Before(chain, k) && row.successor == After(chain, k)
  }

  ghost predicate ChainsOk(s: Snap) {
    && (forall l :: l in s.chains <==> Occupied(s.lines, l))
    && (forall l :: l in s.chains ==> s.chains[l] != [] && LineAt(s.lines, l).entryHead == s.chains[l][0]
                                      && ChainOk(s.cells, l, s.chains[l]))
    && (forall e :: Occupied(s.cells, e) ==> Owned(s, e))
  }

  // Every occupied cell is on the chain of its lineage, at its page.
  ghost predicate Owned(s: Snap, e: nat) {
    var row := RowAt(s.cells, e);
    row.lineage in s.chains && row.page < |s.chains[row.lineage]| && s.chains[row.lineage][row.page] == e
  }

  ghost predicate OrderOk(s: Snap) {
    && Distinct(s.order)
    && (forall l :: l in s.order <==> Occupied(s.lines, l))
  }

  // The token index resolves exactly the occupied entries, each by its own token.
  ghost predicate TokensOk(s: Snap) {
    && (forall e :: e in s.tokenOf <==> Occupied(s.cells, e))
    && Inverse(s.tokenOf, s.tokenMap)
  }

  ghost predicate Inverse(tokenOf: map<nat, Token>, tokenMap: map<Token, nat>) {
    && (forall e :: e in tokenOf ==> tokenOf[e] in tokenMap && tokenMap[tokenOf[e]] == e)
    && (forall t :: t in tokenMap ==> tokenMap[t] in tokenOf && tokenOf[tokenMap[t]] == t)
  }

  // The lineage index resolves exactly the occupied lineages, each by its own identifier.
  ghost predicate IdsOk(s: Snap) {
    && (forall l :: Occupied(s.lines, l) ==> LineAt(s.lines, l).id in s.idMap && s.idMap[LineAt(s.lines, l).id] == l)
    && (forall id :: id in s.idMap ==> Occupied(s.lines, s.idMap[id]) && LineAt(s.lines, s.idMap[id]).id == id)
  }

  ghost predicate ItemsOk(cfg: Config, items: seq<Item>) {
    forall k :: 0 <= k < |items| ==> Accounted(items[k]) && WellRun(cfg, items[k])
  }

  ghost predicate CountsOk(cfg: Config, s: Snap) {
    && var sum := Sum(Items(s));
    && s.usedSlots == sum.slots <= cfg.maxEntries
    && s.totalBytes == s.baseBytes + sum.bytes <= cfg.maxTotalBytes
    && s.tokenLive == sum.entries && s.idLive == sum.lineages
    && s.freeEntries + s.tokenLive == |s.cells| == cfg.maxEntries
    && s.freeLineages + s.idLive == |s.lines| == cfg.maxEntries
  }

  // Cells in use have not reached the last generation.
  ghost predicate Reusable(s: Snap) {
    && (forall e: nat :: Occupied(s.cells, e) ==> s.cells[e].generation < MAX_GENERATION)
    && (forall l: nat :: Occupied(s.lines, l) ==> s.lines[l].generation < MAX_GENERATION)
  }

  ghost predicate Ok(cfg: Config, s: Snap) {
    ChainsOk(s) && OrderOk(s) && TokensOk(s) && IdsOk(s) && ItemsOk(cfg, Items(s)) && CountsOk(cfg, s) && Reusable(s)
  }

  lemma ItemsDistinct(s: Snap)
    requires OrderOk(s)
    ensures DistinctRefs(Items(s))
  {
  }

  // The position of an occupied lineage in the recency order.
  lemma Position(s: Snap, l: nat) returns (p: nat)
    requires OrderOk(s) && Occupied(s.lines, l)
    ensures p < |s.order| && s.order[p] == l && Items(s)[p] == ItemOf(s, l)
  {
    assert l in s.order;
    p :| 0 <= p < |s.order| && s.order[p] == l;
  }

  // An entry on the chain of one lineage is on no other chain.
  lemma ChainsDisjoint(s: Snap, l: nat, m: nat, e: nat)
    requires ChainsOk(s) && l in s.chains && m in s.chains && l != m && e in s.chains[m]
    ensures e !in s.chains[l] && RowAt(s.cells, e).lineage == m && Occupied(s.cells, e)
  {
    assert ChainOk(s.cells, l, s.chains[l]) && ChainOk(s.cells, m, s.chains[m]);
    forall x | x in s.chains[l] ensures RowAt(s.cells, x).lineage == l {
      var j :| 0 <= j < |s.chains[l]| && s.chains[l][j] == x;
    }
    var k :| 0 <= k < |s.chains[m]| && s.chains[m][k] == e;
  }

  // ---------------------------------------------------------------- removing a lineage

  ghost function TokensAt(tokenOf: map<nat, Token>, chain: seq<nat>): set<Token> {
    set e | e in chain && e in tokenOf :: tokenOf[e]
  }

  ghost function Untold(tokenOf: map<nat, Token>, chain: seq<nat>): map<nat, Token> {
    map e | e in tokenOf && e !in chain :: tokenOf[e]
  }

  // A released cell: free, one generation on.
  ghost predicate Vacated<T>(a: Cell<T>, b: Cell<T>) {
    !b.occupied && b.generation == a.generation + 1
  }

  // Exactly the cells of the chain were released.
  ghost predicate ReleasedAlong(a: seq<Cell<EntryRow>>, b: seq<Cell<EntryRow>>, chain: seq<nat>) {
    && |b| == |a|
    && forall e :: 0 <= e < |a| ==> if e in chain then Vacated(a[e], b[e]) else b[e] == a[e]
  }

  // s' is s with the lineage at position p of the order gone, and nothing else changed.
  ghost predicate WithoutLineage(s: Snap, s': Snap, p: nat)
    requires p < |s.order|
  {
    var l, chain := s.order[p], ChainAt(s.chains, s.order[p]);
    && ReleasedAlong(s.cells, s'.cells, chain) && |s'.lines| == |s.lines|
    && (forall m :: 0 <= m < |s.lines| ==>
      if m == l then Vacated(s.lines[m], s'.lines[m]) else s'.lines[m] == s.lines[m])
    && s'.order == s.order[..p] + s.order[p + 1..]
    && s'.chains == s.chains - {l}
    && s'.tokenOf == Untold(s.tokenOf, chain)
    && s'.tokenMap == s.tokenMap - TokensAt(s.tokenOf, chain)
    && s'.idMap == s.idMap - {LineAt(s.lines, l).id}
  }

  // ... and the counters lowered by its weight.
  ghost predicate Uncounted(s: Snap, s': Snap, p: nat)
    requires p < |s.order|
  {
    var w := Weight(Items(s)[p].row);
    && s'.usedSlots == s.usedSlots - w.slots && s'.totalBytes == s.totalBytes - w.bytes && s'.baseBytes == s.baseBytes
    && s'.tokenLive == s.tokenLive - w.entries && s'.freeEntries == s.freeEntries + w.entries
    && s'.idLive == s.idLive - 1 && s'.freeLineages == s.freeLineages + 1
  }

  lemma RemoveKeepsItems(s: Snap, s': Snap, p: nat)
    requires ChainsOk(s) && OrderOk(s) && p < |s.order| && WithoutLineage(s, s', p)
    ensures Items(s') == Items(s)[..p] + Items(s)[p + 1..]
  {
    hide ChainsOk, OrderOk;
    forall q | 0 <= q < |s.order| && q != p ensures ItemOf(s', s.order[q]) == ItemOf(s, s.order[q]) {
      RemoveKeepsItem(s, s', p, q);
    }
    assert s'.order == s.order[..p] + s.order[p + 1..];
    hide WithoutLineage, ItemOf;
    var rest := Items(s)[..p] + Items(s)[p + 1..];
    forall k | 0 <= k < |s'.order| ensures Items(s')[k] == rest[k] {
      assert s'.order[k] == s.order[if k < p then k else k + 1];
      assert rest[k] == Items(s)[if k < p then k else k + 1];
    }
  }

  lemma RemoveKeepsItem(s: Snap, s': Snap, p: nat, q: nat)
    requires ChainsOk(s) && OrderOk(s) && p < |s.order| && WithoutLineage(s, s', p) && q < |s.order| && q != p
    ensures ItemOf(s', s.order[q]) == ItemOf(s, s.order[q])
  {
    var l, m := s.order[p], s.order[q];
    assert l != m && m in s.order && l in s.order;
    var chain := s.chains[m];
    forall k | 0 <= k < |chain| ensures RowAt(s'.cells, chain[k]) == RowAt(s.cells, chain[k]) {
      ChainsDisjoint(s, l, m, chain[k]);
    }
    assert RowsOf(s'.cells, chain) == RowsOf(s.cells, chain);
  }

  lemma RemoveKeepsOrder(s: Snap, s': Snap, p: nat)
    requires OrderOk(s) && p < |s.order| && WithoutLineage(s, s', p)
    ensures OrderOk(s')
  {
    WithoutAt(s.order, p);
    assert s'.order == Without(s.order, s.order[p]);
  }

  lemma RemoveKeepsChains(s: Snap, s': Snap, p: nat)
    requires ChainsOk(s) && OrderOk(s) && p < |s.order| && WithoutLineage(s, s', p)
    ensures ChainsOk(s')
  {
    var l := s.order[p];
    assert l in s.order;
    forall m | m in s'.chains
      ensures s'.chains[m] != [] && LineAt(s'.lines, m).entryHead == s'.chains[m][0]
              && ChainOk(s'.cells, m, s'.chains[m])
    {
      forall k | 0 <= k < |s.chains[m]|
        ensures Occupied(s'.cells, s.chains[m][k]) && RowAt(s'.cells, s.chains[m][k]) == RowAt(s.cells, s.chains[m][k])
      {
        ChainsDisjoint(s, l, m, s.chains[m][k]);
      }
    }
    forall e: nat | Occupied(s'.cells, e) ensures Owned(s', e) {
      assert Owned(s, e);
    }
  }

  lemma RemoveKeepsTokens(s: Snap, s': Snap, p: nat)
    requires TokensOk(s) && p < |s.order| && WithoutLineage(s, s', p)
    ensures TokensOk(s')
  {
    hide TokensAt, Inverse;
    InverseMinus(s.tokenOf, s.tokenMap, ChainAt(s.chains, s.order[p]));
  }

  // Dropping some entries and exactly their tokens keeps the two maps inverse to each other.
  lemma InverseMinus(tokenOf: map<nat, Token>, tokenMap: map<Token, nat>, chain: seq<nat>)
    requires Inverse(tokenOf, tokenMap)
    ensures Inverse(Untold(tokenOf, chain), tokenMap - TokensAt(tokenOf, chain))
  {
    var gone := TokensAt(tokenOf, chain);
    forall t | t in tokenMap ensures t in gone <==> tokenMap[t] in chain {
      assert tokenOf[tokenMap[t]] == t;
    }
  }

  lemma RemoveKeepsIds(s: Snap, s': Snap, p: nat)
    requires OrderOk(s) && IdsOk(s) && p < |s.order| && WithoutLineage(s, s', p)
    ensures IdsOk(s')
  {
    assert s.order[p] in s.order;
    forall l: nat | Occupied(s'.lines, l)
      ensures LineAt(s'.lines, l).id in s'.idMap && s'.idMap[LineAt(s'.lines, l).id] == l
    {
      assert Occupied(s.lines, l) && s.idMap[LineAt(s.lines, l).id] == l;
    }
  }

  lemma RemoveKeepsReusable(s: Snap, s': Snap, p: nat)
    requires Reusable(s) && p < |s.order| && WithoutLineage(s, s', p)
    ensures Reusable(s') && |s'.cells| == |s.cells| && |s'.lines| == |s.lines|
  {
    forall e: nat | Occupied(s'.cells, e) ensures s'.cells[e].generation < MAX_GENERATION {
      assert Occupied(s.cells, e);
    }
    forall l: nat | Occupied(s'.lines, l) ensures s'.lines[l].generation < MAX_GENERATION {
      assert Occupied(s.lines, l);
    }
  }

  // Removing a lineage takes exactly it out of the view and restores the invariant.
  lemma RemoveOk(cfg: Config, s: Snap, s': Snap, p: nat)
    requires Ok(cfg, s) && p < |s.order| && WithoutLineage(s, s', p) && Covers(Sum(Items(s)), Weight(Items(s)[p].row))
    requires Uncounted(s, s', p)
    ensures Ok(cfg, s') && Items(s') == Items(s)[..p] + Items(s)[p + 1..]
  {
    hide WithoutLineage, ChainsOk, TokensOk, IdsOk, OrderOk, Reusable, ItemOf, Accounted, WellRun;
    RemoveKeepsItems(s, s', p);
    RemoveKeepsOrder(s, s', p);
    RemoveKeepsChains(s, s', p);
    RemoveKeepsTokens(s, s', p);
    RemoveKeepsIds(s, s', p);
    RemoveKeepsReusable(s, s', p);
    SumSplit(Items(s), p);
    RestItemsOk(cfg, Items(s), p);
  }

  lemma RestItemsOk(cfg: Config, items: seq<Item>, p: nat)
    requires ItemsOk(cfg, items) && p < |items|
    ensures ItemsOk(cfg, items[..p] + items[p + 1..])
  {
  }

  // ---------------------------------------------------------------- rewriting rows in place

  // Columns that say where an entry belongs.
  predicate SamePlace(a: EntryRow, b: EntryRow) {
    a.lineage == b.lineage && a.parent == b.parent && a.successor == b.successor && a.page == b.page
  }

  // s' is s but for data columns of one lineage and of entries on its chain.
  ghost predicate Rewritten(s: Snap, s': Snap, l: nat) {
    && |s'.cells| == |s.cells| && |s'.lines| == |s.lines|
    && (forall e :: 0 <= e < |s.cells| ==>
          && s'.cells[e].occupied == s.cells[e].occupied && s'.cells[e].generation == s.cells[e].generation
          && SamePlace(s'.cells[e].row, s.cells[e].row)
          && (e !in ChainAt(s.chains, l) ==> s'.cells[e].row == s.cells[e].row))
    && (forall m :: 0 <= m < |s.lines| ==>
          && s'.lines[m].occupied == s.lines[m].occupied && s'.lines[m].generation == s.lines[m].generation
          && s'.lines[m].row.id == s.lines[m].row.id && s'.lines[m].row.entryHead == s.lines[m].row.entryHead
          && (m != l ==> s'.lines[m].row == s.lines[m].row))
    && s'.order == s.order && s'.chains == s.chains && s'.tokenOf == s.tokenOf && s'.tokenMap == s.tokenMap
    && s'.idMap == s.idMap && s'.freeEntries == s.freeEntries && s'.freeLineages == s.freeLineages
    && s'.tokenLive == s.tokenLive && s'.idLive == s.idLive && s'.baseBytes == s.baseBytes
  }

  lemma RewriteKeepsStructure(s: Snap, s': Snap, l: nat)
    requires ChainsOk(s) && OrderOk(s) && TokensOk(s) && IdsOk(s) && Reusable(s) && Rewritten(s, s', l)
    ensures ChainsOk(s') && OrderOk(s') && TokensOk(s') && IdsOk(s') && Reusable(s')
  {
    hide ChainsOk, Inverse, Rewritten;
    RewriteKeepsChains(s, s', l);
    SameOccupancy(s, s', l);
    assert OrderOk(s') by { hide TokensOk, IdsOk, Reusable; }
    assert TokensOk(s') by { hide OrderOk, IdsOk, Reusable; }
    assert IdsOk(s') by { hide OrderOk, TokensOk, Reusable, LineAt; }
    assert Reusable(s') by { hide OrderOk, TokensOk, IdsOk; }
  }

  lemma SameOccupancy(s: Snap, s': Snap, l: nat)
    requires Rewritten(s, s', l)
    ensures forall e: nat :: Occupied(s'.cells, e) <==> Occupied(s.cells, e)
    ensures forall m: nat :: Occupied(s'.lines, m) <==> Occupied(s.lines, m)
    ensures forall m: nat :: LineAt(s'.lines, m).id == LineAt(s.lines, m).id
    ensures forall e: nat :: Occupied(s.cells, e) ==> s'.cells[e].generation == s.cells[e].generation
    ensures forall m: nat :: Occupied(s.lines, m) ==> s'.lines[m].generation == s.lines[m].generation
    ensures s'.order == s.order && s'.tokenOf == s.tokenOf && s'.tokenMap == s.tokenMap && s'.idMap == s.idMap
  {
  }

  lemma RewriteKeepsChains(s: Snap, s': Snap, l: nat)
    requires ChainsOk(s) && Rewritten(s, s', l)
    ensures ChainsOk(s')
  {
    forall m | m in s'.chains
      ensures s'.chains[m] != [] && LineAt(s'.lines, m).entryHead == s'.chains[m][0]
              && ChainOk(s'.cells, m, s'.chains[m])
    {
      assert ChainOk(s.cells, m, s.chains[m]);
    }
    forall e: nat | Occupied(s'.cells, e) ensures Owned(s', e) {
      assert Owned(s, e);
    }
  }

  lemma RewriteKeepsItems(s: Snap, s': Snap, p: nat)
    requires ChainsOk(s) && OrderOk(s) && p < |s.order| && Rewritten(s, s', s.order[p])
    ensures Items(s') == Items(s)[p := ItemOf(s', s.order[p])]
  {
    forall q | 0 <= q < |s.order| && q != p ensures ItemOf(s', s.order[q]) == ItemOf(s, s.order[q]) {
      RewriteKeepsOther(s, s', p, q);
    }
    hide ChainsOk, OrderOk, Rewritten, ItemOf;
    forall q | 0 <= q < |s.order| ensures Items(s')[q] == Items(s)[p := ItemOf(s', s.order[p])][q] {
    }
  }

  lemma RewriteKeepsOther(s: Snap, s': Snap, p: nat, q: nat)
    requires ChainsOk(s) && OrderOk(s) && p < |s.order| && q < |s.order| && q != p && Rewritten(s, s', s.order[p])
    ensures s'.order == s.order && ItemOf(s', s.order[q]) == ItemOf(s, s.order[q])
  {
    var l, m := s.order[p], s.order[q];
    assert l in s.order && m in s.order && m != l;
    forall k | 0 <= k < |s.chains[m]| ensures RowAt(s'.cells, s.chains[m][k]) == RowAt(s.cells, s.chains[m][k]) {
      ChainsDisjoint(s, l, m, s.chains[m][k]);
    }
    assert RowsOf(s'.cells, s.chains[m]) == RowsOf(s.cells, s.chains[m]);
  }

  // Rewriting data columns changes one item of the view; with the counters adjusted to its
  // new weight the invariant holds again.
  lemma RewriteOk(cfg: Config, s: Snap, s': Snap, p: nat)
    requires Ok(cfg, s) && p < |s.order| && Rewritten(s, s', s.order[p])
    requires var it, it' := Items(s)[p], ItemOf(s', s.order[p]);
             && Accounted(it') && WellRun(cfg, it')
             && s'.usedSlots + Slots(it.row) == s.usedSlots + Slots(it'.row) && s'.usedSlots <= cfg.maxEntries
             && s'.totalBytes + it.row.dynamicBytes == s.totalBytes + it'.row.dynamicBytes
               && s'.totalBytes <= cfg.maxTotalBytes
    ensures Ok(cfg, s') && Items(s') == Items(s)[p := ItemOf(s', s.order[p])]
  {
    hide ChainsOk, OrderOk, TokensOk, IdsOk, Reusable, ItemOf, WellRun, Accounted, ItemsOk, CountsOk, Rewritten, Items;
    RewriteKeepsStructure(s, s', s.order[p]);
    RewriteKeepsItems(s, s', p);
    RewriteKeepsCounts(cfg, s, s', p, ItemOf(s', s.order[p]));
  }

  lemma ItemsUpdated(cfg: Config, items: seq<Item>, p: nat, it: Item)
    requires ItemsOk(cfg, items) && p < |items| && Accounted(it) && WellRun(cfg, it)
    ensures ItemsOk(cfg, items[p := it])
  {
    hide Accounted, WellRun;
  }

  lemma RewriteKeepsCounts(cfg: Config, s: Snap, s': Snap, p: nat, it': Item)
    requires ItemsOk(cfg, Items(s)) && CountsOk(cfg, s) && p < |s.order| && Rewritten(s, s', s.order[p])
    requires Items(s') == Items(s)[p := it'] && it' == ItemOf(s', s.order[p])
    requires Accounted(it') && WellRun(cfg, it')
    requires var it := Items(s)[p];
             && s'.usedSlots + Slots(it.row) == s.usedSlots + Slots(it'.row) && s'.usedSlots <= cfg.maxEntries
             && s'.totalBytes + it.row.dynamicBytes == s.totalBytes + it'.row.dynamicBytes
               && s'.totalBytes <= cfg.maxTotalBytes
    ensures ItemsOk(cfg, Items(s')) && CountsOk(cfg, s')
  {
    SumUpdate(Items(s), p, it');
    assert |it'.chain| == |Items(s)[p].chain|;
    assert Accounted(Items(s)[p]);
    ItemsUpdated(cfg, Items(s), p, it');
    hide Items, ItemOf, WellRun, ItemsOk;
  }

  // ---------------------------------------------------------------- touching

  // The element at position p comes to the front.
  function Fronted<T>(s: seq<T>, p: nat): (r: seq<T>)
    requires p < |s|
    ensures |r| == |s|
  {
    [s[p]] + (s[..p] + s[p + 1..])
  }

  lemma FrontedAt<T>(s: seq<T>, p: nat, k: nat)
    requires p < |s| && k < |s|
    ensures Fronted(s, p)[k] == s[if k == 0 then p else if k - 1 < p then k - 1 else k]
  {
  }

  ghost predicate Touched(s: Snap, s': Snap, p: nat)
    requires p < |s.order|
  {
    s' == s.(order := [s.order[p]] + Without(s.order, s.order[p]))
  }

  lemma TouchOk(cfg: Config, s: Snap, s': Snap, p: nat)
    requires Ok(cfg, s) && p < |s.order| && Touched(s, s', p)
    ensures Ok(cfg, s') && Items(s') == Fronted(Items(s), p)
  {
    hide ChainsOk, OrderOk, TokensOk, IdsOk, Reusable, ItemOf, WellRun, Accounted, Touched;
    TouchKeepsStructure(s, s', p);
    TouchKeepsItems(s, s', p);
    SumSplit(Items(s), p);
    RestItemsOk(cfg, Items(s), p);
    assert |s'.cells| == |s.cells| && |s'.lines| == |s.lines| && s'.(order := s.order) == s by {
      TouchKeepsRest(s, s', p);
    }
  }

  lemma TouchKeepsRest(s: Snap, s': Snap, p: nat)
    requires p < |s.order| && Touched(s, s', p)
    ensures s'.(order := s.order) == s
  {
  }

  lemma TouchKeepsItems(s: Snap, s': Snap, p: nat)
    requires OrderOk(s) && p < |s.order| && Touched(s, s', p)
    ensures Items(s') == Fronted(Items(s), p)
  {
    WithoutAt(s.order, p);
    hide OrderOk, Without, Distinct, Fronted;
    forall k | 0 <= k < |s.order| ensures Items(s')[k] == Fronted(Items(s), p)[k] {
      FrontedAt(s.order, p, k);
      FrontedAt(Items(s), p, k);
    }
  }

  lemma TouchKeepsStructure(s: Snap, s': Snap, p: nat)
    requires ChainsOk(s) && OrderOk(s) && TokensOk(s) && IdsOk(s) && Reusable(s) && p < |s.order| && Touched(s, s', p)
    ensures ChainsOk(s') && OrderOk(s') && TokensOk(s') && IdsOk(s') && Reusable(s')
  {
    WithoutAt(s.order, p);
    forall e: nat | Occupied(s'.cells, e) ensures Owned(s', e) {
      assert Owned(s, e);
    }
  }

  // ---------------------------------------------------------------- extending a chain

  ghost predicate SameLine(a: Cell<LineageRow>, b: Cell<LineageRow>) {
    a.occupied == b.occupied && a.generation == b.generation && a.row.id == b.row.id
      && a.row.entryHead == b.row.entryHead
  }

  // s' is s with the free cell e appended, under token t, to the chain of the lineage at
  // position p; the last entry points to it, and data columns of the lineage may differ.
  ghost predicate Extended(s: Snap, s': Snap, p: nat, e: nat, t: Token)
    requires p < |s.order|
  {
    var l, chain := s.order[p], ChainAt(s.chains, s.order[p]);
    && chain != []
    && var last := chain[|chain| - 1];
    && |s'.cells| == |s.cells| && |s'.lines| == |s.lines|
    && e < |s.cells| && !s.cells[e].occupied && last < |s.cells| && last != e && t !in s.tokenMap
    && s'.cells[e].occupied && s'.cells[e].generation == s.cells[e].generation < MAX_GENERATION
    && s'.cells[e].row.lineage == l && s'.cells[e].row.parent == last && s'.cells[e].row.successor == NO_REF
    && s'.cells[e].row.page == |chain|
    && s'.cells[last].occupied == s.cells[last].occupied && s'.cells[last].generation == s.cells[last].generation
    && SamePlace(s'.cells[last].row, s.cells[last].row.(successor := e))
    && (forall i :: 0 <= i < |s.cells| && i != e && i != last ==> s'.cells[i] == s.cells[i])
    && (forall m :: 0 <= m < |s.lines| ==>
      if m == l then SameLine(s'.lines[m], s.lines[m]) else s'.lines[m] == s.lines[m])
    && s'.order == s.order && s'.chains == s.chains[l := chain + [e]]
    && s'.tokenOf == s.tokenOf[e := t] && s'.tokenMap == s.tokenMap[t := e] && s'.idMap == s.idMap
    && s'.freeEntries == s.freeEntries - 1 && s'.freeLineages == s.freeLineages
    && s'.tokenLive == s.tokenLive + 1 && s'.idLive == s.idLive && s'.baseBytes == s.baseBytes
  }

  // Apart from the parent that gets a successor, every entry on a chain keeps its cell.
  lemma ExtendKeepsCell(s: Snap, s': Snap, p: nat, e: nat, t: Token, m: nat, k: nat)
    requires ChainsOk(s) && OrderOk(s) && p < |s.order| && Extended(s, s', p, e, t)
    requires m in s.chains && k < |s.chains[m]| && (m == s.order[p] ==> k < |s.chains[m]| - 1)
    ensures s.chains[m][k] < |s.cells| && s'.cells[s.chains[m][k]] == s.cells[s.chains[m][k]]
  {
    var l := s.order[p];
    assert l in s.order;
    var last := |s.chains[l]| - 1;
    ChainEntry(s, m, k);
    ChainEntry(s, l, last);
    hide ChainsOk, OrderOk;
  }

  lemma ChainEntry(s: Snap, m: nat, k: nat)
    requires ChainsOk(s) && m in s.chains && k < |s.chains[m]|
    ensures var chain := s.chains[m];
            var row := RowAt(s.cells, chain[k]);
            && Occupied(s.cells, chain[k]) && row.lineage == m && row.page == k
            && row.parent == Before(chain, k) && row.successor == After(chain, k)
  {
    assert ChainOk(s.cells, m, s.chains[m]);
  }

  lemma ExtendKeepsOthers(s: Snap, s': Snap, p: nat, e: nat, t: Token, m: nat)
    requires ChainsOk(s) && OrderOk(s) && p < |s.order| && Extended(s, s', p, e, t)
    requires m in s.chains && m != s.order[p]
    ensures m in s'.chains && s'.chains[m] == s.chains[m]
    ensures LineAt(s'.lines, m) == LineAt(s.lines, m)
    ensures RowsOf(s'.cells, s.chains[m]) == RowsOf(s.cells, s.chains[m])
    ensures ChainOk(s'.cells, m, s.chains[m])
  {
    forall k | 0 <= k < |s.chains[m]|
      ensures s.chains[m][k] < |s.cells| && s'.cells[s.chains[m][k]] == s.cells[s.chains[m][k]]
    {
      ExtendKeepsCell(s, s', p, e, t, m, k);
    }
    assert |s'.cells| == |s.cells| && |s'.lines| == |s.lines| && s'.chains[m] == s.chains[m];
    assert LineAt(s'.lines, m) == LineAt(s.lines, m);
    assert ChainOk(s.cells, m, s.chains[m]);
    hide ChainsOk, OrderOk, Extended;
    SameChain(s.cells, s'.cells, m, s.chains[m]);
  }

  lemma SameChain(a: seq<Cell<EntryRow>>, b: seq<Cell<EntryRow>>, m: nat, chain: seq<nat>)
    requires |b| == |a| && ChainOk(a, m, chain)
    requires forall k :: 0 <= k < |chain| ==> chain[k] < |a| && b[chain[k]] == a[chain[k]]
    ensures RowsOf(b, chain) == RowsOf(a, chain) && ChainOk(b, m, chain)
  {
    forall k | 0 <= k < |chain|
      ensures RowAt(b, chain[k]) == RowAt(a, chain[k]) && Occupied(b, chain[k]) == Occupied(a, chain[k])
    {
    }
    hide RowAt, Occupied;
  }

  lemma GrownChainOk(s: Snap, s': Snap, p: nat, e: nat, t: Token, k: nat)
    requires ChainsOk(s) && OrderOk(s) && p < |s.order| && Extended(s, s', p, e, t)
    requires k <= |ChainAt(s.chains, s.order[p])|
    ensures var grown := ChainAt(s.chains, s.order[p]) + [e];
            var row := RowAt(s'.cells, grown[k]);
            && Occupied(s'.cells, grown[k]) && row.lineage == s.order[p] && row.page == k
            && row.parent == Before(grown, k) && row.successor == After(grown, k)
  {
    var l := s.order[p];
    assert l in s.order;
    var chain := s.chains[l];
    if k < |chain| {
      ChainEntry(s, l, k);
      if k < |chain| - 1 { ExtendKeepsCell(s, s', p, e, t, l, k); }
    }
    hide ChainsOk, OrderOk;
    GrownLinks(chain, e, k);
    hide After, Before;
  }

  lemma GrownLinks(chain: seq<nat>, e: nat, k: nat)
    requires chain != [] && k <= |chain|
    ensures var grown := chain + [e];
            && grown[k] == (if k < |chain| then chain[k] else e)
            && Before(grown, k) == (if k < |chain| then Before(chain, k) else chain[|chain| - 1])
            && After(grown, k)
                 == (if k == |chain| then NO_REF else if k == |chain| - 1 then e else After(chain, k))
  {
  }

  lemma ExtendedFacts(s: Snap, s': Snap, p: nat, e: nat, t: Token)
    requires p < |s.order| && Extended(s, s', p, e, t)
    ensures var l := s.order[p];
            && s'.order == s.order && s'.chains == s.chains[l := ChainAt(s.chains, l) + [e]]
            && LineAt(s'.lines, l).entryHead == LineAt(s.lines, l).entryHead
            && (forall m: nat :: Occupied(s'.lines, m) <==> Occupied(s.lines, m))
            && Occupied(s'.cells, e) && RowAt(s'.cells, e).lineage == l
              && RowAt(s'.cells, e).page == |ChainAt(s.chains, l)|
  {
  }

  lemma ExtendKeepsChains(s: Snap, s': Snap, p: nat, e: nat, t: Token)
    requires ChainsOk(s) && OrderOk(s) && p < |s.order| && Extended(s, s', p, e, t)
    ensures ChainsOk(s')
  {
    var l := s.order[p];
    assert l in s.order;
    hide Extended;
    ExtendedFacts(s, s', p, e, t);
    var grown := s.chains[l] + [e];
    forall m | m in s'.chains
      ensures s'.chains[m] != [] && LineAt(s'.lines, m).entryHead == s'.chains[m][0]
              && ChainOk(s'.cells, m, s'.chains[m])
    {
      if m != l {
        ExtendKeepsOthers(s, s', p, e, t, m);
      } else {
        ExtendKeepsGrown(s, s', p, e, t);
      }
    }
    forall i: nat | Occupied(s'.cells, i) ensures Owned(s', i) {
      ExtendKeepsOwned(s, s', p, e, t, i);
    }
    hide ChainOk, Owned;
  }

  lemma ExtendKeepsGrown(s: Snap, s': Snap, p: nat, e: nat, t: Token)
    requires ChainsOk(s) && OrderOk(s) && p < |s.order| && Extended(s, s', p, e, t)
    ensures ChainOk(s'.cells, s.order[p], ChainAt(s.chains, s.order[p]) + [e])
  {
    hide ChainsOk, OrderOk, Extended;
    var grown := ChainAt(s.chains, s.order[p]) + [e];
    forall k | 0 <= k < |grown|
      ensures var row := RowAt(s'.cells, grown[k]);
              && Occupied(s'.cells, grown[k]) && row.lineage == s.order[p] && row.page == k
              && row.parent == Before(grown, k) && row.successor == After(grown, k)
    {
      GrownChainOk(s, s', p, e, t, k);
    }
  }

  lemma ExtendKeepsPlace(s: Snap, s': Snap, p: nat, e: nat, t: Token, i: nat)
    requires p < |s.order| && Extended(s, s', p, e, t) && Occupied(s'.cells, i) && i != e
    ensures Occupied(s.cells, i)
    ensures RowAt(s'.cells, i).lineage == RowAt(s.cells, i).lineage && RowAt(s'.cells, i).page == RowAt(s.cells, i).page
  {
  }

  lemma ExtendKeepsOwned(s: Snap, s': Snap, p: nat, e: nat, t: Token, i: nat)
    requires ChainsOk(s) && OrderOk(s) && p < |s.order| && Extended(s, s', p, e, t) && Occupied(s'.cells, i)
    ensures Owned(s', i)
  {
    hide Extended, RowAt, OrderOk;
    assert s.order[p] in s.chains by { LineageHasChain(s, p); }
    ExtendedFacts(s, s', p, e, t);
    if i != e {
      ExtendKeepsPlace(s, s', p, e, t, i);
      assert Owned(s, i);
    }
    hide ChainsOk;
  }

  lemma LineageHasChain(s: Snap, p: nat)
    requires ChainsOk(s) && OrderOk(s) && p < |s.order|
    ensures s.order[p] in s.chains && s.chains[s.order[p]] != []
  {
    assert s.order[p] in s.order;
  }

  lemma ExtendKeepsStructure(s: Snap, s': Snap, p: nat, e: nat, t: Token)
    requires OrderOk(s) && TokensOk(s) && IdsOk(s) && Reusable(s) && p < |s.order| && Extended(s, s', p, e, t)
    ensures OrderOk(s') && TokensOk(s') && IdsOk(s') && Reusable(s')
  {
    hide Inverse;
    assert forall i: nat :: Occupied(s'.cells, i) <==> Occupied(s.cells, i) || i == e;
    assert forall m: nat :: Occupied(s'.lines, m) <==> Occupied(s.lines, m);
    assert forall m: nat :: LineAt(s'.lines, m).id == LineAt(s.lines, m).id;
    assert Reusable(s') by { hide OrderOk, TokensOk, IdsOk; }
    assert TokensOk(s') by {
      InversePlus(s.tokenOf, s.tokenMap, e, t);
      hide OrderOk, IdsOk, Reusable;
    }
    hide Extended;
    assert s'.order == s.order && s'.idMap == s.idMap by { ExtendKeepsOrder(s, s', p, e, t); }
    assert OrderOk(s') by { hide TokensOk, IdsOk, Reusable; }
    assert IdsOk(s') by { hide OrderOk, TokensOk, Reusable, LineAt; }
  }

  lemma ExtendKeepsOrder(s: Snap, s': Snap, p: nat, e: nat, t: Token)
    requires p < |s.order| && Extended(s, s', p, e, t)
    ensures s'.order == s.order && s'.idMap == s.idMap
  {
  }

  lemma InversePlus(tokenOf: map<nat, Token>, tokenMap: map<Token, nat>, e: nat, t: Token)
    requires Inverse(tokenOf, tokenMap) && e !in tokenOf && t !in tokenMap
    ensures Inverse(tokenOf[e := t], tokenMap[t := e])
  {
  }

  lemma ExtendKeepsItems(s: Snap, s': Snap, p: nat, e: nat, t: Token)
    requires ChainsOk(s) && OrderOk(s) && p < |s.order| && Extended(s, s', p, e, t)
    ensures Items(s') == Items(s)[p := ItemOf(s', s.order[p])]
    ensures var chain := ChainAt(s.chains, s.order[p]);
            && chain != []
            && ItemOf(s', s.order[p]).chain
              == Items(s)[p].chain[|chain| - 1 := RowAt(s'.cells, chain[|chain| - 1])] + [RowAt(s'.cells, e)]
  {
    var l := s.order[p];
    assert l in s.order;
    hide ChainsOk, OrderOk, Extended;
    ExtendedFacts(s, s', p, e, t);
    forall q | 0 <= q < |s.order| && q != p ensures ItemOf(s', s.order[q]) == ItemOf(s, s.order[q]) {
      ExtendKeepsItem(s, s', p, e, t, q);
    }
    ExtendKeepsRows(s, s', p, e, t);
  }

  lemma ExtendKeepsItem(s: Snap, s': Snap, p: nat, e: nat, t: Token, q: nat)
    requires ChainsOk(s) && OrderOk(s) && p < |s.order| && Extended(s, s', p, e, t) && q < |s.order| && q != p
    ensures ItemOf(s', s.order[q]) == ItemOf(s, s.order[q])
  {
    hide Extended;
    assert s.order[q] in s.order && s.order[q] != s.order[p];
    ExtendKeepsOthers(s, s', p, e, t, s.order[q]);
  }

  lemma ExtendKeepsRows(s: Snap, s': Snap, p: nat, e: nat, t: Token)
    requires ChainsOk(s) && OrderOk(s) && p < |s.order| && Extended(s, s', p, e, t)
    ensures var chain := ChainAt(s.chains, s.order[p]);
            && chain != []
            && RowsOf(s'.cells, chain + [e])
                 == RowsOf(s.cells, chain)[|chain| - 1 := RowAt(s'.cells, chain[|chain| - 1])] + [RowAt(s'.cells, e)]
  {
    var l := s.order[p];
    assert l in s.order;
    var chain := s.chains[l];
    forall k | 0 <= k < |chain| - 1 ensures RowAt(s'.cells, chain[k]) == RowAt(s.cells, chain[k]) {
      ExtendKeepsCell(s, s', p, e, t, l, k);
    }
    hide ChainsOk, OrderOk, Extended, RowAt;
    RowsExtended(s.cells, s'.cells, chain, e);
  }

  lemma RowsExtended(a: seq<Cell<EntryRow>>, b: seq<Cell<EntryRow>>, chain: seq<nat>, e: nat)
    requires chain != [] && forall k :: 0 <= k < |chain| - 1 ==> RowAt(b, chain[k]) == RowAt(a, chain[k])
    ensures RowsOf(b, chain + [e])
              == RowsOf(a, chain)[|chain| - 1 := RowAt(b, chain[|chain| - 1])] + [RowAt(b, e)]
  {
    hide RowAt;
    var left, right := RowsOf(b, chain + [e]),
        RowsOf(a, chain)[|chain| - 1 := RowAt(b, chain[|chain| - 1])] + [RowAt(b, e)];
    forall k | 0 <= k < |left| ensures left[k] == right[k] {
      assert left[k] == RowAt(b, (chain + [e])[k]);
    }
  }

  lemma ExtendOk(cfg: Config, s: Snap, s': Snap, p: nat, e: nat, t: Token)
    requires Ok(cfg, s) && p < |s.order| && Extended(s, s', p, e, t)
    requires var it, it' := Items(s)[p], ItemOf(s', s.order[p]);
             && Accounted(it') && WellRun(cfg, it')
             && s'.usedSlots + Slots(it.row) == s.usedSlots + Slots(it'.row) && s'.usedSlots <= cfg.maxEntries
             && s'.totalBytes + it.row.dynamicBytes == s.totalBytes + it'.row.dynamicBytes
               && s'.totalBytes <= cfg.maxTotalBytes
    ensures Ok(cfg, s') && Items(s') == Items(s)[p := ItemOf(s', s.order[p])]
  {
    hide ChainsOk, OrderOk, TokensOk, IdsOk, Reusable, ItemOf, WellRun, Accounted, ItemsOk, CountsOk, Extended, Items;
    ExtendKeepsChains(s, s', p, e, t);
    ExtendKeepsStructure(s, s', p, e, t);
    ExtendKeepsItems(s, s', p, e, t);
    ExtendKeepsCounts(cfg, s, s', p, e, t, ItemOf(s', s.order[p]));
  }

  lemma ExtendKeepsCounts(cfg: Config, s: Snap, s': Snap, p: nat, e: nat, t: Token, it': Item)
    requires ItemsOk(cfg, Items(s)) && CountsOk(cfg, s) && p < |s.order| && Extended(s, s', p, e, t)
    requires Items(s') == Items(s)[p := it'] && it' == ItemOf(s', s.order[p])
    requires Accounted(it') && WellRun(cfg, it')
    requires var it := Items(s)[p];
             && s'.usedSlots + Slots(it.row) == s.usedSlots + Slots(it'.row) && s'.usedSlots <= cfg.maxEntries
             && s'.totalBytes + it.row.dynamicBytes == s.totalBytes + it'.row.dynamicBytes
               && s'.totalBytes <= cfg.maxTotalBytes
    ensures ItemsOk(cfg, Items(s')) && CountsOk(cfg, s')
  {
    SumUpdate(Items(s), p, it');
    assert |it'.chain| == |Items(s)[p].chain| + 1;
    assert Accounted(Items(s)[p]);
    ItemsUpdated(cfg, Items(s), p, it');
    hide Items, ItemOf, WellRun, ItemsOk;
  }

  // ---------------------------------------------------------------- installing a lineage

  // s' is s with the free cells l and e made a lineage of one entry, at the front of the order.
  ghost predicate Installed(s: Snap, s': Snap, l: nat, e: nat, t: Token) {
    && |s'.cells| == |s.cells| && |s'.lines| == |s.lines|
    && e < |s.cells| && !s.cells[e].occupied && l < |s.lines| && !s.lines[l].occupied
    && t !in s.tokenMap && s'.lines[l].row.id !in s.idMap
    && s'.cells[e].occupied && s'.cells[e].generation < MAX_GENERATION
    && s'.cells[e].row.lineage == l && s'.cells[e].row.parent == NO_REF && s'.cells[e].row.successor == NO_REF
    && s'.cells[e].row.page == 0
    && s'.lines[l].occupied && s'.lines[l].generation < MAX_GENERATION && s'.lines[l].row.entryHead == e
    && (forall i :: 0 <= i < |s.cells| && i != e ==> s'.cells[i] == s.cells[i])
    && (forall m :: 0 <= m < |s.lines| && m != l ==> s'.lines[m] == s.lines[m])
    && s'.order == [l] + s.order && s'.chains == s.chains[l := [e]]
    && s'.tokenOf == s.tokenOf[e := t] && s'.tokenMap == s.tokenMap[t := e]
    && s'.idMap == s.idMap[s'.lines[l].row.id := l]
    && s'.freeEntries == s.freeEntries - 1 && s'.freeLineages == s.freeLineages - 1
    && s'.tokenLive == s.tokenLive + 1 && s'.idLive == s.idLive + 1 && s'.baseBytes == s.baseBytes
  }

  lemma InstallKeepsChains(s: Snap, s': Snap, l: nat, e: nat, t: Token)
    requires ChainsOk(s) && Installed(s, s', l, e, t)
    ensures ChainsOk(s')
  {
    forall m | m in s'.chains
      ensures s'.chains[m] != [] && LineAt(s'.lines, m).entryHead == s'.chains[m][0]
              && ChainOk(s'.cells, m, s'.chains[m])
    {
      if m != l { InstallKeepsChain(s, s', l, e, t, m); }
    }
    hide ChainOk;
    forall i: nat | Occupied(s'.cells, i) ensures Owned(s', i) {
      if i != e { InstallKeepsOwned(s, s', l, e, t, i); }
    }
  }

  lemma InstallKeepsChain(s: Snap, s': Snap, l: nat, e: nat, t: Token, m: nat)
    requires ChainsOk(s) && Installed(s, s', l, e, t) && m in s.chains && m != l
    ensures s'.chains[m] == s.chains[m] != [] && LineAt(s'.lines, m).entryHead == s'.chains[m][0]
    ensures ChainOk(s'.cells, m, s'.chains[m])
  {
    assert ChainOk(s.cells, m, s.chains[m]) && Occupied(s.lines, m);
    assert LineAt(s'.lines, m) == LineAt(s.lines, m);
    forall k | 0 <= k < |s.chains[m]|
      ensures s.chains[m][k] < |s.cells| && s'.cells[s.chains[m][k]] == s.cells[s.chains[m][k]]
    {
      ChainEntry(s, m, k);
    }
    hide ChainsOk, Installed;
    SameChain(s.cells, s'.cells, m, s.chains[m]);
  }

  lemma InstallKeepsOwned(s: Snap, s': Snap, l: nat, e: nat, t: Token, i: nat)
    requires ChainsOk(s) && Installed(s, s', l, e, t) && Occupied(s'.cells, i) && i != e
    ensures Owned(s', i)
  {
    hide ChainOk;
    assert s'.cells[i] == s.cells[i];
    assert Owned(s, i);
  }

  lemma InstallKeepsStructure(s: Snap, s': Snap, l: nat, e: nat, t: Token)
    requires OrderOk(s) && TokensOk(s) && IdsOk(s) && Reusable(s) && Installed(s, s', l, e, t)
    ensures OrderOk(s') && TokensOk(s') && IdsOk(s') && Reusable(s')
  {
    InstallKeepsOrder(s, s', l, e, t);
    InstallKeepsTokens(s, s', l, e, t);
    InstallKeepsIds(s, s', l, e, t);
    InstallKeepsReusable(s, s', l, e, t);
    hide OrderOk, TokensOk, IdsOk, Reusable, Installed;
  }

  lemma InstallKeepsOrder(s: Snap, s': Snap, l: nat, e: nat, t: Token)
    requires OrderOk(s) && Installed(s, s', l, e, t)
    ensures OrderOk(s')
  {
    assert !Occupied(s.lines, l);
    assert l !in s.order;
    forall m: nat ensures m in s'.order <==> Occupied(s'.lines, m) {
      assert Occupied(s'.lines, m) <==> Occupied(s.lines, m) || m == l;
    }
    hide OrderOk;
    InFront(s.order, l);
  }

  lemma InFront(order: seq<nat>, l: nat)
    ensures forall m :: m in [l] + order <==> m == l || m in order
    ensures Distinct(order) && l !in order ==> Distinct([l] + order)
  {
  }

  lemma InstallKeepsTokens(s: Snap, s': Snap, l: nat, e: nat, t: Token)
    requires TokensOk(s) && Installed(s, s', l, e, t)
    ensures TokensOk(s')
  {
    hide Inverse;
    assert e !in s.tokenOf;
    InversePlus(s.tokenOf, s.tokenMap, e, t);
    forall i: nat ensures i in s'.tokenOf <==> Occupied(s'.cells, i) {
      assert Occupied(s'.cells, i) <==> Occupied(s.cells, i) || i == e;
    }
  }

  lemma InstallKeepsIds(s: Snap, s': Snap, l: nat, e: nat, t: Token)
    requires IdsOk(s) && Installed(s, s', l, e, t)
    ensures IdsOk(s')
  {
    forall m: nat | Occupied(s'.lines, m)
      ensures LineAt(s'.lines, m).id in s'.idMap && s'.idMap[LineAt(s'.lines, m).id] == m
    {
      if m != l { assert s'.lines[m] == s.lines[m] && Occupied(s.lines, m) && LineAt(s.lines, m).id in s.idMap; }
    }
    forall id | id in s'.idMap ensures Occupied(s'.lines, s'.idMap[id]) && LineAt(s'.lines, s'.idMap[id]).id == id {
      if id != s'.lines[l].row.id { assert id in s.idMap && s.idMap[id] != l; }
    }
  }

  lemma InstallKeepsReusable(s: Snap, s': Snap, l: nat, e: nat, t: Token)
    requires Reusable(s) && Installed(s, s', l, e, t)
    ensures Reusable(s')
  {
    forall i: nat | Occupied(s'.cells, i) ensures s'.cells[i].generation < MAX_GENERATION {
      if i != e { assert Occupied(s.cells, i); }
    }
    forall m: nat | Occupied(s'.lines, m) ensures s'.lines[m].generation < MAX_GENERATION {
      if m != l { assert Occupied(s.lines, m); }
    }
  }

  lemma InstallKeepsItems(s: Snap, s': Snap, l: nat, e: nat, t: Token)
    requires ChainsOk(s) && OrderOk(s) && Installed(s, s', l, e, t)
    ensures Items(s') == [Item(l, LineAt(s'.lines, l), [RowAt(s'.cells, e)])] + Items(s)
  {
    hide ChainsOk, OrderOk;
    forall q | 0 <= q < |s.order| ensures ItemOf(s', s.order[q]) == ItemOf(s, s.order[q]) {
      InstallKeepsItem(s, s', l, e, t, q);
    }
    assert s'.order == [l] + s.order && ChainAt(s'.chains, l) == [e];
    assert RowsOf(s'.cells, [e]) == [RowAt(s'.cells, e)];
    hide Installed, RowsOf;
    var it := Item(l, LineAt(s'.lines, l), [RowAt(s'.cells, e)]);
    assert ItemOf(s', l) == it;
    hide ItemOf;
    forall k | 0 <= k < |s'.order| ensures Items(s')[k] == ([it] + Items(s))[k] {
      assert s'.order[k] == if k == 0 then l else s.order[k - 1];
    }
  }

  lemma InstallKeepsItem(s: Snap, s': Snap, l: nat, e: nat, t: Token, q: nat)
    requires ChainsOk(s) && OrderOk(s) && Installed(s, s', l, e, t) && q < |s.order|
    ensures ItemOf(s', s.order[q]) == ItemOf(s, s.order[q])
  {
    var m := s.order[q];
    assert m in s.order && m != l;
    forall k | 0 <= k < |s.chains[m]| ensures RowAt(s'.cells, s.chains[m][k]) == RowAt(s.cells, s.chains[m][k]) {
      ChainEntry(s, m, k);
    }
    assert RowsOf(s'.cells, s.chains[m]) == RowsOf(s.cells, s.chains[m]);
  }

  lemma InstallOk(cfg: Config, s: Snap, s': Snap, l: nat, e: nat, t: Token)
    requires Ok(cfg, s) && Installed(s, s', l, e, t)
    requires var it' := Item(l, LineAt(s'.lines, l), [RowAt(s'.cells, e)]);
             && Accounted(it') && WellRun(cfg, it')
             && s'.usedSlots == s.usedSlots + Slots(it'.row) <= cfg.maxEntries
             && s'.totalBytes == s.totalBytes + it'.row.dynamicBytes <= cfg.maxTotalBytes
    ensures Ok(cfg, s') && Items(s') == [Item(l, LineAt(s'.lines, l), [RowAt(s'.cells, e)])] + Items(s)
  {
    hide ChainsOk, OrderOk, TokensOk, IdsOk, Reusable, ItemOf, WellRun, Accounted, ItemsOk, CountsOk, Installed, Items;
    InstallKeepsChains(s, s', l, e, t);
    InstallKeepsStructure(s, s', l, e, t);
    InstallKeepsItems(s, s', l, e, t);
    InstallKeepsCounts(cfg, s, s', l, e, t);
  }

  lemma InstallKeepsCounts(cfg: Config, s: Snap, s': Snap, l: nat, e: nat, t: Token)
    requires ItemsOk(cfg, Items(s)) && CountsOk(cfg, s) && Installed(s, s', l, e, t)
    requires var it' := Item(l, LineAt(s'.lines, l), [RowAt(s'.cells, e)]);
             && Items(s') == [it'] + Items(s) && Accounted(it') && WellRun(cfg, it')
             && s'.usedSlots == s.usedSlots + Slots(it'.row) <= cfg.maxEntries
             && s'.totalBytes == s.totalBytes + it'.row.dynamicBytes <= cfg.maxTotalBytes
    ensures ItemsOk(cfg, Items(s')) && CountsOk(cfg, s')
  {
    var it' := Item(l, LineAt(s'.lines, l), [RowAt(s'.cells, e)]);
    assert Items(s')[0] == it' && Items(s')[1..] == Items(s);
    assert Entries(it'.row) == 1;
    hide Items, ItemOf, WellRun;
  }

  // ---------------------------------------------------------------- what eviction leaves alone

  // Cells are as they were or vacated once; chains, tokens and identifiers only go away.
  ghost predicate Shrunk(s: Snap, s': Snap) {
    && |s'.cells| == |s.cells| && |s'.lines| == |s.lines|
    && (forall e :: 0 <= e < |s.cells| ==>
      s'.cells[e] == s.cells[e] || (s.cells[e].occupied && Vacated(s.cells[e], s'.cells[e])))
    && (forall m :: 0 <= m < |s.lines| ==>
      s'.lines[m] == s.lines[m] || (s.lines[m].occupied && Vacated(s.lines[m], s'.lines[m])))
    && (forall m :: m in s'.chains ==> m in s.chains && s'.chains[m] == s.chains[m])
    && (forall e :: e in s'.tokenOf ==> e in s.tokenOf && s'.tokenOf[e] == s.tokenOf[e])
    && (forall t :: t in s'.tokenMap ==> t in s.tokenMap && s'.tokenMap[t] == s.tokenMap[t])
    && (forall id :: id in s'.idMap ==> id in s.idMap && s'.idMap[id] == s.idMap[id])
  }

  lemma ShrunkTrans(a: Snap, b: Snap, c: Snap)
    requires Shrunk(a, b) && Shrunk(b, c)
    ensures Shrunk(a, c)
  {
  }

  lemma RemovalShrinks(s: Snap, s': Snap, p: nat)
    requires ChainsOk(s) && OrderOk(s) && p < |s.order| && WithoutLineage(s, s', p)
    ensures Shrunk(s, s')
  {
    LineageHasChain(s, p);
    var l := s.order[p];
    assert l in s.order;
    forall e | e in s.chains[l] ensures Occupied(s.cells, e) {
      var k :| 0 <= k < |s.chains[l]| && s.chains[l][k] == e;
      ChainEntry(s, l, k);
    }
    hide ChainsOk;
  }

  // ---------------------------------------------------------------- running computations

  predicate Runs(cell: Cell<EntryRow>) { cell.occupied && cell.row.work.Computing? }

  // The same entries run the same computations; what may not commit stays so, and a memo that
  // is set stays as it is.
  ghost predicate SameJobs(a: seq<Cell<EntryRow>>, b: seq<Cell<EntryRow>>) {
    && |a| == |b|
    && forall e :: 0 <= e < |a| ==>
         && (Runs(a[e]) <==> Runs(b[e]))
         && (Runs(a[e]) ==> a[e].generation == b[e].generation && a[e].row.work.id == b[e].row.work.id
                            && a[e].row.lineage == b[e].row.lineage
                            && (a[e].row.work.noCommit ==> b[e].row.work.noCommit)
                            && (a[e].row.memo.Some? ==> b[e].row.memo == a[e].row.memo))
  }

  lemma SameJobsRefl(a: seq<Cell<EntryRow>>)
    ensures SameJobs(a, a)
  {
  }

  lemma SameJobsTrans(a: seq<Cell<EntryRow>>, b: seq<Cell<EntryRow>>, c: seq<Cell<EntryRow>>)
    requires SameJobs(a, b) && SameJobs(b, c)
    ensures SameJobs(a, c)
  {
  }

  lemma {:induction false} NoWork(chain: seq<EntryRow>, k: nat)
    requires CountWork(chain) == 0 && k < |chain|
    ensures chain[k].work.Idle?
  {
    if k < |chain| - 1 { NoWork(chain[..|chain| - 1], k); }
  }

  // No computation runs on an unpinned lineage, so its removal stops none.
  lemma RemovalKeepsJobs(s: Snap, s': Snap, p: nat)
    requires ChainsOk(s) && OrderOk(s) && p < |s.order| && WithoutLineage(s, s', p)
    requires Accounted(Items(s)[p]) && Items(s)[p].row.pins == 0
    ensures SameJobs(s.cells, s'.cells)
  {
    LineageHasChain(s, p);
    hide ChainsOk, OrderOk;
    var chain := s.chains[s.order[p]];
    assert CountWork(Items(s)[p].chain) == 0 && Items(s)[p].chain == RowsOf(s.cells, chain);
    NoneRuns(s.cells, chain);
    VacatedKeepJobs(s.cells, s'.cells, chain);
  }

  lemma VacatedKeepJobs(a: seq<Cell<EntryRow>>, b: seq<Cell<EntryRow>>, chain: seq<nat>)
    requires ReleasedAlong(a, b, chain)
    requires forall e :: 0 <= e < |a| && e in chain ==> !Runs(a[e])
    ensures SameJobs(a, b)
  {
  }

  lemma NoneRuns(cells: seq<Cell<EntryRow>>, chain: seq<nat>)
    requires CountWork(RowsOf(cells, chain)) == 0
    ensures forall e :: 0 <= e < |cells| && e in chain ==> !Runs(cells[e])
  {
    forall e: nat | e < |cells| && e in chain ensures !Runs(cells[e]) {
      var k :| 0 <= k < |chain| && chain[k] == e;
      NoWork(RowsOf(cells, chain), k);
    }
  }
}
