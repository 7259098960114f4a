/** Name indexes for wide rows: each element name leads to the one edge it can match,
    and wildcard edges are listed in order. */
module RowIndexes {
  import opened Schema
  import opened ContentLanguage
  import opened CompiledRows
  import opened CountedRows
  import opened Overlap

  const MIN_INDEXED_EDGES := 8

  datatype IndexError = InvalidElement | InvalidIndex

  datatype Indexing = Indexed(index: RowIndex) | Unindexed | Broken(error: IndexError)

  // ----- what an index says -----

  /** The names an element edge can match. */
  predicate HasName(t: Tables, id: nat, name: QName) {
    id < |t.elements| && (t.elements[id] == name || exists e :: e in SubstEntries(t, id) && e.effective && e.name == name)
  }

  /** Every name of the edges listed leads to its edge, and to nothing else. */
  ghost predicate NamesIndexed(t: Tables, edges: seq<RowEdge>, names: map<QName, nat>) {
    && (forall i, name :: 0 <= i < |edges| && edges[i].term.ElementTerm? && HasName(t, edges[i].term.element, name) ==>
          name in names && names[name] == i)
    && (forall name :: name in names ==>
          names[name] < |edges| && edges[names[name]].term.ElementTerm? && HasName(t, edges[names[name]].term.element, name))
  }

  ghost predicate WildcardsListed(edges: seq<RowEdge>, positions: seq<nat>) {
    && (forall i, j :: 0 <= i < j < |positions| ==> positions[i] < positions[j])
    && (forall p: nat :: p in positions <==> p < |edges| && edges[p].term.WildcardTerm?)
  }

  ghost predicate DirectEdges(t: Tables, edges: seq<RowEdge>) {
    forall i :: 0 <= i < |edges| ==>
      match edges[i].term
      case ElementTerm(id) => id < |t.elements|
      case WildcardTerm(_) => true
      case ModelTerm(_) => false
  }

  ghost predicate IndexMatches(t: Tables, edges: seq<RowEdge>, index: RowIndex) {
    match index case RowIndex(names, wildcards, _) =>
      DirectEdges(t, edges) && NamesIndexed(t, edges, names) && WildcardsListed(edges, wildcards)
  }

  /** Some name is shared by two edges of the row. */
  ghost predicate NameShared(t: Tables, edges: seq<RowEdge>) {
    exists i, j, name :: 0 <= i < j < |edges| && SharesName(t, edges[i].term, edges[j].term, name)
  }

  ghost predicate SharesName(t: Tables, a: Term, b: Term, name: QName) {
    a.ElementTerm? && b.ElementTerm? && HasName(t, a.element, name) && HasName(t, b.element, name)
  }

  // ----- building -----

  /** Claims a name for an edge unless another edge has it. */
  method IndexEdgeName(names: map<QName, nat>, name: QName, pos: nat) returns (names': map<QName, nat>, ok: bool)
    ensures ok <==> (name in names ==> names[name] == pos)
    ensures names' == if ok then names[name := pos] else names
  {
    if name in names {
      return names, names[name] == pos;
    }
    return names[name := pos], true;
  }

  /** Claims the names of the effective members of an element. */
  method IndexMembers(entries: seq<SubstEntry>, names: map<QName, nat>, pos: nat) returns (names': map<QName, nat>, ok: bool)
    ensures ok <==> forall e :: e in entries && e.effective && e.name in names ==> names[e.name] == pos
    ensures ok ==> forall name :: name in names' <==> name in names || exists e :: e in entries && e.effective && e.name == name
    ensures ok ==> forall name :: name in names' ==> names'[name] == if name in names then names[name] else pos
  {
    names' := names;
    for i := 0 to |entries|
      invariant forall e :: e in entries[..i] && e.effective && e.name in names ==> names[e.name] == pos
      invariant forall name :: name in names' <==> name in names || exists e :: e in entries[..i] && e.effective && e.name == name
      invariant forall name :: name in names' ==> names'[name] == if name in names then names[name] else pos
    {
      assert entries[..i + 1] == entries[..i] + [entries[i]];
      if entries[i].effective {
        names', ok := IndexEdgeName(names', entries[i].name, pos);
        if !ok {
          assert entries[i] in entries;
          return;
        }
      }
    }
    assert entries[..|entries|] == entries;
    return names', true;
  }

  /** Indexes one element edge: it fails exactly when a name is already taken. */
  method IndexElement(t: Tables, edges: seq<RowEdge>, i: nat, names: map<QName, nat>) returns (names': map<QName, nat>, ok: bool)
    requires i < |edges| && edges[i].term.ElementTerm? && edges[i].term.element < |t.elements|
    requires NamesIndexed(t, edges[..i], names)
    ensures ok ==> NamesIndexed(t, edges[..i + 1], names')
    ensures !ok ==> NameShared(t, edges)
  {
    var id := edges[i].term.element;
    var entries := SubstEntries(t, id);
    assert forall j :: 0 <= j < i ==> edges[..i + 1][j] == edges[..i][j];
    names', ok := IndexEdgeName(names, t.elements[id], i);
    if !ok {
      assert SharesName(t, edges[names[t.elements[id]]].term, edges[i].term, t.elements[id]);
      return;
    }
    ghost var first := names';
    names', ok := IndexMembers(entries, names', i);
    if !ok {
      ghost var e :| e in entries && e.effective && e.name in first && first[e.name] != i;
      assert SharesName(t, edges[names[e.name]].term, edges[i].term, e.name);
      return;
    }
    ElementIndexed(t, edges, i, names, names');
  }

  lemma {:induction false} ElementIndexed(t: Tables, edges: seq<RowEdge>, i: nat, names: map<QName, nat>, names': map<QName, nat>)
    requires i < |edges| && edges[i].term.ElementTerm? && edges[i].term.element < |t.elements|
    requires NamesIndexed(t, edges[..i], names)
    requires forall name :: name in names' <==> name in names || HasName(t, edges[i].term.element, name)
    requires forall name :: name in names ==> names'[name] == names[name]
    requires forall name :: name in names' && HasName(t, edges[i].term.element, name) ==> names'[name] == i
    ensures NamesIndexed(t, edges[..i + 1], names')
  {
    var now := edges[..i + 1];
    forall j, name | 0 <= j < |now| && now[j].term.ElementTerm? && HasName(t, now[j].term.element, name)
      ensures name in names' && names'[name] == j
    {
      assert j < i ==> now[j] == edges[..i][j];
    }
    forall name | name in names'
      ensures names'[name] < |now| && now[names'[name]].term.ElementTerm? && HasName(t, now[names'[name]].term.element, name)
    {
      if name in names {
        assert edges[..i][names[name]] == now[names[name]];
      }
    }
  }

  lemma WildcardsGrow(edges: seq<RowEdge>, i: nat, positions: seq<nat>)
    requires i < |edges| && WildcardsListed(edges[..i], positions)
    ensures WildcardsListed(edges[..i + 1], if edges[i].term.WildcardTerm? then positions + [i] else positions)
  {
    var now := if edges[i].term.WildcardTerm? then positions + [i] else positions;
    assert forall j :: 0 <= j < |positions| ==> positions[j] in positions;
    forall p: nat
      ensures p in now <==> p < i + 1 && edges[p].term.WildcardTerm?
    {
      assert p in positions <==> p < i && edges[..i][p].term.WildcardTerm?;
    }
  }

  lemma DirectGrow(t: Tables, edges: seq<RowEdge>, i: nat)
    requires i < |edges| && DirectEdges(t, edges[..i])
    requires match edges[i].term case ElementTerm(id) => id < |t.elements| case WildcardTerm(_) => true case ModelTerm(_) => false
    ensures DirectEdges(t, edges[..i + 1])
  {
    assert forall j :: 0 <= j < i ==> edges[..i + 1][j] == edges[..i][j];
  }

  lemma NamesUnchanged(t: Tables, edges: seq<RowEdge>, i: nat, names: map<QName, nat>)
    requires i < |edges| && edges[i].term.WildcardTerm? && NamesIndexed(t, edges[..i], names)
    ensures NamesIndexed(t, edges[..i + 1], names)
  {
    assert forall j :: 0 <= j < i ==> edges[..i + 1][j] == edges[..i][j];
  }

  /** Why a row keeps the linear scan. */
  ghost predicate KeepsScan(t: Tables, edges: seq<RowEdge>) {
    NameShared(t, edges) || exists e :: e in edges && e.term.ModelTerm?
  }

  /** Extends the index of a prefix by one edge. */
  method IndexEdge(t: Tables, edges: seq<RowEdge>, i: nat, index: RowIndex) returns (r: Indexing)
    requires i < |edges| && IndexMatches(t, edges[..i], index)
    ensures r.Indexed? ==> IndexMatches(t, edges[..i + 1], r.index) && r.index.enabled
    ensures r.Unindexed? ==> KeepsScan(t, edges)
    ensures r.Broken? ==> !DirectEdges(t, edges)
  {
    WildcardsGrow(edges, i, index.wildcardEdges);
    match edges[i].term {
      case ElementTerm(id) =>
        if id >= |t.elements| {
          return Broken(InvalidElement);
        }
        var names, ok := IndexElement(t, edges, i, index.nameToEdge);
        if !ok {
          return Unindexed;
        }
        DirectGrow(t, edges, i);
        return Indexed(RowIndex(names, index.wildcardEdges, true));
      case WildcardTerm(_) =>
        DirectGrow(t, edges, i);
        NamesUnchanged(t, edges, i, index.nameToEdge);
        return Indexed(RowIndex(index.nameToEdge, index.wildcardEdges + [i], true));
      case ModelTerm(_) =>
        return Unindexed;
    }
  }

  /** Builds the index of a wide row. A row keeps the linear scan when it is narrow, has
      a group edge, or shares a name between edges. */
  method IndexCompiledRow(t: Tables, row: Row) returns (r: Indexing)
    ensures r.Indexed? ==> |row.edges| >= MIN_INDEXED_EDGES && IndexMatches(t, row.edges, r.index) && r.index.enabled
    ensures r.Unindexed? ==> |row.edges| < MIN_INDEXED_EDGES || KeepsScan(t, row.edges)
    ensures r.Broken? ==> !DirectEdges(t, row.edges)
  {
    if |row.edges| < MIN_INDEXED_EDGES {
      return Unindexed;
    }
    r := Indexed(RowIndex(map[], [], true));
    for i := 0 to |row.edges|
      invariant r.Indexed? && r.index.enabled && IndexMatches(t, row.edges[..i], r.index)
    {
      r := IndexEdge(t, row.edges, i, r.index);
      if !r.Indexed? { return; }
    }
    assert row.edges[..|row.edges|] == row.edges;
  }

  // ----- validating a published index -----

  /** The listed prefix holds the wildcard edges before i. */
  lemma PrefixRanks(edges: seq<RowEdge>, positions: seq<nat>, wi: nat, i: nat, r: nat)
    requires i <= |edges| && wi <= |positions| && r < |positions|
    requires WildcardsListed(edges[..i], positions[..wi]) && WildcardsListed(edges, positions)
    ensures positions[r] < i <==> r < wi
  {
    assert positions[r] in positions;
    if r < wi {
      assert positions[..wi][r] in positions[..wi];
    }
    if positions[r] < i {
      assert edges[..i][positions[r]] == edges[positions[r]];
      var s :| 0 <= s < wi && positions[..wi][s] == positions[r];
    }
  }

  lemma NextWildcard(edges: seq<RowEdge>, positions: seq<nat>, wi: nat, i: nat)
    requires i < |edges| && wi <= |positions| && edges[i].term.WildcardTerm?
    requires WildcardsListed(edges[..i], positions[..wi]) && WildcardsListed(edges, positions)
    ensures wi < |positions| && positions[wi] == i
  {
    assert i in positions;
    var q :| 0 <= q < |positions| && positions[q] == i;
    PrefixRanks(edges, positions, wi, i, q);
    PrefixRanks(edges, positions, wi, i, wi);
  }

  lemma NoMoreWildcards(edges: seq<RowEdge>, positions: seq<nat>, wi: nat)
    requires wi <= |positions| && WildcardsListed(edges, positions[..wi]) && WildcardsListed(edges, positions)
    ensures wi == |positions|
  {
    assert edges[..|edges|] == edges;
    if positions != [] {
      var last := |positions| - 1;
      assert positions[last] in positions;
      PrefixRanks(edges, positions, wi, |edges|, last);
    }
  }

  lemma MemberIsEntry(t: Tables, id: nat, name: QName)
    requires WellFormedSubstitutions(t) && id < |t.elements|
    ensures HasName(t, id, name) <==> t.elements[id] == name || MemberByName(t, id, name).Some?
  {
    if e :| e in SubstEntries(t, id) && e.effective && e.name == name {
      EntryOfMember(t, id, e);
    }
  }

  /** The entries checked so far are what an index that mirrors the edges must hold. */
  ghost predicate Mirrored(t: Tables, edges: seq<RowEdge>, i: nat, index: RowIndex, wi: nat)
    requires i <= |edges|
  {
    match index case RowIndex(names, wildcards, _) =>
      && wi <= |wildcards| && DirectEdges(t, edges[..i]) && WildcardsListed(edges[..i], wildcards[..wi])
      && forall j, name :: 0 <= j < i && edges[j].term.ElementTerm? && HasName(t, edges[j].term.element, name) ==>
           Leads(names, name, j)
  }

  lemma ElementMirrored(t: Tables, edges: seq<RowEdge>, i: nat, index: RowIndex, wi: nat)
    requires i < |edges| && Mirrored(t, edges, i, index, wi)
    requires edges[i].term.ElementTerm? && edges[i].term.element < |t.elements|
    requires forall name :: HasName(t, edges[i].term.element, name) ==> Leads(index.nameToEdge, name, i)
    ensures Mirrored(t, edges, i + 1, index, wi)
  {
    WildcardsGrow(edges, i, index.wildcardEdges[..wi]);
    DirectGrow(t, edges, i);
  }

  lemma WildcardMirrored(t: Tables, edges: seq<RowEdge>, i: nat, index: RowIndex, wi: nat)
    requires i < |edges| && Mirrored(t, edges, i, index, wi) && edges[i].term.WildcardTerm?
    requires wi < |index.wildcardEdges| && index.wildcardEdges[wi] == i
    ensures Mirrored(t, edges, i + 1, index, wi + 1)
  {
    var listed := index.wildcardEdges;
    WildcardsGrow(edges, i, listed[..wi]);
    DirectGrow(t, edges, i);
    assert listed[..wi + 1] == listed[..wi] + [i];
  }

  /** A name of an element edge that the index sends elsewhere. */
  lemma NameMissing(t: Tables, edges: seq<RowEdge>, i: nat, index: RowIndex, name: QName)
    requires i < |edges| && edges[i].term.ElementTerm? && HasName(t, edges[i].term.element, name)
    requires !Leads(index.nameToEdge, name, i)
    ensures !IndexMatches(t, edges, index)
  {
  }

  lemma WildcardMissing(t: Tables, edges: seq<RowEdge>, i: nat, index: RowIndex, wi: nat)
    requires i < |edges| && Mirrored(t, edges, i, index, wi) && edges[i].term.WildcardTerm?
    requires wi >= |index.wildcardEdges| || index.wildcardEdges[wi] != i
    ensures !IndexMatches(t, edges, index)
  {
    if WildcardsListed(edges, index.wildcardEdges) {
      NextWildcard(edges, index.wildcardEdges, wi, i);
    }
  }

  method EdgeMirrored(t: Tables, edges: seq<RowEdge>, i: nat, index: RowIndex, wi: nat) returns (ok: bool, wi': nat)
    requires i < |edges| && Mirrored(t, edges, i, index, wi)
    ensures ok ==> Mirrored(t, edges, i + 1, index, wi')
    ensures !ok ==> !IndexMatches(t, edges, index)
  {
    var names, wildcards := index.nameToEdge, index.wildcardEdges;
    match edges[i].term {
      case ElementTerm(id) =>
        if id >= |t.elements| {
          return false, wi;
        }
        if !Leads(names, t.elements[id], i) {
          NameMissing(t, edges, i, index, t.elements[id]);
          return false, wi;
        }
        if exists e :: e in SubstEntries(t, id) && e.effective && !Leads(names, e.name, i) {
          ghost var e :| e in SubstEntries(t, id) && e.effective && !Leads(names, e.name, i);
          NameMissing(t, edges, i, index, e.name);
          return false, wi;
        }
        ElementMirrored(t, edges, i, index, wi);
        return true, wi;
      case WildcardTerm(_) =>
        if wi >= |wildcards| || wildcards[wi] != i {
          WildcardMissing(t, edges, i, index, wi);
          return false, wi;
        }
        WildcardMirrored(t, edges, i, index, wi);
        return true, wi + 1;
      case ModelTerm(_) =>
        return false, wi;
    }
  }

  /** Accepts exactly the indexes that mirror the row's edges. */
  method ValidateRowIndex(t: Tables, row: Row) returns (ok: bool)
    requires WellFormedSubstitutions(t)
    ensures ok <==> IndexMatches(t, row.edges, row.index)
  {
    var names, wildcards := row.index.nameToEdge, row.index.wildcardEdges;
    forall id, name | 0 <= id < |t.elements|
      ensures HasName(t, id, name) <==> t.elements[id] == name || MemberByName(t, id, name).Some?
    {
      MemberIsEntry(t, id, name);
    }
    if exists name :: name in names && !NameEntryValid(t, row.edges, name, names[name]) {
      return false;
    }
    var wi: nat := 0;
    for i := 0 to |row.edges|
      invariant Mirrored(t, row.edges, i, row.index, wi)
    {
      ok, wi := EdgeMirrored(t, row.edges, i, row.index, wi);
      if !ok {
        return;
      }
    }
    assert row.edges[..|row.edges|] == row.edges;
    if WildcardsListed(row.edges, wildcards) {
      NoMoreWildcards(row.edges, wildcards, wi);
    }
    assert wi == |wildcards| ==> wildcards[..wi] == wildcards;
    return wi == |wildcards|;
  }

  predicate Leads(names: map<QName, nat>, name: QName, pos: nat) {
    name in names && names[name] == pos
  }

  predicate NameEntryValid(t: Tables, edges: seq<RowEdge>, name: QName, pos: nat) {
    && pos < |edges| && edges[pos].term.ElementTerm? && edges[pos].term.element < |t.elements|
    && (t.elements[edges[pos].term.element] == name || MemberByName(t, edges[pos].term.element, name).Some?)
  }

  // ----- the indexed scan against the linear one -----

  /** The index's edge for a child, if any. */
  function NamedEdge(index: RowIndex, x: Input): Option<nat> {
    if x.known && x.name in index.nameToEdge then Some(index.nameToEdge[x.name]) else None
  }

  /** Every edge from i on but before k can be skipped. */
  ghost predicate Skippable(t: Tables, edges: seq<RowEdge>, x: Input, i: nat, k: nat) {
    forall j :: i <= j < k && j < |edges| ==> MatchDirect(t, edges[j].term, x).Unmatched?
  }

  lemma {:induction false} ScanSkipsUnmatched(t: Tables, rows: seq<Row>, st: State, x: Input, i: nat, k: nat)
    requires st.row < |rows| && EdgesInRange(rows) && i <= k <= |rows[st.row].edges|
    requires Skippable(t, rows[st.row].edges, x, i, k)
    ensures Scan(t, rows, st, x, i) == Scan(t, rows, st, x, k)
    decreases k - i
  {
    if i < k {
      ScanSkipsUnmatched(t, rows, st, x, i + 1, k);
    }
  }

  lemma ScanFails(t: Tables, rows: seq<Row>, st: State, x: Input, i: nat)
    requires st.row < |rows| && EdgesInRange(rows) && i <= |rows[st.row].edges|
    requires Skippable(t, rows[st.row].edges, x, i, |rows[st.row].edges|)
    ensures Scan(t, rows, st, x, i).NoTransition?
  {
    ScanSkipsUnmatched(t, rows, st, x, i, |rows[st.row].edges|);
  }

  /** An element edge that the index does not name for the child cannot match it. */
  lemma UnnamedEdge(t: Tables, edges: seq<RowEdge>, index: RowIndex, x: Input, j: nat)
    requires WellFormedSubstitutions(t) && IndexMatches(t, edges, index)
    requires j < |edges| && edges[j].term.ElementTerm? && NamedEdge(index, x) != Some(j)
    ensures MatchDirect(t, edges[j].term, x).Unmatched?
  {
    MemberIsEntry(t, edges[j].term.element, x.name);
  }
}
