/** The worklist of the subset construction. One deterministic state is numbered for
    each set of configurations, and its row groups the enabled source edges by term. */
module SubsetTables {
  import opened Schema
  import opened Normal
  import opened PositionAutomaton
  import opened PositionBuilder
  import opened SourceRows
  import opened CappedCounters
  import opened CompiledRows
  import opened SubsetRows
  import opened StateNumbering
  import opened StateSpaces

  function ConfigKey(c: Config): seq<int> {
    [c.state, |c.counters|] + c.counters
  }

  /** A configuration's key tells the configuration. */
  lemma ConfigKeyInjective()
    ensures Injective(ConfigKey)
  {
    forall a: Config, b: Config | ConfigKey(a) == ConfigKey(b)
      ensures a == b
    {
      assert ConfigKey(a)[0] == a.state && ConfigKey(b)[0] == b.state;
      assert ConfigKey(a)[2..] == a.counters && ConfigKey(b)[2..] == b.counters;
    }
  }

  /** Element terms come before wildcards. */
  function TermKey(term: Term): seq<int> {
    match term
    case ElementTerm(id) => [0, id]
    case WildcardTerm(id) => [1, id]
    case ModelTerm(id) => [2, id]
  }

  lemma TermKeysAscend(terms: seq<Term>, keys: seq<Term>)
    requires keys == Normalize(TermKey, terms)
    ensures forall i, j :: 0 <= i < j < |keys| ==> LexLess(TermKey(keys[i]), TermKey(keys[j]))
  {
    forall a: Term, b: Term | TermKey(a) == TermKey(b)
      ensures a == b
    {
      assert TermKey(a)[0] == TermKey(b)[0] && TermKey(a)[1] == TermKey(b)[1];
    }
    NormalizeSorted(TermKey, terms);
  }

  // ----- grouping the moves of a row by term -----

  type Groups = map<Term, seq<Config>>

  predicate InGroup(groups: Groups, term: Term, to: Config) {
    term in groups && to in groups[term]
  }

  predicate NoEmptyGroup(groups: Groups) {
    forall term :: term in groups ==> groups[term] != []
  }

  /** The groups hold exactly the moves out of the given configurations, and `keys`
      lists the groups. */
  ghost predicate Grouped(groups: Groups, keys: seq<Term>, srows: seq<SourceRow>, caps: Counters, configs: seq<Config>) {
    && (forall term :: term in keys <==> term in groups)
    && NoEmptyGroup(groups)
    && (forall term, to :: InGroup(groups, term, to) <==> MovesOn(srows, caps, configs, term, to))
  }

  /** Some source edge carries the term. */
  ghost predicate UsedTerm(srows: seq<SourceRow>, term: Term) {
    exists s, e :: 0 <= s < |srows| && e in srows[s].edges && e.term == term
  }

  ghost predicate AllUsed(srows: seq<SourceRow>, terms: seq<Term>) {
    forall term :: term in terms ==> UsedTerm(srows, term)
  }

  ghost predicate SourceTermsValid(t: Tables, srows: seq<SourceRow>) {
    forall i, j :: 0 <= i < |srows| && 0 <= j < |srows[i].edges| ==> ValidTerm(t, srows[i].edges[j].term)
  }

  ghost predicate MovesVia(from: Config, edges: seq<SourceEdge>, caps: Counters, term: Term, to: Config)
    requires |from.counters| == |caps|
  {
    exists e :: e in edges && EdgeMoves(from, e, caps, term, to)
  }

  ghost predicate EdgeMoves(from: Config, e: SourceEdge, caps: Counters, term: Term, to: Config)
    requires |from.counters| == |caps|
  {
    && GuardsOk(from.counters, caps, e.guards) && e.term == term
    && to.state == e.to && ApplyCapped(from.counters, caps, e.actions) == Some(to.counters)
  }

  lemma MovesViaGrows(from: Config, edges: seq<SourceEdge>, j: nat, caps: Counters, term: Term, to: Config)
    requires |from.counters| == |caps| && j < |edges|
    ensures MovesVia(from, edges[..j + 1], caps, term, to) <==>
            MovesVia(from, edges[..j], caps, term, to) || EdgeMoves(from, edges[j], caps, term, to)
  {
    assert edges[..j + 1] == edges[..j] + [edges[j]];
  }

  lemma MovesOnGrows(srows: seq<SourceRow>, caps: Counters, configs: seq<Config>, i: nat, term: Term, to: Config)
    requires i < |configs| && configs[i].state < |srows| && |configs[i].counters| == |caps|
    ensures MovesOn(srows, caps, configs[..i + 1], term, to) <==>
            MovesOn(srows, caps, configs[..i], term, to) || MovesVia(configs[i], srows[configs[i].state].edges, caps, term, to)
  {
    var from := configs[i];
    assert configs[..i + 1] == configs[..i] + [from];
    if MovesVia(from, srows[from.state].edges, caps, term, to) {
      var e :| e in srows[from.state].edges && EdgeMoves(from, e, caps, term, to);
      assert Moves(srows, caps, from, e, to);
    }
    if MovesOn(srows, caps, configs[..i + 1], term, to) {
      var c, e :| c in configs[..i + 1] && Moves(srows, caps, c, e, to) && e.term == term;
      if c == from {
        assert EdgeMoves(from, e, caps, term, to);
      }
    }
    if MovesOn(srows, caps, configs[..i], term, to) {
      var c, e :| c in configs[..i] && Moves(srows, caps, c, e, to) && e.term == term;
      assert c in configs[..i + 1];
    }
  }

  method AddToGroup(groups: Groups, keys: seq<Term>, term: Term, to: Config) returns (groups': Groups, keys': seq<Term>)
    requires NoEmptyGroup(groups) && forall k :: k in keys <==> k in groups
    ensures NoEmptyGroup(groups') && forall k :: k in keys' <==> k in groups'
    ensures forall k, c :: InGroup(groups', k, c) <==> InGroup(groups, k, c) || (k == term && c == to)
    ensures forall k :: k in keys' <==> k in keys || k == term
  {
    keys' := keys;
    if term !in groups {
      keys' := keys + [term];
    }
    groups' := groups[term := (if term in groups then groups[term] else []) + [to]];
  }

  /** Adds every enabled edge of one configuration. */
  method GroupEdges(from: Config, edges: seq<SourceEdge>, caps: Counters, groups: Groups, keys: seq<Term>)
    returns (r: Outcome<(Groups, seq<Term>)>)
    requires |from.counters| == |caps|
    requires NoEmptyGroup(groups) && forall k :: k in keys <==> k in groups
    ensures r.Ok? ==>
              && NoEmptyGroup(r.value.0) && (forall k :: k in r.value.1 <==> k in r.value.0)
              && (forall k, c :: InGroup(r.value.0, k, c) <==> InGroup(groups, k, c) || MovesVia(from, edges, caps, k, c))
              && (forall e :: e in edges && GuardsOk(from.counters, caps, e.guards) ==>
                    ApplyCapped(from.counters, caps, e.actions).Some?)
              && (forall k :: k in r.value.1 ==> k in keys || exists e :: e in edges && e.term == k)
    ensures r.Err? ==> r.error == InternalInvariant && exists e :: e in edges && !ActionsFit(|caps|, e.actions)
  {
    var gs, ks := groups, keys;
    for j := 0 to |edges|
      invariant NoEmptyGroup(gs) && forall k :: k in ks <==> k in gs
      invariant forall k, c :: InGroup(gs, k, c) <==> InGroup(groups, k, c) || MovesVia(from, edges[..j], caps, k, c)
      invariant forall i :: 0 <= i < j && GuardsOk(from.counters, caps, edges[i].guards) ==>
                  ApplyCapped(from.counters, caps, edges[i].actions).Some?
      invariant forall k :: k in ks ==> k in keys || exists e :: e in edges && e.term == k
    {
      var e := edges[j];
      forall k, c
        ensures MovesVia(from, edges[..j + 1], caps, k, c) <==>
                MovesVia(from, edges[..j], caps, k, c) || EdgeMoves(from, e, caps, k, c)
      {
        MovesViaGrows(from, edges, j, caps, k, c);
      }
      if GuardsOk(from.counters, caps, e.guards) {
        var counters := ApplyCapped(from.counters, caps, e.actions);
        if counters.None? {
          FittingActions(from.counters, caps, e.actions);
          return Err(InternalInvariant);
        }
        gs, ks := AddToGroup(gs, ks, e.term, Config(e.to, counters.value));
      }
    }
    assert edges[..|edges|] == edges;
    return Ok((gs, ks));
  }

  // ----- what is in range -----

  predicate ActionsFit(k: nat, actions: seq<Action>) {
    forall a :: a in actions ==> a.slot < k
  }

  lemma {:induction false} FittingActions(c: Counters, caps: Counters, actions: seq<Action>)
    requires |c| == |caps|
    ensures ApplyCapped(c, caps, actions).None? ==> !ActionsFit(|caps|, actions)
    decreases |actions|
  {
    if actions != [] && actions[0].slot < |c| {
      var a := actions[0];
      var n := match a.kind
        case Inc => if c[a.slot] < caps[a.slot] then c[a.slot] + 1 else c[a.slot]
        case Reset => 0;
      FittingActions(c[a.slot := n], caps, actions[1..]);
    }
  }

  /** Edges lead to rows that exist and act on counters that exist. */
  ghost predicate SourceFits(srows: seq<SourceRow>, k: nat) {
    forall s, e :: 0 <= s < |srows| && e in srows[s].edges ==> e.to < |srows| && ActionsFit(k, e.actions)
  }

  predicate ConfigFits(srows: seq<SourceRow>, caps: Counters, c: Config) {
    c.state < |srows| && |c.counters| == |caps|
  }

  predicate ConfigsFit(srows: seq<SourceRow>, caps: Counters, configs: seq<Config>) {
    forall c :: c in configs ==> ConfigFits(srows, caps, c)
  }

  lemma MovesFit(srows: seq<SourceRow>, caps: Counters, from: Config, e: SourceEdge, to: Config)
    requires SourceFits(srows, |caps|) && Moves(srows, caps, from, e, to)
    ensures ConfigFits(srows, caps, to)
  {
  }

  method AnyAccept(from: Config, accept: seq<seq<Guard>>, caps: Counters) returns (yes: bool)
    ensures yes <==> exists g :: g in accept && GuardsOk(from.counters, caps, g)
  {
    for i := 0 to |accept|
      invariant forall j :: 0 <= j < i ==> !GuardsOk(from.counters, caps, accept[j])
    {
      if GuardsOk(from.counters, caps, accept[i]) {
        return true;
      }
    }
    return false;
  }

  datatype Moved = Moved(groups: Groups, keys: seq<Term>, accept: bool)

  ghost predicate Collected(m: Moved, srows: seq<SourceRow>, caps: Counters, configs: seq<Config>) {
    && Grouped(m.groups, m.keys, srows, caps, configs)
    && AllUsed(srows, m.keys)
    && ConfigsOk(srows, caps, configs)
    && (m.accept <==> exists c :: c in configs && ConfigEnds(srows, caps, c))
  }

  method CollectConfig(srows: seq<SourceRow>, caps: Counters, configs: seq<Config>, i: nat, m: Moved)
    returns (r: Outcome<Moved>)
    requires i < |configs| && |configs[i].counters| == |caps|
    requires Collected(m, srows, caps, configs[..i])
    ensures r.Ok? ==> Collected(r.value, srows, caps, configs[..i + 1])
    ensures r.Err? ==> r.error == InternalInvariant && !(SourceFits(srows, |caps|) && ConfigFits(srows, caps, configs[i]))
  {
    var from := configs[i];
    if from.state >= |srows| {
      return Err(InternalInvariant);
    }
    var source := srows[from.state];
    var ends := AnyAccept(from, source.accept, caps);
    var gs := GroupEdges(from, source.edges, caps, m.groups, m.keys);
    if gs.Err? {
      return Err(gs.error);
    }
    forall term, to
      ensures MovesOn(srows, caps, configs[..i + 1], term, to) <==>
              MovesOn(srows, caps, configs[..i], term, to) || MovesVia(from, source.edges, caps, term, to)
    {
      MovesOnGrows(srows, caps, configs, i, term, to);
    }
    assert configs[..i + 1] == configs[..i] + [from];
    assert ends <==> ConfigEnds(srows, caps, from);
    assert forall k :: (exists e :: e in source.edges && e.term == k) ==> UsedTerm(srows, k);
    return Ok(Moved(gs.value.0, gs.value.1, m.accept || ends));
  }

  /** The moves and the acceptance of a set of configurations. */
  method CollectMoves(srows: seq<SourceRow>, caps: Counters, configs: seq<Config>) returns (r: Outcome<Moved>)
    requires forall c :: c in configs ==> |c.counters| == |caps|
    ensures r.Ok? ==> Collected(r.value, srows, caps, configs)
    ensures r.Err? ==> r.error == InternalInvariant && !(SourceFits(srows, |caps|) && ConfigsFit(srows, caps, configs))
  {
    var m := Moved(map[], [], false);
    for i := 0 to |configs|
      invariant Collected(m, srows, caps, configs[..i])
    {
      r := CollectConfig(srows, caps, configs, i, m);
      if r.Err? { return; }
      m := r.value;
    }
    assert configs[..|configs|] == configs;
    return Ok(m);
  }

  // ----- rows -----

  lemma DetRowForGrows(row: Row, configs: seq<Config>, srows: seq<SourceRow>, caps: Counters,
                       order: seq<seq<Config>>, order': seq<seq<Config>>)
    requires DetRowFor(row, configs, srows, caps, order) && order <= order'
    ensures DetRowFor(row, configs, srows, caps, order')
  {
  }

  ghost predicate RowsStandFor(rows: seq<Row>, srows: seq<SourceRow>, caps: Counters, order: seq<seq<Config>>) {
    |rows| <= |order| && forall i :: 0 <= i < |rows| ==> DetRowFor(rows[i], order[i], srows, caps, order)
  }

  lemma RowsStandForGrow(rows: seq<Row>, row: Row, srows: seq<SourceRow>, caps: Counters,
                         order: seq<seq<Config>>, order': seq<seq<Config>>)
    requires RowsStandFor(rows, srows, caps, order) && order <= order'
    requires |rows| < |order| && DetRowFor(row, order[|rows|], srows, caps, order')
    ensures RowsStandFor(rows + [row], srows, caps, order')
  {
    forall i | 0 <= i < |rows|
      ensures DetRowFor(rows[i], order[i], srows, caps, order')
    {
      DetRowForGrows(rows[i], order[i], srows, caps, order, order');
    }
  }

  /** An edge leads to the state of its whole group. */
  ghost predicate EdgeFor(e: RowEdge, term: Term, groups: Groups, order: seq<seq<Config>>) {
    && e.term == term && e.to < |order|
    && forall to :: to in order[e.to] <==> InGroup(groups, term, to)
  }

  ghost predicate EdgesFor(edges: seq<RowEdge>, keys: seq<Term>, groups: Groups, order: seq<seq<Config>>) {
    match (edges, keys) case (es, ks) =>
      |es| == |ks| && forall i :: 0 <= i < |es| ==> EdgeFor(es[i], ks[i], groups, order)
  }

  lemma EdgesForGrow(edges: seq<RowEdge>, e: RowEdge, keys: seq<Term>, i: nat, groups: Groups,
                     order: seq<seq<Config>>, order': seq<seq<Config>>)
    requires i < |keys| && EdgesFor(edges, keys[..i], groups, order) && order <= order' && EdgeFor(e, keys[i], groups, order')
    ensures EdgesFor(edges + [e], keys[..i + 1], groups, order')
  {
    forall j | 0 <= j < |edges|
      ensures EdgeFor(edges[j], keys[j], groups, order')
    {
      assert EdgeFor(edges[j], keys[..i][j], groups, order);
    }
  }

  lemma FinishedRow(m: Moved, edges: seq<RowEdge>, keys: seq<Term>, srows: seq<SourceRow>, caps: Counters,
                    configs: seq<Config>, order: seq<seq<Config>>)
    requires Collected(m, srows, caps, configs) && EdgesFor(edges, keys, m.groups, order)
    requires forall k :: k in keys <==> k in m.keys
    requires forall i, j :: 0 <= i < j < |keys| ==> LexLess(TermKey(keys[i]), TermKey(keys[j]))
    ensures DetRowFor(PLAIN_ROW.(edges := edges, accept := m.accept), configs, srows, caps, order)
    ensures RowTermsUsed(srows, PLAIN_ROW.(edges := edges, accept := m.accept))
  {
    forall e | e in edges
      ensures e.to < |order| && forall to :: to in order[e.to] <==> MovesOn(srows, caps, configs, e.term, to)
      ensures UsedTerm(srows, e.term)
    {
      var i :| 0 <= i < |edges| && edges[i] == e;
      assert EdgeFor(edges[i], keys[i], m.groups, order);
    }
    forall term, to | MovesOn(srows, caps, configs, term, to)
      ensures exists e :: e in edges && e.term == term
    {
      assert InGroup(m.groups, term, to);
      var i :| 0 <= i < |keys| && keys[i] == term;
      assert EdgeFor(edges[i], keys[i], m.groups, order);
    }
    forall i, j | 0 <= i < j < |edges|
      ensures LexLess(TermKey(edges[i].term), TermKey(edges[j].term))
    {
      assert EdgeFor(edges[i], keys[i], m.groups, order) && EdgeFor(edges[j], keys[j], m.groups, order);
    }
  }

  /** A row's edges carry terms of source edges, in key order. */
  ghost predicate RowTermsUsed(srows: seq<SourceRow>, row: Row) {
    && (forall e :: e in row.edges ==> UsedTerm(srows, e.term))
    && (forall i, j :: 0 <= i < j < |row.edges| ==> LexLess(TermKey(row.edges[i].term), TermKey(row.edges[j].term)))
  }

  // ----- the sets of configurations that can be current -----

  ghost predicate MovesFrom(srows: seq<SourceRow>, caps: Counters, a: set<Config>, term: Term, to: Config) {
    exists from, e :: from in a && Moves(srows, caps, from, e, to) && e.term == term
  }

  /** All configurations that one term leads to. */
  ghost predicate TermStep(srows: seq<SourceRow>, caps: Counters, a: set<Config>, term: Term, b: set<Config>) {
    b != {} && forall to :: to in b <==> MovesFrom(srows, caps, a, term, to)
  }

  ghost predicate GroupStep(srows: seq<SourceRow>, caps: Counters, a: set<Config>, b: set<Config>) {
    exists term :: TermStep(srows, caps, a, term, b)
  }

  ghost function ConfigSteps(srows: seq<SourceRow>, caps: Counters): Steps<set<Config>> {
    (a, b) => GroupStep(srows, caps, a, b)
  }

  ghost function ConfigSets(order: seq<seq<Config>>): (r: seq<set<Config>>)
    ensures |r| == |order| && forall i :: 0 <= i < |order| ==> r[i] == Elements(order[i])
  {
    seq(|order|, i requires 0 <= i < |order| => Elements(order[i]))
  }

  /** Too many sets are reached, or one with too many configurations. */
  ghost predicate TooManyConfigs(srows: seq<SourceRow>, caps: Counters, start: set<Config>, limit: nat) {
    MoreStates(ConfigSteps(srows, caps), start, Room(limit)) || exists s :: LargeSet(srows, caps, start, limit, s)
  }

  ghost predicate LargeSet(srows: seq<SourceRow>, caps: Counters, start: set<Config>, limit: nat, s: set<Config>) {
    Reached(ConfigSteps(srows, caps), start, s) && |s| > limit
  }

  /** The numbered states: normalized, in range, within the limits, and reached from the
      first one. */
  ghost predicate ConfigStates(srows: seq<SourceRow>, caps: Counters, limit: nat, order: seq<seq<Config>>) {
    match limit case _ =>
      && |order| <= Room(limit)
      && (forall i :: 0 <= i < |order| ==> ConfigState(srows, caps, limit, order[i]))
      && (order != [] ==> AllReached(ConfigSteps(srows, caps), Elements(order[0]), ConfigSets(order)))
  }

  ghost predicate ConfigState(srows: seq<SourceRow>, caps: Counters, limit: nat, key: seq<Config>) {
    Sorted(ConfigKey, key) && ConfigsFit(srows, caps, key) && 0 < |key| <= limit
  }

  ghost function FirstConfigs(order: seq<seq<Config>>, configs: seq<Config>): set<Config> {
    if order == [] then Elements(configs) else Elements(order[0])
  }

  lemma SameConfigs(a: seq<Config>, b: seq<Config>)
    requires Elements(a) == Elements(b)
    ensures forall c :: c in a <==> c in b
  {
    forall c
      ensures c in a <==> c in b
    {
      assert c in a <==> c in Elements(a);
      assert c in b <==> c in Elements(b);
    }
  }

  lemma SameConfigKey(a: seq<Config>, b: seq<Config>)
    requires Sorted(ConfigKey, a) && Sorted(ConfigKey, b) && Elements(a) == Elements(b)
    ensures a == b
  {
    SameConfigs(a, b);
    SortedUnique(ConfigKey, a, b);
  }

  /** A normalized list has one entry for each element. */
  lemma {:induction false} KeySize(key: seq<Config>)
    requires Sorted(ConfigKey, key)
    ensures |Elements(key)| == |key|
  {
    if key != [] {
      var rest := key[1..];
      KeySize(rest);
      Distinct(ConfigKey, key);
      assert Elements(key) == Elements(rest) + {key[0]} by {
        assert key == [key[0]] + rest;
      }
      assert key[0] !in Elements(rest);
    }
  }

  lemma ConfigStatesDiffer(srows: seq<SourceRow>, caps: Counters, limit: nat, order: seq<seq<Config>>, states: map<seq<Config>, nat>)
    requires ConfigStates(srows, caps, limit, order) && Numbered(states, order)
    ensures Different(ConfigSets(order))
  {
    forall i, j | 0 <= i < j < |order|
      ensures Elements(order[i]) != Elements(order[j])
    {
      if Elements(order[i]) == Elements(order[j]) {
        SameConfigKey(order[i], order[j]);
      }
    }
  }

  lemma ConfigsNumbered(srows: seq<SourceRow>, caps: Counters, limit: nat, order: seq<seq<Config>>, configs: seq<Config>, key: seq<Config>)
    requires ConfigStates(srows, caps, limit, order) && |order| < Room(limit)
    requires ConfigState(srows, caps, limit, key) && Elements(key) == Elements(configs)
    requires Reached(ConfigSteps(srows, caps), FirstConfigs(order, configs), Elements(configs))
    ensures ConfigStates(srows, caps, limit, order + [key])
  {
    var order' := order + [key];
    forall i | 0 <= i < |order'|
      ensures Reached(ConfigSteps(srows, caps), Elements(order'[0]), ConfigSets(order')[i])
    {
      if i < |order| {
        assert ConfigSets(order)[i] == ConfigSets(order')[i];
        assert Reached(ConfigSteps(srows, caps), Elements(order[0]), ConfigSets(order)[i]);
      }
    }
  }

  lemma NoRoomForConfigs(srows: seq<SourceRow>, caps: Counters, limit: nat, order: seq<seq<Config>>,
                         states: map<seq<Config>, nat>, configs: seq<Config>, key: seq<Config>)
    requires ConfigStates(srows, caps, limit, order) && Numbered(states, order) && |order| >= Room(limit)
    requires Sorted(ConfigKey, key) && Elements(key) == Elements(configs) && key !in states
    requires Reached(ConfigSteps(srows, caps), FirstConfigs(order, configs), Elements(configs))
    ensures TooManyConfigs(srows, caps, FirstConfigs(order, configs), limit)
  {
    ConfigStatesDiffer(srows, caps, limit, order, states);
    forall i | 0 <= i < |order|
      ensures ConfigSets(order)[i] != Elements(configs)
    {
      if Elements(order[i]) == Elements(key) {
        SameConfigKey(order[i], key);
      }
    }
    OneMoreState(ConfigSteps(srows, caps), FirstConfigs(order, configs), ConfigSets(order), Elements(configs));
  }

  lemma TooLarge(srows: seq<SourceRow>, caps: Counters, limit: nat, start: set<Config>, key: seq<Config>)
    requires Sorted(ConfigKey, key) && |key| > limit && Reached(ConfigSteps(srows, caps), start, Elements(key))
    ensures TooManyConfigs(srows, caps, start, limit)
  {
    KeySize(key);
    assert LargeSet(srows, caps, start, limit, Elements(key));
  }

  lemma MovesAgree(srows: seq<SourceRow>, caps: Counters, configs: seq<Config>, term: Term, to: Config)
    ensures MovesFrom(srows, caps, Elements(configs), term, to) <==> MovesOn(srows, caps, configs, term, to)
  {
  }

  /** The group of a term is what the term leads to. */
  lemma GroupReached(m: Moved, srows: seq<SourceRow>, caps: Counters, configs: seq<Config>, start: set<Config>, term: Term)
    requires Collected(m, srows, caps, configs) && term in m.groups && SourceFits(srows, |caps|)
    requires Reached(ConfigSteps(srows, caps), start, Elements(configs))
    ensures Reached(ConfigSteps(srows, caps), start, Elements(m.groups[term]))
    ensures m.groups[term] != [] && ConfigsFit(srows, caps, m.groups[term])
  {
    var b := Elements(m.groups[term]);
    forall to
      ensures to in b <==> MovesFrom(srows, caps, Elements(configs), term, to)
    {
      MovesAgree(srows, caps, configs, term, to);
      assert InGroup(m.groups, term, to) <==> MovesOn(srows, caps, configs, term, to);
    }
    assert m.groups[term][0] in b;
    assert TermStep(srows, caps, Elements(configs), term, b);
    assert GroupStep(srows, caps, Elements(configs), b);
    StepReached(ConfigSteps(srows, caps), start, Elements(configs), b);
    forall c | c in m.groups[term]
      ensures ConfigFits(srows, caps, c)
    {
      assert InGroup(m.groups, term, c);
      var from, e :| from in configs && Moves(srows, caps, from, e, c) && e.term == term;
      MovesFit(srows, caps, from, e, c);
    }
  }

  /** When every state has its row, every set that is reached has its state. */
  lemma ConfigsExplored(srows: seq<SourceRow>, caps: Counters, order: seq<seq<Config>>, rows: seq<Row>)
    requires order != [] && |rows| == |order| && RowsStandFor(rows, srows, caps, order)
    ensures Complete(ConfigSteps(srows, caps), Elements(order[0]), ConfigSets(order))
  {
    var sets := ConfigSets(order);
    assert sets[0] in sets;
    forall a, b | a in sets && GroupStep(srows, caps, a, b)
      ensures b in sets
    {
      var i :| 0 <= i < |order| && sets[i] == a;
      var term :| TermStep(srows, caps, a, term, b);
      var k := TermTarget(srows, caps, order, rows, i, term, b);
      assert sets[k] == b;
    }
  }

  lemma TermTarget(srows: seq<SourceRow>, caps: Counters, order: seq<seq<Config>>, rows: seq<Row>, i: nat, term: Term, b: set<Config>)
    returns (k: nat)
    requires i < |rows| == |order| && RowsStandFor(rows, srows, caps, order)
    requires TermStep(srows, caps, Elements(order[i]), term, b)
    ensures k < |order| && Elements(order[k]) == b
  {
    assert DetRowFor(rows[i], order[i], srows, caps, order);
    var to :| to in b;
    MovesAgree(srows, caps, order[i], term, to);
    var d :| d in rows[i].edges && d.term == term;
    k := d.to;
    forall c
      ensures c in Elements(order[k]) <==> c in b
    {
      MovesAgree(srows, caps, order[i], term, c);
    }
  }

  /** Nothing that is reached is too much. */
  lemma NotTooMany(srows: seq<SourceRow>, caps: Counters, limit: nat, order: seq<seq<Config>>, rows: seq<Row>)
    requires order != [] && |rows| == |order| && RowsStandFor(rows, srows, caps, order)
    requires ConfigStates(srows, caps, limit, order)
    ensures !TooManyConfigs(srows, caps, Elements(order[0]), limit)
  {
    ConfigsExplored(srows, caps, order, rows);
    CompleteIsAll(ConfigSteps(srows, caps), Elements(order[0]), ConfigSets(order), Room(limit));
    forall s | Reached(ConfigSteps(srows, caps), Elements(order[0]), s)
      ensures |s| <= limit
    {
      ReachedFound(ConfigSteps(srows, caps), Elements(order[0]), ConfigSets(order), s);
      var i :| 0 <= i < |order| && ConfigSets(order)[i] == s;
      assert ConfigState(srows, caps, limit, order[i]);
      KeySize(order[i]);
    }
  }

  class SubsetTable {
    const srows: seq<SourceRow>
    const caps: Counters
    const limit: nat
    var states: map<seq<Config>, nat>
    var queue: seq<seq<Config>>
    var rows: seq<Row>
    ghost var order: seq<seq<Config>>

    constructor (srows: seq<SourceRow>, caps: Counters, limit: nat)
      requires SourceFits(srows, |caps|)
      ensures this.srows == srows && this.caps == caps && this.limit == limit
      ensures Valid() && rows == [] && queue == [] && order == []
    {
      this.srows, this.caps, this.limit := srows, caps, limit;
      states, queue, rows, order := map[], [], [], [];
    }

    ghost predicate Valid()
      reads this
    {
      match states case found =>
        Numbered(found, order) && ConfigStates(srows, caps, limit, order) && SourceFits(srows, |caps|)
    }

    ghost predicate TooMany(start: set<Config>) {
      TooManyConfigs(srows, caps, start, limit)
    }

    /** These configurations are in range and reached. */
    ghost predicate Current(configs: seq<Config>)
      reads this
    {
      match configs case cs =>
        && order != [] && ConfigsFit(srows, caps, cs)
        && Reached(ConfigSteps(srows, caps), Elements(order[0]), Elements(cs))
    }

    /** No two states stand for the same set of configurations. */
    lemma DistinctStates(i: nat, j: nat)
      requires Valid() && i < j < |order|
      ensures exists c :: (c in order[i]) != (c in order[j])
    {
      assert ConfigState(srows, caps, limit, order[i]) && ConfigState(srows, caps, limit, order[j]);
      if forall c :: c in order[i] <==> c in order[j] {
        SortedUnique(ConfigKey, order[i], order[j]);
      }
    }

    /** Finds or numbers the state of a set of configurations that is reached. */
    method StateId(configs: seq<Config>) returns (r: Outcome<nat>)
      requires Valid() && configs != [] && ConfigsFit(srows, caps, configs)
      requires Reached(ConfigSteps(srows, caps), FirstConfigs(order, configs), Elements(configs))
      modifies this`states, this`queue, this`order
      ensures Valid() && Queued(old(queue), old(order), queue, order)
      ensures r.Ok? ==> r.value < |order| && forall c :: c in order[r.value] <==> c in configs
      ensures r.Ok? && |order| > |old(order)| ==> r.value == |old(order)|
      ensures r.Err? ==> r.error == StateLimit && TooMany(FirstConfigs(old(order), configs))
    {
      var key := NormalizeConfigs(configs);
      if |key| > limit {
        TooLarge(srows, caps, limit, FirstConfigs(order, configs), key);
        return Err(StateLimit);
      }
      if key in states {
        return Ok(states[key]);
      }
      NumberedSize(states, order);
      if |states| >= limit || |states| > MAX_UINT32 {
        NoRoomForConfigs(srows, caps, limit, order, states, configs, key);
        return Err(StateLimit);
      }
      ConfigsNumbered(srows, caps, limit, order, configs, key);
      var id := |states|;
      states := states[key := id];
      queue := queue + [key];
      order := order + [key];
      return Ok(id);
    }

    /** The edges of a row, one for each group, in key order. */
    method GroupTargets(m: Moved, keys: seq<Term>, ghost configs: seq<Config>) returns (r: Outcome<seq<RowEdge>>)
      requires Valid() && Current(configs) && Collected(m, srows, caps, configs)
      requires forall k :: k in keys ==> k in m.keys
      modifies this`states, this`queue, this`order
      ensures Valid() && order != [] && Queued(old(queue), old(order), queue, order)
      ensures r.Ok? ==> EdgesFor(r.value, keys, m.groups, order)
      ensures r.Err? ==> r.error == StateLimit && TooMany(Elements(order[0]))
    {
      var edges := [];
      for i := 0 to |keys|
        invariant Valid() && Current(configs) && Queued(old(queue), old(order), queue, order)
        invariant EdgesFor(edges, keys[..i], m.groups, order)
      {
        ghost var q, o := queue, order;
        r := NextTarget(m, keys, i, edges, configs);
        QueuedTrans(old(queue), old(order), q, o, queue, order);
        if r.Err? { return; }
        edges := r.value;
      }
      assert keys[..|keys|] == keys;
      return Ok(edges);
    }

    method NextTarget(m: Moved, keys: seq<Term>, i: nat, edges: seq<RowEdge>, ghost configs: seq<Config>)
      returns (r: Outcome<seq<RowEdge>>)
      requires Valid() && Current(configs) && Collected(m, srows, caps, configs)
      requires i < |keys| && keys[i] in m.keys && EdgesFor(edges, keys[..i], m.groups, order)
      modifies this`states, this`queue, this`order
      ensures Valid() && Current(configs) && Queued(old(queue), old(order), queue, order)
      ensures r.Ok? ==> EdgesFor(r.value, keys[..i + 1], m.groups, order)
      ensures r.Err? ==> r.error == StateLimit && TooMany(Elements(order[0]))
    {
      var e := GroupTarget(m, keys[i], configs);
      if e.Err? {
        return Err(e.error);
      }
      EdgesForGrow(edges, e.value, keys, i, m.groups, old(order), order);
      return Ok(edges + [e.value]);
    }

    /** The edge to the state of one group. */
    method GroupTarget(m: Moved, term: Term, ghost configs: seq<Config>) returns (r: Outcome<RowEdge>)
      requires Valid() && Current(configs) && Collected(m, srows, caps, configs) && term in m.keys
      modifies this`states, this`queue, this`order
      ensures Valid() && Current(configs) && Queued(old(queue), old(order), queue, order)
      ensures r.Ok? ==> EdgeFor(r.value, term, m.groups, order)
      ensures r.Err? ==> r.error == StateLimit && TooMany(Elements(order[0]))
    {
      GroupReached(m, srows, caps, configs, Elements(order[0]), term);
      var group := NormalizeConfigs(m.groups[term]);
      SameConfigs(group, m.groups[term]);
      if |group| > limit {
        TooLarge(srows, caps, limit, Elements(order[0]), group);
        return Err(StateLimit);
      }
      var to := StateId(group);
      if to.Err? {
        return Err(to.error);
      }
      return Ok(RowEdge(term, to.value));
    }

    method DeterministicRow(configs: seq<Config>) returns (r: Outcome<Row>)
      requires Valid() && Current(configs)
      modifies this`states, this`queue, this`order
      ensures Valid() && order != [] && Queued(old(queue), old(order), queue, order)
      ensures r.Ok? ==> DetRowFor(r.value, configs, srows, caps, order) && RowTermsUsed(srows, r.value)
      ensures r.Err? ==> r.error == StateLimit && TooMany(Elements(order[0]))
    {
      var collected := CollectMoves(srows, caps, configs);
      if collected.Err? {
        return Err(InternalInvariant);
      }
      var m := collected.value;
      var keys := Normalize(TermKey, m.keys);
      TermKeysAscend(m.keys, keys);
      var edges := GroupTargets(m, keys, configs);
      if edges.Err? {
        return Err(edges.error);
      }
      FinishedRow(m, edges.value, keys, srows, caps, configs, order);
      return Ok(PLAIN_ROW.(edges := edges.value, accept := m.accept));
    }

    /** What is queued is what has no row yet. */
    ghost predicate Working()
      reads this
    {
      match rows case built =>
        && order != [] && |built| <= |order| && queue == order[|built|..]
        && RowsStandFor(built, srows, caps, order)
        && forall i :: 0 <= i < |built| ==> RowTermsUsed(srows, built[i])
    }

    lemma QueuedIsCurrent()
      requires Valid() && Working() && |queue| != 0
      ensures queue[0] == order[|rows|] && Current(queue[0])
    {
      assert ConfigState(srows, caps, limit, order[|rows|]);
      assert Reached(ConfigSteps(srows, caps), Elements(order[0]), ConfigSets(order)[|rows|]);
    }

    method BuildNext() returns (r: Outcome<()>)
      requires Valid() && Working() && |queue| != 0
      modifies this
      ensures Valid() && old(order) <= order
      ensures r.Ok? ==> Working() && |rows| == |old(rows)| + 1
      ensures r.Err? ==> r.error == StateLimit && TooMany(Elements(old(order)[0]))
    {
      QueuedIsCurrent();
      var next := queue[0];
      queue := queue[1..];
      var row := DeterministicRow(next);
      if row.Err? { return Err(row.error); }
      QueueAdvances(old(queue), old(order), |rows|, queue, order);
      RowsStandForGrow(rows, row.value, srows, caps, old(order), order);
      rows := rows + [row.value];
      assert Working();
      return Ok(());
    }

    /** Builds the rows of everything reached from one source state with counters at
        zero. First found, first built: an edge's target is the index of the row built
        for its configurations. It fails exactly when too much is reached. */
    method Explore(start: nat) returns (r: Outcome<nat>)
      requires Valid() && order == [] && rows == [] && queue == [] && start < |srows|
      modifies this
      ensures Valid()
      ensures r.Ok? ==>
                && r.value == 0 && |order| == |rows| && Working()
                && forall c :: c in order[r.value] <==> c == Config(start, Zeros(|caps|))
      ensures r.Err? ==> r.error == StateLimit
      ensures r.Err? <==> TooMany({Config(start, Zeros(|caps|))})
    {
      r := Begin(start);
      if r.Err? { return; }
      var built := BuildAll();
      if built.Err? { return Err(built.error); }
      assert forall c :: c in order[0] <==> c in Elements(order[0]);
    }

    /** Numbers the first state. */
    method Begin(start: nat) returns (r: Outcome<nat>)
      requires Valid() && order == [] && rows == [] && queue == [] && start < |srows|
      modifies this`states, this`queue, this`order
      ensures Valid()
      ensures r.Ok? ==> r.value == 0 && Working() && Elements(order[0]) == {Config(start, Zeros(|caps|))}
      ensures r.Err? ==> r.error == StateLimit && TooMany({Config(start, Zeros(|caps|))})
    {
      var configs := [Config(start, Zeros(|caps|))];
      assert Elements(configs) == {Config(start, Zeros(|caps|))};
      StartReached(ConfigSteps(srows, caps), Elements(configs));
      r := StateId(configs);
      if r.Ok? {
        assert Elements(order[0]) == Elements(configs);
      }
    }

    /** Works off the queue. */
    method BuildAll() returns (r: Outcome<()>)
      requires Valid() && Working()
      modifies this
      ensures Valid()
      ensures r.Ok? ==> Working() && |order| == |rows| && Elements(order[0]) == Elements(old(order)[0])
      ensures r.Err? ==> r.error == StateLimit
      ensures r.Err? <==> TooMany(Elements(old(order)[0]))
    {
      ghost var first := order[0];
      while |queue| != 0
        invariant Valid() && Working() && order[0] == first
        decreases limit - |rows|
      {
        r := BuildNext();
        if r.Err? { return; }
      }
      NotTooMany(srows, caps, limit, order, rows);
      return Ok(());
    }
  }

  function NormalizeConfigs(configs: seq<Config>): (r: seq<Config>)
    ensures Elements(r) == Elements(configs) && Sorted(ConfigKey, r)
    ensures configs != [] ==> r != []
  {
    ConfigKeyInjective();
    NormalizeSorted(ConfigKey, configs);
    var r := Normalize(ConfigKey, configs);
    assert configs != [] ==> configs[0] in r;
    r
  }
}
