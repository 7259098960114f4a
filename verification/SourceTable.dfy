/** The worklist that turns follow sets into source rows. States are numbered in the
    order they are found and their rows are built in the same order, so a state's
    number is its row's index. */
module SourceTables {
  import opened Schema
  import opened Normal
  import opened PositionAutomaton
  import opened PositionBuilder
  import opened SourceRows
  import opened StateNumbering
  import opened StateSpaces

  lemma RowForGrows(row: SourceRow, entries: seq<Entry>, follow: FollowTable, labels: seq<Term>,
                    order: seq<seq<Entry>>, order': seq<seq<Entry>>)
    requires RowFor(row, entries, follow, labels, order) && order <= order'
    ensures RowFor(row, entries, follow, labels, order')
  {
  }

  ghost predicate RowsFor(rows: seq<SourceRow>, follow: FollowTable, labels: seq<Term>, order: seq<seq<Entry>>) {
    |rows| <= |order| && forall i :: 0 <= i < |rows| ==> RowFor(rows[i], order[i], follow, labels, order)
  }

  lemma RowsForGrow(rows: seq<SourceRow>, row: SourceRow, follow: FollowTable, labels: seq<Term>,
                    order: seq<seq<Entry>>, order': seq<seq<Entry>>)
    requires RowsFor(rows, follow, labels, order) && order <= order'
    requires |rows| < |order| && RowFor(row, order[|rows|], follow, labels, order')
    ensures RowsFor(rows + [row], follow, labels, order')
  {
    forall i | 0 <= i < |rows|
      ensures RowFor(rows[i], order[i], follow, labels, order')
    {
      RowForGrows(rows[i], order[i], follow, labels, order, order');
    }
  }

  // ----- the sets of entries that can be current -----

  /** From a set of entries to the follow set of one of its positions. */
  ghost predicate EntryStep(follow: FollowTable, a: set<Entry>, b: set<Entry>) {
    exists e :: e in a && e.pos != END_POS && b == Elements(FollowAt(follow, e.pos))
  }

  ghost function EntrySteps(follow: FollowTable): Steps<set<Entry>> {
    (a, b) => EntryStep(follow, a, b)
  }

  ghost function EntrySets(order: seq<seq<Entry>>): (r: seq<set<Entry>>)
    ensures |r| == |order| && forall i :: 0 <= i < |order| ==> r[i] == Elements(order[i])
  {
    seq(|order|, i requires 0 <= i < |order| => Elements(order[i]))
  }

  predicate Knows(known: set<Entry>, entries: seq<Entry>) {
    forall e :: e in entries ==> e in known
  }

  /** The entries that can occur: they lead to positions that exist, and to each other. */
  predicate KnownEntries(n: nat, follow: FollowTable, known: set<Entry>) {
    forall e :: e in known && e.pos != END_POS ==> 0 <= e.pos < n && Knows(known, FollowAt(follow, e.pos))
  }

  /** The numbered states: normalized, of known entries, within the limit, and reached from the
      first one. */
  ghost predicate EntryStates(known: set<Entry>, follow: FollowTable, limit: nat, order: seq<seq<Entry>>) {
    match limit case _ =>
      && |order| <= Room(limit)
      && (forall i :: 0 <= i < |order| ==> Sorted(EntryKey, order[i]) && Knows(known, order[i]))
      && (order != [] ==> AllReached(EntrySteps(follow), Elements(order[0]), EntrySets(order)))
  }

  /** Where the search has begun, or begins with these entries. */
  ghost function FirstEntries(order: seq<seq<Entry>>, entries: seq<Entry>): set<Entry> {
    if order == [] then Elements(entries) else Elements(order[0])
  }

  lemma StatesDiffer(known: set<Entry>, follow: FollowTable, limit: nat, states: map<seq<Entry>, nat>, order: seq<seq<Entry>>)
    requires EntryStates(known, follow, limit, order) && Numbered(states, order)
    ensures Different(EntrySets(order))
  {
    forall i, j | 0 <= i < j < |order|
      ensures Elements(order[i]) != Elements(order[j])
    {
      if Elements(order[i]) == Elements(order[j]) {
        SameKey(order[i], order[j]);
      }
    }
  }

  lemma SameElements(a: seq<Entry>, b: seq<Entry>)
    requires Elements(a) == Elements(b)
    ensures forall e :: e in a <==> e in b
  {
    forall e
      ensures e in a <==> e in b
    {
      InElements(a, b, e);
    }
  }

  /** Numbering one more set that is reached. */
  lemma StateNumbered(known: set<Entry>, follow: FollowTable, limit: nat, order: seq<seq<Entry>>, entries: seq<Entry>, key: seq<Entry>)
    requires EntryStates(known, follow, limit, order) && |order| < Room(limit)
    requires Sorted(EntryKey, key) && Elements(key) == Elements(entries) && Knows(known, entries)
    requires Reached(EntrySteps(follow), FirstEntries(order, entries), Elements(entries))
    ensures EntryStates(known, follow, limit, order + [key])
  {
    var order' := order + [key];
    SameElements(key, entries);
    forall i | 0 <= i < |order'|
      ensures Reached(EntrySteps(follow), Elements(order'[0]), EntrySets(order')[i])
    {
      if i < |order| {
        assert EntrySets(order)[i] == EntrySets(order')[i];
        assert Reached(EntrySteps(follow), Elements(order[0]), EntrySets(order)[i]);
      }
    }
  }

  lemma SameKey(a: seq<Entry>, b: seq<Entry>)
    requires Sorted(EntryKey, a) && Sorted(EntryKey, b) && Elements(a) == Elements(b)
    ensures a == b
  {
    SameElements(a, b);
    SortedUnique(EntryKey, a, b);
  }

  /** A set that is reached but has no number, when there is no room. */
  lemma NoRoom(known: set<Entry>, follow: FollowTable, limit: nat, states: map<seq<Entry>, nat>, order: seq<seq<Entry>>,
               entries: seq<Entry>, key: seq<Entry>)
    requires EntryStates(known, follow, limit, order) && Numbered(states, order) && |order| >= Room(limit)
    requires Sorted(EntryKey, key) && Elements(key) == Elements(entries) && key !in states
    requires Reached(EntrySteps(follow), FirstEntries(order, entries), Elements(entries))
    ensures MoreStates(EntrySteps(follow), FirstEntries(order, entries), Room(limit))
  {
    StatesDiffer(known, follow, limit, states, order);
    forall i | 0 <= i < |order|
      ensures EntrySets(order)[i] != Elements(entries)
    {
      if Elements(order[i]) == Elements(key) {
        SameKey(order[i], key);
      }
    }
    OneMoreState(EntrySteps(follow), FirstEntries(order, entries), EntrySets(order), Elements(entries));
  }

  lemma FollowReached(follow: FollowTable, start: set<Entry>, entries: seq<Entry>, e: Entry)
    requires Reached(EntrySteps(follow), start, Elements(entries)) && e in entries && e.pos != END_POS
    ensures Reached(EntrySteps(follow), start, Elements(FollowAt(follow, e.pos)))
  {
    assert e in Elements(entries);
    assert EntryStep(follow, Elements(entries), Elements(FollowAt(follow, e.pos)));
    StepReached(EntrySteps(follow), start, Elements(entries), Elements(FollowAt(follow, e.pos)));
  }

  /** When every state has its row, every set that is reached has its state. */
  lemma ExploredAll(follow: FollowTable, labels: seq<Term>, order: seq<seq<Entry>>, rows: seq<SourceRow>)
    requires order != [] && |rows| == |order| && RowsFor(rows, follow, labels, order)
    ensures Complete(EntrySteps(follow), Elements(order[0]), EntrySets(order))
  {
    var sets := EntrySets(order);
    assert sets[0] in sets;
    forall a, b | a in sets && EntryStep(follow, a, b)
      ensures b in sets
    {
      var i :| 0 <= i < |order| && sets[i] == a;
      var e :| e in a && e.pos != END_POS && b == Elements(FollowAt(follow, e.pos));
      assert e in order[i] && RowFor(rows[i], order[i], follow, labels, order);
      var d :| d in rows[i].edges && Entry(d.pos, d.guards, d.actions) == e;
      assert sets[d.to] == b;
    }
  }

  /** A row's edges come in the order of their positions. */
  ghost predicate Ascending(row: SourceRow) {
    forall i, j :: 0 <= i < j < |row.edges| ==> row.edges[i].pos <= row.edges[j].pos
  }

  /** No edge of the row has a position after this one; END_POS comes before all. */
  ghost predicate NoneAfter(row: SourceRow, pos: int) {
    forall i :: 0 <= i < |row.edges| ==> row.edges[i].pos <= pos
  }

  /** The edges come in order and none has a position after the last one. */
  ghost predicate EdgesUpTo(row: SourceRow, last: int) {
    match row case SourceRow(_, _) => Ascending(row) && NoneAfter(row, last)
  }

  lemma EdgeAppended(row: SourceRow, d: SourceEdge)
    requires EdgesUpTo(row, d.pos)
    ensures EdgesUpTo(row.(edges := row.edges + [d]), d.pos)
  {
  }

  /** The position of the last entry before i. */
  function LastPos(entries: seq<Entry>, i: nat): int
    requires i <= |entries|
  {
    if i == 0 then END_POS else entries[i - 1].pos
  }

  lemma KeysAscend(entries: seq<Entry>, i: nat)
    requires Sorted(EntryKey, entries) && i + 1 < |entries|
    ensures entries[i].pos <= entries[i + 1].pos
  {
    assert LexLess(EntryKey(entries[i]), EntryKey(entries[i + 1]));
    EntryKeyParts(entries[i]);
    EntryKeyParts(entries[i + 1]);
  }

  lemma LaterEntry(row: SourceRow, entries: seq<Entry>, i: nat)
    requires i < |entries| && Sorted(EntryKey, entries) && EdgesUpTo(row, LastPos(entries, i))
    ensures EdgesUpTo(row, entries[i].pos)
  {
    if i > 0 {
      KeysAscend(entries, i - 1);
    }
  }

  class SourceTable {
    const positions: seq<Particle>
    const follow: FollowTable
    const limit: nat
    ghost const known: set<Entry>
    var states: map<seq<Entry>, nat>
    var queue: seq<seq<Entry>>
    var rows: seq<SourceRow>
    ghost var order: seq<seq<Entry>>

    constructor (positions: seq<Particle>, follow: FollowTable, limit: nat, ghost known: set<Entry>)
      requires KnownEntries(|positions|, follow, known)
      ensures this.positions == positions && this.follow == follow && this.limit == limit && this.known == known
      ensures Valid() && rows == [] && queue == [] && order == []
    {
      this.positions, this.follow, this.limit, this.known := positions, follow, limit, known;
      states, queue, rows, order := map[], [], [], [];
    }

    ghost predicate Valid()
      reads this
    {
      match states case found =>
        Numbered(found, order) && EntryStates(known, follow, limit, order) && KnownEntries(|positions|, follow, known)
    }

    /** There are more sets of entries to be found than there is room for. */
    ghost predicate TooMany(start: set<Entry>) {
      MoreStates(EntrySteps(follow), start, Room(limit))
    }

    /** No two states stand for the same set of entries. */
    lemma DistinctStates(i: nat, j: nat)
      requires Valid() && i < j < |order|
      ensures exists e :: (e in order[i]) != (e in order[j])
    {
      if forall e :: e in order[i] <==> e in order[j] {
        SortedUnique(EntryKey, order[i], order[j]);
      }
    }

    /** Finds or numbers the state of an entry set that is reached. */
    method StateId(entries: seq<Entry>) returns (r: Outcome<nat>)
      requires Valid() && Knows(known, entries)
      requires Reached(EntrySteps(follow), FirstEntries(order, entries), Elements(entries))
      modifies this`states, this`queue, this`order
      ensures Valid() && Queued(old(queue), old(order), queue, order)
      ensures r.Ok? ==> r.value < |order| && Elements(order[r.value]) == Elements(entries)
      ensures r.Ok? && |order| > |old(order)| ==> r.value == |old(order)|
      ensures r.Err? ==> r.error == StateLimit && TooMany(FirstEntries(old(order), entries))
    {
      var key := NormalizeEntries(entries);
      EntryKeyInjective();
      NormalizeSorted(EntryKey, entries);
      if key in states {
        return Ok(states[key]);
      }
      NumberedSize(states, order);
      if |states| >= limit || |states| > MAX_UINT32 {
        NoRoom(known, follow, limit, states, order, entries, key);
        return Err(StateLimit);
      }
      StateNumbered(known, follow, limit, order, entries, key);
      var id := |states|;
      states := states[key := id];
      queue := queue + [key];
      order := order + [key];
      return Ok(id);
    }

    /** The entries being turned into a row are those of a state. */
    ghost predicate Current(entries: seq<Entry>)
      reads this
    {
      && order != [] && Knows(known, entries)
      && Reached(EntrySteps(follow), Elements(order[0]), Elements(entries))
    }

    method AddEntry(row: SourceRow, e: Entry, ghost done: seq<Entry>, ghost entries: seq<Entry>) returns (r: Outcome<SourceRow>)
      requires Valid() && Current(entries) && e in entries && RowFor(row, done, follow, Labels(positions), order) && EdgesUpTo(row, e.pos)
      modifies this`states, this`queue, this`order
      ensures Valid() && Current(entries) && Queued(old(queue), old(order), queue, order)
      ensures r.Ok? ==> RowFor(r.value, done + [e], follow, Labels(positions), order) && EdgesUpTo(r.value, e.pos)
      ensures r.Err? ==> r.error == StateLimit && TooMany(Elements(order[0]))
    {
      var next := row;
      if e.pos == END_POS {
        next := row.(accept := row.accept + [e.guards]);
      } else {
        if e.pos < 0 || e.pos >= |positions| {
          return Err(InternalInvariant);
        }
        FollowReached(follow, Elements(order[0]), entries, e);
        var to := StateId(FollowAt(follow, e.pos));
        if to.Err? { return Err(to.error); }
        var d := SourceEdge(e.pos, positions[e.pos].term, e.guards, e.actions, to.value);
        RowForGrows(row, done, follow, Labels(positions), old(order), order);
        EdgeAppended(row, d);
        next := row.(edges := row.edges + [d]);
      }
      RowForAppend(row, next, done, e, follow, Labels(positions), order);
      return Ok(next);
    }

    /** The next entry in order. */
    method NextEntry(row: SourceRow, entries: seq<Entry>, i: nat) returns (r: Outcome<SourceRow>)
      requires Valid() && Current(entries) && Sorted(EntryKey, entries) && i < |entries|
      requires RowFor(row, entries[..i], follow, Labels(positions), order) && EdgesUpTo(row, LastPos(entries, i))
      modifies this`states, this`queue, this`order
      ensures Valid() && Current(entries) && Queued(old(queue), old(order), queue, order)
      ensures r.Ok? ==> RowFor(r.value, entries[..i + 1], follow, Labels(positions), order) && EdgesUpTo(r.value, LastPos(entries, i + 1))
      ensures r.Err? ==> r.error == StateLimit && TooMany(Elements(order[0]))
    {
      assert entries[..i + 1] == entries[..i] + [entries[i]];
      LaterEntry(row, entries, i);
      r := AddEntry(row, entries[i], entries[..i], entries);
    }

    method BuildRow(entries: seq<Entry>) returns (r: Outcome<SourceRow>)
      requires Valid() && Current(entries) && Sorted(EntryKey, entries)
      modifies this`states, this`queue, this`order
      ensures Valid() && order != [] && Queued(old(queue), old(order), queue, order)
      ensures r.Ok? ==> RowFor(r.value, entries, follow, Labels(positions), order) && Ascending(r.value)
      ensures r.Err? ==> r.error == StateLimit && TooMany(Elements(order[0]))
    {
      var row := SourceRow([], []);
      for i := 0 to |entries|
        invariant Valid() && Current(entries) && Queued(old(queue), old(order), queue, order)
        invariant RowFor(row, entries[..i], follow, Labels(positions), order) && EdgesUpTo(row, LastPos(entries, i))
      {
        ghost var q, o := queue, order;
        r := NextEntry(row, entries, i);
        QueuedTrans(old(queue), old(order), q, o, queue, order);
        if r.Err? { return; }
        row := r.value;
      }
      assert entries[..|entries|] == entries;
      return Ok(row);
    }

    /** What is queued is what has no row yet. */
    ghost predicate Working()
      reads this
    {
      match rows case built =>
        && order != [] && |built| <= |order| && queue == order[|built|..]
        && RowsFor(built, follow, Labels(positions), order)
        && forall i :: 0 <= i < |built| ==> Ascending(built[i])
    }

    lemma QueuedIsCurrent()
      requires Valid() && Working() && |queue| != 0
      ensures queue[0] == order[|rows|] && Current(queue[0]) && Sorted(EntryKey, queue[0])
    {
      assert Reached(EntrySteps(follow), Elements(order[0]), EntrySets(order)[|rows|]);
    }

    method BuildNext() returns (r: Outcome<()>)
      requires Valid() && Working() && |queue| != 0
      modifies this
      ensures Valid() && old(order) <= order
      ensures r.Ok? ==> Working() && |rows| == |old(rows)| + 1
      ensures r.Err? ==> r.error == StateLimit && TooMany(Elements(old(order)[0]))
    {
      QueuedIsCurrent();
      var next := queue[0];
      queue := queue[1..];
      var row := BuildRow(next);
      if row.Err? { return Err(row.error); }
      QueueAdvances(old(queue), old(order), |rows|, queue, order);
      RowsForGrow(rows, row.value, follow, Labels(positions), old(order), order);
      rows := rows + [row.value];
      assert Working();
      return Ok(());
    }

    /** Builds the rows of everything reached from the start entries. It fails exactly when
        that is more than there is room for. */
    method Explore(entries: seq<Entry>) returns (r: Outcome<nat>)
      requires Valid() && order == [] && rows == [] && queue == [] && Knows(known, entries)
      modifies this
      ensures Valid()
      ensures r.Ok? ==>
                && r.value < |order| == |rows| && Elements(order[r.value]) == Elements(entries)
                && Working() && order[0] == order[r.value]
      ensures r.Err? ==> r.error == StateLimit
      ensures r.Err? <==> TooMany(Elements(entries))
    {
      StartReached(EntrySteps(follow), Elements(entries));
      r := StateId(entries);
      if r.Err? { return; }
      ghost var first := order[r.value];
      while |queue| != 0
        invariant Valid() && Working()
        invariant r.value == 0 && order[0] == first
        decreases limit - |rows|
      {
        var built := BuildNext();
        if built.Err? { return Err(built.error); }
      }
      ExploredAll(follow, Labels(positions), order, rows);
      CompleteIsAll(EntrySteps(follow), Elements(order[0]), EntrySets(order), Room(limit));
    }
  }

  /** Adding one entry's edge or acceptance keeps the row in step. */
  lemma RowForAppend(before: SourceRow, row: SourceRow, entries: seq<Entry>, e: Entry,
                     follow: FollowTable, labels: seq<Term>, order: seq<seq<Entry>>)
    requires RowFor(before, entries, follow, labels, order)
    requires e.pos == END_POS ==> row == before.(accept := before.accept + [e.guards])
    requires e.pos != END_POS ==>
               && row.accept == before.accept && |row.edges| == |before.edges| + 1 && before.edges <= row.edges
               && var d := row.edges[|before.edges|];
               && d.pos < |labels| && d.term == labels[d.pos] && Entry(d.pos, d.guards, d.actions) == e
               && d.to < |order| && Elements(order[d.to]) == Elements(FollowAt(follow, d.pos))
    ensures RowFor(row, entries + [e], follow, labels, order)
  {
    if e.pos != END_POS {
      assert row.edges == before.edges + [row.edges[|before.edges|]];
      assert row.edges[|before.edges|] in row.edges;
    }
  }
}
