/** Which target namespaces each schema document is read under: its own, and for a
    document without one, those of the documents that include it. */
module TargetContexts {
  import opened Schema

  datatype ReferenceKind = Include | Import

  datatype Reference = Reference(target: nat, kind: ReferenceKind)

  datatype Document = Document(target: string, explicitRoot: bool, nodes: nat, references: seq<Reference>)

  datatype Context = Context(source: nat, target: string)

  type Documents = seq<Document>

  // ----- the least set of contexts -----

  /** Document i includes document d, which has no namespace of its own. */
  predicate Adopts(docs: Documents, i: nat, d: nat) {
    i < |docs| && d < |docs| && docs[d].target == "" && Reference(d, Include) in docs[i].references
  }

  ghost predicate AdoptPath(docs: Documents, path: seq<nat>) {
    path != [] && forall i, j :: 0 <= i < j < |path| && j == i + 1 ==> Adopts(docs, path[i], path[j])
  }

  ghost predicate AdoptPathTo(docs: Documents, i: nat, d: nat, path: seq<nat>) {
    AdoptPath(docs, path) && path[0] == i && path[|path| - 1] == d
  }

  ghost predicate AdoptedBy(docs: Documents, i: nat, d: nat) {
    exists path: seq<nat> :: AdoptPathTo(docs, i, d, path)
  }

  predicate ImportTarget(docs: Documents, i: nat) {
    exists j :: 0 <= j < |docs| && Reference(i, Import) in docs[j].references
  }

  /** The contexts of the first phase. */
  predicate FirstSeed(docs: Documents, c: Context) {
    && c.source < |docs| && c.target == docs[c.source].target
    && (c.target != "" || ImportTarget(docs, c.source) || docs[c.source].explicitRoot)
  }

  ghost predicate FromFirst(docs: Documents, c: Context) {
    exists s :: FirstSeed(docs, s) && s.target == c.target && AdoptedBy(docs, s.source, c.source)
  }

  /** A document that the first phase gives no context is read without a namespace. */
  ghost predicate SecondSeed(docs: Documents, c: Context) {
    && c.source < |docs| && c.target == ""
    && forall tau :: !FromFirst(docs, Context(c.source, tau))
  }

  ghost predicate FromSecond(docs: Documents, c: Context) {
    exists s :: SecondSeed(docs, s) && s.target == c.target && AdoptedBy(docs, s.source, c.source)
  }

  ghost predicate LeastContext(docs: Documents, c: Context) {
    FromFirst(docs, c) || FromSecond(docs, c)
  }

  ghost predicate ClosedUnderIncludes(docs: Documents, s: iset<Context>) {
    forall c, d: nat :: c in s && Adopts(docs, c.source, d) ==> Context(d, c.target) in s
  }

  lemma AdoptedSelf(docs: Documents, i: nat)
    ensures AdoptedBy(docs, i, i)
  {
    assert AdoptPathTo(docs, i, i, [i]);
  }

  lemma AdoptedStep(docs: Documents, i: nat, j: nat, d: nat)
    requires AdoptedBy(docs, i, j) && Adopts(docs, j, d)
    ensures AdoptedBy(docs, i, d)
  {
    var path: seq<nat> :| AdoptPathTo(docs, i, j, path);
    assert AdoptPathTo(docs, i, d, path + [d]);
  }

  /** What is reached from a seed lies in every closed set that holds the seed. */
  lemma {:induction false} SpreadsWithin(docs: Documents, s: iset<Context>, target: string, path: seq<nat>)
    requires ClosedUnderIncludes(docs, s) && AdoptPath(docs, path) && Context(path[0], target) in s
    ensures Context(path[|path| - 1], target) in s
    decreases |path|
  {
    if |path| > 1 {
      var n := |path| - 1;
      SpreadsWithin(docs, s, target, path[..n]);
      assert Adopts(docs, path[n - 1], path[n]);
    }
  }

  lemma WithinClosed(docs: Documents, s: iset<Context>, seed: Context, c: Context)
    requires ClosedUnderIncludes(docs, s) && seed in s && seed.target == c.target && AdoptedBy(docs, seed.source, c.source)
    ensures c in s
  {
    var path: seq<nat> :| AdoptPathTo(docs, seed.source, c.source, path);
    SpreadsWithin(docs, s, c.target, path);
  }

  /** The contexts hold both phases' seeds, are closed under includes of documents without
      a namespace, and lie within every set that is. */
  lemma LeastContextsAreLeast(docs: Documents, s: iset<Context>)
    requires ClosedUnderIncludes(docs, s)
    requires forall c :: FirstSeed(docs, c) || SecondSeed(docs, c) ==> c in s
    ensures forall c :: LeastContext(docs, c) ==> c in s
    ensures forall c :: FirstSeed(docs, c) || SecondSeed(docs, c) ==> LeastContext(docs, c)
    ensures ClosedUnderIncludes(docs, iset c: Context | LeastContext(docs, c))
  {
    forall c | LeastContext(docs, c)
      ensures c in s
    {
      if FromFirst(docs, c) {
        var seed :| FirstSeed(docs, seed) && seed.target == c.target && AdoptedBy(docs, seed.source, c.source);
        WithinClosed(docs, s, seed, c);
      } else {
        var seed :| SecondSeed(docs, seed) && seed.target == c.target && AdoptedBy(docs, seed.source, c.source);
        WithinClosed(docs, s, seed, c);
      }
    }
    forall c | FirstSeed(docs, c) || SecondSeed(docs, c)
      ensures LeastContext(docs, c)
    {
      AdoptedSelf(docs, c.source);
    }
    forall c, d: nat | LeastContext(docs, c) && Adopts(docs, c.source, d)
      ensures LeastContext(docs, Context(d, c.target))
    {
      LeastSpreads(docs, c, d);
    }
  }

  lemma FirstSpreads(docs: Documents, c: Context, d: nat)
    requires FromFirst(docs, c) && Adopts(docs, c.source, d)
    ensures FromFirst(docs, Context(d, c.target))
  {
    var seed :| FirstSeed(docs, seed) && seed.target == c.target && AdoptedBy(docs, seed.source, c.source);
    AdoptedStep(docs, seed.source, c.source, d);
  }

  lemma LeastSpreads(docs: Documents, c: Context, d: nat)
    requires LeastContext(docs, c) && Adopts(docs, c.source, d)
    ensures LeastContext(docs, Context(d, c.target))
  {
    if FromFirst(docs, c) {
      FirstSpreads(docs, c, d);
    } else {
      var seed :| SecondSeed(docs, seed) && seed.target == c.target && AdoptedBy(docs, seed.source, c.source);
      AdoptedStep(docs, seed.source, c.source, d);
    }
  }

  // ----- the store of contexts -----

  const SMALL_CONTEXTS := 8

  function NodeTotal(docs: Documents, queue: seq<Context>): nat {
    if queue == [] then 0
    else
      var last := queue[|queue| - 1];
      NodeTotal(docs, queue[..|queue| - 1]) + if last.source < |docs| then docs[last.source].nodes else 0
  }

  predicate NoRepeats(queue: seq<Context>) {
    forall i, j :: 0 <= i < j < |queue| ==> queue[i] != queue[j]
  }

  lemma {:induction false} NodesOfBoth(docs: Documents, a: seq<Context>, b: seq<Context>)
    ensures NodeTotal(docs, a + b) == NodeTotal(docs, a) + NodeTotal(docs, b)
    decreases |b|
  {
    if b == [] {
      assert a + b == a;
    } else {
      assert (a + b)[..|a + b| - 1] == a + b[..|b| - 1];
      NodesOfBoth(docs, a, b[..|b| - 1]);
    }
  }

  /** Taking one context out of a queue. */
  lemma NodesWithout(docs: Documents, queue: seq<Context>, i: nat)
    requires i < |queue|
    ensures NodeTotal(docs, queue) == NodeTotal(docs, queue[..i] + queue[i + 1..]) + NodeTotal(docs, [queue[i]])
  {
    assert queue == (queue[..i] + [queue[i]]) + queue[i + 1..];
    NodesOfBoth(docs, queue[..i] + [queue[i]], queue[i + 1..]);
    NodesOfBoth(docs, queue[..i], [queue[i]]);
    NodesOfBoth(docs, queue[..i], queue[i + 1..]);
  }

  /** Different contexts of a queue are no more, and weigh no more, than the queue. */
  lemma {:induction false} PartOfQueue(docs: Documents, part: seq<Context>, queue: seq<Context>)
    requires NoRepeats(part) && forall c :: c in part ==> c in queue
    ensures |part| <= |queue| && NodeTotal(docs, part) <= NodeTotal(docs, queue)
    decreases |part|
  {
    if part != [] {
      var last, rest := part[|part| - 1], part[..|part| - 1];
      assert last in part && last in queue;
      var i :| 0 <= i < |queue| && queue[i] == last;
      var others := queue[..i] + queue[i + 1..];
      forall c | c in rest
        ensures c in others
      {
        assert c in part && c in queue;
        var k :| 0 <= k < |queue| && queue[k] == c;
        assert k != i && others[if k < i then k else k - 1] == c;
      }
      PartOfQueue(docs, rest, others);
      NodesWithout(docs, queue, i);
      assert part == rest + [last];
      NodesOfBoth(docs, rest, [last]);
    }
  }

  /** The set holds more contexts than the limit, or contexts with more nodes than theirs. */
  ghost predicate Exceeds(docs: Documents, limit: nat, nodeLimit: nat, s: iset<Context>) {
    exists part :: ExceedsBy(docs, limit, nodeLimit, s, part)
  }

  ghost predicate ExceedsBy(docs: Documents, limit: nat, nodeLimit: nat, s: iset<Context>, part: seq<Context>) {
    && NoRepeats(part) && (forall c :: c in part ==> c in s)
    && (|part| > limit || NodeTotal(docs, part) > nodeLimit)
  }

  /** A context that does not fit beside others of the same set. */
  lemma OneTooMany(docs: Documents, limit: nat, nodeLimit: nat, s: iset<Context>, queue: seq<Context>, c: Context)
    requires NoRepeats(queue) && (forall x :: x in queue ==> x in s) && c in s && c !in queue && c.source < |docs|
    requires |queue| >= limit || NodeTotal(docs, queue) + docs[c.source].nodes > nodeLimit
    ensures Exceeds(docs, limit, nodeLimit, s)
  {
    var part := queue + [c];
    assert part[..|part| - 1] == queue;
    assert ExceedsBy(docs, limit, nodeLimit, s, part);
  }

  lemma FitsInQueue(docs: Documents, limit: nat, nodeLimit: nat, s: iset<Context>, queue: seq<Context>)
    requires (forall c :: c in s ==> c in queue) && |queue| <= limit && NodeTotal(docs, queue) <= nodeLimit
    ensures !Exceeds(docs, limit, nodeLimit, s)
  {
    forall part
      ensures !ExceedsBy(docs, limit, nodeLimit, s, part)
    {
      if NoRepeats(part) && forall c :: c in part ==> c in s {
        PartOfQueue(docs, part, queue);
      }
    }
  }

  lemma MoreExceeds(docs: Documents, limit: nat, nodeLimit: nat, s: iset<Context>, s': iset<Context>)
    requires Exceeds(docs, limit, nodeLimit, s) && s <= s'
    ensures Exceeds(docs, limit, nodeLimit, s')
  {
    var part :| ExceedsBy(docs, limit, nodeLimit, s, part);
    assert ExceedsBy(docs, limit, nodeLimit, s', part);
  }

  class ContextStore {
    const docs: Documents
    const limit: nat
    const nodeLimit: nat
    var primary: seq<Option<string>>
    var additional: seq<Context>
    var additionalSet: Option<set<Context>>
    var queue: seq<Context>
    var next: nat
    var nodes: nat

    constructor (docs: Documents, limit: nat, nodeLimit: nat)
      ensures this.docs == docs && this.limit == limit && this.nodeLimit == nodeLimit
      ensures Valid() && queue == [] && next == 0
    {
      this.docs, this.limit, this.nodeLimit := docs, limit, nodeLimit;
      primary := seq(|docs|, _ => None);
      additional, additionalSet, queue := [], None, [];
      next, nodes := 0, 0;
    }

    /** The store holds the context, as the primary one of its document or besides it. */
    predicate Holds(c: Context)
      reads this
    {
      c.source < |primary| && (primary[c.source] == Some(c.target) || c in additional)
    }

    ghost predicate Valid()
      reads this
    {
      && |primary| == |docs| && next <= |queue|
      && (forall c :: c in queue <==> Holds(c))
      && NoRepeats(queue)
      && (match additionalSet
          case None => |additional| <= SMALL_CONTEXTS
          case Some(held) => forall c :: c in held <==> c in additional)
      && (forall c :: c in additional ==> c.source < |docs| && primary[c.source].Some?)
      && nodes == NodeTotal(docs, queue)
      && |queue| <= limit && nodes <= nodeLimit
    }

    /** What the list, or from nine contexts on the set, says about a context. */
    method IsAdditional(c: Context) returns (yes: bool)
      requires Valid()
      ensures yes <==> c in additional
    {
      match additionalSet {
        case None => return c in additional;
        case Some(held) => return c in held;
      }
    }

    method ExceedsLimits(source: nat) returns (yes: bool)
      requires Valid() && source < |docs|
      ensures yes <==> |queue| >= limit || nodes + docs[source].nodes > nodeLimit
    {
      return |queue| >= limit || docs[source].nodes > nodeLimit - nodes;
    }

    /** Adds a context once. It fails only when a new context would exceed a limit. */
    method Add(source: nat, target: string) returns (ok: bool)
      requires Valid() && source < |docs|
      modifies this
      ensures Valid() && next == old(next)
      ensures ok ==> queue == if Context(source, target) in old(queue) then old(queue) else old(queue) + [Context(source, target)]
      ensures !ok ==> queue == old(queue) && Context(source, target) !in queue
                      && (|queue| >= limit || NodeTotal(docs, queue) + docs[source].nodes > nodeLimit)
    {
      var context := Context(source, target);
      if primary[source] == Some(target) {
        return true;
      }
      var known := IsAdditional(context);
      if known {
        return true;
      }
      var exceeded := ExceedsLimits(source);
      if exceeded {
        return false;
      }
      if additionalSet.None? && |additional| == SMALL_CONTEXTS {
        additionalSet := Some(set c | c in additional);
      }
      Record(context);
      return true;
    }

    /** Records a new context that fits the limits. */
    method Record(context: Context)
      requires Valid() && context.source < |docs| && !Holds(context)
      requires |queue| < limit && nodes + docs[context.source].nodes <= nodeLimit
      requires additionalSet.None? ==> |additional| < SMALL_CONTEXTS
      modifies this
      ensures Valid() && next == old(next) && queue == old(queue) + [context]
    {
      if primary[context.source].None? {
        primary := primary[context.source := Some(context.target)];
      } else {
        additional := additional + [context];
        if additionalSet.Some? {
          additionalSet := Some(additionalSet.value + {context});
        }
      }
      queue := queue + [context];
      nodes := nodes + docs[context.source].nodes;
      assert queue[..|queue| - 1] == old(queue);
    }

    // ----- propagation -----

    /** The includes of the first n contexts have been followed. */
    ghost predicate Expanded(n: nat)
      requires n <= |queue|
      reads this
    {
      forall k, d: nat :: 0 <= k < n && Adopts(docs, queue[k].source, d) ==> Context(d, queue[k].target) in queue
    }

    ghost predicate Within(allowed: iset<Context>)
      reads this
    {
      ClosedUnderIncludes(docs, allowed) && forall c :: c in queue ==> c in allowed
    }

    /** Adds a context that every allowed set must hold. */
    method AddAllowed(source: nat, target: string, ghost allowed: iset<Context>) returns (ok: bool)
      requires Valid() && source < |docs| && Within(allowed) && Context(source, target) in allowed
      modifies this
      ensures Valid() && next == old(next) && old(queue) <= queue && Within(allowed)
      ensures ok ==> Context(source, target) in queue
      ensures !ok ==> Exceeds(docs, limit, nodeLimit, allowed)
    {
      ok := Add(source, target);
      if !ok {
        OneTooMany(docs, limit, nodeLimit, allowed, queue, Context(source, target));
      }
    }

    /** Follows the includes of one context. */
    method FollowIncludes(context: Context, ghost allowed: iset<Context>) returns (ok: bool)
      requires Valid() && context in queue && Within(allowed)
      modifies this
      ensures Valid() && next == old(next) && old(queue) <= queue && Within(allowed)
      ensures ok ==> forall d: nat :: Adopts(docs, context.source, d) ==> Context(d, context.target) in queue
      ensures !ok ==> Exceeds(docs, limit, nodeLimit, allowed)
    {
      assert Holds(context);
      var references := docs[context.source].references;
      for j := 0 to |references|
        invariant Valid() && next == old(next) && old(queue) <= queue && Within(allowed)
        invariant forall i :: 0 <= i < j && references[i].kind.Include? && Adopts(docs, context.source, references[i].target) ==>
                    Context(references[i].target, context.target) in queue
      {
        var r := references[j];
        if r.kind.Include? && r.target < |docs| && docs[r.target].target == "" {
          assert r in references;
          assert context in old(queue);
          ok := AddAllowed(r.target, context.target, allowed);
          if !ok {
            return;
          }
        }
      }
      return true;
    }

    lemma ExpandedGrows(before: seq<Context>, n: nat)
      requires n <= |before| && before <= queue
      requires forall k, d: nat :: 0 <= k < n && Adopts(docs, before[k].source, d) ==> Context(d, before[k].target) in before
      ensures Expanded(n)
    {
      forall k, d: nat | 0 <= k < n && Adopts(docs, queue[k].source, d)
        ensures Context(d, queue[k].target) in queue
      {
        assert queue[k] == before[k];
        assert Context(d, before[k].target) in before;
      }
    }

    /** Works off the queue. */
    method Propagate(ghost allowed: iset<Context>) returns (ok: bool)
      requires Valid() && Within(allowed) && Expanded(next)
      modifies this
      ensures Valid() && old(queue) <= queue && Within(allowed)
      ensures ok ==> next == |queue| && Expanded(next)
      ensures !ok ==> Exceeds(docs, limit, nodeLimit, allowed)
    {
      while next < |queue|
        invariant Valid() && old(queue) <= queue && Within(allowed) && Expanded(next)
        decreases limit - next
      {
        var context := queue[next];
        ghost var before, n := queue, next;
        next := next + 1;
        ok := FollowIncludes(context, allowed);
        if !ok {
          return;
        }
        ExpandedGrows(before, n);
      }
      return true;
    }

    // ----- both phases -----

    /** The documents with a namespace of their own, and those named by imports or roots. */
    method SeedFirst() returns (ok: bool)
      requires Valid() && queue == [] && next == 0
      modifies this
      ensures Valid() && next == 0 && Within(FirstPhase(docs))
      ensures ok ==> forall c :: FirstSeed(docs, c) ==> c in queue
      ensures !ok ==> Exceeds(docs, limit, nodeLimit, FirstPhase(docs))
    {
      FirstPhaseClosed(docs);
      for i := 0 to |docs|
        invariant Valid() && next == 0 && Within(FirstPhase(docs))
        invariant FirstSeeded(docs, queue, i)
      {
        ghost var before := queue;
        if docs[i].target != "" || ImportTarget(docs, i) || docs[i].explicitRoot {
          SeedInFirst(docs, Context(i, docs[i].target));
          ok := AddAllowed(i, docs[i].target, FirstPhase(docs));
          if !ok {
            return;
          }
        }
        NextSeeded(docs, before, queue, i);
      }
      return true;
    }

    /** Gives document i the empty namespace when no context has reached it. */
    method SeedOne(i: nat, ghost first: seq<Context>) returns (ok: bool)
      requires Valid() && i < |docs| && Seeding(docs, first, queue, i)
      requires forall c :: c in first <==> FromFirst(docs, c)
      modifies this
      ensures Valid() && next == old(next)
      ensures ok ==> Seeding(docs, first, queue, i + 1)
      ensures !ok ==> queue == old(queue) && Exceeds(docs, limit, nodeLimit, AllContexts(docs))
    {
      if primary[i].Some? {
        assert Holds(Context(i, primary[i].value));
        SeedKnown(docs, first, queue, i, primary[i].value);
        return true;
      }
      assert forall tau :: !Holds(Context(i, tau)) && Context(i, tau) !in queue;
      SeedAdded(docs, first, queue, i);
      ok := Add(i, "");
      if !ok {
        OneTooMany(docs, limit, nodeLimit, AllContexts(docs), queue, Context(i, ""));
      }
    }

    /** The documents that no context has reached. */
    method SeedSecond() returns (ok: bool)
      requires Valid() && forall c :: c in queue <==> FromFirst(docs, c)
      modifies this
      ensures Valid() && next == old(next)
      ensures ok ==> Seeding(docs, old(queue), queue, |docs|)
      ensures !ok ==> Exceeds(docs, limit, nodeLimit, AllContexts(docs))
    {
      for i := 0 to |docs|
        invariant Valid() && next == old(next) && Seeding(docs, old(queue), queue, i)
      {
        ok := SeedOne(i, old(queue));
        if !ok {
          return;
        }
      }
      return true;
    }

    method FirstPhaseContexts() returns (ok: bool)
      requires Valid() && queue == [] && next == 0
      modifies this
      ensures Valid()
      ensures ok ==> next == |queue| && Expanded(next) && forall c :: c in queue <==> FromFirst(docs, c)
      ensures !ok ==> Exceeds(docs, limit, nodeLimit, AllContexts(docs))
    {
      ok := SeedFirst();
      if ok {
        ok := Propagate(FirstPhase(docs));
      }
      if ok {
        FirstPhaseReached();
      } else {
        MoreExceeds(docs, limit, nodeLimit, FirstPhase(docs), AllContexts(docs));
      }
    }

    method SecondPhaseContexts() returns (ok: bool)
      requires Valid() && next == |queue| && Expanded(next) && forall c :: c in queue <==> FromFirst(docs, c)
      modifies this
      ensures Valid()
      ensures ok ==> (forall c :: c in queue <==> LeastContext(docs, c)) && forall i: nat :: i < |docs| ==> Covers(queue, i)
      ensures !ok ==> Exceeds(docs, limit, nodeLimit, AllContexts(docs))
    {
      ghost var first := queue;
      ok := SeedSecond();
      if !ok {
        return;
      }
      ExpandedGrows(first, |first|);
      AllContextsClosed(docs);
      ghost var seeded := queue;
      ok := Propagate(AllContexts(docs));
      if ok {
        AllReached(first);
        CoversGrows(seeded, queue, |docs|);
      }
    }

    /** Computes the least set of contexts: without repeats, covering every document, and
        with the nodes of all contexts counted. It fails exactly when that set exceeds a limit. */
    method Instantiate() returns (ok: bool)
      requires Valid() && queue == [] && next == 0
      modifies this
      ensures Valid()
      ensures ok ==> (forall c :: c in queue <==> LeastContext(docs, c))
      ensures ok ==> forall i: nat :: i < |docs| ==> Covers(queue, i)
      ensures NoRepeats(queue) && nodes == NodeTotal(docs, queue)
      ensures ok <==> !Exceeds(docs, limit, nodeLimit, AllContexts(docs))
    {
      ok := FirstPhaseContexts();
      if ok {
        ok := SecondPhaseContexts();
      }
      if ok {
        FitsInQueue(docs, limit, nodeLimit, AllContexts(docs), queue);
      }
    }

    ghost function QueueSet(): iset<Context>
      reads this
    {
      iset x: Context | x in queue
    }

    lemma FirstPhaseReached()
      requires Valid() && Within(FirstPhase(docs)) && next == |queue| && Expanded(next)
      requires forall c :: FirstSeed(docs, c) ==> c in queue
      ensures forall c :: c in queue <==> FromFirst(docs, c)
    {
      QueueClosed();
      forall c | FromFirst(docs, c)
        ensures c in queue
      {
        var seed :| FirstSeed(docs, seed) && seed.target == c.target && AdoptedBy(docs, seed.source, c.source);
        WithinClosed(docs, QueueSet(), seed, c);
      }
    }

    lemma QueueClosed()
      requires next == |queue| && Expanded(next)
      ensures ClosedUnderIncludes(docs, QueueSet())
    {
    }

    lemma AllReached(first: seq<Context>)
      requires Valid() && Within(AllContexts(docs)) && next == |queue| && Expanded(next) && first <= queue
      requires forall c :: FromFirst(docs, c) ==> c in first
      requires forall c :: SecondSeed(docs, c) ==> c in queue
      ensures forall c :: c in queue <==> LeastContext(docs, c)
    {
      QueueClosed();
      forall c | LeastContext(docs, c)
        ensures c in queue
      {
        if FromSecond(docs, c) {
          var seed :| SecondSeed(docs, seed) && seed.target == c.target && AdoptedBy(docs, seed.source, c.source);
          WithinClosed(docs, QueueSet(), seed, c);
        }
      }
    }
  }

  /** The second phase has dealt with the documents before i. */
  ghost predicate Seeding(docs: Documents, first: seq<Context>, queue: seq<Context>, i: nat) {
    && first <= queue
    && (forall c :: c in queue ==> LeastContext(docs, c) && (c in first || c.source < i))
    && (forall c :: SecondSeed(docs, c) && c.source < i ==> c in queue)
    && (forall j: nat :: j < i && j < |docs| ==> Covers(queue, j))
  }

  lemma SeedKnown(docs: Documents, first: seq<Context>, queue: seq<Context>, i: nat, target: string)
    requires i < |docs| && Seeding(docs, first, queue, i) && Context(i, target) in queue
    requires forall c :: c in first <==> FromFirst(docs, c)
    ensures Seeding(docs, first, queue, i + 1)
  {
    var c := Context(i, target);
    assert c in first && FromFirst(docs, Context(c.source, c.target));
    assert Covers(queue, i);
  }

  lemma SeedAdded(docs: Documents, first: seq<Context>, queue: seq<Context>, i: nat)
    requires i < |docs| && Seeding(docs, first, queue, i) && forall tau :: Context(i, tau) !in queue
    requires forall c :: c in first <==> FromFirst(docs, c)
    ensures Seeding(docs, first, queue + [Context(i, "")], i + 1)
  {
    var c, queue' := Context(i, ""), queue + [Context(i, "")];
    forall tau
      ensures !FromFirst(docs, Context(i, tau))
    {
      assert Context(i, tau) !in first;
    }
    SeedInSecond(docs, c);
    CoversGrows(queue, queue', i);
    assert c in queue' && Covers(queue', i);
  }

  /** Some context belongs to document i. */
  ghost predicate Covers(queue: seq<Context>, i: nat) {
    exists c :: c in queue && c.source == i
  }

  lemma CoversGrows(before: seq<Context>, queue: seq<Context>, n: nat)
    requires before <= queue && forall i: nat :: i < n ==> Covers(before, i)
    ensures forall i: nat :: i < n ==> Covers(queue, i)
  {
    forall i: nat | i < n
      ensures Covers(queue, i)
    {
      assert Covers(before, i);
      var c :| c in before && c.source == i;
      assert c in queue;
    }
  }

  ghost function FirstPhase(docs: Documents): iset<Context> {
    iset c: Context | FromFirst(docs, c)
  }

  ghost function AllContexts(docs: Documents): iset<Context> {
    iset c: Context | LeastContext(docs, c)
  }

  lemma FirstPhaseClosed(docs: Documents)
    ensures ClosedUnderIncludes(docs, FirstPhase(docs))
  {
    forall c, d: nat | FromFirst(docs, c) && Adopts(docs, c.source, d)
      ensures FromFirst(docs, Context(d, c.target))
    {
      FirstSpreads(docs, c, d);
    }
  }

  lemma AllContextsClosed(docs: Documents)
    ensures ClosedUnderIncludes(docs, AllContexts(docs))
  {
    forall c, d: nat | LeastContext(docs, c) && Adopts(docs, c.source, d)
      ensures LeastContext(docs, Context(d, c.target))
    {
      LeastSpreads(docs, c, d);
    }
  }

  /** The first-phase seeds of the first n documents are queued. */
  ghost predicate FirstSeeded(docs: Documents, queue: seq<Context>, n: nat) {
    forall c :: FirstSeed(docs, c) && c.source < n ==> c in queue
  }

  lemma NextSeeded(docs: Documents, before: seq<Context>, queue: seq<Context>, n: nat)
    requires FirstSeeded(docs, before, n) && before <= queue && n < |docs|
    requires FirstSeed(docs, Context(n, docs[n].target)) ==> Context(n, docs[n].target) in queue
    ensures FirstSeeded(docs, queue, n + 1)
  {
    forall c | FirstSeed(docs, c) && c.source < n + 1
      ensures c in queue
    {
      assert c == Context(c.source, docs[c.source].target);
      assert c.source < n ==> c in before;
    }
  }

  lemma SeedInFirst(docs: Documents, c: Context)
    requires FirstSeed(docs, c)
    ensures FromFirst(docs, c)
  {
    AdoptedSelf(docs, c.source);
  }

  lemma SeedInSecond(docs: Documents, c: Context)
    requires SecondSeed(docs, c)
    ensures LeastContext(docs, c)
  {
    AdoptedSelf(docs, c.source);
  }
}
