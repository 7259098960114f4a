/** When two particles can start with the same child: the test behind unique
    particle attribution. */
module Overlap {
  import opened Schema
  import opened ContentLanguage
  import opened ParticleRanges

  // ----- wildcards -----

  function ListedNamespaces(s: NamespaceSet): seq<string> {
    match s
    case TargetNamespace(list) => list
    case NamespaceList(list) => list
    case _ => []
  }

  predicate HasNamespaceOtherThan(s: NamespaceSet, excluded: string) {
    match s
    case AnyNamespace => true
    case OtherNamespace(_) => true
    case LocalOnly => false
    case _ => exists i :: 0 <= i < |ListedNamespaces(s)| && ListedNamespaces(s)[i] != excluded
  }

  predicate WildcardsOverlap(a: NamespaceSet, b: NamespaceSet) {
    if a.AnyNamespace? || b.AnyNamespace? then true
    else if a.OtherNamespace? && b.OtherNamespace? then true
    else if a.OtherNamespace? then HasNamespaceOtherThan(b, a.otherThan)
    else if b.OtherNamespace? then HasNamespaceOtherThan(a, b.otherThan)
    else if a.LocalOnly? && b.LocalOnly? then true
    else if a.LocalOnly? then AllowsNamespace(b, "")
    else if b.LocalOnly? then AllowsNamespace(a, "")
    else exists i :: 0 <= i < |ListedNamespaces(a)| && AllowsNamespace(b, ListedNamespaces(a)[i])
  }

  predicate ValidNamespaceSet(s: NamespaceSet) {
    s.TargetNamespace? ==> |s.namespaces| == 1
  }

  ghost predicate ShareNamespace(a: NamespaceSet, b: NamespaceSet) {
    exists ns: string :: AllowsNamespace(a, ns) && AllowsNamespace(b, ns)
  }

  /** a excludes one namespace and all unnamed ones; b lists nothing else but
      at least the unnamed one. The overlap test then reports a clash that no
      child can cause. Against the any-wildcard the same happens for an empty list. */
  predicate FalseAlarm(a: NamespaceSet, b: NamespaceSet) {
    || (a.AnyNamespace? && (b.NamespaceList? && b.namespaces == []))
    || (a.OtherNamespace? && ListedNamespaces(b) != []
        && (exists i :: 0 <= i < |ListedNamespaces(b)| && ListedNamespaces(b)[i] != a.otherThan)
        && forall i :: 0 <= i < |ListedNamespaces(b)| ==> ListedNamespaces(b)[i] in {"", a.otherThan})
  }

  lemma FreshNamespace(x: string, y: string) returns (ns: string)
    ensures ns != "" && ns != x && ns != y
  {
    ns := seq(|x| + |y| + 1, _ => 'n');
    assert |ns| > |x| && |ns| > |y|;
  }

  lemma ListShares(a: NamespaceSet, b: NamespaceSet)
    requires ValidNamespaceSet(a) && (a.TargetNamespace? || a.NamespaceList?)
    ensures ShareNamespace(a, b) <==>
            exists i :: 0 <= i < |ListedNamespaces(a)| && AllowsNamespace(b, ListedNamespaces(a)[i])
  {
    assert forall ns: string :: AllowsNamespace(a, ns) <==> ns in ListedNamespaces(a);
    if i :| 0 <= i < |ListedNamespaces(a)| && AllowsNamespace(b, ListedNamespaces(a)[i]) {
      assert AllowsNamespace(a, ListedNamespaces(a)[i]);
    }
  }

  lemma ShareSymmetric(a: NamespaceSet, b: NamespaceSet)
    ensures ShareNamespace(a, b) <==> ShareNamespace(b, a)
  {
  }

  /** A wildcard and the any-wildcard share a namespace unless the first lists none. */
  lemma AnyShares(b: NamespaceSet)
    requires ValidNamespaceSet(b)
    ensures ShareNamespace(AnyNamespace, b) <==> !(b.NamespaceList? && b.namespaces == [])
  {
    match b
    case AnyNamespace => assert AllowsNamespace(b, "");
    case OtherNamespace(x) =>
      var ns := FreshNamespace(x, x);
      assert AllowsNamespace(b, ns);
    case LocalOnly => assert AllowsNamespace(b, "");
    case TargetNamespace(list) => assert AllowsNamespace(b, list[0]);
    case NamespaceList(list) =>
      if list != [] {
        assert AllowsNamespace(b, list[0]);
      }
  }

  lemma OtherShares(a: NamespaceSet, b: NamespaceSet)
    requires a.OtherNamespace? && !b.AnyNamespace? && ValidNamespaceSet(b)
    ensures WildcardsOverlap(a, b) <==> ShareNamespace(a, b) || FalseAlarm(a, b)
  {
    if b.OtherNamespace? {
      var ns := FreshNamespace(a.otherThan, b.otherThan);
      assert AllowsNamespace(a, ns) && AllowsNamespace(b, ns);
    } else if !b.LocalOnly? {
      ListShares(b, a);
      ShareSymmetric(a, b);
    }
  }

  /** The overlap test is exact up to its false alarms. */
  lemma WildcardsOverlapIff(a: NamespaceSet, b: NamespaceSet)
    requires ValidNamespaceSet(a) && ValidNamespaceSet(b)
    ensures WildcardsOverlap(a, b) <==> ShareNamespace(a, b) || FalseAlarm(a, b) || FalseAlarm(b, a)
  {
    ShareSymmetric(a, b);
    if a.AnyNamespace? {
      AnyShares(b);
    } else if b.AnyNamespace? {
      AnyShares(a);
    } else if a.OtherNamespace? {
      OtherShares(a, b);
    } else if b.OtherNamespace? {
      OtherShares(b, a);
    } else if a.LocalOnly? {
      assert AllowsNamespace(a, "");
    } else if b.LocalOnly? {
      assert AllowsNamespace(b, "");
    } else {
      ListShares(a, b);
    }
  }

  /** `##other` of a target namespace against the list (`##local`, that namespace):
      rejected, though no child matches both. */
  lemma FalseAlarmExample()
    ensures var a, b := OtherNamespace("urn:t"), NamespaceList(["", "urn:t"]);
            WildcardsOverlap(a, b) && !ShareNamespace(a, b)
  {
    var a, b := OtherNamespace("urn:t"), NamespaceList(["", "urn:t"]);
    assert ListedNamespaces(b)[0] == "" != a.otherThan;
  }

  /** What the compiler relies on needs no validity: a shared namespace is reported. */
  lemma SharedIsReported(a: NamespaceSet, b: NamespaceSet, ns: string)
    requires AllowsNamespace(a, ns) && AllowsNamespace(b, ns)
    ensures WildcardsOverlap(a, b)
  {
    if a.TargetNamespace? || a.NamespaceList? {
      var i :| 0 <= i < |ListedNamespaces(a)| && ListedNamespaces(a)[i] == ns;
    }
    if b.TargetNamespace? || b.NamespaceList? {
      var j :| 0 <= j < |ListedNamespaces(b)| && ListedNamespaces(b)[j] == ns;
    }
  }

  // ----- particles -----

  function MemberName(t: Tables, member: nat): Option<QName> {
    if member < |t.elements| then Some(t.elements[member]) else None
  }

  /** Scans all members, effective or not; only an effective one lets the name through. */
  predicate SomeMemberMatches(t: Tables, head: nat, entries: seq<SubstEntry>, name: QName) {
    if entries == [] then false
    else if MemberName(t, entries[0].member) == Some(name) then MemberByName(t, head, name) == Some(entries[0].member)
    else SomeMemberMatches(t, head, entries[1..], name)
  }

  predicate ElementMatchesName(t: Tables, id: nat, name: QName) {
    id < |t.elements| && (t.elements[id] == name || SomeMemberMatches(t, id, SubstEntries(t, id), name))
  }

  /** Whether a particle can start with an element of this name. */
  predicate StartMatches(t: Tables, term: Term, name: QName)
    requires Acyclic(t.models)
    decreases TermHeightOr0(t.models, term), 0
  {
    match term
    case ElementTerm(id) => ElementMatchesName(t, id, name)
    case WildcardTerm(id) => id < |t.wildcards| && AllowsNamespace(t.wildcards[id].allowed, name.ns)
    case ModelTerm(id) =>
      if id >= |t.models| then false
      else
        ModelHeight(t.models, id);
        GroupStartMatches(t, t.models[id].kind, t.models[id].particles, name)
  }

  /** A sequence is entered up to its first particle that cannot be empty. */
  predicate GroupStartMatches(t: Tables, kind: ModelKind, ps: seq<Particle>, name: QName)
    requires Acyclic(t.models) && RefsInRange(t.models, ps)
    decreases Height(t.models, ps), |ps| + 1
  {
    if ps == [] || kind.EmptyModel? || kind.AnyModel? then false
    else
      TermHeightBound(t.models, ps, 0);
      HeightOfTail(t.models, ps);
      || StartMatches(t, ps[0].term, name)
      || (!(kind.Sequence? && !ParticleEmptiable(t, ps[0])) && GroupStartMatches(t, kind, ps[1..], name))
  }

  lemma HeightOfTail(models: seq<ContentModel>, ps: seq<Particle>)
    requires Acyclic(models) && RefsInRange(models, ps) && ps != []
    ensures Height(models, ps[1..]) <= Height(models, ps)
  {
    HeightIsMax(models, ps[1..], Height(models, ps)) by {
      forall i | 0 <= i < |ps[1..]|
        ensures TermHeight(models, ps[1..][i].term) <= Height(models, ps)
      {
        TermHeightBound(models, ps, i + 1);
      }
    }
  }

  lemma {:induction false} HeightIsMax(models: seq<ContentModel>, ps: seq<Particle>, bound: nat)
    requires Acyclic(models) && RefsInRange(models, ps)
    requires forall i :: 0 <= i < |ps| ==> TermHeight(models, ps[i].term) <= bound
    ensures Height(models, ps) <= bound
  {
    if ps != [] {
      HeightIsMax(models, ps[..|ps| - 1], bound);
    }
  }

  predicate SomeNameMatched(t: Tables, head: nat, entries: seq<SubstEntry>, other: Term)
    requires Acyclic(t.models)
  {
    if entries == [] then false
    else
      var member := entries[0].member;
      || (member < |t.elements|
          && MemberByName(t, head, t.elements[member]) == Some(member)
          && StartMatches(t, other, t.elements[member]))
      || SomeNameMatched(t, head, entries[1..], other)
  }

  /** An element's own name or an effective member's is matched by the other term. */
  predicate FirstNameMatched(t: Tables, src: Term, other: Term)
    requires Acyclic(t.models)
  {
    && src.ElementTerm? && src.element < |t.elements|
    && (StartMatches(t, other, t.elements[src.element])
        || SomeNameMatched(t, src.element, SubstEntries(t, src.element), other))
  }

  predicate TermsOverlap(t: Tables, a: Term, b: Term)
    requires Acyclic(t.models)
    decreases TermHeightOr0(t.models, a) + TermHeightOr0(t.models, b), 0
  {
    if a.ModelTerm? then
      if a.model >= |t.models| then false
      else
        ModelHeight(t.models, a.model);
        GroupOverlaps(t, t.models[a.model].kind, t.models[a.model].particles, b)
    else if b.ModelTerm? then
      if b.model >= |t.models| then false
      else
        ModelHeight(t.models, b.model);
        GroupOverlaps(t, t.models[b.model].kind, t.models[b.model].particles, a)
    else if a.WildcardTerm? && b.WildcardTerm? then
      && a.wildcard < |t.wildcards| && b.wildcard < |t.wildcards|
      && WildcardsOverlap(t.wildcards[a.wildcard].allowed, t.wildcards[b.wildcard].allowed)
    else FirstNameMatched(t, a, b) || FirstNameMatched(t, b, a)
  }

  predicate GroupOverlaps(t: Tables, kind: ModelKind, ps: seq<Particle>, other: Term)
    requires Acyclic(t.models) && RefsInRange(t.models, ps)
    decreases Height(t.models, ps) + TermHeightOr0(t.models, other), |ps| + 1
  {
    if ps == [] || kind.EmptyModel? || kind.AnyModel? then false
    else
      TermHeightBound(t.models, ps, 0);
      HeightOfTail(t.models, ps);
      || TermsOverlap(t, ps[0].term, other)
      || (!(kind.Sequence? && !ParticleEmptiable(t, ps[0])) && GroupOverlaps(t, kind, ps[1..], other))
  }

  // ----- the test against its meaning -----

  lemma {:induction false} MembersAgree(t: Tables, head: nat, entries: seq<SubstEntry>, name: QName)
    requires forall e :: e in entries ==> e.member < |t.elements| && t.elements[e.member] == e.name
    requires forall e :: e in entries ==> MemberByName(t, head, e.name) == if e.effective then Some(e.member) else None
    ensures SomeMemberMatches(t, head, entries, name) <==> exists e :: e in entries && e.name == name && e.effective
    ensures forall other: Term :: Acyclic(t.models) ==>
              (SomeNameMatched(t, head, entries, other) <==>
               exists e :: e in entries && e.effective && StartMatches(t, other, e.name))
    decreases |entries|
  {
    if entries != [] {
      var rest := entries[1..];
      assert entries[0] in entries;
      assert forall e :: e in entries <==> e == entries[0] || e in rest;
      if MemberName(t, entries[0].member) == Some(name) && !entries[0].effective {
        forall e | e in entries && e.name == name
          ensures !e.effective
        {
          assert MemberByName(t, head, name) == None;
        }
      }
      MembersAgree(t, head, rest, name);
    }
  }

  lemma EntryOfMember(t: Tables, head: nat, e: SubstEntry)
    requires WellFormedSubstitutions(t) && e in SubstEntries(t, head)
    ensures e.member < |t.elements| && t.elements[e.member] == e.name
    ensures MemberByName(t, head, e.name) == if e.effective then Some(e.member) else None
  {
    var i :| 0 <= i < |t.substitutions[head]| && t.substitutions[head][i] == e;
    var found := FindEntry(SubstEntries(t, head), e.name).value;
    var j :| 0 <= j < |t.substitutions[head]| && t.substitutions[head][j] == found;
    assert i == j;
  }

  lemma HeadAgrees(t: Tables, head: nat, name: QName)
    requires WellFormedSubstitutions(t)
    ensures SomeMemberMatches(t, head, SubstEntries(t, head), name) <==> MemberByName(t, head, name).Some?
    ensures forall other: Term :: Acyclic(t.models) ==>
              (SomeNameMatched(t, head, SubstEntries(t, head), other) <==>
               exists e :: e in SubstEntries(t, head) && e.effective && StartMatches(t, other, e.name))
  {
    forall e | e in SubstEntries(t, head)
      ensures e.member < |t.elements| && t.elements[e.member] == e.name
      ensures MemberByName(t, head, e.name) == if e.effective then Some(e.member) else None
    {
      EntryOfMember(t, head, e);
    }
    MembersAgree(t, head, SubstEntries(t, head), name);
  }

  /** Whatever a direct term matches, its name is one the term can start with. */
  lemma MatchStarts(t: Tables, term: Term, x: Input)
    requires Acyclic(t.models) && WellFormedSubstitutions(t) && TermMatches(t, term, x)
    ensures StartMatches(t, term, x.name)
  {
    if term.ElementTerm? {
      HeadAgrees(t, term.element, x.name);
    }
  }

  ghost predicate Share(t: Tables, a: Term, b: Term)
    requires Acyclic(t.models)
  {
    exists name: QName :: StartMatches(t, a, name) && StartMatches(t, b, name)
  }

  lemma FirstNameIff(t: Tables, src: Term, other: Term)
    requires Acyclic(t.models) && WellFormedSubstitutions(t) && src.ElementTerm?
    ensures FirstNameMatched(t, src, other) <==> Share(t, src, other)
  {
    var id := src.element;
    if FirstNameMatched(t, src, other) {
      if StartMatches(t, other, t.elements[id]) {
        assert StartMatches(t, src, t.elements[id]);
      } else {
        HeadAgrees(t, id, t.elements[id]);
        var e :| e in SubstEntries(t, id) && e.effective && StartMatches(t, other, e.name);
        HeadAgrees(t, id, e.name);
        EntryOfMember(t, id, e);
        assert StartMatches(t, src, e.name);
      }
    }
    if Share(t, src, other) {
      var name :| StartMatches(t, src, name) && StartMatches(t, other, name);
      HeadAgrees(t, id, name);
      if t.elements[id] != name {
        var e := FindEntry(SubstEntries(t, id), name).value;
        assert e in SubstEntries(t, id) && e.effective;
      }
    }
  }

  ghost predicate NoFalseAlarms(t: Tables) {
    forall i, j :: 0 <= i < |t.wildcards| && 0 <= j < |t.wildcards| ==>
      && ValidNamespaceSet(t.wildcards[i].allowed)
      && !FalseAlarm(t.wildcards[i].allowed, t.wildcards[j].allowed)
  }

  lemma DirectOverlapIff(t: Tables, a: Term, b: Term)
    requires Acyclic(t.models) && WellFormedSubstitutions(t)
    requires !a.ModelTerm? && !b.ModelTerm?
    ensures Share(t, a, b) ==> TermsOverlap(t, a, b)
    ensures NoFalseAlarms(t) && TermsOverlap(t, a, b) ==> Share(t, a, b)
  {
    assert Share(t, a, b) <==> Share(t, b, a);
    if a.ElementTerm? {
      FirstNameIff(t, a, b);
    }
    if b.ElementTerm? {
      FirstNameIff(t, b, a);
    }
    if a.WildcardTerm? && b.WildcardTerm? {
      if Share(t, a, b) {
        var name :| StartMatches(t, a, name) && StartMatches(t, b, name);
        SharedIsReported(t.wildcards[a.wildcard].allowed, t.wildcards[b.wildcard].allowed, name.ns);
      }
      if NoFalseAlarms(t) && TermsOverlap(t, a, b) {
        var p, q := t.wildcards[a.wildcard].allowed, t.wildcards[b.wildcard].allowed;
        WildcardsOverlapIff(p, q);
        var ns: string :| AllowsNamespace(p, ns) && AllowsNamespace(q, ns);
        assert StartMatches(t, a, QName(ns, "")) && StartMatches(t, b, QName(ns, ""));
      }
    }
  }

  /** Nested groups included: a shared first name is always reported, and, unless two
      wildcards raise a false alarm, nothing else is. */
  lemma {:induction false} TermsOverlapIff(t: Tables, a: Term, b: Term)
    requires Acyclic(t.models) && WellFormedSubstitutions(t)
    ensures Share(t, a, b) ==> TermsOverlap(t, a, b)
    ensures NoFalseAlarms(t) && TermsOverlap(t, a, b) ==> Share(t, a, b)
    decreases TermHeightOr0(t.models, a) + TermHeightOr0(t.models, b), 0
  {
    if a.ModelTerm? {
      if a.model < |t.models| {
        ModelHeight(t.models, a.model);
        GroupOverlapsIff(t, t.models[a.model].kind, t.models[a.model].particles, b);
        assert forall name :: StartMatches(t, a, name) <==>
                 GroupStartMatches(t, t.models[a.model].kind, t.models[a.model].particles, name);
      }
    } else if b.ModelTerm? {
      if b.model < |t.models| {
        ModelHeight(t.models, b.model);
        GroupOverlapsIff(t, t.models[b.model].kind, t.models[b.model].particles, a);
        assert forall name :: StartMatches(t, b, name) <==>
                 GroupStartMatches(t, t.models[b.model].kind, t.models[b.model].particles, name);
      }
    } else {
      DirectOverlapIff(t, a, b);
    }
  }

  ghost predicate GroupShares(t: Tables, kind: ModelKind, ps: seq<Particle>, other: Term)
    requires Acyclic(t.models) && RefsInRange(t.models, ps)
  {
    exists name: QName :: GroupStartMatches(t, kind, ps, name) && StartMatches(t, other, name)
  }

  lemma {:induction false} GroupOverlapsIff(t: Tables, kind: ModelKind, ps: seq<Particle>, other: Term)
    requires Acyclic(t.models) && WellFormedSubstitutions(t) && RefsInRange(t.models, ps)
    ensures GroupShares(t, kind, ps, other) ==> GroupOverlaps(t, kind, ps, other)
    ensures NoFalseAlarms(t) && GroupOverlaps(t, kind, ps, other) ==> GroupShares(t, kind, ps, other)
    decreases Height(t.models, ps) + TermHeightOr0(t.models, other), |ps| + 1
  {
    if ps != [] && !kind.EmptyModel? && !kind.AnyModel? {
      TermHeightBound(t.models, ps, 0);
      HeightOfTail(t.models, ps);
      TermsOverlapIff(t, ps[0].term, other);
      var stop := kind.Sequence? && !ParticleEmptiable(t, ps[0]);
      if !stop {
        GroupOverlapsIff(t, kind, ps[1..], other);
      }
      if GroupShares(t, kind, ps, other) {
        var name :| GroupStartMatches(t, kind, ps, name) && StartMatches(t, other, name);
        assert StartMatches(t, ps[0].term, name) || (!stop && GroupStartMatches(t, kind, ps[1..], name));
      }
      if NoFalseAlarms(t) && GroupOverlaps(t, kind, ps, other) {
        if TermsOverlap(t, ps[0].term, other) {
          var name :| StartMatches(t, ps[0].term, name) && StartMatches(t, other, name);
          assert GroupStartMatches(t, kind, ps, name);
        } else {
          var name :| GroupStartMatches(t, kind, ps[1..], name) && StartMatches(t, other, name);
          assert GroupStartMatches(t, kind, ps, name);
        }
      }
    }
  }

  /** Two direct terms that match one child are reported. */
  lemma BothMatchOverlap(t: Tables, a: Term, b: Term, x: Input)
    requires Acyclic(t.models) && WellFormedSubstitutions(t)
    requires TermMatches(t, a, x) && TermMatches(t, b, x)
    ensures TermsOverlap(t, a, b)
  {
    MatchStarts(t, a, x);
    MatchStarts(t, b, x);
    DirectOverlapIff(t, a, b);
  }

  // ----- the pre-check that skips rows of plainly different elements -----

  predicate PlainElement(t: Tables, term: Term) {
    term.ElementTerm? && term.element < |t.elements| && SubstEntries(t, term.element) == []
  }

  lemma PlainElementsApart(t: Tables, a: Term, b: Term)
    requires Acyclic(t.models) && PlainElement(t, a) && PlainElement(t, b)
    requires t.elements[a.element] != t.elements[b.element]
    ensures !TermsOverlap(t, a, b)
  {
  }

  /** The pre-check: false only when all terms are elements without members and no
      name is shared. */
  method NeedUpaCheck(t: Tables, terms: seq<Term>) returns (needed: bool)
    requires Acyclic(t.models)
    ensures !needed ==> forall i, j :: 0 <= i < j < |terms| ==> !TermsOverlap(t, terms[i], terms[j])
  {
    var n := |terms|;
    for i := 0 to n
      invariant forall k, j :: 0 <= k < i && k < j < n ==> NamesDiffer(t, terms[k], terms[j])
    {
      if !PlainElement(t, terms[i]) {
        return true;
      }
      for j := i + 1 to n
        invariant forall k :: i < k < j ==> NamesDiffer(t, terms[i], terms[k])
      {
        if !PlainElement(t, terms[j]) {
          return true;
        }
        if t.elements[terms[i].element] == t.elements[terms[j].element] {
          return true;
        }
      }
    }
    forall i, j | 0 <= i < j < n
      ensures !TermsOverlap(t, terms[i], terms[j])
    {
      assert NamesDiffer(t, terms[i], terms[j]);
      PlainElementsApart(t, terms[i], terms[j]);
    }
    return false;
  }

  predicate NamesDiffer(t: Tables, a: Term, b: Term) {
    PlainElement(t, a) && PlainElement(t, b) && t.elements[a.element] != t.elements[b.element]
  }
}
