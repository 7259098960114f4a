/** The schema components that content-model compilation reads: names, wildcards,
    substitution groups, particles and content models, and what it means for a
    child element to be matched by one direct (element or wildcard) term.

    Interning is not modelled: a namespace or a local name stands for itself. */
module Schema {

  const MAX_UINT32: nat := 0xFFFF_FFFF

  type Uint32 = n: nat | n <= MAX_UINT32

  datatype Option<+T> = None | Some(value: T)

  datatype QName = QName(ns: string, local: string)

  /** One child element offered to a content model. `known` says that the name is
      in the schema's name table; an unknown name is never an element's name. */
  datatype Input = Input(name: QName, known: bool, hasXsiType: bool)

  type Word = seq<Input>

  // ----- occurrence ranges, particles, models -----

  datatype Occurrence = Occurrence(min: Uint32, max: Uint32, unbounded: bool) {
    predicate IsExactlyOne() {
      min == 1 && max == 1 && !unbounded
    }

    /** The range {0..0}. */
    predicate IsZero() {
      max == 0 && !unbounded
    }

    predicate Valid() {
      if unbounded then max == 0 else min <= max
    }

    predicate Contains(k: nat) {
      min <= k && (unbounded || k <= max)
    }
  }

  const ONE := Occurrence(1, 1, false)

  datatype Term = ElementTerm(element: nat) | WildcardTerm(wildcard: nat) | ModelTerm(model: nat)

  datatype Particle = Particle(term: Term, occurs: Occurrence)

  datatype ModelKind = EmptyModel | AnyModel | Sequence | Choice | All

  datatype ContentModel = ContentModel(
    kind: ModelKind, particles: seq<Particle>, occurs: Occurrence, choiceLimits: seq<Uint32>, mixed: bool)

  // ----- wildcards -----

  datatype ProcessContents = Strict | Lax | Skip

  datatype NamespaceSet =
    | AnyNamespace
    | OtherNamespace(otherThan: string)
    | LocalOnly
    | TargetNamespace(namespaces: seq<string>)
    | NamespaceList(namespaces: seq<string>)

  datatype Wildcard = Wildcard(allowed: NamespaceSet, process: ProcessContents)

  predicate AllowsNamespace(s: NamespaceSet, ns: string) {
    match s
    case AnyNamespace => true
    case OtherNamespace(other) => ns != "" && ns != other
    case LocalOnly => ns == ""
    case TargetNamespace(list) => |list| != 0 && list[0] == ns
    case NamespaceList(list) => ns in list
  }

  // ----- substitution groups -----

  /** One transitive member of a substitution head. Members that are abstract or
      blocked are listed but not effective. */
  datatype SubstEntry = SubstEntry(name: QName, member: nat, effective: bool)

  datatype Tables = Tables(
    elements: seq<QName>,
    substitutions: seq<seq<SubstEntry>>,
    wildcards: seq<Wildcard>,
    globals: map<QName, nat>,
    models: seq<ContentModel>)

  function SubstEntries(t: Tables, head: nat): seq<SubstEntry> {
    if head < |t.substitutions| then t.substitutions[head] else []
  }

  function FindEntry(entries: seq<SubstEntry>, name: QName): (r: Option<SubstEntry>)
    ensures r.Some? ==> r.value in entries && r.value.name == name
    ensures r.None? ==> forall e :: e in entries ==> e.name != name
  {
    if entries == [] then None
    else if entries[0].name == name then Some(entries[0])
    else FindEntry(entries[1..], name)
  }

  /** The effective member registered under `head` for `name`. */
  function MemberByName(t: Tables, head: nat, name: QName): (r: Option<nat>)
    ensures r.Some? ==> exists e :: e in SubstEntries(t, head) && e.name == name && e.effective && e.member == r.value
  {
    match FindEntry(SubstEntries(t, head), name)
    case None => None
    case Some(e) => if e.effective then Some(e.member) else None
  }

  /** Each head lists a name once, under the member that carries it. */
  ghost predicate WellFormedSubstitutions(t: Tables) {
    && (forall h, i :: 0 <= h < |t.substitutions| && 0 <= i < |t.substitutions[h]| ==>
          && t.substitutions[h][i].member < |t.elements|
          && t.elements[t.substitutions[h][i].member] == t.substitutions[h][i].name)
    && (forall h, i, j :: 0 <= h < |t.substitutions| && 0 <= i < j < |t.substitutions[h]| ==>
          t.substitutions[h][i].name != t.substitutions[h][j].name)
  }

  // ----- matching one child against one term -----

  datatype ContentMatch = ContentMatch(element: Option<nat>, skip: bool, strictMissing: bool)

  const NO_MATCH := ContentMatch(None, false, false)

  datatype MatchResult = Invalid | Unmatched | Matched(m: ContentMatch)

  predicate ValidTerm(t: Tables, term: Term) {
    match term
    case ElementTerm(id) => id < |t.elements|
    case WildcardTerm(id) => id < |t.wildcards|
    case ModelTerm(_) => false
  }

  /** The declarative reading: the name is the element's or an effective
      substitute's, or its namespace is admitted. */
  predicate TermMatches(t: Tables, term: Term, x: Input) {
    match term
    case ElementTerm(id) =>
      id < |t.elements| && x.known && (t.elements[id] == x.name || MemberByName(t, id, x.name).Some?)
    case WildcardTerm(id) => id < |t.wildcards| && AllowsNamespace(t.wildcards[id].allowed, x.name.ns)
    case ModelTerm(_) => false
  }

  function MatchWildcard(t: Tables, w: Wildcard, x: Input): MatchResult {
    if !AllowsNamespace(w.allowed, x.name.ns) then Unmatched
    else match w.process
      case Skip => Matched(ContentMatch(None, true, false))
      case Strict =>
        if x.known && x.name in t.globals then Matched(ContentMatch(Some(t.globals[x.name]), false, false))
        else if x.hasXsiType then Matched(NO_MATCH)
        else Matched(ContentMatch(None, false, true))
      case Lax =>
        if x.known && x.name in t.globals then Matched(ContentMatch(Some(t.globals[x.name]), false, false))
        else Matched(NO_MATCH)
  }

  /** The declaration that validates a child under an element term: the element's own when
      the names agree, else that of the effective substitute with the child's name. */
  predicate ReportsElement(t: Tables, id: nat, x: Input, m: ContentMatch) {
    && !m.skip && !m.strictMissing && m.element.Some?
    && id < |t.elements|
    && if t.elements[id] == x.name then m.element.value == id
       else exists e :: e in SubstEntries(t, id) && e.name == x.name && e.effective && e.member == m.element.value
  }

  predicate IsGlobal(t: Tables, x: Input) {
    x.known && x.name in t.globals
  }

  /** What a child under a wildcard reports: a skipped one nothing else, any other the
      global declaration of its name if there is one; only a strict wildcard misses it, and
      not when the child names its type. */
  predicate ReportsWildcard(t: Tables, process: ProcessContents, x: Input, m: ContentMatch) {
    && (m.skip <==> process.Skip?)
    && (m.element.Some? <==> !process.Skip? && IsGlobal(t, x))
    && (m.element.Some? ==> m.element.value == t.globals[x.name])
    && (m.strictMissing <==> process.Strict? && !IsGlobal(t, x) && !x.hasXsiType)
  }

  predicate Reports(t: Tables, term: Term, x: Input, m: ContentMatch) {
    match term
    case ElementTerm(id) => ReportsElement(t, id, x, m)
    case WildcardTerm(id) => id < |t.wildcards| && ReportsWildcard(t, t.wildcards[id].process, x, m)
    case ModelTerm(_) => false
  }

  /** The reported declaration carries the child's name. */
  lemma ReportedName(t: Tables, id: nat, x: Input, m: ContentMatch)
    requires WellFormedSubstitutions(t) && ReportsElement(t, id, x, m)
    ensures m.element.value < |t.elements| && t.elements[m.element.value] == x.name
  {
    if t.elements[id] != x.name {
      var e :| e in SubstEntries(t, id) && e.name == x.name && e.effective && e.member == m.element.value;
      var i :| 0 <= i < |t.substitutions[id]| && t.substitutions[id][i] == e;
    }
  }

  /** What validation computes for one edge or xs:all term. */
  function MatchDirect(t: Tables, term: Term, x: Input): (r: MatchResult)
    ensures r.Invalid? <==> !ValidTerm(t, term)
    ensures r.Matched? <==> TermMatches(t, term, x)
    ensures r.Matched? ==> Reports(t, term, x, r.m)
  {
    match term
    case ElementTerm(id) =>
      if id >= |t.elements| then Invalid
      else if !x.known then Unmatched
      else if t.elements[id] == x.name then Matched(ContentMatch(Some(id), false, false))
      else (match MemberByName(t, id, x.name)
            case Some(member) => Matched(ContentMatch(Some(member), false, false))
            case None => Unmatched)
    case WildcardTerm(id) => if id >= |t.wildcards| then Invalid else MatchWildcard(t, t.wildcards[id], x)
    case ModelTerm(_) => Invalid
  }
}
