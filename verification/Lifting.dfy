/** The lifting of nested MF1 selects into one MF2 `.match` (messageformat/mf1.go), as functions:
    the selectors collected from the tokens, the columns planned for them, the variants of all
    their keys, and the leaves each variant receives. */
module Lifting {
  import opened Digits
  import opened Mf2
  import opened Mf1

  const MAX_VARIANTS: nat := 4096

  /** The merged record of all selects on one argument: exact keys and other keys apart, and where
      their columns are. */
  datatype Selector = Selector(
    name: string, kind: Kind, offset: int, exact: seq<string>, keys: seq<string>,
    displayVar: string, exactCol: int, keyCol: int)

  /** A selector variable and the keys variants match it against, besides the catch-all. */
  datatype Column = Column(variable: string, keys: seq<string>)

  // ----- Collecting selectors -----

  function AppendUnique(list: seq<string>, s: string): seq<string> {
    if s in list then list else list + [s]
  }

  function Find(sels: seq<Selector>, name: string): (i: nat)
    ensures i <= |sels| && (i < |sels| ==> sels[i].name == name)
    ensures forall j :: 0 <= j < i ==> sels[j].name != name
  {
    if sels == [] || sels[0].name == name then 0 else 1 + Find(sels[1..], name)
  }

  function AddKey(s: Selector, key: string): Selector {
    if key == OTHER then s
    else if IsExact(s.kind, key) then s.(exact := AppendUnique(s.exact, NormalizeExactKey(key[1..])))
    else s.(keys := AppendUnique(s.keys, key))
  }

  function AddKeys(s: Selector, cases: seq<Case>): Selector
    decreases |cases|
  {
    if cases == [] then s else AddKeys(AddKey(s, cases[0].key), cases[1..])
  }

  function NewSelector(t: Token): Selector
    requires t.Select?
  {
    Selector(t.arg, t.kind, OffsetOf(t.pluralOffset), [], [], "", -1, -1)
  }

  /** Merges a select into its argument's selector; an argument keeps one kind and offset. */
  function AddSelector(sels: seq<Selector>, t: Token): Option<seq<Selector>>
    requires t.Select?
  {
    var i := Find(sels, t.arg);
    if i == |sels| then Some(sels + [AddKeys(NewSelector(t), t.cases)])
    else if sels[i].kind != t.kind || sels[i].offset != OffsetOf(t.pluralOffset) then None
    else Some(sels[i := AddKeys(sels[i], t.cases)])
  }

  datatype Analysis = Analysis(sels: seq<Selector>, names: set<string>)

  function Collect(tokens: seq<Token>, a: Analysis): Option<Analysis> {
    if tokens == [] then Some(a)
    else
      match CollectToken(tokens[0], a)
      case None => None
      case Some(b) => Collect(tokens[1..], b)
  }

  function CollectToken(t: Token, a: Analysis): Option<Analysis> {
    match t
    case Content(_) => Some(a)
    case Octothorpe => Some(a)
    case PlainArg(arg) => Some(a.(names := a.names + {arg}))
    case FunctionArg(arg, _, _) => Some(a.(names := a.names + {arg}))
    case Select(arg, _, _, cases) =>
      match AddSelector(a.sels, t)
      case None => None
      case Some(sels) => CollectCases(cases, Analysis(sels, a.names + {arg}))
  }

  function CollectCases(cases: seq<Case>, a: Analysis): Option<Analysis> {
    if cases == [] then Some(a)
    else
      match Collect(cases[0].tokens, a)
      case None => None
      case Some(b) => CollectCases(cases[1..], b)
  }

  // ----- Fresh names -----

  function Candidate(base: string, i: nat): string {
    base + "_" + Itoa(i)
  }

  predicate CandidateFrom(base: string, i: nat, name: string) {
    |base| < |name| && name[..|base|] == base && name[|base|] == '_' && Val(name[|base| + 1..]) >= i
  }

  lemma {:induction false} CandidateNumber(base: string, i: nat)
    ensures CandidateFrom(base, i, Candidate(base, i)) && !CandidateFrom(base, i + 1, Candidate(base, i))
  {
    ItoaNames(i);
    assert Candidate(base, i)[|base| + 1..] == Itoa(i);
  }

  function TakenFrom(base: string, i: nat, names: set<string>): set<string> {
    set n | n in names && CandidateFrom(base, i, n)
  }

  lemma {:induction false} FewerTaken(base: string, i: nat, names: set<string>)
    requires Candidate(base, i) in names
    ensures TakenFrom(base, i + 1, names) < TakenFrom(base, i, names)
  {
    CandidateNumber(base, i);
    assert Candidate(base, i) in TakenFrom(base, i, names);
    assert Candidate(base, i) !in TakenFrom(base, i + 1, names);
  }

  /** The first of base_i, base_(i+1), ... that is not taken: there is one, since each name taken
      along the way is left behind. */
  function FreshCandidate(base: string, i: nat, names: set<string>): (name: string)
    ensures name !in names
    decreases TakenFrom(base, i, names)
  {
    if Candidate(base, i) !in names then Candidate(base, i)
    else
      FewerTaken(base, i, names);
      FreshCandidate(base, i + 1, names)
  }

  function UniqueName(base: string, names: set<string>): (name: string)
    ensures name !in names
  {
    if base !in names then base else FreshCandidate(base, 2, names)
  }

  // ----- Planning columns -----

  datatype Planning = Planning(sels: seq<Selector>, decls: seq<Declaration>, columns: seq<Column>, names: set<string>)

  function InputFunction(kind: Kind): FunctionRef {
    match kind
    case SelectKind => FunctionRef("string", map[])
    case PluralKind => FunctionRef("number", map[])
    case OrdinalKind => FunctionRef("number", map["select" := "ordinal"])
  }

  function InputDeclaration(s: Selector): Declaration {
    Input(s.name, Expression(s.name, Some(InputFunction(s.kind)), map[]))
  }

  function OffsetDeclaration(s: Selector, local: string): Declaration {
    Local(local, Expression(s.name, Some(FunctionRef("offset", map["subtract" := FormatInt(s.offset)])), map[]))
  }

  predicate OneColumn(s: Selector) {
    !IsPlural(s.kind) || s.offset == 0
  }

  predicate HasKeyColumn(s: Selector) {
    s.keys != [] || s.exact == []
  }

  /** Gives a selector its columns: one, or with an offset one of its exact keys on the variable
      itself and one of its other keys on the :offset local. */
  function PlanSelector(p: Planning, s: Selector): Planning {
    var decls := p.decls + [InputDeclaration(s)];
    var n := |p.columns|;
    if OneColumn(s) then
      Planning(p.sels + [s.(displayVar := s.name, exactCol := n, keyCol := n)], decls,
               p.columns + [Column(s.name, s.exact + s.keys)], p.names)
    else
      var local := UniqueName(s.name + "_minus_" + FormatInt(s.offset), p.names);
      var exact := if s.exact != [] then [Column(s.name, s.exact)] else [];
      var keys := if HasKeyColumn(s) then [Column(local, s.keys)] else [];
      Planning(
        p.sels + [s.(displayVar := local,
                     exactCol := if s.exact != [] then n else -1,
                     keyCol := if HasKeyColumn(s) then n + |exact| else -1)],
        decls + [OffsetDeclaration(s, local)], p.columns + exact + keys, p.names + {local})
  }

  function Plan(p: Planning, sels: seq<Selector>): Planning
    decreases |sels|
  {
    if sels == [] then p else Plan(PlanSelector(p, sels[0]), sels[1..])
  }

  // ----- Variants -----

  function Options(c: Column): (o: seq<VariantKey>)
    ensures |o| == |c.keys| + 1 && o[|c.keys|] == Catchall
    ensures forall i :: 0 <= i < |c.keys| ==> o[i] == Key(c.keys[i])
  {
    seq(|c.keys|, i requires 0 <= i < |c.keys| => Key(c.keys[i])) + [Catchall]
  }

  /** One prefix with each option appended. */
  function Spread(prefix: seq<VariantKey>, options: seq<VariantKey>): (r: seq<seq<VariantKey>>)
    ensures |r| == |options| && forall i :: 0 <= i < |r| ==> r[i] == prefix + [options[i]]
  {
    seq(|options|, i requires 0 <= i < |options| => prefix + [options[i]])
  }

  function SpreadAll(prefixes: seq<seq<VariantKey>>, options: seq<VariantKey>): seq<seq<VariantKey>> {
    if prefixes == [] then [] else Spread(prefixes[0], options) + SpreadAll(prefixes[1..], options)
  }

  /** Every choice of one option per column, varying the last column fastest. */
  function Product(columns: seq<Column>): seq<seq<VariantKey>> {
    if columns == [] then [[]]
    else SpreadAll(Product(columns[..|columns| - 1]), Options(columns[|columns| - 1]))
  }

  function VariantCount(columns: seq<Column>): (n: nat)
    ensures n > 0
  {
    if columns == [] then 1 else VariantCount(columns[..|columns| - 1]) * (|columns[|columns| - 1].keys| + 1)
  }

  // ----- Filling patterns -----

  /** A column a variant must have a key in: "" stands for the catch-all. */
  datatype Constraint = Constraint(col: int, key: string)

  function CaseConstraints(s: Selector, key: string): seq<Constraint> {
    if IsExact(s.kind, key) then [Constraint(s.exactCol, NormalizeExactKey(key[1..]))]
    else if key == OTHER then
      (if s.exactCol >= 0 then [Constraint(s.exactCol, "")] else []) +
      (if s.keyCol >= 0 && s.keyCol != s.exactCol then [Constraint(s.keyCol, "")] else [])
    else
      [Constraint(s.keyCol, key)] +
      (if s.exactCol >= 0 && s.exactCol != s.keyCol then [Constraint(s.exactCol, "")] else [])
  }

  predicate InRange(filter: seq<Constraint>, width: nat) {
    forall i :: 0 <= i < |filter| ==> 0 <= filter[i].col < width
  }

  predicate Holds(keys: seq<VariantKey>, c: Constraint) {
    0 <= c.col < |keys| &&
    (if c.key == "" then keys[c.col].Catchall? else keys[c.col] == Key(c.key))
  }

  predicate Satisfies(keys: seq<VariantKey>, filter: seq<Constraint>) {
    forall i :: 0 <= i < |filter| ==> Holds(keys, filter[i])
  }

  /** The element a leaf token becomes; `#` is the innermost plural's display variable. */
  function LeafElement(t: Token, display: Option<string>, mapping: Mapping): Option<Element> {
    match t
    case Content(s) => Some(Element.Text(s))
    case PlainArg(a) => Some(Placeholder(Expression(a, None, map[])))
    case FunctionArg(a, key, style) =>
      (match mapping(key, style)
       case Some((f, attributes)) => Some(Placeholder(Expression(a, Some(f), attributes)))
       case None => None)
    case Octothorpe =>
      (match display
       case None => Some(Element.Text("#"))
       case Some(v) => Some(Placeholder(Expression(v, None, map[]))))
    case Select(_, _, _, _) => None
  }

  predicate Convertible(tokens: seq<Token>, mapping: Mapping) {
    tokens == [] || (ConvertibleToken(tokens[0], mapping) && Convertible(tokens[1..], mapping))
  }

  predicate ConvertibleToken(t: Token, mapping: Mapping) {
    if t.Select? then ConvertibleCases(t.cases, mapping) else LeafElement(t, None, mapping).Some?
  }

  predicate ConvertibleCases(cases: seq<Case>, mapping: Mapping) {
    cases == [] || (Convertible(cases[0].tokens, mapping) && ConvertibleCases(cases[1..], mapping))
  }

  function InnerDisplay(s: Selector, display: Option<string>): Option<string> {
    if IsPlural(s.kind) then Some(s.displayVar) else display
  }

  /** The leaves of the tokens that belong to the variant with these keys, in order. */
  function Leaves(tokens: seq<Token>, display: Option<string>, keys: seq<VariantKey>, sels: seq<Selector>,
                  mapping: Mapping): Pattern
  {
    if tokens == [] then []
    else LeavesOf(tokens[0], display, keys, sels, mapping) + Leaves(tokens[1..], display, keys, sels, mapping)
  }

  function LeavesOf(t: Token, display: Option<string>, keys: seq<VariantKey>, sels: seq<Selector>,
                    mapping: Mapping): Pattern
  {
    if t.Select? then
      var i := Find(sels, t.arg);
      if i < |sels| then LeavesOfCases(t.cases, sels[i], InnerDisplay(sels[i], display), keys, sels, mapping) else []
    else
      match LeafElement(t, display, mapping)
      case Some(e) => [e]
      case None => []
  }

  function LeavesOfCases(cases: seq<Case>, s: Selector, display: Option<string>, keys: seq<VariantKey>,
                         sels: seq<Selector>, mapping: Mapping): Pattern
  {
    if cases == [] then []
    else
      (if Satisfies(keys, CaseConstraints(s, cases[0].key)) then Leaves(cases[0].tokens, display, keys, sels, mapping)
       else []) + LeavesOfCases(cases[1..], s, display, keys, sels, mapping)
  }

  /** Appends an element, merging adjacent text. */
  function AppendElement(p: Pattern, e: Element): Pattern {
    if e.Text? && p != [] && p[|p| - 1].Text? then p[|p| - 1 := Element.Text(p[|p| - 1].text + e.text)]
    else p + [e]
  }

  function AppendAll(p: Pattern, es: Pattern): Pattern
    decreases |es|
  {
    if es == [] then p else AppendAll(AppendElement(p, es[0]), es[1..])
  }

  /** The variants of a key list, each with its leaves. */
  function Fill(keys: seq<seq<VariantKey>>, tokens: seq<Token>, sels: seq<Selector>, mapping: Mapping)
    : (vs: seq<Variant>)
    ensures |vs| == |keys|
    ensures forall i :: 0 <= i < |keys| ==>
      vs[i] == Variant(keys[i], AppendAll([], Leaves(tokens, None, keys[i], sels, mapping)))
  {
    seq(|keys|, i requires 0 <= i < |keys| =>
      Variant(keys[i], AppendAll([], Leaves(tokens, None, keys[i], sels, mapping))))
  }

  function Variables(columns: seq<Column>): (r: seq<string>)
    ensures |r| == |columns| && forall i :: 0 <= i < |r| ==> r[i] == columns[i].variable
  {
    seq(|columns|, i requires 0 <= i < |columns| => columns[i].variable)
  }

  /** The whole conversion. */
  function Lift(tokens: seq<Token>, mapping: Mapping): Option<Message> {
    match Collect(tokens, Analysis([], {}))
    case None => None
    case Some(a) =>
      if !Convertible(tokens, mapping) then None
      else if a.sels == [] then Some(PatternMessage(AppendAll([], Leaves(tokens, None, [], [], mapping))))
      else
        var p := Plan(Planning([], [], [], a.names), a.sels);
        if VariantCount(p.columns) > MAX_VARIANTS then None
        else Some(SelectMessage(p.decls, Variables(p.columns), Fill(Product(p.columns), tokens, p.sels, mapping)))
  }
}
