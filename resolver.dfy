/**
 * What one link-building pass produces, as functions of the document, its
 * imports and the corpus: import links, type-reference links and
 * method-call links, in the order the parser's visitor meets them.
 */
module Resolver {
  import opened Common
  import opened JavaText
  import opened Syntax
  import opened OffsetIndex
  import opened ClassCorpus
  import opened Descriptors

  /** A clickable span: where it sits in the text and where a click goes. */
  datatype Link = Link(line: int, column: int, start: int, end: int,
                       fileName: string, className: string, jumpTo: string)

  /** What a pass reads; none of it changes while the pass runs. */
  datatype Env = Env(corpus: Corpus, className: string, simpleName: string,
                     imports: seq<Import>, lineSizes: seq<nat>)

  /** The links a step appends, and how the step ends. */
  datatype Run<+T> = Run(links: seq<Link>, outcome: Outcome<T>)

  function NewLink(span: Span, offsets: (int, int), fileName: string, className: string, jumpTo: string): Link {
    Link(span.beginLine, span.beginColumn, offsets.0, offsets.1, fileName, className, jumpTo)
  }

  function Done(): Run<()> { Run([], Ok(())) }

  /** Run `first`, then `second` unless `first` stopped the pass. */
  function Then(first: Run<()>, second: Run<()>): Run<()> {
    if first.outcome.Abort? then first
    else Run(first.links + second.links, second.outcome)
  }

  function Copies(link: Link, n: nat): (r: seq<Link>)
    ensures |r| == n && forall i :: 0 <= i < n ==> r[i] == link
  {
    seq(n, _ => link)
  }

  // ---------------------------------------------------------------- imports

  /** The link for one import declaration (the import loop of handle). */
  function ImportLink(env: Env, imp: Import): (r: Run<()>)
    ensures |r.links| <= 1 && (r.outcome.Abort? ==> r.links == [])
    ensures EndsWith(imp.name, "*") ==> r == Done()
    ensures |r.links| == 1 <==>
      !EndsWith(imp.name, "*") && FirstContaining(env.corpus.archives, InternalName(imp.name) + ".class").Some? &&
      SpanOffsets(env.lineSizes, imp.span).Some?
    ensures |r.links| == 1 ==>
      var k := FirstContaining(env.corpus.archives, InternalName(imp.name) + ".class").value;
      r.links[0].className == InternalName(imp.name) + ".class" && r.links[0].jumpTo == "" &&
      r.links[0].fileName == env.corpus.archives[k].name && r.links[0].className in env.corpus.archives[k].files
    ensures |r.links| == 1 ==>
      r.links[0].line == imp.span.beginLine && r.links[0].column == imp.span.beginColumn &&
      SpanOffsets(env.lineSizes, imp.span) == Some((r.links[0].start, r.links[0].end))
    ensures r.outcome.Abort? <==>
      !EndsWith(imp.name, "*") && FirstContaining(env.corpus.archives, InternalName(imp.name) + ".class").Some? &&
      SpanOffsets(env.lineSizes, imp.span).None?
  {
    if EndsWith(imp.name, "*") then Done()
    else
      var file := InternalName(imp.name) + ".class";
      FirstContainingChoice(env.corpus.archives, file);
      match FirstContaining(env.corpus.archives, file)
      case None => Done()
      case Some(k) =>
        match SpanOffsets(env.lineSizes, imp.span)
        case None => Run([], Abort(LineOutOfRange))
        case Some(offsets) => Run([NewLink(imp.span, offsets, env.corpus.archives[k].name, file, "")], Ok(()))
  }

  /** The import links of the first |imports| declarations, in order. */
  function ImportLinks(env: Env, imports: seq<Import>): Run<()> {
    if |imports| == 0 then Done()
    else Then(ImportLinks(env, imports[..|imports| - 1]), ImportLink(env, imports[|imports| - 1]))
  }

  // -------------------------------------------------------- type references

  /** The dotted name of a class type with its qualifiers: `Map.Entry`. */
  function FullName(ct: ClassType): string {
    match ct.scope
    case None => ct.name
    case Some(outer) => FullName(outer) + "." + ct.name
  }

  /** The part of a dotted name before its first '.'. */
  function RootClass(fullName: string): string {
    if '.' in fullName then fullName[..IndexOf(fullName, '.')] else fullName
  }

  /** The part of a dotted name after its first '.', with '$' for '.'. */
  function InnerSuffix(fullName: string): string {
    if '.' in fullName then Replace(fullName[IndexOf(fullName, '.') + 1..], '.', '$') else ""
  }

  /** The candidates one import contributes to a type reference `fullName` whose own identifier is `name`. */
  function ImportTypeCandidates(imp: Import, name: string, fullName: string): seq<string> {
    var internal := InternalName(imp.name);
    (if LastSegment(imp.name) == name then [internal + ".class"] else []) +
    (if '.' in fullName && LastSegment(imp.name) == RootClass(fullName)
     then [internal + "$" + InnerSuffix(fullName) + ".class"] else [])
  }

  /** The lists `f` gives for the elements of `xs`, concatenated in order. */
  function ConcatMap<T, U>(xs: seq<T>, f: T -> seq<U>): seq<U> {
    if |xs| == 0 then [] else ConcatMap(xs[..|xs| - 1], f) + f(xs[|xs| - 1])
  }

  /** The candidates the imports contribute, import by import, in order. */
  function ImportsTypeCandidates(imports: seq<Import>, name: string, fullName: string): seq<string> {
    ConcatMap(imports, imp => ImportTypeCandidates(imp, name, fullName))
  }

  /** The candidate list of handleClassOrInterfaceType: import candidates, then java/lang. */
  function TypeCandidates(imports: seq<Import>, ct: ClassType): seq<string> {
    ImportsTypeCandidates(imports, ct.name, FullName(ct)) + ["java/lang/" + ct.name + ".class"]
  }

  predicate Held(corpus: Corpus, file: string) {
    FileFor(corpus, file).Some?
  }

  /** The candidates some archive holds, in candidate order. */
  function FoundNames(corpus: Corpus, names: seq<string>): seq<string> {
    if |names| == 0 then []
    else FoundNames(corpus, names[..|names| - 1]) + (if Held(corpus, names[|names| - 1]) then [names[|names| - 1]] else [])
  }

  /** The found candidates are exactly the candidates the corpus holds. */
  lemma {:induction false} FoundNamesMembers(corpus: Corpus, names: seq<string>, c: string)
    ensures c in FoundNames(corpus, names) <==> c in names && Held(corpus, c)
  {
    if |names| > 0 {
      var init := names[..|names| - 1];
      FoundNamesMembers(corpus, init, c);
      assert names == init + [names[|names| - 1]];
    }
  }

  predicate Distinct(s: seq<string>) {
    forall i, j :: 0 <= i < j < |s| ==> s[i] != s[j]
  }

  /**
   * handleClassOrInterfaceType for one class-type node: a link to the one
   * candidate the corpus holds; nothing when it holds none or several; the
   * pass stops when it holds one candidate twice (the map collector rejects
   * the repeated key).
   */
  function TypeReference(env: Env, ct: ClassType): (r: Run<()>)
  {
    match SpanOffsets(env.lineSizes, ct.span)
    case None => Run([], Abort(LineOutOfRange))
    case Some(offsets) => TypeLink(env.corpus, ct, offsets, TypeCandidates(env.imports, ct))
  }

  /** The link for a class-type node at `offsets`, given its candidate files. */
  function TypeLink(corpus: Corpus, ct: ClassType, offsets: (int, int), candidates: seq<string>): Run<()> {
    var found := FoundNames(corpus, candidates);
    if !Distinct(found) then Run([], Abort(DuplicateCandidate))
    else if |found| == 1 then
      FoundNamesMembers(corpus, candidates, found[0]);
      Run([NewLink(ct.span, offsets, FileFor(corpus, found[0]).value.name,
                   found[0], " " + ct.name + " ")], Ok(()))
    else Done()
  }

  // -------------------------------------------------- local-variable search

  function Concat(a: Outcome<seq<Type>>, b: Outcome<seq<Type>>): Outcome<seq<Type>> {
    if a.Abort? then a else if b.Abort? then b else Ok(a.value + b.value)
  }

  /**
   * The declared types of the declarations named x in a subtree, as the
   * local-variable visitor collects them; a declaration of several
   * variables anywhere in the subtree stops the pass.
   */
  function Scan(n: Node, x: string): Outcome<seq<Type>> {
    match n
    case TypeUse(_) => Ok([])
    case CallExpr(c) => ScanCall(c, x)
    case LocalDecl(names, declared, inits) =>
      if |names| != 1 then Abort(MultiVariableDeclaration)
      else Concat(Ok(if names[0] == x then [declared] else []), ScanAll(inits, x))
    case Param(name, declared) => Ok(if name == x then [declared] else [])
    case CatchParam(name, alternatives) => Ok(if name == x then alternatives else [])
    case Other(children) => ScanAll(children, x)
  }

  function ScanCall(c: Call, x: string): Outcome<seq<Type>> {
    Concat(ScanReceiver(c.receiver, x), ScanAll(c.args, x))
  }

  function ScanReceiver(rc: Receiver, x: string): Outcome<seq<Type>> {
    match rc
    case CastReceiver(_, operand) => Scan(operand, x)
    case CallReceiver(inner) => ScanCall(inner, x)
    case FieldReceiver(owner) => Scan(owner, x)
    case OtherReceiver(e) => Scan(e, x)
    case _ => Ok([])
  }

  function ScanAll(ns: seq<Node>, x: string): Outcome<seq<Type>> {
    if |ns| == 0 then Ok([]) else Concat(Scan(ns[0], x), ScanAll(ns[1..], x))
  }

  /**
   * The local search: scan the subtree of each ancestor of the call, the
   * parent first, and stop at the first one that has a declaration of x.
   */
  function LocalTypes(x: string, ancestors: seq<Node>): Outcome<seq<Type>> {
    if |ancestors| == 0 then Ok([])
    else
      match Scan(ancestors[0], x)
      case Abort(f) => Abort(f)
      case Ok(refs) => if |refs| > 0 then Ok(refs) else LocalTypes(x, ancestors[1..])
  }

  // ------------------------------------------------ method-call candidates

  /** The type under any reference-type (array) wrappers. */
  function Unwrap(t: Type): (r: Type)
    ensures !r.Reference?
  {
    match t
    case Reference(inner) => Unwrap(inner)
    case _ => t
  }

  /** The file names of the imports whose last identifier is `name`. */
  function ImportedNamed(imports: seq<Import>, name: string): set<string> {
    if |imports| == 0 then {}
    else
      var imp := imports[|imports| - 1];
      ImportedNamed(imports[..|imports| - 1], name) +
      (if LastSegment(imp.name) == name then {InternalName(imp.name) + ".class"} else {})
  }

  /** The import declares the class `name` and `c` is its file. */
  predicate Provides(imp: Import, name: string, c: string) {
    LastSegment(imp.name) == name && c == InternalName(imp.name) + ".class"
  }

  /** Every import whose last identifier is `name` contributes its file. */
  lemma {:induction false} ImportedNamedHas(imports: seq<Import>, name: string, i: nat)
    requires i < |imports| && LastSegment(imports[i].name) == name
    ensures InternalName(imports[i].name) + ".class" in ImportedNamed(imports, name)
  {
    var n := |imports| - 1;
    if i < n {
      ImportedNamedHas(imports[..n], name, i);
    }
  }

  /** Every file among ImportedNamed comes from an import whose last identifier is `name`. */
  lemma {:induction false} ImportedNamedOnly(imports: seq<Import>, name: string, c: string)
    requires c in ImportedNamed(imports, name)
    ensures exists i :: 0 <= i < |imports| && Provides(imports[i], name, c)
  {
    var n := |imports| - 1;
    var init := imports[..n];
    if c in ImportedNamed(init, name) {
      ImportedNamedOnly(init, name, c);
      var i :| 0 <= i < |init| && Provides(init[i], name, c);
      assert init[i] == imports[i];
      assert Provides(imports[i], name, c);
    } else {
      assert Provides(imports[n], name, c);
    }
  }

  /** The candidates for a receiver whose static type is t (a local's type or a cast). */
  function ClassTypeCandidates(imports: seq<Import>, t: Type): Outcome<set<string>> {
    match Unwrap(t)
    case ClassOrInterface(ct) => Ok(ImportedNamed(imports, ct.name) + {"java/lang/" + ct.name + ".class"})
    case _ => Abort(NonClassType)
  }

  /** The candidates for a simple-name receiver `x.m()`: all four sources, unioned. */
  function NameCandidates(env: Env, x: string, ancestors: seq<Node>): Outcome<set<string>> {
    if '.' in x then Abort(DottedReceiver)
    else
      match LocalTypes(x, ancestors)
      case Abort(f) => Abort(f)
      case Ok(refs) =>
        var fromLocal :=
          if |refs| == 0 then Ok({})
          else if |refs| > 1 then Abort(SeveralLocals)
          else ClassTypeCandidates(env.imports, refs[0]);
        match fromLocal
        case Abort(f) => Abort(f)
        case Ok(local) =>
          Ok(local + (if x == env.simpleName then {env.className} else {}) +
             ImportedNamed(env.imports, x) + {"java/lang/" + x + ".class"})
  }

  /**
   * The candidate for `super.m()`: the file of the superclass named in this
   * class's metadata. (The source adds the bare internal name; see
   * ResolverFacts.SuperCandidatesAsWritten.)
   */
  function SuperCandidates(env: Env): Outcome<set<string>> {
    if env.className in env.corpus.current.classes
    then Ok({env.corpus.current.classes[env.className].superName + ".class"})
    else Abort(MissingOwnClass)
  }

  /** The candidates for every receiver kind except a chained call. */
  function ReceiverCandidates(env: Env, rc: Receiver, ancestors: seq<Node>): Outcome<set<string>>
    requires !rc.CallReceiver?
  {
    match rc
    case NoReceiver => Ok({env.className})
    case ThisReceiver => Ok({env.className})
    case SuperReceiver => SuperCandidates(env)
    case NameReceiver(x) => NameCandidates(env, x, ancestors)
    case CastReceiver(castType, _) => ClassTypeCandidates(env.imports, castType)
    case FieldReceiver(_) => Ok({})
    case OtherReceiver(_) => Ok({})
  }

  // ------------------------------------------------------ superclass walk

  /** The classes the walk located, (archive name, class file), and what it hands on. */
  datatype WalkResult = Located(classes: seq<(string, string)>, further: Option<string>) | Endless

  function Prefixed(located: seq<(string, string)>, w: WalkResult): WalkResult {
    match w
    case Endless => Endless
    case Located(classes, further) => Located(located + classes, further)
  }

  /**
   * The superclass walk from `internalName`: locate the class, record it,
   * and stop at its first method named `methodName`, at java/lang/Object, at a
   * class that cannot be located, or at a class with no metadata; a chain
   * that comes back to a class already left never ends.
   */
  function Walk(corpus: Corpus, internalName: string, methodName: string, visited: set<string>): (r: WalkResult)
    requires visited <= AllFiles(corpus)
    decreases AllFiles(corpus) - visited
  {
    var file := internalName + ".class";
    match FileFor(corpus, file)
    case None => Located([], None)
    case Some(a) =>
      if file in visited then Endless
      else if file !in a.classes then Located([(a.name, file)], None)
      else
        var info := a.classes[file];
        match FirstMethodNamed(info.methods, methodName)
        case Some(k) => Located([(a.name, file)], FurtherType(info.methods[k].descriptor))
        case None =>
          if internalName == "java/lang/Object" then Located([(a.name, file)], None)
          else Prefixed([(a.name, file)], Walk(corpus, info.superName, methodName, visited + {file}))
  }

  // ------------------------------------------------- method-call resolution

  /** The candidates of a resolved inner call: its return class, if any. */
  function Handed(o: Outcome<Option<string>>): Outcome<set<string>> {
    match o
    case Abort(f) => Abort(f)
    case Ok(None) => Ok({})
    case Ok(Some(n)) => Ok({n})
  }

  /**
   * The links of the walk: the source appends one Link object once per
   * located class and keeps updating it, so every entry shows the last
   * located class.
   */
  function WalkLinks(span: Span, offsets: (int, int), name: string, classes: seq<(string, string)>): (r: seq<Link>)
    ensures |r| == |classes|
  {
    if |classes| == 0 then []
    else
      var last := classes[|classes| - 1];
      Copies(NewLink(span, offsets, last.0, last.1, " " + name + "("), |classes|)
  }

  /**
   * recursivelyHandleNameExpr: the links for one method call (an inner call
   * of a chain first) and the class file its method returns, if known.
   */
  ghost function ResolveCall(env: Env, call: Call, ancestors: seq<Node>): Run<Option<string>>
    decreases call, 1
  {
    match SpanOffsets(env.lineSizes, call.nameSpan)
    case None => Run([], Abort(LineOutOfRange))
    case Some(offsets) =>
      var candidates := CallCandidates(env, call, ancestors);
      match candidates.outcome
      case Abort(f) => Run(candidates.links, Abort(f))
      case Ok(names) =>
        var linked := LinkCall(env.corpus, call, offsets, names);
        Run(candidates.links + linked.links, linked.outcome)
  }

  /**
   * The receiver's candidate classes: for a chained call, whatever
   * resolving the inner call hands on (with the inner call's links).
   */
  ghost function CallCandidates(env: Env, call: Call, ancestors: seq<Node>): Run<set<string>>
    decreases call, 0
  {
    match call.receiver
    case CallReceiver(inner) =>
      var r := ResolveCall(env, inner, [CallExpr(call)] + ancestors);
      Run(r.links, Handed(r.outcome))
    case _ => Run([], ReceiverCandidates(env, call.receiver, ancestors))
  }

  /** The candidates some archive holds. */
  function Found(corpus: Corpus, names: set<string>): set<string> {
    set c | c in names && Held(corpus, c)
  }

  /**
   * With the candidates known: when exactly one is held, walk up from it
   * and link the call's name once per located class.
   */
  ghost function LinkCall(corpus: Corpus, call: Call, offsets: (int, int), names: set<string>): Run<Option<string>> {
    var found := Found(corpus, names);
    if |found| != 1 then Run([], Ok(None))
    else
      var c :| c in found;
      LinkFrom(corpus, call, offsets, c)
  }

  /** The walk from the resolved class file `c`, and the links it makes. */
  function LinkFrom(corpus: Corpus, call: Call, offsets: (int, int), c: string): Run<Option<string>> {
    if |c| < 6 then Run([], Abort(ShortClassName))
    else
      match Walk(corpus, c[..|c| - 6], call.name, {})
      case Endless => Run([], Abort(EndlessHierarchy))
      case Located(classes, further) => Run(WalkLinks(call.nameSpan, offsets, call.name, classes), Ok(further))
  }

  // ------------------------------------------------------------ traversal

  function Discard(o: Outcome<Option<string>>): Outcome<()> {
    match o
    case Abort(f) => Abort(f)
    case Ok(_) => Ok(())
  }

  ghost function VisitNode(env: Env, n: Node, ancestors: seq<Node>): Run<()>
    decreases n, 0
  {
    match n
    case TypeUse(t) => VisitType(env, t)
    case CallExpr(c) => VisitCall(env, c, ancestors)
    case LocalDecl(_, declared, inits) => Then(VisitType(env, declared), VisitNodes(env, inits, [n] + ancestors))
    case Param(_, declared) => VisitType(env, declared)
    case CatchParam(_, alternatives) => VisitTypes(env, alternatives)
    case Other(children) => VisitNodes(env, children, [n] + ancestors)
  }

  /** A call: resolve it, then visit its receiver and its arguments. */
  ghost function VisitCall(env: Env, c: Call, ancestors: seq<Node>): Run<()>
    decreases c, 1
  {
    var r := ResolveCall(env, c, ancestors);
    Then(Run(r.links, Discard(r.outcome)), CallChildren(env, c, ancestors))
  }

  /** A call's receiver, then its arguments, each with the call as parent. */
  ghost function CallChildren(env: Env, c: Call, ancestors: seq<Node>): Run<()>
    decreases c, 0
  {
    var here := [CallExpr(c)] + ancestors;
    Then(VisitReceiver(env, c.receiver, here), VisitNodes(env, c.args, here))
  }

  ghost function VisitReceiver(env: Env, rc: Receiver, ancestors: seq<Node>): Run<()>
    decreases rc, 0
  {
    match rc
    case CastReceiver(castType, operand) => Then(VisitType(env, castType), VisitNode(env, operand, ancestors))
    case CallReceiver(inner) => VisitCall(env, inner, ancestors)
    case FieldReceiver(owner) => VisitNode(env, owner, ancestors)
    case OtherReceiver(e) => VisitNode(env, e, ancestors)
    case _ => Done()
  }

  ghost function VisitNodes(env: Env, ns: seq<Node>, ancestors: seq<Node>): Run<()>
    decreases ns, 0
  {
    if |ns| == 0 then Done()
    else Then(VisitNode(env, ns[0], ancestors), VisitNodes(env, ns[1..], ancestors))
  }

  function VisitType(env: Env, t: Type): Run<()>
    decreases t, 0
  {
    match t
    case Reference(inner) => VisitType(env, inner)
    case ClassOrInterface(ct) => VisitClassType(env, ct)
    case Primitive(_) => Done()
  }

  /** A class-type node: handle it, then its qualifier, then its type arguments. */
  function VisitClassType(env: Env, ct: ClassType): Run<()>
    decreases ct, 1
  {
    Then(TypeReference(env, ct), ClassTypeChildren(env, ct))
  }

  /** The children of a class-type node: its qualifier, then its type arguments. */
  function ClassTypeChildren(env: Env, ct: ClassType): Run<()>
    decreases ct, 0
  {
    Then(match ct.scope case None => Done() case Some(outer) => VisitClassType(env, outer),
         VisitTypes(env, ct.typeArgs))
  }

  function VisitTypes(env: Env, ts: seq<Type>): Run<()>
    decreases ts, 0
  {
    if |ts| == 0 then Done() else Then(VisitType(env, ts[0]), VisitTypes(env, ts[1..]))
  }

  /** handle after lineSizes: the import links, then every link of the tree, from the unit's root. */
  ghost function DocumentLinks(env: Env, unit: Unit): Run<()> {
    Then(ImportLinks(env, unit.imports), VisitNode(env, Other(unit.types), []))
  }
}
