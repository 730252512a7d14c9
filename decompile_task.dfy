/**
 * DecompileTask: the object that, for one decompiled class, records the
 * document's line sizes and fills the text area's link table.
 */
module Tasks {
  import opened Common
  import opened JavaText
  import opened Syntax
  import opened OffsetIndex
  import opened ClassCorpus
  import opened Descriptors
  import opened Resolver

  /**
   * The constructor's simple name: the text after the last '/', less the
   * six characters of ".class"; a name without '/' is kept whole. None
   * where the source's substring would fail (fewer than six characters
   * after the '/').
   */
  function SimpleName(className: string): (r: Option<string>)
    ensures '/' !in className ==> r == Some(className)
    ensures r.Some? ==> '/' !in r.value
    ensures r.None? <==> '/' in className && |className| - LastIndexOf(className, '/') - 1 < 6
  {
    var last := LastIndexOf(className, '/');
    if last == -1 then Some(className)
    else
      var tail := className[last + 1..];
      if |tail| < 6 then None else Some(tail[..|tail| - 6])
  }

  /** The length of a class type's qualifier chain, for loops that follow it. */
  function Depth(ct: ClassType): nat {
    match ct.scope
    case None => 1
    case Some(outer) => Depth(outer) + 1
  }

  /** The full-name loop of handleClassOrInterfaceType: identifiers joined by '.', outermost first. */
  method BuildFullName(ct: ClassType) returns (fullName: string)
    ensures fullName == FullName(ct)
  {
    var builder := "";
    var t := Some(ct);
    while t.Some?
      invariant FullName(ct) + "." == (if t.Some? then FullName(t.value) + "." else "") + builder
      decreases if t.Some? then Depth(t.value) else 0
    {
      var here := t.value;
      match here.scope {
        case None =>
        case Some(outer) => assert FullName(here) + "." + builder == FullName(outer) + "." + (here.name + "." + builder);
      }
      builder := here.name + "." + builder;
      t := here.scope;
    }
    assert builder == FullName(ct) + ".";
    assert builder[..|builder| - 1] == FullName(ct);
    fullName := builder[..|builder| - 1];
  }

  /** What one import adds to the candidate list: its own class, then the nested class under it. */
  method ImportTypeNames(javaName: string, name: string, fullName: string, rootClass: string, innerClass: string)
    returns (contributed: seq<string>)
    requires '.' in fullName ==> rootClass == RootClass(fullName)
    requires '.' in fullName ==> innerClass == fullName[IndexOf(fullName, '.') + 1..]
    ensures contributed == ImportTypeCandidates(Import(javaName, Span(0, 0, 0, 0)), name, fullName)
  {
    contributed := [];
    if LastSegment(javaName) == name {
      contributed := [InternalName(javaName) + ".class"];
    }
    if '.' in fullName && LastSegment(javaName) == rootClass {
      contributed := contributed + [InternalName(javaName) + "$" + Replace(innerClass, '.', '$') + ".class"];
    }
  }

  /** The import part of the candidate list, built import by import. */
  method ImportsTypeNames(imports: seq<Import>, name: string, fullName: string, rootClass: string, innerClass: string)
    returns (names: seq<string>)
    requires '.' in fullName ==> rootClass == RootClass(fullName)
    requires '.' in fullName ==> innerClass == fullName[IndexOf(fullName, '.') + 1..]
    ensures names == ImportsTypeCandidates(imports, name, fullName)
  {
    names := [];
    var i := 0;
    while i < |imports|
      invariant 0 <= i <= |imports|
      invariant names == ImportsTypeCandidates(imports[..i], name, fullName)
    {
      assert imports[..i + 1][..i] == imports[..i];
      var contributed := ImportTypeNames(imports[i].name, name, fullName, rootClass, innerClass);
      names := names + contributed;
      i := i + 1;
    }
    assert imports[..i] == imports;
  }

  /** The candidate list of handleClassOrInterfaceType: the imports' candidates, then java/lang. */
  method PossibleTypeNames(imports: seq<Import>, name: string, fullName: string) returns (names: seq<string>)
    ensures names == ImportsTypeCandidates(imports, name, fullName) + ["java/lang/" + name + ".class"]
  {
    var rootClass := fullName;
    var innerClass := "";
    if '.' in fullName {
      rootClass := fullName[..IndexOf(fullName, '.')];
      innerClass := fullName[IndexOf(fullName, '.') + 1..];
    }
    names := ImportsTypeNames(imports, name, fullName, rootClass, innerClass);
    names := names + ["java/lang/" + name + ".class"];
  }

  /** What running `first`, then `second` appends and how it ends. */
  lemma ThenSteps(first: Run<()>, second: Run<()>)
    ensures first.outcome.Abort? ==> Then(first, second) == first
    ensures first.outcome.Ok? ==> Then(first, second).links == first.links + second.links
    ensures first.outcome.Ok? ==> Then(first, second).outcome == second.outcome
  {
  }

  /** A one-element set is that element alone. */
  lemma SingletonIs<T>(s: set<T>, a: T)
    requires |s| == 1 && a in s
    ensures s == {a}
  {
    forall b | b in s
      ensures b == a
    {
      SingletonMember(s, a, b);
    }
  }

  lemma AppendAssoc<T>(a: seq<T>, b: seq<T>, c: seq<T>)
    ensures (a + b) + c == a + (b + c)
  {
  }

  /** One step of a call's traversal: resolve it, then its receiver, then its arguments. */
  lemma VisitCallSteps(env: Env, c: Call, ancestors: seq<Node>)
    ensures var resolved := ResolveCall(env, c, ancestors);
      VisitCall(env, c, ancestors) == Then(Run(resolved.links, Discard(resolved.outcome)), CallChildren(env, c, ancestors))
  {
  }

  /** The children of a class-type node: its qualifier, then its type arguments. */
  lemma ClassTypeChildrenSteps(env: Env, ct: ClassType)
    ensures ClassTypeChildren(env, ct) ==
      Then(match ct.scope case None => Done() case Some(outer) => VisitClassType(env, outer), VisitTypes(env, ct.typeArgs))
  {
  }

  /** One step of the class-type traversal: the node itself, then its children. */
  lemma VisitClassTypeSteps(env: Env, ct: ClassType)
    ensures VisitClassType(env, ct) == Then(TypeReference(env, ct), ClassTypeChildren(env, ct))
  {
  }

  /** The import loop's spec, one import further. */
  lemma ImportLinksSnoc(env: Env, imports: seq<Import>, i: nat)
    requires i < |imports|
    ensures ImportLinks(env, imports[..i + 1]) == Then(ImportLinks(env, imports[..i]), ImportLink(env, imports[i]))
  {
    assert imports[..i + 1][..i] == imports[..i];
  }

  /** Once the import loop has stopped the pass, the later imports add nothing. */
  lemma {:induction false} ImportLinksStop(env: Env, imports: seq<Import>, j: nat)
    requires j <= |imports| && ImportLinks(env, imports[..j]).outcome.Abort?
    ensures ImportLinks(env, imports) == ImportLinks(env, imports[..j])
    decreases |imports| - j
  {
    if j < |imports| {
      var init := imports[..|imports| - 1];
      assert init[..j] == imports[..j];
      ImportLinksStop(env, init, j);
    } else {
      assert imports[..j] == imports;
    }
  }

  /** The found candidates of a shorter list come first in those of a longer one. */
  lemma {:induction false} FoundNamesPrefix(corpus: Corpus, names: seq<string>, i: nat)
    requires i <= |names|
    ensures FoundNames(corpus, names[..i]) <= FoundNames(corpus, names)
    decreases |names| - i
  {
    if i < |names| {
      var init := names[..|names| - 1];
      assert names[..i] == init[..i];
      FoundNamesPrefix(corpus, init, i);
    } else {
      assert names[..i] == names;
    }
  }

  lemma FoundNamesStep(corpus: Corpus, names: seq<string>, i: nat)
    requires i < |names|
    ensures FoundNames(corpus, names[..i + 1]) ==
      FoundNames(corpus, names[..i]) + (if Held(corpus, names[i]) then [names[i]] else [])
  {
    assert names[..i + 1][..i] == names[..i];
  }

  lemma DistinctSnoc(s: seq<string>, x: string)
    requires Distinct(s) && x !in s
    ensures Distinct(s + [x])
  {
  }

  lemma RepeatedSnoc(s: seq<string>, x: string)
    requires x in s
    ensures !Distinct(s + [x])
  {
    var j :| 0 <= j < |s| && s[j] == x;
    assert (s + [x])[j] == (s + [x])[|s|];
  }

  lemma RepeatedExtends(a: seq<string>, b: seq<string>)
    requires a <= b && !Distinct(a)
    ensures !Distinct(b)
  {
    var i, j :| 0 <= i < j < |a| && a[i] == a[j];
    assert b[i] == b[j];
  }

  /** A held candidate already found earlier makes the whole list repeat one. */
  lemma RepeatedHeld(corpus: Corpus, names: seq<string>, i: nat)
    requires i < |names| && Held(corpus, names[i])
    requires names[i] in FoundNames(corpus, names[..i])
    ensures !Distinct(FoundNames(corpus, names))
  {
    FoundNamesStep(corpus, names, i);
    RepeatedSnoc(FoundNames(corpus, names[..i]), names[i]);
    FoundNamesPrefix(corpus, names, i + 1);
    RepeatedExtends(FoundNames(corpus, names[..i + 1]), FoundNames(corpus, names));
  }

  /**
   * The map the stream collects, candidate name to archive: None when the
   * corpus holds some candidate twice, which is where the collector fails.
   */
  method MapFound(corpus: Corpus, names: seq<string>) returns (r: Option<map<string, Archive>>)
    ensures r.None? <==> !Distinct(FoundNames(corpus, names))
    ensures r.Some? ==> Collected(corpus, r.value, FoundNames(corpus, names))
  {
    var m: map<string, Archive> := map[];
    var i := 0;
    ghost var found: seq<string> := [];
    while i < |names|
      invariant 0 <= i <= |names|
      invariant found == FoundNames(corpus, names[..i])
      invariant Collected(corpus, m, found)
    {
      FoundNamesStep(corpus, names, i);
      var file := FileFor(corpus, names[i]);
      if file.Some? {
        if names[i] in m {
          RepeatedHeld(corpus, names, i);
          return None;
        }
        CollectedSnoc(corpus, m, found, names[i], file.value);
        m := m[names[i] := file.value];
        found := found + [names[i]];
      }
      i := i + 1;
    }
    assert names[..i] == names;
    r := Some(m);
  }

  /**
   * `m` maps exactly the names in `found`, which holds no name twice, each
   * to the archive that holds it.
   */
  ghost predicate Collected(corpus: Corpus, m: map<string, Archive>, found: seq<string>) {
    && Distinct(found)
    && |m| == |found|
    && (forall c :: c in m <==> c in found)
    && (forall c :: c in m ==> FileFor(corpus, c) == Some(m[c]))
  }

  lemma CollectedSnoc(corpus: Corpus, m: map<string, Archive>, found: seq<string>, x: string, a: Archive)
    requires Collected(corpus, m, found) && x !in m && FileFor(corpus, x) == Some(a)
    ensures Collected(corpus, m[x := a], found + [x])
  {
    DistinctSnoc(found, x);
  }

  /** The type under the reference-type wrappers (the unwrapping loop). */
  method UnwrapType(t: Type) returns (r: Type)
    ensures r == Unwrap(t)
  {
    r := t;
    while r.Reference?
      invariant Unwrap(r) == Unwrap(t)
      decreases r
    {
      r := r.inner;
    }
  }

  /** Add the file of every import whose last identifier is `name` (the import loops of recursivelyHandleNameExpr). */
  method AddImportsNamed(acc: set<string>, imports: seq<Import>, name: string) returns (r: set<string>)
    ensures r == acc + ImportedNamed(imports, name)
  {
    r := acc;
    var i := 0;
    while i < |imports|
      invariant 0 <= i <= |imports|
      invariant r == acc + ImportedNamed(imports[..i], name)
    {
      ImportedNamedSnoc(imports, name, i);
      if LastSegment(imports[i].name) == name {
        r := r + {InternalName(imports[i].name) + ".class"};
      }
      i := i + 1;
    }
    assert imports[..i] == imports;
  }

  /** One more import adds its file when its last identifier is `name`. */
  lemma ImportedNamedSnoc(imports: seq<Import>, name: string, i: nat)
    requires i < |imports|
    ensures ImportedNamed(imports[..i + 1], name) == ImportedNamed(imports[..i], name) +
      (if LastSegment(imports[i].name) == name then {InternalName(imports[i].name) + ".class"} else {})
  {
    assert imports[..i + 1][..i] == imports[..i];
  }

  /**
   * The local-variable search: scan each ancestor's subtree, the call's
   * parent first, until one of them declares x.
   */
  method CollectLocalTypes(x: string, ancestors: seq<Node>) returns (r: Outcome<seq<Type>>)
    ensures r == LocalTypes(x, ancestors)
  {
    var refs: seq<Type> := [];
    var i := 0;
    while |refs| == 0 && i < |ancestors|
      invariant 0 <= i <= |ancestors|
      invariant LocalTypes(x, ancestors) == if |refs| > 0 then Ok(refs) else LocalTypes(x, ancestors[i..])
    {
      assert ancestors[i..][1..] == ancestors[i + 1..];
      var scanned := Scan(ancestors[i], x);
      if scanned.Abort? {
        return scanned;
      }
      refs := scanned.value;
      i := i + 1;
    }
    r := Ok(refs);
  }

  /** The candidates for a static type: every import with its name, then java/lang; a non-class type stops the pass. */
  method TypeClassNames(imports: seq<Import>, t: Type) returns (r: Outcome<set<string>>)
    ensures r == ClassTypeCandidates(imports, t)
  {
    var u := UnwrapType(t);
    if !u.ClassOrInterface? {
      return Abort(NonClassType);
    }
    var names := AddImportsNamed({}, imports, u.classType.name);
    assert names == ImportedNamed(imports, u.classType.name);
    r := Ok(names + {"java/lang/" + u.classType.name + ".class"});
  }

  /** Two members of a one-element set are the same. */
  lemma SingletonMember<T>(s: set<T>, a: T, b: T)
    requires |s| == 1 && a in s && b in s
    ensures a == b
  {
    var rest := s - {a};
    assert s == rest + {a};
    assert |rest| == 0;
    assert b in rest || b == a;
  }

  lemma PrefixedAppend(a: seq<(string, string)>, b: seq<(string, string)>, w: WalkResult)
    ensures Prefixed(a, Prefixed(b, w)) == Prefixed(a + b, w)
  {
    if w.Located? {
      assert a + (b + w.classes) == (a + b) + w.classes;
    }
  }

  class DecompileTask {
    const corpus: Corpus          // the task's own archive and every other loaded one
    const className: string       // the class's file name, `a/b/C.class`
    const simpleName: string
    var lineSizes: seq<nat>
    var links: seq<Link>          // the text area's link table

    constructor (corpus: Corpus, className: string)
      requires SimpleName(className).Some?
      ensures this.corpus == corpus && this.className == className
      ensures simpleName == SimpleName(className).value
      ensures lineSizes == [] && links == []
    {
      this.corpus := corpus;
      this.className := className;
      var name := className;
      var lastIndex := LastIndexOf(name, '/');
      if lastIndex != -1 {
        name := name[lastIndex + 1..];
        name := name[..|name| - 6];
      }
      this.simpleName := name;
      lineSizes := [];
      links := [];
    }

    /** What a pass over a document with these imports reads. */
    ghost function EnvFor(imports: seq<Import>): Env
      reads this`lineSizes
    {
      Env(corpus, className, simpleName, imports, lineSizes)
    }

    /**
     * handle: record the length of every line of the text, link the
     * imports, then visit the tree from its root.
     */
    method Handle(text: string, unit: Unit) returns (outcome: Outcome<()>)
      modifies this
      ensures lineSizes == old(lineSizes) + Lengths(JavaSplit(text))
      ensures links == old(links) + DocumentLinks(EnvFor(unit.imports), unit).links
      ensures outcome == DocumentLinks(EnvFor(unit.imports), unit).outcome
    {
      RecordLineSizes(text);
      ghost var env := EnvFor(unit.imports);
      ghost var imported := ImportLinks(env, unit.imports);
      ghost var visited := VisitNode(env, Other(unit.types), []);
      ThenSteps(imported, visited);
      outcome := HandleImports(unit.imports);
      assert EnvFor(unit.imports) == env;
      if outcome.Ok? {
        outcome := Visit(unit.imports, Other(unit.types), []);
        assert EnvFor(unit.imports) == env;
        AppendAssoc(old(links), imported.links, visited.links);
      }
    }

    /** The first loop of handle: the length of every line of the text, in order. */
    method RecordLineSizes(text: string)
      modifies this`lineSizes
      ensures lineSizes == old(lineSizes) + Lengths(JavaSplit(text))
    {
      var lines := JavaSplit(text);
      var i := 0;
      while i < |lines|
        invariant 0 <= i <= |lines|
        invariant lineSizes == old(lineSizes) + Lengths(lines[..i])
      {
        assert Lengths(lines[..i + 1]) == Lengths(lines[..i]) + [|lines[i]|];
        lineSizes := lineSizes + [|lines[i]|];
        i := i + 1;
      }
      assert lines[..i] == lines;
    }

    /** The search of handle's import loop: the first archive holding `file`, in enumeration order. */
    method FirstHolder(file: string) returns (k: Option<nat>)
      ensures k == FirstContaining(corpus.archives, file)
    {
      var j := 0;
      while j < |corpus.archives|
        invariant 0 <= j <= |corpus.archives|
        invariant forall m :: 0 <= m < j ==> file !in corpus.archives[m].files
      {
        if file in corpus.archives[j].files {
          FirstContainingChoice(corpus.archives, file);
          return Some(j);
        }
        j := j + 1;
      }
      FirstContainingChoice(corpus.archives, file);
      return None;
    }

    /** The import loop of handle: link every non-wildcard import some archive holds. */
    method HandleImports(imports: seq<Import>) returns (outcome: Outcome<()>)
      modifies this`links
      ensures links == old(links) + ImportLinks(EnvFor(imports), imports).links
      ensures outcome == ImportLinks(EnvFor(imports), imports).outcome
    {
      ghost var env := EnvFor(imports);
      var i := 0;
      while i < |imports|
        invariant 0 <= i <= |imports|
        invariant EnvFor(imports) == env
        invariant ImportLinks(env, imports[..i]).outcome == Ok(())
        invariant links == old(links) + ImportLinks(env, imports[..i]).links
      {
        ImportLinksSnoc(env, imports, i);
        outcome := HandleImport(imports, imports[i]);
        if outcome.Abort? {
          ImportLinksStop(env, imports, i + 1);
          return;
        }
        AppendAssoc(old(links), ImportLinks(env, imports[..i]).links, ImportLink(env, imports[i]).links);
        i := i + 1;
      }
      assert imports[..i] == imports;
      outcome := Ok(());
    }

    /** One import: a non-wildcard import some archive holds is linked to the first such archive. */
    method HandleImport(imports: seq<Import>, decl: Import) returns (outcome: Outcome<()>)
      modifies this`links
      ensures links == old(links) + ImportLink(EnvFor(imports), decl).links
      ensures outcome == ImportLink(EnvFor(imports), decl).outcome
    {
      if EndsWith(decl.name, "*") {
        return Ok(());
      }
      var internalName := InternalName(decl.name);
      var k := FirstHolder(internalName + ".class");
      if k.Some? {
        var offsets := GetOffsets(decl.span);
        if offsets.None? {
          return Abort(LineOutOfRange);
        }
        links := links + [NewLink(decl.span, offsets.value, corpus.archives[k.value].name, internalName + ".class", "")];
      }
      outcome := Ok(());
    }

    /** getOffsets: the start and end offsets of a span, None where lineSizes is indexed past its end. */
    method GetOffsets(span: Span) returns (r: Option<(int, int)>)
      ensures r == SpanOffsets(lineSizes, span)
    {
      var offset := 0;
      var i := 0;
      while i < span.beginLine - 1
        invariant 0 <= i <= |lineSizes| && (i == 0 || i <= span.beginLine - 1)
        invariant offset == PrefixLength(lineSizes, i)
      {
        if i >= |lineSizes| {
          return None;
        }
        PrefixLengthStep(lineSizes, i);
        offset := offset + lineSizes[i] + 1;
        i := i + 1;
      }
      offset := offset + span.beginColumn - 1;

      var offsetEnd := 0;
      i := 0;
      while i < span.endLine - 1
        invariant 0 <= i <= |lineSizes| && (i == 0 || i <= span.endLine - 1)
        invariant offsetEnd == PrefixLength(lineSizes, i)
      {
        if i >= |lineSizes| {
          return None;
        }
        PrefixLengthStep(lineSizes, i);
        offsetEnd := offsetEnd + lineSizes[i] + 1;
        i := i + 1;
      }
      offsetEnd := offsetEnd + span.endColumn - 1;
      r := Some((offset, offsetEnd));
    }

    /**
     * handleClassOrInterfaceType: link one class-type node to the single
     * candidate the corpus holds.
     */
    method HandleClassOrInterfaceType(imports: seq<Import>, ct: ClassType) returns (outcome: Outcome<()>)
      modifies this`links
      ensures links == old(links) + TypeReference(EnvFor(imports), ct).links
      ensures outcome == TypeReference(EnvFor(imports), ct).outcome
    {
      var offsets := GetOffsets(ct.span);
      if offsets.None? {
        return Abort(LineOutOfRange);
      }
      var fullName := BuildFullName(ct);
      var possibleClassNames := PossibleTypeNames(imports, ct.name, fullName);
      outcome := LinkClassType(ct, offsets.value, possibleClassNames);
    }

    /** Collect the candidates the corpus holds into a map; link the node when there is exactly one. */
    method LinkClassType(ct: ClassType, offsets: (int, int), possibleClassNames: seq<string>) returns (outcome: Outcome<()>)
      modifies this`links
      ensures links == old(links) + TypeLink(corpus, ct, offsets, possibleClassNames).links
      ensures outcome == TypeLink(corpus, ct, offsets, possibleClassNames).outcome
    {
      var mapping := MapFound(corpus, possibleClassNames);
      if mapping.None? {
        return Abort(DuplicateCandidate);
      }
      var m := mapping.value;
      if |m| == 1 {
        ghost var found := FoundNames(corpus, possibleClassNames);
        var key :| key in m;
        assert found[0] in m;
        SingletonMember(m.Keys, key, found[0]);
        links := links + [NewLink(ct.span, offsets, m[key].name, key, " " + ct.name + " ")];
      }
      outcome := Ok(());
    }

    /**
     * The superclass walk of recursivelyHandleNameExpr, from the class
     * `start`: the classes it locates and what the found method hands on.
     * Where the source would go round a cyclic chain for ever, the walk
     * reports Endless.
     */
    method SuperclassWalk(start: string, methodName: string) returns (w: WalkResult)
      ensures w == Walk(corpus, start, methodName, {})
    {
      var internalName := start;
      var located: seq<(string, string)> := [];
      var visited: set<string> := {};
      while true
        invariant visited <= AllFiles(corpus)
        invariant Walk(corpus, start, methodName, {}) == Prefixed(located, Walk(corpus, internalName, methodName, visited))
        decreases AllFiles(corpus) - visited
      {
        var fileName := internalName + ".class";
        var readFrom := FileFor(corpus, fileName);
        if readFrom.None? {
          assert located + [] == located;
          return Located(located, None);
        }
        if fileName in visited {
          return Endless;
        }
        var here := [(readFrom.value.name, fileName)];
        if fileName !in readFrom.value.classes {
          return Located(located + here, None);
        }
        var classNode := readFrom.value.classes[fileName];
        var node := FirstMethodNamed(classNode.methods, methodName);
        if node.Some? {
          return Located(located + here, FurtherType(classNode.methods[node.value].descriptor));
        }
        if internalName == "java/lang/Object" {
          return Located(located + here, None);
        }
        PrefixedAppend(located, here, Walk(corpus, classNode.superName, methodName, visited + {fileName}));
        located := located + here;
        visited := visited + {fileName};
        internalName := classNode.superName;
      }
    }

    /**
     * recursivelyHandleNameExpr: gather the receiver's candidate classes,
     * and when the corpus holds exactly one, walk up from it to the class
     * that declares the method, linking the call's name; returns the file
     * of the method's return class, if any.
     */
    method RecursivelyHandleNameExpr(imports: seq<Import>, call: Call, ancestors: seq<Node>)
      returns (r: Outcome<Option<string>>)
      modifies this`links
      ensures links == old(links) + ResolveCall(EnvFor(imports), call, ancestors).links
      ensures r == ResolveCall(EnvFor(imports), call, ancestors).outcome
      decreases call, 1
    {
      ghost var env := EnvFor(imports);
      var offsets := GetOffsets(call.nameSpan);
      if offsets.None? {
        return Abort(LineOutOfRange);
      }
      ghost var candidates := CallCandidates(env, call, ancestors);
      var possibleClassNames := CollectCandidates(imports, call, ancestors);
      assert EnvFor(imports) == env;
      if possibleClassNames.Abort? {
        return Abort(possibleClassNames.fault);
      }
      ghost var linked := LinkCall(corpus, call, offsets.value, possibleClassNames.value);
      r := LinkResolvedCall(call, offsets.value, possibleClassNames.value);
      assert EnvFor(imports) == env;
      AppendAssoc(old(links), candidates.links, linked.links);
    }

    /** The receiver cases of recursivelyHandleNameExpr; a chained receiver is resolved first. */
    method CollectCandidates(imports: seq<Import>, call: Call, ancestors: seq<Node>)
      returns (r: Outcome<set<string>>)
      modifies this`links
      ensures links == old(links) + CallCandidates(EnvFor(imports), call, ancestors).links
      ensures r == CallCandidates(EnvFor(imports), call, ancestors).outcome
      decreases call, 0
    {
      if call.receiver.CallReceiver? {
        // The inner call's result is added even when it is null; no archive holds null.
        var returned := RecursivelyHandleNameExpr(imports, call.receiver.call, [CallExpr(call)] + ancestors);
        r := Handed(returned);
      } else {
        r := ReceiverClassNames(imports, call.receiver, ancestors);
      }
    }

    /** The candidates for every receiver except a chained call. */
    method ReceiverClassNames(imports: seq<Import>, rc: Receiver, ancestors: seq<Node>)
      returns (r: Outcome<set<string>>)
      requires !rc.CallReceiver?
      ensures r == ReceiverCandidates(EnvFor(imports), rc, ancestors)
    {
      match rc {
        case NoReceiver =>
          r := Ok({className});
        case ThisReceiver =>
          r := Ok({className});
        case SuperReceiver =>
          if className !in corpus.current.classes {
            return Abort(MissingOwnClass);
          }
          r := Ok({corpus.current.classes[className].superName + ".class"});
        case NameReceiver(x) =>
          r := NameClassNames(imports, x, ancestors);
        case CastReceiver(castType, _) =>
          r := TypeClassNames(imports, castType);
        case FieldReceiver(_) =>
          r := Ok({});
        case OtherReceiver(_) =>
          r := Ok({});
      }
    }

    /** A simple-name receiver: its local's type, this class, the imports and java/lang, together. */
    method NameClassNames(imports: seq<Import>, x: string, ancestors: seq<Node>) returns (r: Outcome<set<string>>)
      ensures r == NameCandidates(EnvFor(imports), x, ancestors)
    {
      if '.' in x {
        return Abort(DottedReceiver);
      }
      var names: set<string> := {};
      var ref := CollectLocalTypes(x, ancestors);
      if ref.Abort? {
        return Abort(ref.fault);
      }
      if |ref.value| > 0 {
        if |ref.value| > 1 {
          return Abort(SeveralLocals);
        }
        var fromLocal := TypeClassNames(imports, ref.value[0]);
        if fromLocal.Abort? {
          return Abort(fromLocal.fault);
        }
        names := fromLocal.value;
      }
      ghost var local := names;
      var own: set<string> := if x == simpleName then {className} else {};
      names := AddImportsNamed(names + own, imports, x);
      names := names + {"java/lang/" + x + ".class"};
      assert names == local + own + ImportedNamed(imports, x) + {"java/lang/" + x + ".class"};
      r := Ok(names);
    }

    /**
     * The candidates held in the corpus: none or several leave the call
     * unlinked; exactly one is walked from, and the call's name is linked
     * once per located class.
     */
    method LinkResolvedCall(call: Call, offsets: (int, int), names: set<string>) returns (r: Outcome<Option<string>>)
      modifies this`links
      ensures links == old(links) + LinkCall(corpus, call, offsets, names).links
      ensures r == LinkCall(corpus, call, offsets, names).outcome
    {
      var found := set c | c in names && FileFor(corpus, c).Some?;
      assert found == Found(corpus, names);
      if |found| != 1 {
        return Ok(None);
      }
      var name :| name in found;
      SingletonIs(found, name);
      if |name| < 6 {
        return Abort(ShortClassName);
      }
      var w := SuperclassWalk(name[..|name| - 6], call.name);
      match w {
        case Endless =>
          return Abort(EndlessHierarchy);
        case Located(classes, further) =>
          // One Link object is appended once per located class and updated
          // as the walk goes on; every entry shows its final state.
          links := links + WalkLinks(call.nameSpan, offsets, call.name, classes);
          return Ok(further);
      }
    }

    /** The traversal of the tree: the visitor's order, with the ancestors of each node. */
    method Visit(imports: seq<Import>, n: Node, ancestors: seq<Node>) returns (outcome: Outcome<()>)
      modifies this`links
      ensures links == old(links) + VisitNode(EnvFor(imports), n, ancestors).links
      ensures outcome == VisitNode(EnvFor(imports), n, ancestors).outcome
      decreases n
    {
      ghost var env := EnvFor(imports);
      match n {
        case TypeUse(t) =>
          outcome := VisitTypeNode(imports, t);
        case CallExpr(c) =>
          outcome := VisitMethodCall(imports, c, ancestors);
        case LocalDecl(_, declared, inits) =>
          ThenSteps(VisitType(env, declared), VisitNodes(env, inits, [n] + ancestors));
          outcome := VisitTypeNode(imports, declared);
          assert EnvFor(imports) == env;
          if outcome.Ok? {
            outcome := VisitChildren(imports, inits, [n] + ancestors);
            assert EnvFor(imports) == env;
            AppendAssoc(old(links), VisitType(env, declared).links, VisitNodes(env, inits, [n] + ancestors).links);
          }
        case Param(_, declared) =>
          outcome := VisitTypeNode(imports, declared);
        case CatchParam(_, alternatives) =>
          outcome := VisitTypeList(imports, alternatives);
        case Other(children) =>
          outcome := VisitChildren(imports, children, [n] + ancestors);
      }
    }

    /** A call: resolve its name, then visit its receiver and its arguments. */
    method VisitMethodCall(imports: seq<Import>, c: Call, ancestors: seq<Node>) returns (outcome: Outcome<()>)
      modifies this`links
      ensures links == old(links) + VisitCall(EnvFor(imports), c, ancestors).links
      ensures outcome == VisitCall(EnvFor(imports), c, ancestors).outcome
      decreases c, 1
    {
      ghost var env := EnvFor(imports);
      ghost var resolved := ResolveCall(env, c, ancestors);
      ghost var first := Run(resolved.links, Discard(resolved.outcome));
      ghost var children := CallChildren(env, c, ancestors);
      VisitCallSteps(env, c, ancestors);
      ThenSteps(first, children);
      var r := RecursivelyHandleNameExpr(imports, c, ancestors);
      assert EnvFor(imports) == env;
      if r.Abort? {
        return Abort(r.fault);
      }
      outcome := VisitReceiverAndArguments(imports, c, ancestors);
      assert EnvFor(imports) == env;
      AppendAssoc(old(links), resolved.links, children.links);
    }

    /** The children of a call: its receiver, then its arguments. */
    method VisitReceiverAndArguments(imports: seq<Import>, c: Call, ancestors: seq<Node>) returns (outcome: Outcome<()>)
      modifies this`links
      ensures links == old(links) + CallChildren(EnvFor(imports), c, ancestors).links
      ensures outcome == CallChildren(EnvFor(imports), c, ancestors).outcome
      decreases c, 0
    {
      ghost var env := EnvFor(imports);
      var here := [CallExpr(c)] + ancestors;
      ghost var receiverRun := VisitReceiver(env, c.receiver, here);
      ghost var argumentsRun := VisitNodes(env, c.args, here);
      ThenSteps(receiverRun, argumentsRun);
      outcome := VisitReceiverOf(imports, c.receiver, here);
      assert EnvFor(imports) == env;
      if outcome.Ok? {
        outcome := VisitChildren(imports, c.args, here);
        assert EnvFor(imports) == env;
        AppendAssoc(old(links), receiverRun.links, argumentsRun.links);
      }
    }

    method VisitReceiverOf(imports: seq<Import>, rc: Receiver, ancestors: seq<Node>) returns (outcome: Outcome<()>)
      modifies this`links
      ensures links == old(links) + VisitReceiver(EnvFor(imports), rc, ancestors).links
      ensures outcome == VisitReceiver(EnvFor(imports), rc, ancestors).outcome
      decreases rc
    {
      ghost var env := EnvFor(imports);
      match rc {
        case CastReceiver(castType, operand) =>
          ThenSteps(VisitType(env, castType), VisitNode(env, operand, ancestors));
          outcome := VisitTypeNode(imports, castType);
          assert EnvFor(imports) == env;
          if outcome.Ok? {
            outcome := Visit(imports, operand, ancestors);
            assert EnvFor(imports) == env;
            AppendAssoc(old(links), VisitType(env, castType).links, VisitNode(env, operand, ancestors).links);
          }
        case CallReceiver(inner) =>
          outcome := VisitMethodCall(imports, inner, ancestors);
        case FieldReceiver(owner) =>
          outcome := Visit(imports, owner, ancestors);
        case OtherReceiver(e) =>
          outcome := Visit(imports, e, ancestors);
        case NoReceiver =>
          outcome := Ok(());
        case ThisReceiver =>
          outcome := Ok(());
        case SuperReceiver =>
          outcome := Ok(());
        case NameReceiver(_) =>
          outcome := Ok(());
      }
    }

    method VisitChildren(imports: seq<Import>, ns: seq<Node>, ancestors: seq<Node>) returns (outcome: Outcome<()>)
      modifies this`links
      ensures links == old(links) + VisitNodes(EnvFor(imports), ns, ancestors).links
      ensures outcome == VisitNodes(EnvFor(imports), ns, ancestors).outcome
      decreases ns
    {
      if |ns| == 0 {
        return Ok(());
      }
      ghost var env := EnvFor(imports);
      ThenSteps(VisitNode(env, ns[0], ancestors), VisitNodes(env, ns[1..], ancestors));
      outcome := Visit(imports, ns[0], ancestors);
      assert EnvFor(imports) == env;
      if outcome.Ok? {
        outcome := VisitChildren(imports, ns[1..], ancestors);
        assert EnvFor(imports) == env;
        AppendAssoc(old(links), VisitNode(env, ns[0], ancestors).links, VisitNodes(env, ns[1..], ancestors).links);
      }
    }

    method VisitTypeNode(imports: seq<Import>, t: Type) returns (outcome: Outcome<()>)
      modifies this`links
      ensures links == old(links) + VisitType(EnvFor(imports), t).links
      ensures outcome == VisitType(EnvFor(imports), t).outcome
      decreases t, 0
    {
      match t {
        case Reference(inner) =>
          outcome := VisitTypeNode(imports, inner);
        case ClassOrInterface(ct) =>
          outcome := VisitClassOrInterfaceType(imports, ct);
        case Primitive(_) =>
          outcome := Ok(());
      }
    }

    /** A class-type node: handle it, then its qualifier, then its type arguments. */
    method VisitClassOrInterfaceType(imports: seq<Import>, ct: ClassType) returns (outcome: Outcome<()>)
      modifies this`links
      ensures links == old(links) + VisitClassType(EnvFor(imports), ct).links
      ensures outcome == VisitClassType(EnvFor(imports), ct).outcome
      decreases ct, 1
    {
      ghost var env := EnvFor(imports);
      ghost var first := TypeReference(env, ct);
      ghost var children := ClassTypeChildren(env, ct);
      VisitClassTypeSteps(env, ct);
      ThenSteps(first, children);
      outcome := HandleClassOrInterfaceType(imports, ct);
      assert EnvFor(imports) == env;
      if outcome.Ok? {
        outcome := VisitQualifierAndArguments(imports, ct);
        assert EnvFor(imports) == env;
        AppendAssoc(old(links), first.links, children.links);
      }
    }

    /** The children of a class-type node: its qualifier, then its type arguments. */
    method VisitQualifierAndArguments(imports: seq<Import>, ct: ClassType) returns (outcome: Outcome<()>)
      modifies this`links
      ensures links == old(links) + ClassTypeChildren(EnvFor(imports), ct).links
      ensures outcome == ClassTypeChildren(EnvFor(imports), ct).outcome
      decreases ct, 0
    {
      ghost var env := EnvFor(imports);
      ghost var qualifier := match ct.scope case None => Done() case Some(outer) => VisitClassType(env, outer);
      ghost var arguments := VisitTypes(env, ct.typeArgs);
      ClassTypeChildrenSteps(env, ct);
      ThenSteps(qualifier, arguments);
      if ct.scope.Some? {
        outcome := VisitClassOrInterfaceType(imports, ct.scope.value);
        assert EnvFor(imports) == env;
        if outcome.Abort? {
          return;
        }
      }
      outcome := VisitTypeList(imports, ct.typeArgs);
      assert EnvFor(imports) == env;
      AppendAssoc(old(links), qualifier.links, arguments.links);
    }

    method VisitTypeList(imports: seq<Import>, ts: seq<Type>) returns (outcome: Outcome<()>)
      modifies this`links
      ensures links == old(links) + VisitTypes(EnvFor(imports), ts).links
      ensures outcome == VisitTypes(EnvFor(imports), ts).outcome
      decreases ts, 0
    {
      if |ts| == 0 {
        return Ok(());
      }
      ghost var env := EnvFor(imports);
      ThenSteps(VisitType(env, ts[0]), VisitTypes(env, ts[1..]));
      outcome := VisitTypeNode(imports, ts[0]);
      assert EnvFor(imports) == env;
      if outcome.Ok? {
        outcome := VisitTypeList(imports, ts[1..]);
        assert EnvFor(imports) == env;
        AppendAssoc(old(links), VisitType(env, ts[0]).links, VisitTypes(env, ts[1..]).links);
      }
    }
  }
}
