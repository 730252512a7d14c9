/**
 * What the resolver promises, stated over the model: the simple name, the
 * offset formula, import links, type-reference links, the receiver rules of
 * method calls and the superclass walk.
 */
module ResolverFacts {
  import opened Common
  import opened JavaText
  import opened Syntax
  import opened OffsetIndex
  import opened ClassCorpus
  import opened Descriptors
  import opened Resolver
  import opened Tasks

  // ------------------------------------------------------------ text helpers

  /** The position of the only `c` after k, when it sits at k, is what lastIndexOf reports. */
  lemma LastIndexOfAt(s: string, c: char, k: nat)
    requires k < |s| && s[k] == c && c !in s[k + 1..]
    ensures LastIndexOf(s, c) == k
  {
    assert s[k] == c;
  }

  /** String.replace distributes over concatenation. */
  lemma {:induction false} ReplaceAppend(a: string, b: string, from: char, to: char)
    ensures Replace(a + b, from, to) == Replace(a, from, to) + Replace(b, from, to)
  {
    if |a| == 0 {
      assert a + b == b;
    } else {
      assert (a + b)[1..] == a[1..] + b;
      ReplaceAppend(a[1..], b, from, to);
      var head := [if a[0] == from then to else a[0]];
      assert Replace(a + b, from, to) == head + (Replace(a[1..], from, to) + Replace(b, from, to));
      assert Replace(a, from, to) == head + Replace(a[1..], from, to);
    }
  }

  /** Replacing a character the text does not contain changes nothing. */
  lemma ReplaceAbsent(s: string, from: char, to: char)
    requires from !in s
    ensures Replace(s, from, to) == s
  {
    var r := Replace(s, from, to);
    forall i | 0 <= i < |s|
      ensures r[i] == s[i]
    {
      ReplaceAt(s, from, to, i);
    }
  }

  /**
   * The import of class `x` from package `p`: its internal name is the
   * package's with '/' and `x` appended, and its last identifier is `x`.
   */
  lemma ImportedClassName(p: string, x: string)
    requires '.' !in x
    ensures InternalName(p + "." + x) == InternalName(p) + "/" + x
    ensures LastSegment(p + "." + x) == x
  {
    ImportedInternalName(p, x);
    var s := p + "." + x;
    assert s[|p| + 1..] == x;
    LastIndexOfAt(s, '.', |p|);
  }

  lemma ImportedInternalName(p: string, x: string)
    requires '.' !in x
    ensures InternalName(p + "." + x) == InternalName(p) + "/" + x
  {
    ReplaceAppend(p + ".", x, '.', '/');
    ReplaceAppend(p, ".", '.', '/');
    ReplaceAbsent(x, '.', '/');
    ReplaceDot();
  }

  lemma ReplaceDot()
    ensures Replace(".", '.', '/') == "/"
  {
  }

  // ------------------------------------------------------------ simple name

  /**
   * The simple name of a class file `pkg/Name.class` is `Name`: the text
   * after the last '/', less ".class".
   */
  lemma SimpleNameOfClassFile(pkg: string, name: string)
    requires '/' !in name
    ensures SimpleName(pkg + "/" + name + ".class") == Some(name)
  {
    var s := pkg + "/" + name + ".class";
    assert s[|pkg|] == '/';
    assert s[|pkg| + 1..] == name + ".class";
    assert '/' !in ".class";
    LastIndexOfAt(s, '/', |pkg|);
    var tail := s[|pkg| + 1..];
    assert tail[..|tail| - 6] == name;
  }

  // ---------------------------------------------------------------- offsets

  /** getOffsets' running total: the first n line sizes added one at a time, each with its newline. */
  function RunningTotal(sizes: seq<nat>, n: nat): nat
    requires n <= |sizes|
  {
    if n == 0 then 0 else RunningTotal(sizes, n - 1) + sizes[n - 1] + 1
  }

  /**
   * The offset of (line, column) is the sum of size + 1 over every line
   * before `line`, plus column - 1.
   */
  lemma {:induction false} OffsetFormula(sizes: seq<nat>, line: int, column: int)
    requires 1 <= line <= |sizes| + 1
    ensures LineOffset(sizes, line, column) == Some(RunningTotal(sizes, line - 1) + column - 1)
  {
    PrefixLengthIsRunningTotal(sizes, line - 1);
  }

  lemma {:induction false} PrefixLengthIsRunningTotal(sizes: seq<nat>, n: nat)
    requires n <= |sizes|
    ensures PrefixLength(sizes, n) == RunningTotal(sizes, n)
  {
    if n > 0 {
      PrefixLengthIsRunningTotal(sizes, n - 1);
      PrefixLengthStep(sizes, n - 1);
    }
  }

  /**
   * A later position never has a smaller offset, as long as every column
   * lies on its line.
   */
  lemma OffsetMonotone(sizes: seq<nat>, line1: int, column1: int, line2: int, column2: int)
    requires 1 <= line1 <= |sizes| && 1 <= column1 <= sizes[line1 - 1] + 1
    requires 1 <= line2 <= |sizes| + 1 && 1 <= column2
    requires line1 < line2 || (line1 == line2 && column1 <= column2)
    ensures LineOffset(sizes, line1, column1).value <= LineOffset(sizes, line2, column2).value
  {
    if line1 < line2 || column1 < column2 {
      OffsetStrictlyMonotone(sizes, line1, column1, line2, column2);
    }
  }

  // ----------------------------------------------------------- import links

  /**
   * A link made for import `imp`: the import is not a wildcard, the link
   * names its class file, leads to no member, and points to the first
   * archive that holds the file.
   */
  predicate ImportTarget(env: Env, imp: Import, l: Link) {
    var k := FirstContaining(env.corpus.archives, l.className);
    && !EndsWith(imp.name, "*")
    && l.className == InternalName(imp.name) + ".class"
    && l.jumpTo == ""
    && k.Some? && l.fileName == env.corpus.archives[k.value].name
  }

  /**
   * The import loop makes at most one link per import, and each link is
   * the target of one import.
   */
  lemma {:induction false} ImportLinksShape(env: Env, imports: seq<Import>)
    ensures |ImportLinks(env, imports).links| <= |imports|
    ensures forall l :: l in ImportLinks(env, imports).links ==>
      exists i :: 0 <= i < |imports| && ImportTarget(env, imports[i], l)
  {
    if |imports| > 0 {
      var n := |imports| - 1;
      var init := imports[..n];
      ImportLinksShape(env, init);
      var before := ImportLinks(env, init);
      var last := ImportLink(env, imports[n]);
      forall l | l in ImportLinks(env, imports).links
        ensures exists i :: 0 <= i < |imports| && ImportTarget(env, imports[i], l)
      {
        if l in before.links {
          var i :| 0 <= i < |init| && ImportTarget(env, init[i], l);
          assert init[i] == imports[i];
        } else {
          assert l == last.links[0];
          assert ImportTarget(env, imports[n], l);
        }
      }
    }
  }

  /** An import no archive holds, or a wildcard import, adds nothing to the import links. */
  lemma ImportWithoutHolderUnlinked(env: Env, imp: Import)
    requires EndsWith(imp.name, "*") ||
      forall k :: 0 <= k < |env.corpus.archives| ==> InternalName(imp.name) + ".class" !in env.corpus.archives[k].files
    ensures ImportLink(env, imp) == Done()
  {
    FirstContainingChoice(env.corpus.archives, InternalName(imp.name) + ".class");
  }

  // ------------------------------------------------------ type candidates

  /**
   * `c` is a candidate import `imp` contributes to a type reference named
   * `name` written as `fullName`: the import's own class, or for a dotted
   * reference whose first identifier the import names, the nested class.
   */
  predicate TypeProvides(imp: Import, name: string, fullName: string, c: string) {
    || (LastSegment(imp.name) == name && c == InternalName(imp.name) + ".class")
    || ('.' in fullName && LastSegment(imp.name) == RootClass(fullName) &&
        c == InternalName(imp.name) + "$" + InnerSuffix(fullName) + ".class")
  }

  /** What one import contributes is exactly what it provides. */
  lemma ImportTypeCandidatesMember(imp: Import, name: string, fullName: string, c: string)
    ensures c in ImportTypeCandidates(imp, name, fullName) <==> TypeProvides(imp, name, fullName, c)
  {
  }

  /** Every element of a list `f` gives is in the concatenation. */
  lemma {:induction false} ConcatMapHas<T, U>(xs: seq<T>, f: T -> seq<U>, c: U, i: nat)
    requires i < |xs| && c in f(xs[i])
    ensures c in ConcatMap(xs, f)
  {
    var n := |xs| - 1;
    if i < n {
      assert xs[..n][i] == xs[i];
      ConcatMapHas(xs[..n], f, c, i);
    }
  }

  /** Every element of the concatenation comes from the list of some element. */
  lemma {:induction false} ConcatMapOnly<T, U>(xs: seq<T>, f: T -> seq<U>, c: U)
    requires c in ConcatMap(xs, f)
    ensures exists i :: 0 <= i < |xs| && c in f(xs[i])
  {
    var n := |xs| - 1;
    var init := xs[..n];
    if c in ConcatMap(init, f) {
      ConcatMapOnly(init, f, c);
      var i :| 0 <= i < |init| && c in f(init[i]);
      assert init[i] == xs[i];
    } else {
      assert c in f(xs[n]);
    }
  }

  /** Every candidate an import contributes is among the import candidates. */
  lemma ImportsTypeCandidatesHas(imports: seq<Import>, name: string, fullName: string, c: string, i: nat)
    requires i < |imports| && c in ImportTypeCandidates(imports[i], name, fullName)
    ensures c in ImportsTypeCandidates(imports, name, fullName)
  {
    ConcatMapHas(imports, imp => ImportTypeCandidates(imp, name, fullName), c, i);
  }

  /** Every import candidate is contributed by some import. */
  lemma ImportsTypeCandidatesOnly(imports: seq<Import>, name: string, fullName: string, c: string)
    requires c in ImportsTypeCandidates(imports, name, fullName)
    ensures exists i :: 0 <= i < |imports| && c in ImportTypeCandidates(imports[i], name, fullName)
  {
    ConcatMapOnly(imports, imp => ImportTypeCandidates(imp, name, fullName), c);
  }

  /** The import candidates are exactly what some import provides. */
  lemma ImportsTypeCandidatesMembers(imports: seq<Import>, name: string, fullName: string, c: string)
    ensures c in ImportsTypeCandidates(imports, name, fullName) <==>
      exists i :: 0 <= i < |imports| && TypeProvides(imports[i], name, fullName, c)
  {
    if c in ImportsTypeCandidates(imports, name, fullName) {
      ImportsTypeCandidatesOnly(imports, name, fullName, c);
      var i :| 0 <= i < |imports| && c in ImportTypeCandidates(imports[i], name, fullName);
      ImportTypeCandidatesMember(imports[i], name, fullName, c);
    }
    if exists i :: 0 <= i < |imports| && TypeProvides(imports[i], name, fullName, c) {
      var i :| 0 <= i < |imports| && TypeProvides(imports[i], name, fullName, c);
      ImportTypeCandidatesMember(imports[i], name, fullName, c);
      ImportsTypeCandidatesHas(imports, name, fullName, c, i);
    }
  }

  /**
   * The candidates of a type reference: what the imports provide, and
   * always java/lang's class of that name.
   */
  lemma TypeCandidatesMembers(imports: seq<Import>, ct: ClassType, c: string)
    ensures c in TypeCandidates(imports, ct) <==>
      c == "java/lang/" + ct.name + ".class" ||
      exists i :: 0 <= i < |imports| && TypeProvides(imports[i], ct.name, FullName(ct), c)
  {
    ImportsTypeCandidatesMembers(imports, ct.name, FullName(ct), c);
  }

  // ------------------------------------------------------ type references

  /**
   * A class-type node gets at most one link, and one exactly when its
   * position is in range and exactly one of its candidates is held; that
   * link leads to the held candidate in the archive getFileFor returns,
   * with " Name " as where to jump.
   */
  lemma TypeReferenceLinks(env: Env, ct: ClassType)
    ensures var r := TypeReference(env, ct);
      var found := FoundNames(env.corpus, TypeCandidates(env.imports, ct));
      && |r.links| <= 1
      && (|r.links| == 1 <==> SpanOffsets(env.lineSizes, ct.span).Some? && |found| == 1)
      && (r.outcome.Abort? <==> SpanOffsets(env.lineSizes, ct.span).None? || !Distinct(found))
  {
  }

  lemma TypeReferenceTarget(env: Env, ct: ClassType)
    requires |TypeReference(env, ct).links| == 1
    ensures var l := TypeReference(env, ct).links[0];
      && l.jumpTo == " " + ct.name + " "
      && l.className in TypeCandidates(env.imports, ct)
      && FileFor(env.corpus, l.className).Some?
      && l.fileName == FileFor(env.corpus, l.className).value.name
      && l.start == LineOffset(env.lineSizes, ct.span.beginLine, ct.span.beginColumn).value
  {
    var found := FoundNames(env.corpus, TypeCandidates(env.imports, ct));
    FoundNamesMembers(env.corpus, TypeCandidates(env.imports, ct), found[0]);
  }

  /** Two different candidates held by the corpus leave the node unlinked. */
  lemma AmbiguousTypeUnlinked(env: Env, ct: ClassType, a: string, b: string)
    requires a != b && a in TypeCandidates(env.imports, ct) && b in TypeCandidates(env.imports, ct)
    requires Held(env.corpus, a) && Held(env.corpus, b)
    ensures TypeReference(env, ct).links == []
  {
    var candidates := TypeCandidates(env.imports, ct);
    FoundNamesMembers(env.corpus, candidates, a);
    FoundNamesMembers(env.corpus, candidates, b);
    NotSingle(FoundNames(env.corpus, candidates), a, b);
  }

  /** A list holding two different names has not exactly one element. */
  lemma NotSingle(s: seq<string>, a: string, b: string)
    requires a != b && a in s && b in s
    ensures |s| != 1
  {
  }

  /**
   * An explicit import of a java.lang class the corpus holds names that
   * class twice, and the map collector's duplicate key stops the pass.
   */
  lemma ExplicitJavaLangImportStops(env: Env, ct: ClassType, i: nat, p: string)
    requires i < |env.imports| && '.' !in ct.name && InternalName(p) == "java/lang"
    requires env.imports[i].name == p + "." + ct.name
    requires Held(env.corpus, "java/lang/" + ct.name + ".class")
    requires SpanOffsets(env.lineSizes, ct.span).Some?
    ensures TypeReference(env, ct) == Run([], Abort(DuplicateCandidate))
  {
    var c := "java/lang/" + ct.name + ".class";
    JavaLangImportCandidate(env.imports[i], ct, p);
    ImportsTypeCandidatesHas(env.imports, ct.name, FullName(ct), c, i);
    HeldTwice(env.corpus, ImportsTypeCandidates(env.imports, ct.name, FullName(ct)), c);
  }

  /** The import of java.lang's class `Name` contributes java/lang/Name.class. */
  lemma JavaLangImportCandidate(imp: Import, ct: ClassType, p: string)
    requires '.' !in ct.name && InternalName(p) == "java/lang" && imp.name == p + "." + ct.name
    ensures "java/lang/" + ct.name + ".class" in ImportTypeCandidates(imp, ct.name, FullName(ct))
  {
    ImportedClassName(p, ct.name);
    assert "java/lang" + "/" == "java/lang/";
    assert InternalName(imp.name) + ".class" == "java/lang/" + ct.name + ".class";
  }

  /** A held name that ends the list and also occurs before makes the found names repeat. */
  lemma HeldTwice(corpus: Corpus, names: seq<string>, c: string)
    requires c in names && Held(corpus, c)
    ensures !Distinct(FoundNames(corpus, names + [c]))
  {
    FoundNamesMembers(corpus, names, c);
    assert (names + [c])[..|names|] == names;
    RepeatedSnoc(FoundNames(corpus, names), c);
  }

  // ------------------------------------------------------ method-call links

  /** A call is linked only from a single held candidate: two held candidates leave it unlinked. */
  lemma TwoHeldCandidatesUnlinked(corpus: Corpus, call: Call, offsets: (int, int), names: set<string>, a: string, b: string)
    requires a != b && a in names && b in names && Held(corpus, a) && Held(corpus, b)
    ensures LinkCall(corpus, call, offsets, names) == Run([], Ok(None))
  {
    var found := Found(corpus, names);
    assert a in found && b in found;
    if |found| == 1 {
      SingletonIs(found, a);
    }
  }

  /** With exactly one held candidate, the call is linked by the walk from it. */
  lemma OneHeldCandidateWalks(corpus: Corpus, call: Call, offsets: (int, int), names: set<string>, c: string)
    requires c in names && Held(corpus, c)
    requires forall d :: d in names && Held(corpus, d) ==> d == c
    ensures LinkCall(corpus, call, offsets, names) == LinkFrom(corpus, call, offsets, c)
  {
    var found := Found(corpus, names);
    assert found == {c};
  }

  /** No held candidate: the call is not linked and hands nothing on. */
  lemma NoHeldCandidateUnlinked(corpus: Corpus, call: Call, offsets: (int, int), names: set<string>)
    requires forall d :: d in names ==> !Held(corpus, d)
    ensures LinkCall(corpus, call, offsets, names) == Run([], Ok(None))
  {
    assert Found(corpus, names) == {};
  }

  /**
   * A bare call and a call on `this` resolve against this class: walked from
   * when the corpus holds it, unlinked otherwise.
   */
  lemma OwnClassCall(env: Env, call: Call, ancestors: seq<Node>)
    requires call.receiver.NoReceiver? || call.receiver.ThisReceiver?
    requires SpanOffsets(env.lineSizes, call.nameSpan).Some?
    ensures var offsets := SpanOffsets(env.lineSizes, call.nameSpan).value;
      ResolveCall(env, call, ancestors) ==
        if Held(env.corpus, env.className) then LinkFrom(env.corpus, call, offsets, env.className)
        else Run([], Ok(None))
  {
    var offsets := SpanOffsets(env.lineSizes, call.nameSpan).value;
    if Held(env.corpus, env.className) {
      OneHeldCandidateWalks(env.corpus, call, offsets, {env.className}, env.className);
    } else {
      NoHeldCandidateUnlinked(env.corpus, call, offsets, {env.className});
    }
    assert [] + LinkCall(env.corpus, call, offsets, {env.className}).links ==
      LinkCall(env.corpus, call, offsets, {env.className}).links;
  }

  /**
   * `super.m()` resolves against the superclass named in this class's
   * metadata: walked from its class file when the corpus holds it.
   */
  lemma SuperCallWalksFromSuperclass(env: Env, call: Call, ancestors: seq<Node>)
    requires call.receiver.SuperReceiver? && env.className in env.corpus.current.classes
    requires SpanOffsets(env.lineSizes, call.nameSpan).Some?
    requires Held(env.corpus, env.corpus.current.classes[env.className].superName + ".class")
    ensures var offsets := SpanOffsets(env.lineSizes, call.nameSpan).value;
      var superFile := env.corpus.current.classes[env.className].superName + ".class";
      ResolveCall(env, call, ancestors) == LinkFrom(env.corpus, call, offsets, superFile)
  {
    var offsets := SpanOffsets(env.lineSizes, call.nameSpan).value;
    var superFile := env.corpus.current.classes[env.className].superName + ".class";
    OneHeldCandidateWalks(env.corpus, call, offsets, {superFile}, superFile);
    assert [] + LinkCall(env.corpus, call, offsets, {superFile}).links == LinkCall(env.corpus, call, offsets, {superFile}).links;
  }

  /**
   * The candidate set of `super.m()` as the source builds it: the
   * superclass's internal name with no ".class".
   */
  function SuperCandidatesAsWritten(env: Env): Outcome<set<string>> {
    if env.className in env.corpus.current.classes
    then Ok({env.corpus.current.classes[env.className].superName})
    else Abort(MissingOwnClass)
  }

  /** Every entry of every archive is a class file. */
  predicate ClassFilesOnly(corpus: Corpus) {
    && (forall f :: f in corpus.current.files ==> EndsWith(f, ".class"))
    && (forall k, f :: 0 <= k < |corpus.archives| && f in corpus.archives[k].files ==> EndsWith(f, ".class"))
  }

  /**
   * As written, `super.m()` is never linked: the bare internal name it
   * looks up is no entry of a corpus of class files.
   */
  lemma SuperCallAsWrittenUnlinked(env: Env, call: Call, offsets: (int, int))
    requires env.className in env.corpus.current.classes && ClassFilesOnly(env.corpus)
    requires !EndsWith(env.corpus.current.classes[env.className].superName, ".class")
    ensures LinkCall(env.corpus, call, offsets, SuperCandidatesAsWritten(env).value) == Run([], Ok(None))
  {
    var superName := env.corpus.current.classes[env.className].superName;
    FileForChoice(env.corpus, superName);
    NoHeldCandidateUnlinked(env.corpus, call, offsets, {superName});
  }

  /** A call on a field access has no candidate: it is never linked and hands nothing on. */
  lemma FieldReceiverUnlinked(env: Env, call: Call, ancestors: seq<Node>)
    requires call.receiver.FieldReceiver?
    ensures ResolveCall(env, call, ancestors).links == []
    ensures ResolveCall(env, call, ancestors).outcome ==
      if SpanOffsets(env.lineSizes, call.nameSpan).None? then Abort(LineOutOfRange) else Ok(None)
  {
    if SpanOffsets(env.lineSizes, call.nameSpan).Some? {
      NoHeldCandidateUnlinked(env.corpus, call, SpanOffsets(env.lineSizes, call.nameSpan).value, {});
    }
  }

  /**
   * A call chained on a call that hands nothing on (void, unresolved or
   * not a class) is not linked: only the inner call's links are made.
   */
  lemma ChainOnNothingUnlinked(env: Env, call: Call, ancestors: seq<Node>)
    requires call.receiver.CallReceiver?
    requires ResolveCall(env, call.receiver.call, [CallExpr(call)] + ancestors).outcome == Ok(None)
    requires SpanOffsets(env.lineSizes, call.nameSpan).Some?
    ensures ResolveCall(env, call, ancestors) ==
      Run(ResolveCall(env, call.receiver.call, [CallExpr(call)] + ancestors).links, Ok(None))
  {
    NoHeldCandidateUnlinked(env.corpus, call, SpanOffsets(env.lineSizes, call.nameSpan).value, {});
    var inner := ResolveCall(env, call.receiver.call, [CallExpr(call)] + ancestors);
    assert inner.links + [] == inner.links;
  }

  /**
   * A call chained on one that hands on a held class file is walked from
   * that file, after the inner call's links.
   */
  lemma ChainOnClassWalks(env: Env, call: Call, ancestors: seq<Node>, c: string)
    requires call.receiver.CallReceiver?
    requires ResolveCall(env, call.receiver.call, [CallExpr(call)] + ancestors).outcome == Ok(Some(c))
    requires SpanOffsets(env.lineSizes, call.nameSpan).Some? && Held(env.corpus, c)
    ensures var inner := ResolveCall(env, call.receiver.call, [CallExpr(call)] + ancestors);
      var linked := LinkFrom(env.corpus, call, SpanOffsets(env.lineSizes, call.nameSpan).value, c);
      ResolveCall(env, call, ancestors) == Run(inner.links + linked.links, linked.outcome)
  {
    OneHeldCandidateWalks(env.corpus, call, SpanOffsets(env.lineSizes, call.nameSpan).value, {c}, c);
  }

  /**
   * The candidates for a static type (a local's or a cast's): the imports
   * that name the type, and java/lang's class of that name.
   */
  lemma ClassTypeCandidatesMembers(imports: seq<Import>, t: Type, c: string)
    requires Unwrap(t).ClassOrInterface?
    ensures var name := Unwrap(t).classType.name;
      c in ClassTypeCandidates(imports, t).value <==>
        c == "java/lang/" + name + ".class" || exists i :: 0 <= i < |imports| && Provides(imports[i], name, c)
  {
    var name := Unwrap(t).classType.name;
    if c in ImportedNamed(imports, name) {
      ImportedNamedOnly(imports, name, c);
    }
    if exists i :: 0 <= i < |imports| && Provides(imports[i], name, c) {
      var i :| 0 <= i < |imports| && Provides(imports[i], name, c);
      ImportedNamedHas(imports, name, i);
    }
  }

  /**
   * The local search reports what the first ancestor with a declaration of
   * x (or a fault) gives, every ancestor before it having none; it finds
   * nothing exactly when no ancestor has one.
   */
  lemma {:induction false} LocalTypesFirstMatch(x: string, ancestors: seq<Node>)
    ensures var r := LocalTypes(x, ancestors);
      && (r == Ok([]) <==> forall k :: 0 <= k < |ancestors| ==> Scan(ancestors[k], x) == Ok([]))
      && (r != Ok([]) ==>
            exists j :: (0 <= j < |ancestors| && Scan(ancestors[j], x) == r &&
              forall k :: 0 <= k < j ==> Scan(ancestors[k], x) == Ok([])))
  {
    if |ancestors| > 0 {
      var rest := ancestors[1..];
      LocalTypesFirstMatch(x, rest);
      var r := LocalTypes(x, ancestors);
      var first := Scan(ancestors[0], x);
      if first == Ok([]) {
        assert r == LocalTypes(x, rest);
        forall k | 1 <= k < |ancestors|
          ensures Scan(ancestors[k], x) == Scan(rest[k - 1], x)
        {
        }
        if r != Ok([]) {
          var j :| 0 <= j < |rest| && Scan(rest[j], x) == r && forall k :: 0 <= k < j ==> Scan(rest[k], x) == Ok([]);
          assert Scan(ancestors[j + 1], x) == r;
        }
      } else {
        assert r == first;
      }
    }
  }

  /**
   * A receiver name collects from every source at once: the imports that
   * name it, java/lang, this class when the name is its simple name, and
   * its local's type; none takes precedence.
   */
  lemma NameCandidatesSources(env: Env, x: string, ancestors: seq<Node>)
    requires NameCandidates(env, x, ancestors).Ok?
    ensures var names := NameCandidates(env, x, ancestors).value;
      && ImportedNamed(env.imports, x) <= names
      && "java/lang/" + x + ".class" in names
      && (x == env.simpleName ==> env.className in names)
      && (LocalTypes(x, ancestors).value != [] ==> ClassTypeCandidates(env.imports, LocalTypes(x, ancestors).value[0]).value <= names)
  {
  }

  /**
   * A local variable does not shadow an import of the same name: when the
   * local's type and the import both resolve to held classes that differ,
   * the call is left unlinked.
   */
  lemma LocalDoesNotShadowImport(env: Env, call: Call, ancestors: seq<Node>, t: Type, i: nat)
    requires call.receiver.NameReceiver? && '.' !in call.receiver.name
    requires LocalTypes(call.receiver.name, ancestors) == Ok([t]) && Unwrap(t).ClassOrInterface?
    requires i < |env.imports| && LastSegment(env.imports[i].name) == call.receiver.name
    requires SpanOffsets(env.lineSizes, call.nameSpan).Some?
    requires var local := "java/lang/" + Unwrap(t).classType.name + ".class";
      var imported := InternalName(env.imports[i].name) + ".class";
      local != imported && Held(env.corpus, local) && Held(env.corpus, imported)
    ensures ResolveCall(env, call, ancestors) == Run([], Ok(None))
  {
    var x := call.receiver.name;
    var local := "java/lang/" + Unwrap(t).classType.name + ".class";
    var imported := InternalName(env.imports[i].name) + ".class";
    ImportedNamedHas(env.imports, x, i);
    var names := NameCandidates(env, x, ancestors).value;
    assert local in names && imported in names;
    TwoHeldCandidatesUnlinked(env.corpus, call, SpanOffsets(env.lineSizes, call.nameSpan).value, names, local, imported);
  }

  // ------------------------------------------------------- superclass walk

  /** The archive getFileFor returns for `loc.1` is the one named `loc.0`. */
  predicate HeldAt(corpus: Corpus, loc: (string, string)) {
    FileFor(corpus, loc.1).Some? && FileFor(corpus, loc.1).value.name == loc.0
  }

  /**
   * The class file `file`, held by the archive getFileFor returns, has
   * metadata whose first method named `m` hands on `further`.
   */
  predicate DeclaresFirst(corpus: Corpus, file: string, m: string, further: Option<string>) {
    && FileFor(corpus, file).Some?
    && file in FileFor(corpus, file).value.classes
    && var methods := FileFor(corpus, file).value.classes[file].methods;
      && FirstMethodNamed(methods, m).Some?
      && FurtherType(methods[FirstMethodNamed(methods, m).value].descriptor) == further
  }

  /** Every class the walk locates is held by the archive recorded with it. */
  lemma {:induction false} WalkLocatesHeldClasses(corpus: Corpus, start: string, m: string, visited: set<string>)
    requires visited <= AllFiles(corpus)
    ensures var w := Walk(corpus, start, m, visited);
      w.Located? ==> forall i :: 0 <= i < |w.classes| ==> HeldAt(corpus, w.classes[i])
    decreases AllFiles(corpus) - visited
  {
    var file := start + ".class";
    var w := Walk(corpus, start, m, visited);
    if w.Located? && FileFor(corpus, file).Some? && file !in visited && file in FileFor(corpus, file).value.classes {
      var info := FileFor(corpus, file).value.classes[file];
      if FirstMethodNamed(info.methods, m).None? && start != "java/lang/Object" {
        WalkLocatesHeldClasses(corpus, info.superName, m, visited + {file});
      }
    }
  }

  /**
   * When the walk hands a class on, the last class it located declares the
   * called method, and that method's return type is what it hands on.
   */
  lemma {:induction false} WalkFindsDeclaringClass(corpus: Corpus, start: string, m: string, visited: set<string>)
    requires visited <= AllFiles(corpus)
    ensures var w := Walk(corpus, start, m, visited);
      w.Located? && w.further.Some? ==>
        |w.classes| > 0 && DeclaresFirst(corpus, w.classes[|w.classes| - 1].1, m, w.further)
    decreases AllFiles(corpus) - visited
  {
    var file := start + ".class";
    var w := Walk(corpus, start, m, visited);
    if w.Located? && FileFor(corpus, file).Some? && file !in visited && file in FileFor(corpus, file).value.classes {
      var info := FileFor(corpus, file).value.classes[file];
      if FirstMethodNamed(info.methods, m).None? && start != "java/lang/Object" {
        WalkFindsDeclaringClass(corpus, info.superName, m, visited + {file});
      }
    }
  }

  /**
   * One round of the walk that goes on to the superclass: `file` is held,
   * has metadata, none of its methods is named `m`, it is not
   * java/lang/Object, and `next` is its superclass's class file.
   */
  predicate SuperStep(corpus: Corpus, m: string, file: string, next: string) {
    && FileFor(corpus, file).Some?
    && file in FileFor(corpus, file).value.classes
    && var info := FileFor(corpus, file).value.classes[file];
      && FirstMethodNamed(info.methods, m).None?
      && file != "java/lang/Object" + ".class"
      && next == info.superName + ".class"
  }

  /** A located walk's first class is the class it started from. */
  lemma WalkHead(corpus: Corpus, start: string, m: string, visited: set<string>)
    requires visited <= AllFiles(corpus)
    ensures var w := Walk(corpus, start, m, visited);
      w.Located? && |w.classes| > 0 ==> w.classes[0].1 == start + ".class"
  {
  }

  /** Different names stay different once ".class" is appended. */
  lemma SuffixCancel(a: string, b: string, suffix: string)
    requires a + suffix == b + suffix
    ensures a == b
  {
    assert |a| == |b|;
    assert a == (a + suffix)[..|a|];
    assert b == (b + suffix)[..|b|];
  }

  /**
   * The walk follows the superclass chain: every located class but the
   * last lacks the method, is not java/lang/Object, and is followed by
   * its own superclass.
   */
  lemma {:induction false} WalkFollowsSuperclassChain(corpus: Corpus, start: string, m: string, visited: set<string>)
    requires visited <= AllFiles(corpus)
    ensures var w := Walk(corpus, start, m, visited);
      w.Located? ==> forall i :: 0 <= i < |w.classes| - 1 ==> SuperStep(corpus, m, w.classes[i].1, w.classes[i + 1].1)
    decreases AllFiles(corpus) - visited
  {
    var file := start + ".class";
    var w := Walk(corpus, start, m, visited);
    if w.Located? && FileFor(corpus, file).Some? && file !in visited && file in FileFor(corpus, file).value.classes {
      var a := FileFor(corpus, file).value;
      var info := a.classes[file];
      if FirstMethodNamed(info.methods, m).None? && start != "java/lang/Object" {
        var rest := Walk(corpus, info.superName, m, visited + {file});
        WalkFollowsSuperclassChain(corpus, info.superName, m, visited + {file});
        WalkHead(corpus, info.superName, m, visited + {file});
        assert w.classes == [(a.name, file)] + rest.classes;
        if file == "java/lang/Object" + ".class" {
          SuffixCancel(start, "java/lang/Object", ".class");
        }
        forall i | 0 <= i < |w.classes| - 1
          ensures SuperStep(corpus, m, w.classes[i].1, w.classes[i + 1].1)
        {
          if i > 0 {
            assert w.classes[i] == rest.classes[i - 1] && w.classes[i + 1] == rest.classes[i];
          }
        }
      }
    }
  }

  /**
   * Where the last located class leaves the walk with nothing to hand on:
   * it has no metadata; its first method named `m` returns no class; or it
   * lacks the method and is java/lang/Object or has a superclass no
   * archive holds.
   */
  predicate EndsEmptyHanded(corpus: Corpus, m: string, file: string) {
    && FileFor(corpus, file).Some?
    && var a := FileFor(corpus, file).value;
      || file !in a.classes
      || (var info := a.classes[file];
          match FirstMethodNamed(info.methods, m)
          case Some(k) => FurtherType(info.methods[k].descriptor).None?
          case None => file == "java/lang/Object" + ".class" || !Held(corpus, info.superName + ".class"))
  }

  /**
   * A walk that hands nothing on located no class because the start is not
   * held, or stopped at a class that leaves it empty-handed.
   */
  lemma {:induction false} WalkEndsEmptyHanded(corpus: Corpus, start: string, m: string, visited: set<string>)
    requires visited <= AllFiles(corpus)
    ensures var w := Walk(corpus, start, m, visited);
      w.Located? && w.further.None? ==>
        (|w.classes| == 0 && !Held(corpus, start + ".class")) ||
        (|w.classes| > 0 && EndsEmptyHanded(corpus, m, w.classes[|w.classes| - 1].1))
    decreases AllFiles(corpus) - visited
  {
    var file := start + ".class";
    var w := Walk(corpus, start, m, visited);
    if w.Located? && FileFor(corpus, file).Some? && file !in visited && file in FileFor(corpus, file).value.classes {
      var a := FileFor(corpus, file).value;
      var info := a.classes[file];
      if FirstMethodNamed(info.methods, m).None? && start != "java/lang/Object" {
        var rest := Walk(corpus, info.superName, m, visited + {file});
        WalkEndsEmptyHanded(corpus, info.superName, m, visited + {file});
        assert w.classes == [(a.name, file)] + rest.classes;
      }
    }
  }

  /** The walk stops at java/lang/Object: from there it locates Object alone. */
  lemma WalkStopsAtObject(corpus: Corpus, m: string, visited: set<string>)
    requires visited <= AllFiles(corpus)
    requires Held(corpus, "java/lang/Object.class") && "java/lang/Object.class" !in visited
    ensures Walk(corpus, "java/lang/Object", m, visited).Located?
    ensures |Walk(corpus, "java/lang/Object", m, visited).classes| == 1
  {
    assert "java/lang/Object" + ".class" == "java/lang/Object.class";
  }

  /**
   * From a held class the walk locates at least that class first, unless
   * the chain comes back to a class it left.
   */
  lemma WalkStartsAtStart(corpus: Corpus, start: string, m: string)
    requires Held(corpus, start + ".class")
    ensures var w := Walk(corpus, start, m, {});
      w.Located? ==> |w.classes| > 0 && w.classes[0].1 == start + ".class"
  {
    var file := start + ".class";
    var w := Walk(corpus, start, m, {});
    assert file in AllFiles(corpus);
    if w.Located? && file in FileFor(corpus, file).value.classes {
      var info := FileFor(corpus, file).value.classes[file];
      if FirstMethodNamed(info.methods, m).None? && start != "java/lang/Object" {
        assert {} + {file} == {file};
        var rest := Walk(corpus, info.superName, m, {file});
        assert w == Prefixed([(FileFor(corpus, file).value.name, file)], rest);
      }
    }
  }

  /**
   * A class that names itself as its superclass and lacks the method sends
   * the source's walk round for ever: the model reports it as endless.
   */
  lemma SelfSuperclassEndless(corpus: Corpus, start: string, m: string)
    requires start != "java/lang/Object" && Held(corpus, start + ".class")
    requires start + ".class" in FileFor(corpus, start + ".class").value.classes
    requires var info := FileFor(corpus, start + ".class").value.classes[start + ".class"];
      info.superName == start && FirstMethodNamed(info.methods, m).None?
    ensures Walk(corpus, start, m, {}) == Endless
  {
    var file := start + ".class";
    assert file in AllFiles(corpus);
    assert Walk(corpus, start, m, {file}) == Endless;
  }

  /**
   * The walk's links: one per located class, all showing the last located
   * class and its archive, with " name(" as where to jump.
   */
  lemma WalkLinksShowLastClass(span: Span, offsets: (int, int), name: string, classes: seq<(string, string)>)
    requires |classes| > 0
    ensures var links := WalkLinks(span, offsets, name, classes);
      |links| == |classes| &&
      forall i :: 0 <= i < |links| ==>
        links[i].className == classes[|classes| - 1].1 && links[i].fileName == classes[|classes| - 1].0 &&
        links[i].jumpTo == " " + name + "(" && links[i].start == offsets.0 && links[i].end == offsets.1
  {
  }

  /** A method returning a primitive hands nothing on. */
  lemma PrimitiveReturn(params: string, p: char)
    requires ')' !in params && p in "ZCBSIFJD"
    ensures FurtherType("(" + params + ")" + [p]) == None
  {
    ReturnPart(params, [p]);
  }
}
