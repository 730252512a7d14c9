# Helios decompile-task cross-reference resolver, in Dafny

Helios shows a decompiled class as Java text. `DecompileTask` then walks the parsed
compilation unit and fills the text area's link table. Each link is a clickable span of the text
that leads to a class file in one of the loaded archives, with a string to jump to inside that
class. This project models the part of `DecompileTask` that builds those links and proves what
the links are:

- the class's simple name, derived in the constructor;
- `handle`: the table of line sizes taken from the text, one link per resolvable import, and a
  traversal of the tree that visits every class-type node and every method call in the visitor's
  order;
- `getOffsets`: from a parser (line, column) to an offset into the text;
- `getFileFor`: which archive holds a class file (the task's own archive first, then the other
  loaded archives and classpath entries);
- `handleClassOrInterfaceType`: the candidate class files of a type reference, linked when the
  corpus holds exactly one;
- `recursivelyHandleNameExpr`: the candidate classes of a call's receiver (bare, `this`, `super`,
  a name, a cast, a chained call or a field access), then the superclass walk from the single
  held candidate to the class that declares the method, and the class its method returns.

Modules:

- `Common` (`common.dfy`): `Option`, the exceptions that end a pass (`Fault`) and `Outcome`.
- `JavaText` (`java_text.dfy`): the `java.lang.String` operations the code uses.
- `Syntax` (`syntax.dfy`): the compilation unit: imports, class types with their qualifiers and
  type arguments, calls with their receivers, declarations.
- `OffsetIndex` (`offset_index.dfy`): `getOffsets` as functions.
- `ClassCorpus` (`corpus.dfy`): archives and class metadata, and `getFileFor`.
- `Descriptors` (`descriptors.dfy`): the return type of a method descriptor, following section
  4.3.3 of the Java Virtual Machine Specification.
- `Resolver` (`resolver.dfy`): what one pass produces, as functions of the document, its imports
  and the corpus. It covers the import links, the type-reference links, the candidate rules, the
  superclass walk and the traversal.
- `Tasks` (`decompile_task.dfy`): the class `DecompileTask`, with the `lineSizes` field and the
  link table as state. Its methods follow the source's loops, and each is proved equal to the
  `Resolver` function for that step.
- `ResolverFacts` (`resolver_facts.dfy`): the properties the code promises, proved over those
  functions.

The source throws uncaught exceptions in several places. Examples are a line past the end of
`lineSizes`, a class held twice in the type path's `Collectors.toMap`, a declaration of several
variables met by the local-variable search, and a receiver name containing '.'. Each of these
ends the pass. The model gives it as `Abort(fault)`, and the links appended before it stay in the
table.

Where the behaviour differs from what a reader might expect, the model follows the code:

- A type reference that the corpus holds once but that appears twice in the candidate list does
  not simply go unlinked. One example is an explicit `import java.lang.String;`. Such a reference
  stops the pass, because `toMap` rejects the repeated key.
- A receiver name collects candidates from its local's type, this class, the imports and
  java/lang all at once. A local therefore does not shadow an import of the same name.
- A superclass chain that comes back to a class it already left would loop for ever in the
  source. The model reports it as `Endless`.

The model departs from the code in one place: the candidate for `super.m()`. The source
looks up the superclass's bare internal name, which no archive entry matches, so such a call
is never linked (see "Findings"). The model's pass uses the corrected candidate instead, the
superclass's class file, so it walks from the superclass. The code as written is modelled
beside it, by `ResolverFacts.SuperCandidatesAsWritten` and `ResolverFacts.SuperCallAsWrittenUnlinked`.

## Model

| member | source | states |
|---|---|---|
| Tasks.SimpleName | src/main/java/com/samczsun/helios/tasks/DecompileTask.java:78-84 | a name without '/' is kept whole; the result never contains '/'; it fails exactly when fewer than six characters follow the last '/' |
| ResolverFacts.SimpleNameOfClassFile | src/main/java/com/samczsun/helios/tasks/DecompileTask.java:78-84 | the simple name of `pkg/Name.class` is `Name` |
| Tasks.DecompileTask.constructor | src/main/java/com/samczsun/helios/tasks/DecompileTask.java:71-85 | the task starts with the corpus, the class name, its simple name, no line sizes and no links |
| JavaText.LastIndexOf | src/main/java/com/samczsun/helios/tasks/DecompileTask.java:80 | -1 exactly when the character is absent; otherwise a position holding it, with none after it |
| ResolverFacts.LastIndexOfAt | src/main/java/com/samczsun/helios/tasks/DecompileTask.java:80 | a position holding the character, with none after it, is what lastIndexOf reports |
| JavaText.IndexOf | src/main/java/com/samczsun/helios/tasks/DecompileTask.java:893-896 | -1 exactly when the character is absent; otherwise a position holding it, with none before it |
| JavaText.ReplaceAt | src/main/java/com/samczsun/helios/tasks/DecompileTask.java:154 | each character of replace(from, to) is `to` where the original was `from`, and unchanged elsewhere |
| ResolverFacts.ReplaceAppend | src/main/java/com/samczsun/helios/tasks/DecompileTask.java:154 | replace distributes over concatenation |
| ResolverFacts.ReplaceAbsent | src/main/java/com/samczsun/helios/tasks/DecompileTask.java:154 | replacing a character the text lacks changes nothing |
| JavaText.InternalNameUndotted | src/main/java/com/samczsun/helios/tasks/DecompileTask.java:154 | the internal name keeps the dotted name's length and contains no '.' |
| ResolverFacts.ImportedClassName | src/main/java/com/samczsun/helios/tasks/DecompileTask.java:693-696 | the import `p.X` has internal name `p'/X`, where p' is p with '/' for '.', and last identifier `X` |
| ResolverFacts.ImportedInternalName | src/main/java/com/samczsun/helios/tasks/DecompileTask.java:154 | the internal name of `p.X` is the package's internal name, then '/', then `X` |
| JavaText.LastSegmentSuffix | src/main/java/com/samczsun/helios/tasks/DecompileTask.java:693 | a qualified name's last identifier is a '.'-free suffix of it, and an undotted name is its own |
| JavaText.JavaSplit | src/main/java/com/samczsun/helios/tasks/DecompileTask.java:147 | split("\n") gives a prefix of the newline-separated pieces; a text without a newline is one piece |
| JavaText.DropTrailingEmpty | src/main/java/com/samczsun/helios/tasks/DecompileTask.java:147 | only trailing empty pieces are dropped, and the result does not end with one |
| JavaText.Segments | src/main/java/com/samczsun/helios/tasks/DecompileTask.java:147 | at least one piece, and no piece holds a newline |
| JavaText.JoinSegments | src/main/java/com/samczsun/helios/tasks/DecompileTask.java:147 | joining the pieces with '\n' gives the text back, so the pieces cover the text and every newline separates two of them |
| JavaText.NoNewlineIsOneSegment | src/main/java/com/samczsun/helios/tasks/DecompileTask.java:147 | a text without a newline is a single piece |
| JavaText.Lengths | src/main/java/com/samczsun/helios/tasks/DecompileTask.java:148 | one size per line, each the length of that line |
| Tasks.DecompileTask.RecordLineSizes | src/main/java/com/samczsun/helios/tasks/DecompileTask.java:147-149 | lineSizes grows by the length of every line of split("\n"), in order |
| OffsetIndex.PrefixLength | src/main/java/com/samczsun/helios/tasks/DecompileTask.java:949-951 | the first n lines take at least n characters, one newline each |
| OffsetIndex.PrefixLengthStep | src/main/java/com/samczsun/helios/tasks/DecompileTask.java:949-951 | one more line adds its size plus its newline |
| OffsetIndex.PrefixLengthMonotone | src/main/java/com/samczsun/helios/tasks/DecompileTask.java:949-951 | more lines never give a smaller total, and each adds at least one |
| OffsetIndex.PrefixLengthOfPrefix | src/main/java/com/samczsun/helios/tasks/DecompileTask.java:949-951 | the total over n lines reads only the first n sizes |
| OffsetIndex.LineOffset | src/main/java/com/samczsun/helios/tasks/DecompileTask.java:949-952 | fails exactly for a line beyond lineSizes' length + 1, where the source indexes past the end |
| OffsetIndex.SpanOffsets | src/main/java/com/samczsun/helios/tasks/DecompileTask.java:947-960 | defined exactly when both lines are in range; start and end are the offsets of the begin and end positions |
| Tasks.DecompileTask.GetOffsets | src/main/java/com/samczsun/helios/tasks/DecompileTask.java:947-960 | the two summing loops compute SpanOffsets of the current lineSizes, failing where the source indexes past the end |
| ResolverFacts.OffsetFormula | src/main/java/com/samczsun/helios/tasks/DecompileTask.java:947-952 | the offset is the sum of size + 1 over every line before the position's line, plus column - 1 |
| ResolverFacts.PrefixLengthIsRunningTotal | src/main/java/com/samczsun/helios/tasks/DecompileTask.java:948-951 | the total equals the loop's running sum, taken one line at a time |
| OffsetIndex.OffsetStrictlyMonotone | src/main/java/com/samczsun/helios/tasks/DecompileTask.java:949-952 | while columns lie on their lines, a lexicographically later position has a strictly larger offset |
| ResolverFacts.OffsetMonotone | src/main/java/com/samczsun/helios/tasks/DecompileTask.java:949-952 | while columns lie on their lines, a later or equal position never has a smaller offset |
| OffsetIndex.SegmentsAt | src/main/java/com/samczsun/helios/tasks/DecompileTask.java:147-149 | character j of piece i sits at index PrefixLength(i) + j of the text |
| OffsetIndex.SegmentsAtNewline | src/main/java/com/samczsun/helios/tasks/DecompileTask.java:147-149 | the same, for a text starting with a newline |
| OffsetIndex.SegmentsAtCharacter | src/main/java/com/samczsun/helios/tasks/DecompileTask.java:147-149 | the same, for a text starting with another character |
| OffsetIndex.OffsetIndexesText | src/main/java/com/samczsun/helios/tasks/DecompileTask.java:947-952 | with lineSizes taken from the text, the offset of (line, column) indexes exactly that character of the text |
| ClassCorpus.FirstContaining | src/main/java/com/samczsun/helios/tasks/DecompileTask.java:938-942 | the position found lies within the archive list |
| ClassCorpus.FirstContainingChoice | src/main/java/com/samczsun/helios/tasks/DecompileTask.java:938-942 | the archive found holds the file, no earlier one does, and none is found exactly when no archive holds it |
| ClassCorpus.FileForChoice | src/main/java/com/samczsun/helios/tasks/DecompileTask.java:930-945 | the current archive wins when it holds the file; otherwise the first holder in enumeration order; null exactly when no archive holds it |
| ClassCorpus.FileFor | src/main/java/com/samczsun/helios/tasks/DecompileTask.java:930-945 | getFileFor itself; what it returns is stated by FileForChoice |
| ClassCorpus.AllFiles | src/main/java/com/samczsun/helios/tasks/DecompileTask.java:930-945 | every file getFileFor can find is among the corpus's entries |
| ClassCorpus.FirstMethodNamed | src/main/java/com/samczsun/helios/tasks/DecompileTask.java:845 | the position found lies within the method list |
| ClassCorpus.FirstMethodNamedChoice | src/main/java/com/samczsun/helios/tasks/DecompileTask.java:845 | findFirst yields a method with the name, none earlier has it, and none exactly when no method has it |
| Resolver.ImportLink | src/main/java/com/samczsun/helios/tasks/DecompileTask.java:151-168 | a wildcard adds nothing; otherwise one link exactly when an archive holds the import's class file and the position is in range; the link names that file, jumps to "", points to the first holder, and carries the declaration's line, column and text offsets; the pass aborts exactly when the class is held but the position is out of range |
| Resolver.ImportLinks | src/main/java/com/samczsun/helios/tasks/DecompileTask.java:150-169 | the import loop as a function: each declaration's links in order, stopping at the first that throws; stated by ImportLinksShape and ImportLinksStop |
| Tasks.DecompileTask.FirstHolder | src/main/java/com/samczsun/helios/tasks/DecompileTask.java:158-168 | the import loop's search finds the first archive holding the file |
| Tasks.DecompileTask.HandleImport | src/main/java/com/samczsun/helios/tasks/DecompileTask.java:152-168 | appends exactly ImportLink's links and ends as it does |
| Tasks.DecompileTask.HandleImports | src/main/java/com/samczsun/helios/tasks/DecompileTask.java:150-169 | appends the import links of every declaration in order, and stops where one fails |
| Tasks.ImportLinksStop | src/main/java/com/samczsun/helios/tasks/DecompileTask.java:151-169 | once an import has thrown, the later imports add nothing |
| ResolverFacts.ImportLinksShape | src/main/java/com/samczsun/helios/tasks/DecompileTask.java:150-169 | at most one link per import, and each link is the target of some non-wildcard import |
| ResolverFacts.ImportWithoutHolderUnlinked | src/main/java/com/samczsun/helios/tasks/DecompileTask.java:153-168 | a wildcard import, or one no archive holds, adds no link |
| Tasks.DecompileTask.Handle | src/main/java/com/samczsun/helios/tasks/DecompileTask.java:146-170 | records the line sizes, then appends the import links and every link of the tree in order, ending as the pass does |
| Tasks.BuildFullName | src/main/java/com/samczsun/helios/tasks/DecompileTask.java:879-890 | the qualifier loop builds the dotted full name of the type, outermost identifier first |
| Tasks.ImportsTypeNames | src/main/java/com/samczsun/helios/tasks/DecompileTask.java:900-910 | the import loop adds every import's candidates, in import order |
| Resolver.FullName | src/main/java/com/samczsun/helios/tasks/DecompileTask.java:879-890 | the dotted full name of a type with its qualifiers; BuildFullName is proved to compute it |
| Resolver.ImportTypeCandidates | src/main/java/com/samczsun/helios/tasks/DecompileTask.java:900-910 | the candidates one import contributes; stated through ImportsTypeCandidatesMembers |
| Resolver.TypeCandidates | src/main/java/com/samczsun/helios/tasks/DecompileTask.java:898-911 | the candidate list of a type reference; stated by TypeCandidatesMembers |
| Tasks.PossibleTypeNames | src/main/java/com/samczsun/helios/tasks/DecompileTask.java:890-911 | the candidate list is the imports' candidates, then java/lang's class of that name |
| ResolverFacts.ImportsTypeCandidatesHas | src/main/java/com/samczsun/helios/tasks/DecompileTask.java:900-910 | every candidate an import contributes is in the list |
| ResolverFacts.ImportsTypeCandidatesOnly | src/main/java/com/samczsun/helios/tasks/DecompileTask.java:900-910 | every import candidate comes from some import |
| ResolverFacts.ImportsTypeCandidatesMembers | src/main/java/com/samczsun/helios/tasks/DecompileTask.java:900-910 | a name is an import candidate if and only if some import provides it |
| ResolverFacts.TypeCandidatesMembers | src/main/java/com/samczsun/helios/tasks/DecompileTask.java:898-911 | the candidates are exactly what the imports provide (own class, or `$`-joined nested class) and java/lang's class of the name |
| Resolver.FoundNamesMembers | src/main/java/com/samczsun/helios/tasks/DecompileTask.java:913-915 | the candidates kept by the filter are exactly the candidates some archive holds |
| Tasks.RepeatedHeld | src/main/java/com/samczsun/helios/tasks/DecompileTask.java:913-915 | a held candidate met a second time makes the collected keys repeat |
| Tasks.MapFound | src/main/java/com/samczsun/helios/tasks/DecompileTask.java:913-915 | toMap fails exactly when a held candidate repeats; otherwise it maps each held candidate, and only those, to its getFileFor archive |
| Resolver.TypeLink | src/main/java/com/samczsun/helios/tasks/DecompileTask.java:913-927 | the link step of a type reference: stated by TypeReferenceLinks and TypeReferenceTarget |
| Resolver.TypeReference | src/main/java/com/samczsun/helios/tasks/DecompileTask.java:874-928 | handleClassOrInterfaceType as a function; stated by TypeReferenceLinks, TypeReferenceTarget, AmbiguousTypeUnlinked and ExplicitJavaLangImportStops |
| Tasks.DecompileTask.LinkClassType | src/main/java/com/samczsun/helios/tasks/DecompileTask.java:913-927 | appends the one link TypeLink gives for the held candidates, and ends as it does |
| Tasks.DecompileTask.HandleClassOrInterfaceType | src/main/java/com/samczsun/helios/tasks/DecompileTask.java:874-928 | appends exactly the type reference's links and ends as it does |
| ResolverFacts.TypeReferenceLinks | src/main/java/com/samczsun/helios/tasks/DecompileTask.java:913-927 | at most one link; one exactly when the position is in range and one candidate is held; the pass stops exactly when the position is out of range or a held candidate repeats |
| ResolverFacts.TypeReferenceTarget | src/main/java/com/samczsun/helios/tasks/DecompileTask.java:921-926 | the link jumps to " Name ", names a held candidate, points to its getFileFor archive, and starts at the node's offset |
| ResolverFacts.AmbiguousTypeUnlinked | src/main/java/com/samczsun/helios/tasks/DecompileTask.java:919-920 | two different held candidates leave the type reference unlinked |
| ResolverFacts.JavaLangImportCandidate | src/main/java/com/samczsun/helios/tasks/DecompileTask.java:900-904 | an import of java.lang's `Name` contributes java/lang/Name.class |
| ResolverFacts.HeldTwice | src/main/java/com/samczsun/helios/tasks/DecompileTask.java:913-915 | a held name that closes a list already containing it makes the found names repeat |
| ResolverFacts.ExplicitJavaLangImportStops | src/main/java/com/samczsun/helios/tasks/DecompileTask.java:898-915 | an explicit import of a held java.lang class makes its type reference stop the pass with a duplicate key, and adds no link |
| Resolver.Unwrap | src/main/java/com/samczsun/helios/tasks/DecompileTask.java:686-688 | the unwrapped type is not a reference (array) type |
| Tasks.UnwrapType | src/main/java/com/samczsun/helios/tasks/DecompileTask.java:686-688 | the unwrapping loop strips every reference-type wrapper |
| Resolver.ImportedNamedHas | src/main/java/com/samczsun/helios/tasks/DecompileTask.java:692-698 | every import whose last identifier is the name contributes its class file |
| Resolver.ImportedNamedOnly | src/main/java/com/samczsun/helios/tasks/DecompileTask.java:692-698 | every contributed file comes from an import whose last identifier is the name |
| Tasks.AddImportsNamed | src/main/java/com/samczsun/helios/tasks/DecompileTask.java:720-726 | the import loop adds the class file of each import whose last identifier is the name |
| Tasks.TypeClassNames | src/main/java/com/samczsun/helios/tasks/DecompileTask.java:690-702 | a class type yields its import candidates and java/lang's class; any other type stops the pass |
| Resolver.ClassTypeCandidates | src/main/java/com/samczsun/helios/tasks/DecompileTask.java:690-702 | the candidates of a local's or cast's type; stated by ClassTypeCandidatesMembers |
| ResolverFacts.ClassTypeCandidatesMembers | src/main/java/com/samczsun/helios/tasks/DecompileTask.java:690-700 | a local's or cast's class type yields exactly java/lang's class and the files of the imports naming it |
| Tasks.CollectLocalTypes | src/main/java/com/samczsun/helios/tasks/DecompileTask.java:642-680 | scans each ancestor's subtree, the parent first, and stops at the first one declaring the name |
| Resolver.Scan | src/main/java/com/samczsun/helios/tasks/DecompileTask.java:646-678 | the declarations named x in one subtree, with the multi-variable fault; used by LocalTypes |
| Resolver.LocalTypes | src/main/java/com/samczsun/helios/tasks/DecompileTask.java:642-680 | the local-variable search as a function; stated by LocalTypesFirstMatch |
| ResolverFacts.LocalTypesFirstMatch | src/main/java/com/samczsun/helios/tasks/DecompileTask.java:642-680 | the search reports the first ancestor with a declaration (or a fault), all earlier ancestors having none, and finds nothing exactly when no ancestor has one |
| Tasks.DecompileTask.NameClassNames | src/main/java/com/samczsun/helios/tasks/DecompileTask.java:626-732 | a name receiver's candidates: its local's type, this class for the simple name, the imports and java/lang, unioned; the exceptions stop the pass |
| Resolver.NameCandidates | src/main/java/com/samczsun/helios/tasks/DecompileTask.java:626-732 | the candidates of a name receiver; stated by NameCandidatesSources and LocalDoesNotShadowImport |
| ResolverFacts.NameCandidatesSources | src/main/java/com/samczsun/helios/tasks/DecompileTask.java:642-732 | every source's candidates are in the set, whatever the others give |
| ResolverFacts.LocalDoesNotShadowImport | src/main/java/com/samczsun/helios/tasks/DecompileTask.java:632-732 | a local whose type resolves elsewhere than a same-named import leaves the call unlinked |
| Tasks.DecompileTask.ReceiverClassNames | src/main/java/com/samczsun/helios/tasks/DecompileTask.java:738-803 | the candidates of a bare, `this`, `super`, name, cast and field-access receiver |
| Resolver.ReceiverCandidates | src/main/java/com/samczsun/helios/tasks/DecompileTask.java:738-803 | the candidates of every receiver kind but a chained call; stated by OwnClassCall, SuperCallWalksFromSuperclass and FieldReceiverUnlinked |
| Resolver.SuperCandidates | src/main/java/com/samczsun/helios/tasks/DecompileTask.java:755-763 | the corrected `super.m()` candidate, the superclass's class file; stated by SuperCallWalksFromSuperclass |
| ResolverFacts.SuperCandidatesAsWritten | src/main/java/com/samczsun/helios/tasks/DecompileTask.java:761-763 | the `super.m()` candidate as written, the bare internal name; stated by SuperCallAsWrittenUnlinked |
| Tasks.DecompileTask.CollectCandidates | src/main/java/com/samczsun/helios/tasks/DecompileTask.java:614-803 | a chained receiver is resolved first, and its links come first; its return class is the candidate |
| ResolverFacts.OwnClassCall | src/main/java/com/samczsun/helios/tasks/DecompileTask.java:738-754 | a bare or `this` call is walked from this class when held, and unlinked otherwise |
| ResolverFacts.SuperCallWalksFromSuperclass | src/main/java/com/samczsun/helios/tasks/DecompileTask.java:755-763 | `super.m()` is walked from the superclass's class file when held |
| ResolverFacts.SuperCallAsWrittenUnlinked | src/main/java/com/samczsun/helios/tasks/DecompileTask.java:761-763 | as written, `super.m()` is never linked in a corpus of class files |
| ResolverFacts.FieldReceiverUnlinked | src/main/java/com/samczsun/helios/tasks/DecompileTask.java:794-803 | a call on a field access makes no link and hands nothing on |
| ResolverFacts.ChainOnNothingUnlinked | src/main/java/com/samczsun/helios/tasks/DecompileTask.java:733-737 | a call chained on one that hands nothing on makes only the inner call's links |
| ResolverFacts.ChainOnClassWalks | src/main/java/com/samczsun/helios/tasks/DecompileTask.java:733-737 | a call chained on one that hands on a held class is walked from it, after the inner call's links |
| ResolverFacts.TwoHeldCandidatesUnlinked | src/main/java/com/samczsun/helios/tasks/DecompileTask.java:804-811 | two different held candidates leave the call unlinked |
| ResolverFacts.NoHeldCandidateUnlinked | src/main/java/com/samczsun/helios/tasks/DecompileTask.java:804-809 | no held candidate leaves the call unlinked |
| ResolverFacts.OneHeldCandidateWalks | src/main/java/com/samczsun/helios/tasks/DecompileTask.java:812-815 | exactly one held candidate is the class the walk starts from |
| Resolver.LinkCall | src/main/java/com/samczsun/helios/tasks/DecompileTask.java:804-815 | the link step of a call: only a single held candidate is walked from; stated by TwoHeldCandidatesUnlinked, NoHeldCandidateUnlinked and OneHeldCandidateWalks |
| Resolver.LinkFrom | src/main/java/com/samczsun/helios/tasks/DecompileTask.java:815-870 | the walk from the resolved class and its links; stated by WalkLinksShowLastClass and the walk lemmas |
| Tasks.DecompileTask.LinkResolvedCall | src/main/java/com/samczsun/helios/tasks/DecompileTask.java:804-872 | appends the walk's links from the single held candidate, and returns what the walk hands on |
| Tasks.DecompileTask.SuperclassWalk | src/main/java/com/samczsun/helios/tasks/DecompileTask.java:817-869 | the while(true) loop computes Walk: the classes located and the declaring method's return class |
| Resolver.Walk | src/main/java/com/samczsun/helios/tasks/DecompileTask.java:817-869 | the superclass walk as a function; stated by the Walk lemmas below |
| ResolverFacts.WalkHead | src/main/java/com/samczsun/helios/tasks/DecompileTask.java:818-842 | a located walk's first class is its start class |
| ResolverFacts.WalkFollowsSuperclassChain | src/main/java/com/samczsun/helios/tasks/DecompileTask.java:818-866 | every located class but the last is held with metadata, lacks the method, is not java/lang/Object, and is followed by its own superclass's class file |
| ResolverFacts.WalkEndsEmptyHanded | src/main/java/com/samczsun/helios/tasks/DecompileTask.java:836-866 | a walk that hands nothing on either located nothing because the start is unheld, or its last class has no metadata, declares the method with no class return, or lacks it and is Object or has an unheld superclass |
| ResolverFacts.WalkLocatesHeldClasses | src/main/java/com/samczsun/helios/tasks/DecompileTask.java:818-842 | every located class is held by the archive recorded with it, the one getFileFor returns |
| ResolverFacts.WalkFindsDeclaringClass | src/main/java/com/samczsun/helios/tasks/DecompileTask.java:843-854 | when the walk hands a class on, the last located class declares the method first, and the class is that method's return type |
| ResolverFacts.WalkStopsAtObject | src/main/java/com/samczsun/helios/tasks/DecompileTask.java:858-860 | from java/lang/Object the walk locates Object alone and stops |
| ResolverFacts.WalkStartsAtStart | src/main/java/com/samczsun/helios/tasks/DecompileTask.java:818-842 | a walk from a held class locates that class first |
| ResolverFacts.SelfSuperclassEndless | src/main/java/com/samczsun/helios/tasks/DecompileTask.java:818-866 | a class that is its own superclass and lacks the method sends the walk round for ever |
| Resolver.Copies | src/main/java/com/samczsun/helios/tasks/DecompileTask.java:836-841 | n entries, each the same link |
| Resolver.WalkLinks | src/main/java/com/samczsun/helios/tasks/DecompileTask.java:836-847 | one link entry per located class |
| ResolverFacts.WalkLinksShowLastClass | src/main/java/com/samczsun/helios/tasks/DecompileTask.java:836-847 | every entry shows the last located class and its archive, jumps to " name(" and spans the call's name |
| Descriptors.ReturnTypeOf | src/main/java/com/samczsun/helios/tasks/DecompileTask.java:848-849 | an object return needs a ')' and a ';'; a descriptor without ')' is malformed |
| Descriptors.FurtherType | src/main/java/com/samczsun/helios/tasks/DecompileTask.java:848-854 | a class file is handed on exactly for an object return type, and it ends in ".class" |
| Descriptors.ReturnPart | src/main/java/com/samczsun/helios/tasks/DecompileTask.java:848 | the return descriptor is everything after the parameters' ')' |
| JavaText.IndexOfAtJoin | src/main/java/com/samczsun/helios/tasks/DecompileTask.java:848 | the first ')' of a descriptor is the one closing its parameters |
| Descriptors.ObjectReturn | src/main/java/com/samczsun/helios/tasks/DecompileTask.java:849-851 | a method returning `LName;` hands on `Name.class` |
| Descriptors.VoidReturn | src/main/java/com/samczsun/helios/tasks/DecompileTask.java:849-854 | a void method hands nothing on |
| ResolverFacts.PrimitiveReturn | src/main/java/com/samczsun/helios/tasks/DecompileTask.java:848-851 | a method returning a primitive hands nothing on |
| Tasks.DecompileTask.RecursivelyHandleNameExpr | src/main/java/com/samczsun/helios/tasks/DecompileTask.java:607-872 | appends the call's links (a chained call's inner links first) and returns what ResolveCall hands on |
| Resolver.ResolveCall | src/main/java/com/samczsun/helios/tasks/DecompileTask.java:607-872 | recursivelyHandleNameExpr as a function; stated by the method-call lemmas above |
| Tasks.DecompileTask.Visit | src/main/java/com/samczsun/helios/tasks/DecompileTask.java:170-596 | appends every link of a subtree in the visitor's order, and stops where a step throws |
| Resolver.VisitNode | src/main/java/com/samczsun/helios/tasks/DecompileTask.java:170-596 | the visitor's traversal as a function; the Visit methods are proved to append exactly its links |
| Resolver.CallChildren | src/main/java/com/samczsun/helios/tasks/DecompileTask.java:414-417 | a call's receiver, then its arguments |
| Resolver.DocumentLinks | src/main/java/com/samczsun/helios/tasks/DecompileTask.java:150-596 | the import links, then the links of the whole tree; Handle is proved to append exactly these |
| Tasks.DecompileTask.VisitMethodCall | src/main/java/com/samczsun/helios/tasks/DecompileTask.java:414-425 | a call is resolved first, then its receiver and its arguments are visited |
| Tasks.DecompileTask.VisitReceiverAndArguments | src/main/java/com/samczsun/helios/tasks/DecompileTask.java:414-417 | the receiver's links come before the arguments' links |
| Tasks.DecompileTask.VisitReceiverOf | src/main/java/com/samczsun/helios/tasks/DecompileTask.java:414-417 | a receiver's cast type, operand, inner call or owner is visited |
| Tasks.DecompileTask.VisitChildren | src/main/java/com/samczsun/helios/tasks/DecompileTask.java:171-175 | children are visited in order, and a throw stops the rest |
| Tasks.DecompileTask.VisitTypeNode | src/main/java/com/samczsun/helios/tasks/DecompileTask.java:293-296 | a reference type is visited through to its class type |
| Tasks.DecompileTask.VisitClassOrInterfaceType | src/main/java/com/samczsun/helios/tasks/DecompileTask.java:283-286 | a class-type node is handled before its children |
| Tasks.DecompileTask.VisitQualifierAndArguments | src/main/java/com/samczsun/helios/tasks/DecompileTask.java:283-286 | the qualifier's links come before the type arguments' links |
| Tasks.DecompileTask.VisitTypeList | src/main/java/com/samczsun/helios/tasks/DecompileTask.java:283-286 | type arguments are visited in order, and a throw stops the rest |

## Left out

- `run()` is not part of this model (decompiling, the pre-decompile and search events, parsing,
  and setting the text area's text). A parse failure skips `handle`, because `run()` calls it only
  when the compilation unit is not null, so it makes no links. The model starts from a parsed unit
  and the text.
- Debug output (`print` and `System.out`) produces no links and is left out.
- The `VoidVisitorAdapter` is replaced by a traversal of the model's syntax tree. Only the nodes
  that lead to links, or hold the declarations the local search reads, are distinguished. Every
  other node is `Other(children)`. A call's explicit type arguments are not modelled.
- The order of the `HashSet` of loaded archives is modelled as a fixed sequence, fixed for one
  pass.
- Tasks.DecompileTask.Handle: an exception that ends the pass also leaves `run()` before it sets
  the text area's text. The model reports only the links and the fault.
- Java `int` overflow in `getOffsets` is not modelled; offsets are unbounded integers.
- Tasks.DecompileTask.RecordLineSizes / OffsetIndex.OffsetIndexesText: the text is a sequence of
  Unicode scalar values, while `String.length()` and the text area's offsets count UTF-16 code
  units. For a line holding a supplementary character (an emoji in a string literal, say), the
  source records a size one larger per such character, and every later offset shifts with it. The
  model covers text without supplementary characters.
- Tasks.DecompileTask.ReceiverClassNames / Resolver.ReceiverCandidates: the `super.m()` candidate
  is the corrected one, the superclass's class file. The source adds the bare internal name, so
  its pass never links a `super.m()` call where the model's walks from the superclass. The
  code as written is `ResolverFacts.SuperCandidatesAsWritten`, and its consequence is
  `ResolverFacts.SuperCallAsWrittenUnlinked`.
- Resolver.WalkLinks: the source appends one `Link` object once per located class and keeps
  updating it. The model gives the final state of that object once per located class, so the
  aliasing itself is not represented.
- Resolver.Walk: a cyclic superclass chain loops for ever in the source. The model ends it with
  `Endless`, which stops the pass, rather than not terminating.
- Descriptors.FurtherType: primitive and array return types hand on nothing. Depending on the
  bytecode library's version, the source either fails inside its own `try` (a primitive) or looks
  up a file no archive holds (an array). Both leave the outer call unlinked, as the model does.
- ResolverFacts.ExplicitJavaLangImportStops: stated for an import `p.Name` whose package `p` has
  internal name `java/lang`, rather than for the literal text `java.lang`.
- Methods whose contracts speak of `old(links)` state the whole new state of the link table. What
  those states mean is proved over the `Resolver` functions in `ResolverFacts`.

## Findings

| source | as written | input that shows it | evidently intended | confidence | as-written member | corrected member |
|---|---|---|---|---|---|---|
| src/main/java/com/samczsun/helios/tasks/DecompileTask.java:761-763 | the `super.m()` candidate is the superclass's bare internal name `a/B`, with no ".class" | `super.toString()` in a class whose superclass `java/lang/Object` is held as `java/lang/Object.class`; no archive has an entry `java/lang/Object`, so the call gets no link | the candidate is `a/B.class`, like every other candidate, so the walk starts from the superclass | high; not executed | ResolverFacts.SuperCallAsWrittenUnlinked | ResolverFacts.SuperCallWalksFromSuperclass |
