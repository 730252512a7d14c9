/**
 * The loaded class corpus as the resolver sees it, and getFileFor: which
 * archive holds a given class file.
 */
module ClassCorpus {
  import opened Common

  /** A method of a class: its name and its descriptor. */
  datatype MethodInfo = MethodInfo(name: string, descriptor: string)

  /** The structural metadata of a class: its superclass's internal name and its methods in order. */
  datatype ClassInfo = ClassInfo(superName: string, methods: seq<MethodInfo>)

  /**
   * A loaded archive: its name, the names of its entries (`a/b/C.class`) and
   * the metadata of the classes among them, keyed by entry name.
   */
  datatype Archive = Archive(name: string, files: set<string>, classes: map<string, ClassInfo>)

  /**
   * The corpus as one resolution pass sees it: the archive of the document's
   * own class, and every loaded archive and classpath entry in the order the
   * lookup enumerates them.
   */
  datatype Corpus = Corpus(current: Archive, archives: seq<Archive>)

  /** The position of the first archive that holds `file`. */
  function FirstContaining(archives: seq<Archive>, file: string): (r: Option<nat>)
    ensures r.Some? ==> r.value < |archives|
  {
    if |archives| == 0 then None
    else if file in archives[0].files then Some(0)
    else
      match FirstContaining(archives[1..], file)
      case None => None
      case Some(k) => Some(k + 1)
  }

  /** FirstContaining finds a holder, none before it holds the file, and it fails only when none does. */
  lemma {:induction false} FirstContainingChoice(archives: seq<Archive>, file: string)
    ensures var r := FirstContaining(archives, file);
      (r.Some? ==> file in archives[r.value].files) &&
      (r.Some? ==> forall k :: 0 <= k < r.value ==> file !in archives[k].files) &&
      (r.None? <==> forall k :: 0 <= k < |archives| ==> file !in archives[k].files)
  {
    if |archives| > 0 && file !in archives[0].files {
      FirstContainingChoice(archives[1..], file);
    }
  }

  /**
   * getFileFor: the current archive when it holds `file`, otherwise the
   * first of the other loaded archives (in their enumeration order) that
   * holds it, otherwise none.
   */
  function FileFor(corpus: Corpus, file: string): Option<Archive> {
    if file in corpus.current.files then Some(corpus.current)
    else
      match FirstContaining(corpus.archives, file)
      case None => None
      case Some(k) => Some(corpus.archives[k])
  }

  /**
   * The archive getFileFor returns holds the file; the current archive wins;
   * otherwise it is the first holder in enumeration order; and none is
   * returned only when no archive holds the file.
   */
  lemma FileForChoice(corpus: Corpus, file: string)
    ensures file in corpus.current.files ==> FileFor(corpus, file) == Some(corpus.current)
    ensures FileFor(corpus, file).Some? ==> file in FileFor(corpus, file).value.files
    ensures FileFor(corpus, file).None? <==>
      file !in corpus.current.files && forall k :: 0 <= k < |corpus.archives| ==> file !in corpus.archives[k].files
    ensures FileFor(corpus, file).Some? && file !in corpus.current.files ==>
      exists k :: 0 <= k < |corpus.archives| && FileFor(corpus, file).value == corpus.archives[k] &&
        forall j :: 0 <= j < k ==> file !in corpus.archives[j].files
  {
    FirstContainingChoice(corpus.archives, file);
  }

  /** Every entry name of the corpus. */
  function AllFiles(corpus: Corpus): (r: set<string>)
    ensures forall file :: FileFor(corpus, file).Some? ==> file in r
  {
    var r := corpus.current.files + set k, f | 0 <= k < |corpus.archives| && f in corpus.archives[k].files :: f;
    assert forall file :: FileFor(corpus, file).Some? ==> file in r by {
      forall file | FileFor(corpus, file).Some?
        ensures file in r
      {
        if file !in corpus.current.files {
          FirstContainingChoice(corpus.archives, file);
          var k := FirstContaining(corpus.archives, file).value;
          assert file in corpus.archives[k].files;
        }
      }
    }
    r
  }

  /** The position of the first method named `name`, as a stream's findFirst picks it. */
  function FirstMethodNamed(methods: seq<MethodInfo>, name: string): (r: Option<nat>)
    ensures r.Some? ==> r.value < |methods|
  {
    if |methods| == 0 then None
    else if methods[0].name == name then Some(0)
    else
      match FirstMethodNamed(methods[1..], name)
      case None => None
      case Some(k) => Some(k + 1)
  }

  /** The method found is named `name`, no earlier one is, and none is found only when no method is. */
  lemma {:induction false} FirstMethodNamedChoice(methods: seq<MethodInfo>, name: string)
    ensures var r := FirstMethodNamed(methods, name);
      (r.Some? ==> methods[r.value].name == name) &&
      (r.Some? ==> forall k :: 0 <= k < r.value ==> methods[k].name != name) &&
      (r.None? <==> forall k :: 0 <= k < |methods| ==> methods[k].name != name)
  {
    if |methods| > 0 && methods[0].name != name {
      FirstMethodNamedChoice(methods[1..], name);
    }
  }
}
