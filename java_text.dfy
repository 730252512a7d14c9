/** The java.lang.String operations the resolver relies on, over seq<char>. */
module JavaText {

  /** String.indexOf(char): the first position of c in s, or -1. */
  function IndexOf(s: string, c: char): (r: int)
    ensures -1 <= r < |s|
    ensures r == -1 <==> c !in s
    ensures 0 <= r ==> s[r] == c && c !in s[..r]
  {
    if |s| == 0 then -1
    else if s[0] == c then 0
    else
      var k := IndexOf(s[1..], c);
      if k == -1 then -1
      else
        assert s[..k + 1] == [s[0]] + s[1..][..k];
        k + 1
  }

  /** Searching a + b for c when c is not in a but starts b finds the join. */
  lemma {:induction false} IndexOfAtJoin(a: string, b: string, c: char)
    requires c !in a && |b| > 0 && b[0] == c
    ensures IndexOf(a + b, c) == |a|
  {
    if |a| > 0 {
      assert (a + b)[1..] == a[1..] + b;
      IndexOfAtJoin(a[1..], b, c);
    }
  }

  /** String.lastIndexOf(char): the last position of c in s, or -1. */
  function LastIndexOf(s: string, c: char): (r: int)
    ensures -1 <= r < |s|
    ensures r == -1 <==> c !in s
    ensures 0 <= r ==> s[r] == c && c !in s[r + 1..]
  {
    if |s| == 0 then -1
    else if s[|s| - 1] == c then |s| - 1
    else
      var k := LastIndexOf(s[..|s| - 1], c);
      assert s == s[..|s| - 1] + [s[|s| - 1]];
      if k == -1 then -1
      else
        assert s[k + 1..] == s[..|s| - 1][k + 1..] + [s[|s| - 1]];
        k
  }

  /** String.endsWith. */
  predicate EndsWith(s: string, suffix: string) {
    |suffix| <= |s| && s[|s| - |suffix|..] == suffix
  }

  /** String.replace(char, char): every `from` becomes `to`, nothing else changes. */
  function Replace(s: string, from: char, to: char): (r: string)
    ensures |r| == |s|
  {
    if |s| == 0 then []
    else [if s[0] == from then to else s[0]] + Replace(s[1..], from, to)
  }

  /** Each character of the result is the original one, or `to` where that was `from`. */
  lemma {:induction false} ReplaceAt(s: string, from: char, to: char, i: nat)
    requires i < |s|
    ensures Replace(s, from, to)[i] == if s[i] == from then to else s[i]
  {
    if i > 0 {
      ReplaceAt(s[1..], from, to, i - 1);
    }
  }

  /** The internal (slash-separated) form of a dotted Java name. */
  function InternalName(dotted: string): string {
    Replace(dotted, '.', '/')
  }

  /** The internal form has the dotted name's length and no '.'. */
  lemma InternalNameUndotted(dotted: string)
    ensures |InternalName(dotted)| == |dotted| && '.' !in InternalName(dotted)
  {
    var r := InternalName(dotted);
    forall i | 0 <= i < |r|
      ensures r[i] != '.'
    {
      ReplaceAt(dotted, '.', '/', i);
    }
  }

  /** The last identifier of a dotted name: what a qualified name's getName() gives. */
  function LastSegment(dotted: string): string {
    dotted[LastIndexOf(dotted, '.') + 1..]
  }

  /** The last identifier is a '.'-free suffix of the name, and a name without '.' is its own. */
  lemma LastSegmentSuffix(dotted: string)
    ensures '.' !in LastSegment(dotted)
    ensures '.' !in dotted ==> LastSegment(dotted) == dotted
    ensures EndsWith(dotted, LastSegment(dotted))
  {
  }

  /**
   * The pieces of s between '\n' characters, empty pieces included;
   * JoinSegments shows that joining them with '\n' gives s back.
   */
  function Segments(s: string): (r: seq<string>)
    ensures |r| >= 1
    ensures forall i :: 0 <= i < |r| ==> '\n' !in r[i]
  {
    if |s| == 0 then [""]
    else
      var rest := Segments(s[1..]);
      if s[0] == '\n' then [""] + rest
      else [[s[0]] + rest[0]] + rest[1..]
  }

  /** The pieces joined with '\n' between them: the inverse of Segments. */
  function Join(parts: seq<string>): string
    requires |parts| >= 1
  {
    if |parts| == 1 then parts[0] else parts[0] + "\n" + Join(parts[1..])
  }

  /** Joining a piece in front of at least one other puts a newline between them. */
  lemma JoinCons(x: string, parts: seq<string>)
    requires |parts| >= 1
    ensures Join([x] + parts) == x + ("\n" + Join(parts))
  {
    assert ([x] + parts)[1..] == parts;
  }

  /** Joining a longer first piece: its first character comes first. */
  lemma JoinPrepend(c: char, parts: seq<string>)
    requires |parts| >= 1
    ensures Join([[c] + parts[0]] + parts[1..]) == [c] + Join(parts)
  {
    if |parts| == 1 {
      assert [[c] + parts[0]] + parts[1..] == [[c] + parts[0]];
    } else {
      var first, rest := parts[0], parts[1..];
      JoinCons([c] + first, rest);
      JoinCons(first, rest);
      assert parts == [first] + rest;
      Regroup([c], first, "\n" + Join(rest));
    }
  }

  lemma Regroup(a: string, b: string, c: string)
    ensures (a + b) + c == a + (b + c)
  {
  }

  /** Splitting at the newlines and joining again gives back the text. */
  lemma {:induction false} JoinSegments(s: string)
    ensures Join(Segments(s)) == s
  {
    if |s| > 0 {
      var rest := Segments(s[1..]);
      JoinSegments(s[1..]);
      if s[0] == '\n' {
        assert ([""] + rest)[1..] == rest;
        assert Join([""] + rest) == "" + "\n" + Join(rest);
      } else {
        JoinPrepend(s[0], rest);
      }
      assert s == [s[0]] + s[1..];
    }
  }

  /** The longest prefix of parts that does not end with an empty piece. */
  function DropTrailingEmpty(parts: seq<string>): (r: seq<string>)
    ensures |r| <= |parts| && r == parts[..|r|]
    ensures |r| > 0 ==> r[|r| - 1] != ""
    ensures forall i :: |r| <= i < |parts| ==> parts[i] == ""
  {
    if |parts| == 0 then []
    else if parts[|parts| - 1] == "" then DropTrailingEmpty(parts[..|parts| - 1])
    else parts
  }

  /**
   * String.split("\n") with no limit: the pieces between newlines with the
   * trailing empty ones removed; a string without a newline is its own one piece.
   */
  function JavaSplit(s: string): (r: seq<string>)
    ensures |r| <= |Segments(s)| && r == Segments(s)[..|r|]
    ensures '\n' !in s ==> r == [s]
  {
    if '\n' in s then DropTrailingEmpty(Segments(s))
    else
      NoNewlineIsOneSegment(s);
      [s]
  }

  lemma {:induction false} NoNewlineIsOneSegment(s: string)
    requires '\n' !in s
    ensures Segments(s) == [s]
  {
    if |s| > 0 {
      NoNewlineIsOneSegment(s[1..]);
      assert s == [s[0]] + s[1..];
    }
  }

  /** The length of each piece, as `lineSizes` records it. */
  function Lengths(parts: seq<string>): (r: seq<nat>)
    ensures |r| == |parts|
    ensures forall i :: 0 <= i < |parts| ==> r[i] == |parts[i]|
  {
    seq(|parts|, i requires 0 <= i < |parts| => |parts[i]|)
  }
}
