/**
 * The return type of a method descriptor, as the bytecode library reports it
 * (section 4.3.3 of the Java Virtual Machine Specification: a descriptor is
 * `(` parameter descriptors `)` return descriptor, and `V` is void).
 */
module Descriptors {
  import opened Common
  import opened JavaText

  datatype ReturnType =
    | Void
    | ObjectType(internalName: string)   // `L<name>;`
    | OtherType(descriptor: string)      // a primitive or an array
    | Malformed                          // the library fails on it

  /** The type written after the first ')' of a method descriptor. */
  function ReturnTypeOf(descriptor: string): (r: ReturnType)
    ensures r.ObjectType? ==> ';' in descriptor && ')' in descriptor
    ensures r.Malformed? <== ')' !in descriptor
  {
    var close := IndexOf(descriptor, ')');
    if close == -1 then Malformed
    else
      var ret := descriptor[close + 1..];
      if ret == "V" then Void
      else if |ret| >= 2 && ret[0] == 'L' && ret[|ret| - 1] == ';' then ObjectType(ret[1..|ret| - 1])
      else if |ret| >= 1 && ret[0] in "ZCBSIFJD[" then OtherType(ret)
      else Malformed
  }

  /**
   * What a resolved method hands to a call chained on it: the file name of
   * its return class, or nothing for a void return and for every return
   * that names no class.
   */
  function FurtherType(descriptor: string): (r: Option<string>)
    ensures r.Some? ==> EndsWith(r.value, ".class")
    ensures r.Some? <==> ReturnTypeOf(descriptor).ObjectType?
  {
    match ReturnTypeOf(descriptor)
    case ObjectType(name) => Some(name + ".class")
    case _ => None
  }

  /** The return part of a descriptor is everything after the parameters' ')'. */
  lemma ReturnPart(params: string, ret: string)
    requires ')' !in params
    ensures IndexOf("(" + params + ")" + ret, ')') == |params| + 1
    ensures ("(" + params + ")" + ret)[|params| + 2..] == ret
  {
    var d := "(" + params + ")" + ret;
    assert d == ("(" + params) + (")" + ret);
    IndexOfAtJoin("(" + params, ")" + ret, ')');
  }

  /** A method returning `L<name>;` hands `<name>.class` on. */
  lemma ObjectReturn(params: string, name: string)
    requires ')' !in params
    ensures ReturnTypeOf("(" + params + ")L" + name + ";") == ObjectType(name)
    ensures FurtherType("(" + params + ")L" + name + ";") == Some(name + ".class")
  {
    var ret := "L" + name + ";";
    assert "(" + params + ")L" + name + ";" == "(" + params + ")" + ret;
    ReturnPart(params, ret);
    assert ret[1..|ret| - 1] == name;
  }

  /** A void method hands nothing on. */
  lemma VoidReturn(params: string)
    requires ')' !in params
    ensures ReturnTypeOf("(" + params + ")V") == Void
    ensures FurtherType("(" + params + ")V") == None
  {
    ReturnPart(params, "V");
  }
}
