/**
 * The parsed form of a decompiled class, reduced to what the resolver reads.
 * Positions are the parser's: 1-based lines and columns, end inclusive.
 */
module Syntax {
  import opened Common

  datatype Span = Span(beginLine: int, beginColumn: int, endLine: int, endColumn: int)

  /**
   * A class or interface type as written, `Map.Entry<K, V>`: its own
   * identifier and span, the qualifying type before the dot (itself a node
   * with its own span) and the type arguments written after the identifier.
   */
  datatype ClassType = ClassType(scope: Option<ClassType>, name: string, span: Span, typeArgs: seq<Type>)

  /**
   * A type: a reference-type wrapper (which carries array dimensions), a
   * class or interface type, or a primitive type.
   */
  datatype Type =
    | Reference(inner: Type)
    | ClassOrInterface(classType: ClassType)
    | Primitive(keyword: string)

  /** What a method call is invoked on. */
  datatype Receiver =
    | NoReceiver                           // m()
    | ThisReceiver                         // this.m()
    | SuperReceiver                        // super.m()
    | NameReceiver(name: string)           // x.m()
    | CastReceiver(castType: Type, operand: Node)  // ((T) e).m()
    | CallReceiver(call: Call)             // a().m()
    | FieldReceiver(owner: Node)           // a.b.m(), `owner` being `a`
    | OtherReceiver(expr: Node)            // anything else, a parenthesised non-cast included

  /** A method call: the called name with its span, the receiver and the arguments. */
  datatype Call = Call(name: string, nameSpan: Span, receiver: Receiver, args: seq<Node>)

  /** The nodes the resolver reacts to; every other node is `Other` with its children in source order. */
  datatype Node =
    | TypeUse(declared: Type)                                   // a type written anywhere
    | CallExpr(call: Call)
    | LocalDecl(names: seq<string>, declared: Type, inits: seq<Node>)  // `T a = e;`
    | Param(name: string, declared: Type)                       // a method or lambda parameter
    | CatchParam(name: string, alternatives: seq<Type>)         // `catch (A | B e)`
    | Other(children: seq<Node>)

  /** An import declaration: its name as the parser prints it, and that name's span. */
  datatype Import = Import(name: string, span: Span)

  /** A parsed compilation unit: its imports and its top-level declarations. */
  datatype Unit = Unit(imports: seq<Import>, types: seq<Node>)
}
