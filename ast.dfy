/**
  The MiniJava program tree that the three passes read. It is produced by the
  parser, which is not part of this model; source line numbers, which the
  passes only print in messages, are left out.
 */
module Ast {

  /** Declared types (`int`, `boolean`, `int[]`, `float`, `double`, a class name). */
  datatype Type =
    | IntegerType
    | BooleanType
    | IntArrayType
    | FloatType
    | DoubleType
    | IdentifierType(s: string)

  datatype Exp =
    | And(e1: Exp, e2: Exp)
    | LessThan(e1: Exp, e2: Exp)
    | LessThanEqual(e1: Exp, e2: Exp)
    | GreatThan(e1: Exp, e2: Exp)
    | GreatThanEqual(e1: Exp, e2: Exp)
    | EqualEqual(e1: Exp, e2: Exp)
    | NotEqual(e1: Exp, e2: Exp)
    | Plus(e1: Exp, e2: Exp)
    | Minus(e1: Exp, e2: Exp)
    | Times(e1: Exp, e2: Exp)
    | ArrayLookup(e1: Exp, e2: Exp)
    | ArrayLength(e: Exp)
      /** `e.i(el)`: receiver, method name, arguments. */
    | Call(e: Exp, i: string, el: seq<Exp>)
    | IntegerLiteral(n: int)
      /** A float literal, carrying the text Java's float-to-string conversion gives it. */
    | FloatLiteral(image: string)
    | DoubleLiteral(d: int)
    | True
    | False
    | IdentifierExp(s: string)
    | This
    | NewArray(e: Exp)
    | NewObject(i: string)
    | Not(e: Exp)
    | Instanceof(e: Exp, i: string)
    | Null

  datatype Statement =
    | Block(sl: seq<Statement>)
    | If(e: Exp, s1: Statement, s2: Statement)
    | While(e: Exp, s: Statement)
    | Print(e: Exp)
      /** `i = e;` */
    | Assign(i: string, e: Exp)
      /** `i[e1] = e2;` */
    | ArrayAssign(i: string, e1: Exp, e2: Exp)

  datatype VarDecl = VarDecl(t: Type, i: string)

  datatype Formal = Formal(t: Type, i: string)

  /** `t i(fl) { vl sl return e; }` */
  datatype MethodDecl = MethodDecl(t: Type, i: string, fl: seq<Formal>, vl: seq<VarDecl>, sl: seq<Statement>, e: Exp)

  datatype ClassDecl =
    | ClassDeclSimple(i: string, vl: seq<VarDecl>, ml: seq<MethodDecl>)
      /** `class i extends j { ... }` */
    | ClassDeclExtends(i: string, j: string, vl: seq<VarDecl>, ml: seq<MethodDecl>)

  /** `class i1 { public static void main(String[] i2) { s } }` */
  datatype MainClass = MainClass(i1: string, i2: string, s: Statement)

  datatype Program = Program(m: MainClass, cl: seq<ClassDecl>)

  // The name each kind of declaration introduces.

  function ClassName(cd: ClassDecl): string { cd.i }
  function MethodName(md: MethodDecl): string { md.i }
  function VarName(vd: VarDecl): string { vd.i }
  function FormalName(f: Formal): string { f.i }
}
