/**
  The symbol-table builder (TypeVisitor): one walk over the class declarations
  that fills the class-name -> ClassNode table. No type checking happens here.

  The specification side describes each declaration's contribution as a fold;
  the `TypeVisitor` class does the same work step by step, with the source's
  `classes`, `currentClass` and `currentMethod` fields, and is proved equal to
  the folds.
 */
module SymbolTable {
  import opened Common
  import opened Ast
  import opened Semantic

  /** The entry for a declared variable, parameter or field: its tag, and the class name for a class type. */
  function DeclNode(t: Type): (r: Node)
    ensures r.ty == NodeTypeOf(t)
    ensures r.iam.Some? <==> r.ty == CLASS
    ensures r.iam.Some? ==> r.iam == Some(t.s)
  {
    Node(NodeTypeOf(t), if t.IdentifierType? then Some(t.s) else None)
  }

  /** `getMembers().put(x, m)`: the member replaces any earlier one of that name and keeps its place in the order. */
  function PutMember(c: ClassNode, x: string, m: Member): (r: ClassNode)
    ensures r.name == c.name && r.parent == c.parent
    ensures x in r.members && r.members[x] == m
  {
    c.(members := c.members[x := m], order := if x in c.order then c.order else c.order + [x])
  }

  /** Putting a member keeps a class entry well formed. */
  lemma PutMemberWf(c: ClassNode, x: string, m: Member)
    requires WfClass(c) && (m.Method? ==> WfMethod(m.m))
    ensures WfClass(PutMember(c, x, m))
  {
  }

  /** A second put of the same name replaces the first and leaves the order as the first put left it. */
  lemma PutMemberTwice(c: ClassNode, x: string, a: Member, b: Member)
    ensures PutMember(PutMember(c, x, a), x, b) == PutMember(c, x, b)
  {
    assert c.members[x := a][x := b] == c.members[x := b];
  }

  // ---------------------------------------------------------------------------
  // What one declaration contributes

  /** A method entry before any parameter or local: only its return type, with no class name kept. */
  function EmptyMethod(t: Type): MethodNode {
    MethodNode(Node(NodeTypeOf(t), None), [], map[], map[])
  }

  /** `visit(Formal)`: append the parameter's entry and record its index. */
  function WithFormal(m: MethodNode, f: Formal): MethodNode {
    m.(parameters := m.parameters + [DeclNode(f.t)], positions := m.positions[|m.parameters| := f.i])
  }

  /** `visit(VarDecl)` inside a method: the local goes into the method's map. */
  function WithLocal(m: MethodNode, v: VarDecl): MethodNode {
    m.(locals := m.locals[v.i := DeclNode(v.t)])
  }

  function FormalsFold(m: MethodNode, fl: seq<Formal>): MethodNode
    decreases |fl|
  {
    if fl == [] then m else WithFormal(FormalsFold(m, fl[..|fl| - 1]), fl[|fl| - 1])
  }

  function LocalsFold(m: MethodNode, vl: seq<VarDecl>): MethodNode
    decreases |vl|
  {
    if vl == [] then m else WithLocal(LocalsFold(m, vl[..|vl| - 1]), vl[|vl| - 1])
  }

  /** The entry a method declaration leaves in the table: formals first, then locals. */
  function DeclaredMethod(md: MethodDecl): MethodNode {
    LocalsFold(FormalsFold(EmptyMethod(md.t), md.fl), md.vl)
  }

  /** A class entry before any member: `ClassNode(i)` or `ClassWithParentNode(i, j)`. */
  function EmptyClass(cd: ClassDecl): ClassNode {
    match cd
    case ClassDeclSimple(i, _, _) => ClassNode(i, None, map[], [])
    case ClassDeclExtends(i, j, _, _) => ClassNode(i, Some(j), map[], [])
  }

  function FieldsFold(c: ClassNode, vl: seq<VarDecl>): ClassNode
    decreases |vl|
  {
    if vl == [] then c
    else
      var v := vl[|vl| - 1];
      PutMember(FieldsFold(c, vl[..|vl| - 1]), v.i, Field(DeclNode(v.t)))
  }

  function MethodsFold(c: ClassNode, ml: seq<MethodDecl>): ClassNode
    decreases |ml|
  {
    if ml == [] then c
    else
      var md := ml[|ml| - 1];
      PutMember(MethodsFold(c, ml[..|ml| - 1]), md.i, Method(DeclaredMethod(md)))
  }

  /** The entry a class declaration leaves in the table: fields first, then methods. */
  function DeclaredClass(cd: ClassDecl): ClassNode {
    MethodsFold(FieldsFold(EmptyClass(cd), cd.vl), cd.ml)
  }

  /** The table after registering the class declarations in order. */
  function Registered(t: Table, cl: seq<ClassDecl>): Table
    decreases |cl|
  {
    if cl == [] then t
    else
      var cd := cl[|cl| - 1];
      Registered(t, cl[..|cl| - 1])[cd.i := DeclaredClass(cd)]
  }

  /** The symbol table of a program: the main class contributes nothing. */
  function BuildTable(p: Program): Table {
    Registered(map[], p.cl)
  }

  // ---------------------------------------------------------------------------
  // "The last declaration of a name"

  /** The last of the declarations `xs` whose name is `x`, if any. */
  function Last<T>(xs: seq<T>, name: T -> string, x: string): (r: Option<T>)
    ensures r.Some? ==> r.value in xs && name(r.value) == x
    decreases |xs|
  {
    if xs == [] then None
    else if name(xs[|xs| - 1]) == x then Some(xs[|xs| - 1])
    else Last(xs[..|xs| - 1], name, x)
  }

  // ---------------------------------------------------------------------------
  // Shape of the table

  /**
    Each class declaration registers exactly one entry, under its own name; of
    several declarations with one name the last one wins; other names keep
    their earlier entry.
   */
  lemma {:induction false} RegisteredLookup(t: Table, cl: seq<ClassDecl>, x: string)
    ensures x in Registered(t, cl) <==> x in t || Last(cl, ClassName, x).Some?
    ensures Last(cl, ClassName, x).Some? ==> Registered(t, cl)[x] == DeclaredClass(Last(cl, ClassName, x).value)
    ensures Last(cl, ClassName, x).None? && x in t ==> Registered(t, cl)[x] == t[x]
    decreases |cl|
  {
    if cl != [] {
      RegisteredLookup(t, cl[..|cl| - 1], x);
    }
  }

  /** No class name outside the declarations (and the starting table) appears, and every declared name does. */
  lemma RegisteredKeys(t: Table, cl: seq<ClassDecl>)
    ensures Registered(t, cl).Keys == t.Keys + set cd | cd in cl :: cd.i
  {
    forall x ensures x in Registered(t, cl) <==> x in t || x in set cd | cd in cl :: cd.i {
      RegisteredLookup(t, cl, x);
      if x in set cd | cd in cl :: cd.i {
        var cd :| cd in cl && cd.i == x;
        LastClassFound(cl, x, cd);
      }
    }
  }

  lemma {:induction false} LastClassFound(cl: seq<ClassDecl>, x: string, cd: ClassDecl)
    requires cd in cl && cd.i == x
    ensures Last(cl, ClassName, x).Some?
    decreases |cl|
  {
    if cl[|cl| - 1].i != x {
      assert cd in cl[..|cl| - 1];
      LastClassFound(cl[..|cl| - 1], x, cd);
    }
  }

  lemma {:induction false} FormalsFoldShape(fl: seq<Formal>, t: Type)
    ensures var m := FormalsFold(EmptyMethod(t), fl);
      && m.returnType == Node(NodeTypeOf(t), None)
      && m.locals == map[]
      && |m.parameters| == |fl|
      && (forall i :: 0 <= i < |fl| ==> m.parameters[i] == DeclNode(fl[i].t))
      && (forall i :: i in m.positions <==> 0 <= i < |fl|)
      && (forall i :: 0 <= i < |fl| ==> m.positions[i] == fl[i].i)
    decreases |fl|
  {
    if fl != [] {
      FormalsFoldShape(fl[..|fl| - 1], t);
    }
  }

  lemma {:induction false} LocalsFoldShape(m: MethodNode, vl: seq<VarDecl>, x: string)
    ensures var r := LocalsFold(m, vl);
      && r.returnType == m.returnType && r.parameters == m.parameters && r.positions == m.positions
      && (x in r.locals <==> x in m.locals || Last(vl, VarName, x).Some?)
      && (Last(vl, VarName, x).Some? ==> r.locals[x] == DeclNode(Last(vl, VarName, x).value.t))
      && (Last(vl, VarName, x).None? && x in m.locals ==> r.locals[x] == m.locals[x])
    decreases |vl|
  {
    if vl != [] {
      LocalsFoldShape(m, vl[..|vl| - 1], x);
    }
  }

  /**
    After a method's k formals are visited, `parameters` has length k, the i-th
    entry is the i-th formal's, `parametersPositions` maps exactly 0..k-1, index i
    to the i-th formal's name; the locals are the method's variable declarations,
    the last of a name winning; the return type keeps no class name.
   */
  lemma DeclaredMethodShape(md: MethodDecl)
    ensures var m := DeclaredMethod(md);
      && m.returnType == Node(NodeTypeOf(md.t), None)
      && |m.parameters| == |md.fl|
      && (forall i :: 0 <= i < |md.fl| ==> m.parameters[i] == DeclNode(md.fl[i].t))
      && (forall i :: 0 <= i < |md.fl| ==> i in m.positions && m.positions[i] == md.fl[i].i)
      && WfMethod(m)
      && (forall x :: x in m.locals <==> Last(md.vl, VarName, x).Some?)
      && (forall x :: x in m.locals ==> m.locals[x] == DeclNode(Last(md.vl, VarName, x).value.t))
  {
    var m0 := FormalsFold(EmptyMethod(md.t), md.fl);
    FormalsFoldShape(md.fl, md.t);
    forall x ensures var m := DeclaredMethod(md);
      && (x in m.locals <==> Last(md.vl, VarName, x).Some?)
      && (x in m.locals ==> m.locals[x] == DeclNode(Last(md.vl, VarName, x).value.t))
    {
      LocalsFoldShape(m0, md.vl, x);
    }
    LocalsFoldShape(m0, md.vl, "");
  }

  lemma {:induction false} FieldsFoldShape(c: ClassNode, vl: seq<VarDecl>, x: string)
    ensures var r := FieldsFold(c, vl);
      && r.name == c.name && r.parent == c.parent
      && (x in r.members <==> x in c.members || Last(vl, VarName, x).Some?)
      && (Last(vl, VarName, x).Some? ==> r.members[x] == Field(DeclNode(Last(vl, VarName, x).value.t)))
      && (Last(vl, VarName, x).None? && x in c.members ==> r.members[x] == c.members[x])
    decreases |vl|
  {
    if vl != [] {
      FieldsFoldShape(c, vl[..|vl| - 1], x);
    }
  }

  lemma {:induction false} MethodsFoldShape(c: ClassNode, ml: seq<MethodDecl>, x: string)
    ensures var r := MethodsFold(c, ml);
      && r.name == c.name && r.parent == c.parent
      && (x in r.members <==> x in c.members || Last(ml, MethodName, x).Some?)
      && (Last(ml, MethodName, x).Some? ==> r.members[x] == Method(DeclaredMethod(Last(ml, MethodName, x).value)))
      && (Last(ml, MethodName, x).None? && x in c.members ==> r.members[x] == c.members[x])
    decreases |ml|
  {
    if ml != [] {
      MethodsFoldShape(c, ml[..|ml| - 1], x);
    }
  }

  lemma {:induction false} FieldsFoldWf(c: ClassNode, vl: seq<VarDecl>)
    requires WfClass(c)
    ensures WfClass(FieldsFold(c, vl))
    decreases |vl|
  {
    if vl != [] {
      FieldsFoldWf(c, vl[..|vl| - 1]);
      PutMemberWf(FieldsFold(c, vl[..|vl| - 1]), vl[|vl| - 1].i, Field(DeclNode(vl[|vl| - 1].t)));
    }
  }

  lemma {:induction false} MethodsFoldWf(c: ClassNode, ml: seq<MethodDecl>)
    requires WfClass(c)
    ensures WfClass(MethodsFold(c, ml))
    decreases |ml|
  {
    if ml != [] {
      MethodsFoldWf(c, ml[..|ml| - 1]);
      DeclaredMethodShape(ml[|ml| - 1]);
      PutMemberWf(MethodsFold(c, ml[..|ml| - 1]), ml[|ml| - 1].i, Method(DeclaredMethod(ml[|ml| - 1])));
    }
  }

  /**
    A class entry: its name and parent exactly as declared (the parent need not
    exist); fields and methods share one map, a method replacing a field of the
    same name; the member order lists each member once.
   */
  lemma DeclaredClassShape(cd: ClassDecl, x: string)
    ensures var c := DeclaredClass(cd);
      && c.name == cd.i
      && c.parent == (if cd.ClassDeclExtends? then Some(cd.j) else None)
      && WfClass(c)
      && (x in c.members <==> Last(cd.vl, VarName, x).Some? || Last(cd.ml, MethodName, x).Some?)
      && (Last(cd.ml, MethodName, x).Some? ==> c.members[x] == Method(DeclaredMethod(Last(cd.ml, MethodName, x).value)))
      && (Last(cd.ml, MethodName, x).None? && Last(cd.vl, VarName, x).Some? ==> c.members[x] == Field(DeclNode(Last(cd.vl, VarName, x).value.t)))
  {
    var c0 := EmptyClass(cd);
    FieldsFoldShape(c0, cd.vl, x);
    MethodsFoldShape(FieldsFold(c0, cd.vl), cd.ml, x);
    FieldsFoldWf(c0, cd.vl);
    MethodsFoldWf(FieldsFold(c0, cd.vl), cd.ml);
  }

  /** Every entry of a built table is well formed. */
  lemma {:induction false} RegisteredWf(t: Table, cl: seq<ClassDecl>)
    requires WfTable(t)
    ensures WfTable(Registered(t, cl))
    decreases |cl|
  {
    if cl != [] {
      RegisteredWf(t, cl[..|cl| - 1]);
      DeclaredClassShape(cl[|cl| - 1], "");
    }
  }

  // ---------------------------------------------------------------------------
  // One more declaration

  lemma FormalsFoldSnoc(m: MethodNode, fl: seq<Formal>, i: nat)
    requires i < |fl|
    ensures FormalsFold(m, fl[..i + 1]) == WithFormal(FormalsFold(m, fl[..i]), fl[i])
  {
    assert fl[..i + 1][..i] == fl[..i];
  }

  lemma LocalsFoldSnoc(m: MethodNode, vl: seq<VarDecl>, i: nat)
    requires i < |vl|
    ensures LocalsFold(m, vl[..i + 1]) == WithLocal(LocalsFold(m, vl[..i]), vl[i])
  {
    assert vl[..i + 1][..i] == vl[..i];
  }

  lemma FieldsFoldSnoc(c: ClassNode, vl: seq<VarDecl>, i: nat)
    requires i < |vl|
    ensures FieldsFold(c, vl[..i + 1]) == PutMember(FieldsFold(c, vl[..i]), vl[i].i, Field(DeclNode(vl[i].t)))
  {
    assert vl[..i + 1][..i] == vl[..i];
  }

  lemma MethodsFoldSnoc(c: ClassNode, ml: seq<MethodDecl>, i: nat)
    requires i < |ml|
    ensures MethodsFold(c, ml[..i + 1]) == PutMember(MethodsFold(c, ml[..i]), ml[i].i, Method(DeclaredMethod(ml[i])))
  {
    assert ml[..i + 1][..i] == ml[..i];
  }

  /** A second entry for one class name replaces the first. */
  lemma ReplaceEntry(t: Table, k: string, a: ClassNode, b: ClassNode)
    ensures t[k := a][k := b] == t[k := b]
  {
    assert t[k := a][k := b] == t[k := b];
  }

  // ---------------------------------------------------------------------------
  // The visitor

  class TypeVisitor {
    var classes: Table
    var currentClass: Option<string>
    var currentMethod: Option<string>

    constructor ()
      ensures classes == map[] && currentClass == None && currentMethod == None
    {
      classes := map[];
      currentClass := None;
      currentMethod := None;
    }

    /** The method being filled is an entry of the class being filled. */
    ghost predicate InMethod()
      reads this
    {
      && currentClass.Some? && currentClass.value in classes
      && currentMethod.Some? && currentMethod.value in classes[currentClass.value].members
      && classes[currentClass.value].members[currentMethod.value].Method?
    }

    /** The method entry being filled. */
    ghost function Current(): MethodNode
      reads this
      requires InMethod()
    {
      classes[currentClass.value].members[currentMethod.value].m
    }

    /** `visit(Program)`: the class declarations in order; the main class adds nothing. */
    method VisitProgram(p: Program)
      requires currentClass.None? && currentMethod.None?
      modifies this
      ensures classes == Registered(old(classes), p.cl)
      ensures currentClass.None? && currentMethod.None?
    {
      var i := 0;
      while i < |p.cl|
        invariant 0 <= i <= |p.cl|
        invariant classes == Registered(old(classes), p.cl[..i])
        invariant currentClass.None? && currentMethod.None?
      {
        VisitClassDecl(p.cl[i]);
        assert p.cl[..i + 1][..i] == p.cl[..i];
        i := i + 1;
      }
      assert p.cl[..i] == p.cl;
    }

    /** `visit(ClassDeclSimple)` and `visit(ClassDeclExtends)`. */
    method VisitClassDecl(cd: ClassDecl)
      requires currentMethod.None?
      modifies this
      ensures classes == old(classes)[cd.i := DeclaredClass(cd)]
      ensures currentClass.None? && currentMethod.None?
    {
      var node := EmptyClass(cd);
      currentClass := Some(cd.i);
      classes := classes[cd.i := node];
      VisitFields(cd.vl);
      ReplaceEntry(old(classes), cd.i, node, FieldsFold(node, cd.vl));
      VisitMethods(cd.ml);
      ReplaceEntry(old(classes), cd.i, FieldsFold(node, cd.vl), DeclaredClass(cd));
      currentClass := None;
    }

    /** The loop of `visit(ClassDecl)` over the field declarations. */
    method VisitFields(vl: seq<VarDecl>)
      requires currentClass.Some? && currentClass.value in classes && currentMethod.None?
      modifies this
      ensures currentClass == old(currentClass) && currentMethod.None?
      ensures classes == old(classes)[currentClass.value := FieldsFold(old(classes)[currentClass.value], vl)]
    {
      ghost var c := currentClass.value;
      ghost var c0 := classes[c];
      var i := 0;
      while i < |vl|
        invariant 0 <= i <= |vl|
        invariant classes == old(classes)[c := FieldsFold(c0, vl[..i])]
        invariant currentClass == Some(c) && currentMethod.None?
      {
        VisitVarDecl(vl[i]);
        FieldsFoldSnoc(c0, vl, i);
        ReplaceEntry(old(classes), c, FieldsFold(c0, vl[..i]), FieldsFold(c0, vl[..i + 1]));
        i := i + 1;
      }
      assert vl[..i] == vl;
    }

    /** The loop of `visit(ClassDecl)` over the method declarations. */
    method VisitMethods(ml: seq<MethodDecl>)
      requires currentClass.Some? && currentClass.value in classes && currentMethod.None?
      modifies this
      ensures currentClass == old(currentClass) && currentMethod.None?
      ensures classes == old(classes)[currentClass.value := MethodsFold(old(classes)[currentClass.value], ml)]
    {
      ghost var c := currentClass.value;
      ghost var c0 := classes[c];
      var j := 0;
      while j < |ml|
        invariant 0 <= j <= |ml|
        invariant classes == old(classes)[c := MethodsFold(c0, ml[..j])]
        invariant currentClass == Some(c) && currentMethod.None?
      {
        VisitMethodDecl(ml[j]);
        MethodsFoldSnoc(c0, ml, j);
        ReplaceEntry(old(classes), c, MethodsFold(c0, ml[..j]), MethodsFold(c0, ml[..j + 1]));
        j := j + 1;
      }
      assert ml[..j] == ml;
    }

    /** `visit(VarDecl)`: a local of the current method inside a method, a field of the current class otherwise. */
    method VisitVarDecl(v: VarDecl)
      requires currentClass.Some? && currentClass.value in classes
      requires currentMethod.Some? ==> InMethod()
      modifies this
      ensures currentClass == old(currentClass) && currentMethod == old(currentMethod)
      ensures old(currentMethod).None? ==>
        classes == old(classes)[currentClass.value := PutMember(old(classes)[currentClass.value], v.i, Field(DeclNode(v.t)))]
      ensures old(currentMethod).Some? ==>
        classes == old(classes)[currentClass.value :=
          PutMember(old(classes)[currentClass.value], currentMethod.value, Method(WithLocal(old(Current()), v)))]
    {
      var c := currentClass.value;
      if currentMethod.Some? {
        var mn := classes[c].members[currentMethod.value].m;
        classes := classes[c := PutMember(classes[c], currentMethod.value, Method(WithLocal(mn, v)))];
      } else {
        classes := classes[c := PutMember(classes[c], v.i, Field(DeclNode(v.t)))];
      }
    }

    /** `visit(MethodDecl)`: register the method, then its formals, then its locals. */
    method VisitMethodDecl(md: MethodDecl)
      requires currentClass.Some? && currentClass.value in classes && currentMethod.None?
      modifies this
      ensures currentClass == old(currentClass) && currentMethod.None?
      ensures classes == old(classes)[currentClass.value :=
        PutMember(old(classes)[currentClass.value], md.i, Method(DeclaredMethod(md)))]
    {
      var c := currentClass.value;
      var c0 := classes[c];
      var node := EmptyMethod(md.t);
      currentMethod := Some(md.i);
      classes := classes[c := PutMember(c0, md.i, Method(node))];

      var fl := md.fl;
      var i := 0;
      while i < |fl|
        invariant 0 <= i <= |fl|
        invariant classes == old(classes)[c := PutMember(c0, md.i, Method(FormalsFold(node, fl[..i])))]
        invariant currentClass == Some(c) && currentMethod == Some(md.i)
      {
        ghost var before := FormalsFold(node, fl[..i]);
        VisitFormal(fl[i]);
        FormalsFoldSnoc(node, fl, i);
        PutMemberTwice(c0, md.i, Method(before), Method(WithFormal(before, fl[i])));
        ReplaceEntry(old(classes), c, PutMember(c0, md.i, Method(before)), PutMember(c0, md.i, Method(WithFormal(before, fl[i]))));
        i := i + 1;
      }
      assert fl[..i] == fl;

      var vl := md.vl;
      var j := 0;
      while j < |vl|
        invariant 0 <= j <= |vl|
        invariant classes == old(classes)[c := PutMember(c0, md.i, Method(LocalsFold(FormalsFold(node, fl), vl[..j])))]
        invariant currentClass == Some(c) && currentMethod == Some(md.i)
      {
        ghost var before := LocalsFold(FormalsFold(node, fl), vl[..j]);
        VisitVarDecl(vl[j]);
        LocalsFoldSnoc(FormalsFold(node, fl), vl, j);
        PutMemberTwice(c0, md.i, Method(before), Method(WithLocal(before, vl[j])));
        ReplaceEntry(old(classes), c, PutMember(c0, md.i, Method(before)), PutMember(c0, md.i, Method(WithLocal(before, vl[j]))));
        j := j + 1;
      }
      assert vl[..j] == vl;

      currentMethod := None;
    }

    /** `visit(Formal)`: append to the current method's parameters and record the index. */
    method VisitFormal(f: Formal)
      requires InMethod()
      modifies this
      ensures currentClass == old(currentClass) && currentMethod == old(currentMethod)
      ensures classes == old(classes)[currentClass.value :=
        PutMember(old(classes)[currentClass.value], currentMethod.value, Method(WithFormal(old(Current()), f)))]
    {
      var c := currentClass.value;
      var mn := classes[c].members[currentMethod.value].m;
      classes := classes[c := PutMember(classes[c], currentMethod.value, Method(WithFormal(mn, f)))];
    }
  }
}
