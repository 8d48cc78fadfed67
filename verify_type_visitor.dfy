/**
  The type checker as the object the compiler runs: a visitor whose fields
  are updated as it walks the tree. Every visit returns `false` where the Java
  code would throw; otherwise its new fields are exactly those the checker
  functions compute from the old ones.
 */
module TypeChecker {
  import opened Common
  import opened Ast
  import opened Semantic
  import opened TypeCheck

  // ---------------------------------------------------------------------------
  // The loops over one method entry or over the hierarchy; they change nothing.

  /** The parameter scan of `visit(IdentifierExp)`: the first index whose recorded name is `x`. */
  method FirstParam(m: MethodNode, x: string) returns (r: Option<nat>)
    requires WfMethod(m)
    ensures r == ParamIndex(m, x, 0)
  {
    var i := 0;
    while i < |m.parameters|
      invariant 0 <= i <= |m.parameters|
      invariant ParamIndex(m, x, 0) == ParamIndex(m, x, i)
    {
      if m.positions[i] == x {
        return Some(i);
      }
      i := i + 1;
    }
    return None;
  }

  /** The loop of `visit(Call)` that puts each parameter into the locals under its recorded name. */
  method CopyParams(m: MethodNode) returns (locals: map<string, Node>)
    requires WfMethod(m)
    ensures locals == ParamsAsLocals(m, |m.parameters|)
  {
    locals := m.locals;
    var ctr := 0;
    while ctr < |m.parameters|
      invariant 0 <= ctr <= |m.parameters|
      invariant locals == ParamsAsLocals(m, ctr)
    {
      locals := locals[m.positions[ctr] := m.parameters[ctr]];
      ctr := ctr + 1;
    }
  }

  /**
    The scope `visit(Assign)` builds for a method: a copy of the locals, then
    every parameter put under the name of position `index`, which the loop
    never advances from 0.
   */
  method AssignScopeOf(m: MethodNode) returns (scope: map<string, Node>)
    requires WfMethod(m)
    ensures scope == AssignScope(m)
  {
    scope := m.locals;
    var index := 0;
    var k := 0;
    while k < |m.parameters|
      invariant 0 <= k <= |m.parameters| && index == 0
      invariant scope == if k == 0 then m.locals else m.locals[m.positions[0] := m.parameters[k - 1]]
    {
      var id := m.positions[index];
      scope := scope[id := m.parameters[k]];
      k := k + 1;
    }
  }

  /**
    The upward walk of `visit(Assign)` and `visit(Call)`: the members of each
    class with a parent in turn, then those of the root the walk stops at.
   */
  method LookupUpward(t: Table, start: string, x: string) returns (r: Option<Member>)
    requires Acyclic(t) && start in t
    ensures r == FindMember(t, start, x)
  {
    assert Rooted(t, start);
    var prev := start;
    r := None;
    while r.None? && t[prev].parent.Some?
      invariant prev in t && Rooted(t, prev)
      invariant r.None? ==> FindMember(t, start, x) == FindMember(t, prev, x)
      invariant r.Some? ==> r == FindMember(t, start, x)
      decreases |Chain(t, prev)|, if r.None? then 1 else 0
    {
      var scope := t[prev].members;
      if x in scope {
        r := Some(scope[x]);
        FindMemberOwn(t, prev, x);
      } else {
        FindMemberInherited(t, prev, x);
      }
      var parent := t[prev].parent.value;
      ChainStep(t, prev);
      ParentRooted(t, prev);
      prev := parent;
    }
    if r.None? {
      var scope := t[prev].members;
      if x in scope {
        r := Some(scope[x]);
        FindMemberOwn(t, prev, x);
      } else {
        FindMemberInherited(t, prev, x);
      }
    }
  }

  // ---------------------------------------------------------------------------
  // The visitor

  class VerifyTypeVisitor {
    /** The symbol table the declarations pass built; see `State` for what the checker adds to it. */
    const classes: Table
    var exposed: set<(string, string)>
    var placeholders: set<string>
    var currentNode: Cursor
    var previousNode: Option<string>
    var rValueType: Option<NodeType>
    var lastId: string
    var returnValue: int

    /** The fields as a checker state. */
    function Snapshot(): State
      reads this
    {
      State(classes, exposed, placeholders, currentNode, previousNode, rValueType, lastId, returnValue)
    }

    constructor (declared: Table)
      ensures Snapshot() == Initial(declared)
    {
      classes := declared;
      exposed := {};
      placeholders := {};
      currentNode := NoNode;
      previousNode := None;
      rValueType := None;
      lastId := "";
      returnValue := 0;
    }

    /** 1 once any error has been reported, 0 otherwise. */
    method GetReturnValue() returns (r: int)
      requires Inv(Snapshot())
      ensures r == returnValue && (r == 0 || r == 1)
    {
      r := returnValue;
    }

    /** The test after an operand: a null type throws, a type outside `w` sets the flag. */
    method Require(w: Want) returns (ok: bool)
      requires Inv(Snapshot())
      modifies this
      ensures ok == Expect(Ok(old(Snapshot())), w).Ok?
      ensures ok ==> Snapshot() == Expect(Ok(old(Snapshot())), w).s
    {
      if rValueType.None? {
        return false;
      }
      if !Fits(rValueType.value, w) {
        returnValue := 1;
      }
      return true;
    }

    method VisitExp(e: Exp) returns (ok: bool)
      requires Inv(Snapshot())
      modifies this
      ensures ok == CheckExp(old(Snapshot()), e).Ok?
      ensures ok ==> Snapshot() == CheckExp(old(Snapshot()), e).s
      decreases e, 3
    {
      if IsBinary(e) {
        ok := VisitBinary(e);
      } else if e.ArrayLength? || e.NewArray? || e.Not? {
        ok := VisitUnary(e);
      } else if e.Call? {
        ok := VisitCall(e);
      } else {
        ok := VisitLeaf(e);
      }
    }

    /** An operand and its test. */
    method VisitOperand(a: Exp, w: Want) returns (ok: bool)
      requires Inv(Snapshot())
      modifies this
      ensures ok == Expect(CheckExp(old(Snapshot()), a), w).Ok?
      ensures ok ==> Snapshot() == Expect(CheckExp(old(Snapshot()), a), w).s
      decreases a, 4
    {
      ok := VisitExp(a);
      if ok {
        ok := Require(w);
      }
    }

    method VisitOperands(e: Exp, w1: Want, w2: Want) returns (ok: bool)
      requires Inv(Snapshot()) && IsBinary(e)
      modifies this
      ensures ok == Operands(old(Snapshot()), e, w1, w2).Ok?
      ensures ok ==> Snapshot() == Operands(old(Snapshot()), e, w1, w2).s
      decreases e, 1
    {
      ok := VisitOperand(e.e1, w1);
      if ok {
        ok := VisitOperand(e.e2, w2);
      }
    }

    /** `visit(Plus)`, `visit(Minus)`, `visit(Times)`. */
    method VisitArith(e: Exp) returns (ok: bool)
      requires Inv(Snapshot()) && (e.Plus? || e.Minus? || e.Times?)
      modifies this
      ensures ok == Arith(old(Snapshot()), e).Ok?
      ensures ok ==> Snapshot() == Arith(old(Snapshot()), e).s
      decreases e, 1
    {
      ok := VisitOperand(e.e1, Number);
      if !ok {
        return;
      }
      var arg1 := rValueType;
      ok := VisitOperand(e.e2, Number);
      if !ok {
        return;
      }
      var arg2 := rValueType;
      rValueType := Some(if arg1 == Some(FLOAT) || arg2 == Some(FLOAT) then FLOAT else INT);
    }

    method VisitBinary(e: Exp) returns (ok: bool)
      requires Inv(Snapshot()) && IsBinary(e)
      modifies this
      ensures ok == CheckBinary(old(Snapshot()), e).Ok?
      ensures ok ==> Snapshot() == CheckBinary(old(Snapshot()), e).s
      decreases e, 2
    {
      if e.Plus? || e.Minus? || e.Times? {
        ok := VisitArith(e);
      } else if e.ArrayLookup? {
        ok := VisitOperands(e, Exactly(INTARRAY), Exactly(INT));
      } else {
        if e.And? {
          ok := VisitOperands(e, Exactly(BOOLEAN), Exactly(BOOLEAN));
        } else {
          ok := VisitOperands(e, Number, Number);
        }
        if ok {
          rValueType := Some(BOOLEAN);
        }
      }
    }

    method VisitUnary(e: Exp) returns (ok: bool)
      requires Inv(Snapshot()) && (e.ArrayLength? || e.NewArray? || e.Not?)
      modifies this
      ensures ok == CheckUnary(old(Snapshot()), e).Ok?
      ensures ok ==> Snapshot() == CheckUnary(old(Snapshot()), e).s
      decreases e, 2
    {
      match e
      case ArrayLength(a) =>
        ok := VisitOperand(a, Exactly(INTARRAY));
        if ok {
          rValueType := Some(INT);
        }
      case NewArray(a) =>
        ok := VisitOperand(a, Number);
        if ok {
          rValueType := Some(INTARRAY);
        }
      case Not(a) =>
        ok := VisitOperand(a, Exactly(BOOLEAN));
        if ok {
          rValueType := Some(BOOLEAN);
        }
    }

    method VisitLeaf(e: Exp) returns (ok: bool)
      requires Inv(Snapshot()) && !IsBinary(e) && !(e.ArrayLength? || e.NewArray? || e.Not? || e.Call?)
      modifies this
      ensures ok == CheckLeaf(old(Snapshot()), e).Ok?
      ensures ok ==> Snapshot() == CheckLeaf(old(Snapshot()), e).s
    {
      ok := true;
      match e
      case IntegerLiteral(_) => rValueType := Some(INT);
      case FloatLiteral(_) => rValueType := Some(FLOAT);
      case DoubleLiteral(_) => rValueType := Some(DOUBLE);
      case True => rValueType := Some(BOOLEAN);
      case False => rValueType := Some(BOOLEAN);
      case IdentifierExp(x) => ok := VisitIdentifierExp(x);
      case This => rValueType := Some(CLASS);
      case NewObject(i) =>
        if i !in classes && i !in placeholders {
          returnValue := 1;
        }
        rValueType := Some(CLASS);
      case Instanceof(_, _) => rValueType := Some(BOOLEAN);
      case Null => rValueType := Some(UNKNOWN);
    }

    method VisitIdentifierExp(x: string) returns (ok: bool)
      requires Inv(Snapshot())
      modifies this
      ensures ok == CheckIdentifier(old(Snapshot()), x).Ok?
      ensures ok ==> Snapshot() == CheckIdentifier(old(Snapshot()), x).s
    {
      var m := CurrentMethod(Snapshot());
      lastId := x;
      if m.None? {
        return false;
      }
      ok := true;
      if x in m.value.locals {
        rValueType := Some(m.value.locals[x].ty);
        return;
      }
      var i := FirstParam(m.value, x);
      if i.Some? {
        rValueType := Some(m.value.parameters[i.value].ty);
        return;
      }
      if previousNode.Some? {
        var scope := classes[previousNode.value].members;
        if x in scope {
          rValueType := Some(ValueType(scope[x]));
          return;
        }
      }
      returnValue := 1;
    }

    /** The receiver step of `visit(Call)`: parameters into locals, then `previousNode` moved to the receiver's class. */
    method ExposeReceiver() returns (ok: bool)
      requires Inv(Snapshot())
      modifies this
      ensures ok == Receiver(old(Snapshot())).Ok?
      ensures ok ==> Snapshot() == Receiver(old(Snapshot())).s
    {
      var m := CurrentMethod(Snapshot());
      if !currentNode.MethodCursor? || m.None? || previousNode.None? {
        return false;
      }
      var mScope := CopyParams(m.value);
      var cScope := classes[previousNode.value].members;
      var callId := lastId;
      var prev := previousNode;
      if callId in mScope {
        if mScope[callId].ty == CLASS {
          prev := Resolve(Snapshot(), mScope[callId].iam);
        }
      } else if callId in cScope {
        if cScope[callId].Field? && cScope[callId].node.ty == CLASS {
          prev := Resolve(Snapshot(), cScope[callId].node.iam);
        }
      }
      if prev.None? {
        return false;
      }
      exposed := exposed + {(currentNode.c, currentNode.m)};
      previousNode := prev;
      return true;
    }

    /** The argument loop of `visit(Call)`. */
    method VisitArgs(call: Exp) returns (ok: bool)
      requires Inv(Snapshot()) && call.Call?
      modifies this
      ensures ok == CheckArgs(old(Snapshot()), call, 0).Ok?
      ensures ok ==> Snapshot() == CheckArgs(old(Snapshot()), call, 0).s
      decreases call, 0
    {
      var i := 0;
      while i < |call.el|
        invariant 0 <= i <= |call.el| && Inv(Snapshot())
        invariant CheckArgs(old(Snapshot()), call, 0) == CheckArgs(Snapshot(), call, i)
      {
        ok := VisitExp(call.el[i]);
        if !ok {
          return;
        }
        i := i + 1;
      }
      return true;
    }

    method VisitCall(e: Exp) returns (ok: bool)
      requires Inv(Snapshot()) && e.Call?
      modifies this
      ensures ok == CheckCall(old(Snapshot()), e).Ok?
      ensures ok ==> Snapshot() == CheckCall(old(Snapshot()), e).s
      decreases e, 1
    {
      ok := VisitExp(e.e);
      if !ok {
        return;
      }
      ok := ExposeReceiver();
      if !ok {
        return;
      }
      var caller := previousNode.value;
      var cn := classes[caller];
      var myNode := if e.i in cn.members then Some(cn.members[e.i]) else None;
      ok := VisitArgs(e);
      if !ok {
        return;
      }
      if myNode.None? {
        if cn.parent.None? {
          returnValue := 1;
          return;
        }
        myNode := LookupUpward(classes, caller, e.i);
        if myNode.None? {
          returnValue := 1;
          return;
        }
      }
      match myNode.value
      case Field(_) => ok := false;
      case Method(mm) => rValueType := Some(mm.returnType.ty);
    }

    // -------------------------------------------------------------------------
    // Statements

    method VisitStatement(st: Statement) returns (ok: bool)
      requires Inv(Snapshot())
      modifies this
      ensures ok == CheckStmt(old(Snapshot()), st).Ok?
      ensures ok ==> Snapshot() == CheckStmt(old(Snapshot()), st).s
      decreases st, 1
    {
      match st
      case Block(_) => ok := VisitBlock(st);
      case If(e, s1, s2) =>
        ok := VisitOperand(e, Exactly(BOOLEAN));
        if ok {
          ok := VisitStatement(s1);
          if ok {
            ok := VisitStatement(s2);
          }
        }
      case While(e, body) =>
        ok := VisitOperand(e, Exactly(BOOLEAN));
        if ok {
          ok := VisitStatement(body);
        }
      case Print(e) => ok := VisitOperand(e, Exactly(INT));
      case Assign(_, _) => ok := VisitAssign(st);
      case ArrayAssign(_, e1, _) => ok := VisitOperand(e1, Exactly(INT));
    }

    method VisitBlock(st: Statement) returns (ok: bool)
      requires Inv(Snapshot()) && st.Block?
      modifies this
      ensures ok == CheckBlock(old(Snapshot()), st, 0).Ok?
      ensures ok ==> Snapshot() == CheckBlock(old(Snapshot()), st, 0).s
      decreases st, 0
    {
      var i := 0;
      while i < |st.sl|
        invariant 0 <= i <= |st.sl| && Inv(Snapshot())
        invariant CheckBlock(old(Snapshot()), st, 0) == CheckBlock(Snapshot(), st, i)
      {
        ok := VisitStatement(st.sl[i]);
        if !ok {
          return;
        }
        i := i + 1;
      }
      return true;
    }

    /** The target of an assignment in the current node's own scope. */
    method OwnTarget(x: string) returns (t: Target)
      requires Inv(Snapshot())
      ensures t == LocalTarget(Snapshot(), x)
    {
      match currentNode
      case ClassCursor(c) =>
        if c !in classes {
          return Crash;
        }
        var scope := classes[c].members;
        t := if x in scope then Found(MemberType(scope[x])) else Missing;
      case MethodCursor(_, _) =>
        var m := CurrentMethod(Snapshot());
        if m.None? {
          return Crash;
        }
        var scope := AssignScopeOf(m.value);
        t := if x in scope then Found(scope[x].ty) else Missing;
      case NoNode => t := Crash;
    }

    method VisitAssign(st: Statement) returns (ok: bool)
      requires Inv(Snapshot()) && st.Assign?
      modifies this
      ensures ok == CheckAssign(old(Snapshot()), st).Ok?
      ensures ok ==> Snapshot() == CheckAssign(old(Snapshot()), st).s
      decreases st, 0
    {
      var target := OwnTarget(st.i);
      if target.Missing? {
        if previousNode.None? {
          return false;
        }
        var node := LookupUpward(classes, previousNode.value, st.i);
        if node.None? {
          return true;
        }
        target := Found(MemberType(node.value));
      }
      if target.Crash? {
        return false;
      }
      ok := VisitExp(st.e);
      if ok && rValueType != Some(target.t) {
        returnValue := 1;
      }
    }

    // -------------------------------------------------------------------------
    // Declarations

    /** The formal loop of `visit(MethodDecl)`: a formal past the entry's parameters throws, a mismatch sets the flag. */
    method VisitFormals(dm: MethodNode, fl: seq<Formal>) returns (ok: bool)
      requires Inv(Snapshot())
      modifies this
      ensures ok == CheckFormals(old(Snapshot()), dm, fl).Ok?
      ensures ok ==> Snapshot() == CheckFormals(old(Snapshot()), dm, fl).s
    {
      ghost var s0 := Snapshot();
      var i := 0;
      while i < |fl|
        invariant 0 <= i <= |fl| && i <= |dm.parameters|
        invariant Snapshot() ==
          if exists j :: 0 <= j < i && dm.parameters[j].ty != NodeTypeOf(fl[j].t) then Flag(s0) else s0
      {
        if i >= |dm.parameters| {
          return false;
        }
        if dm.parameters[i].ty != NodeTypeOf(fl[i].t) {
          returnValue := 1;
        }
        i := i + 1;
      }
      return true;
    }

    /** The statement loop of `visit(MethodDecl)`. */
    method VisitStatements(sl: seq<Statement>) returns (ok: bool)
      requires Inv(Snapshot())
      modifies this
      ensures ok == CheckStmts(old(Snapshot()), sl).Ok?
      ensures ok ==> Snapshot() == CheckStmts(old(Snapshot()), sl).s
    {
      var i := 0;
      while i < |sl|
        invariant 0 <= i <= |sl| && Inv(Snapshot())
        invariant CheckStmts(old(Snapshot()), sl) == CheckStmts(Snapshot(), sl[i..])
      {
        assert sl[i..][1..] == sl[i + 1..];
        ok := VisitStatement(sl[i]);
        if !ok {
          return;
        }
        i := i + 1;
      }
      return true;
    }

    method VisitMethodDecl(md: MethodDecl) returns (ok: bool)
      requires Inv(Snapshot())
      modifies this
      ensures ok == CheckMethodDecl(old(Snapshot()), md).Ok?
      ensures ok ==> Snapshot() == CheckMethodDecl(old(Snapshot()), md).s
    {
      if !currentNode.ClassCursor? || currentNode.c !in classes {
        return false;
      }
      var c := currentNode.c;
      if md.i !in classes[c].members {
        returnValue := 1;
        return true;
      }
      if classes[c].members[md.i].Field? {
        return false;
      }
      var dm := classes[c].members[md.i].m;
      if dm.returnType.ty != NodeTypeOf(md.t) {
        returnValue := 1;
      }
      ok := VisitFormals(dm, md.fl);
      if !ok {
        return;
      }
      previousNode := Some(c);
      currentNode := MethodCursor(c, md.i);
      // visit(VarDecl) does nothing
      ok := VisitStatements(md.sl);
      if !ok {
        return;
      }
      ok := VisitExp(md.e);
      if ok && rValueType != Some(dm.returnType.ty) {
        returnValue := 1;
      }
    }

    /** The method loop of a class declaration: `currentNode` is the class again before each method. */
    method VisitMethods(c: string, ml: seq<MethodDecl>) returns (ok: bool)
      requires Inv(Snapshot())
      modifies this
      ensures ok == CheckMethods(old(Snapshot()), c, ml).Ok?
      ensures ok ==> Snapshot() == CheckMethods(old(Snapshot()), c, ml).s
    {
      var i := 0;
      while i < |ml|
        invariant 0 <= i <= |ml| && Inv(Snapshot())
        invariant CheckMethods(old(Snapshot()), c, ml) == CheckMethods(Snapshot(), c, ml[i..])
      {
        assert ml[i..][1..] == ml[i + 1..];
        currentNode := ClassCursor(c);
        ok := VisitMethodDecl(ml[i]);
        if !ok {
          return;
        }
        i := i + 1;
      }
      return true;
    }

    /** `visit(ClassDeclSimple)` and `visit(ClassDeclExtends)`. */
    method VisitClassDecl(cd: ClassDecl) returns (ok: bool)
      requires Inv(Snapshot())
      modifies this
      ensures ok == CheckClassDecl(old(Snapshot()), cd).Ok?
      ensures ok ==> Snapshot() == CheckClassDecl(old(Snapshot()), cd).s
    {
      if cd.i !in classes {
        if cd.i in placeholders {
          return false;
        }
        returnValue := 1;
        placeholders := placeholders + {cd.i};
        return true;
      }
      if cd.ClassDeclExtends? && classes[cd.i].parent.None? {
        return false;
      }
      var i := 0;
      while i < |cd.vl|
        invariant 0 <= i <= |cd.vl|
        invariant Snapshot() == if i == 0 then old(Snapshot()) else old(Snapshot()).(current := ClassCursor(cd.i))
      {
        currentNode := ClassCursor(cd.i);
        // visit(VarDecl) does nothing
        i := i + 1;
      }
      ok := VisitMethods(cd.i, cd.ml);
    }

    /** `visit(Program)`: the class declarations in order. */
    method VisitProgram(p: Program) returns (ok: bool)
      requires Inv(Snapshot())
      modifies this
      ensures ok == CheckClasses(old(Snapshot()), p.cl).Ok?
      ensures ok ==> Snapshot() == CheckClasses(old(Snapshot()), p.cl).s
    {
      var i := 0;
      while i < |p.cl|
        invariant 0 <= i <= |p.cl| && Inv(Snapshot())
        invariant CheckClasses(old(Snapshot()), p.cl) == CheckClasses(Snapshot(), p.cl[i..])
      {
        assert p.cl[i..][1..] == p.cl[i + 1..];
        ok := VisitClassDecl(p.cl[i]);
        if !ok {
          return;
        }
        i := i + 1;
      }
      return true;
    }
  }
}
