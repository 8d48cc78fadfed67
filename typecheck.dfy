/**
  The type checker (VerifyTypeVisitor) as functions on its state.

  The checker threads one mutable state through the walk: the symbol table
  (which `Call` writes into), the current and previous nodes, the last
  identifier seen, the type of the last expression (`rValueType`, null until
  the first expression is typed) and the error flag `returnValue`.

  Where the Java code would throw (a null `rValueType` compared with `.equals`,
  a failing cast, an index past the end of a list) the walk stops: such a
  result is `Thrown`, and no state survives it.
 */
module TypeCheck {
  import opened Common
  import opened Ast
  import opened Semantic

  /** `currentNode`: nothing yet, the class being checked, or a method entry of a class. */
  datatype Cursor = NoNode | ClassCursor(c: string) | MethodCursor(c: string, m: string)

  /**
    The checker's fields. `previous` names the class node `previousNode` holds
    (None for null); `placeholders` are the names the checker itself entered
    into the table for classes it could not find.

    The only other change the checker makes to the table is `visit(Call)`
    copying the current method's parameters into its locals. That copy is
    idempotent, so the table is kept as built and `exposed` records the
    methods (class, method) whose locals have had it; `Table` gives the
    table the Java object would hold.
   */
  datatype State = State(
    classes: Table,
    exposed: set<(string, string)>,
    placeholders: set<string>,
    current: Cursor,
    previous: Option<string>,
    rValue: Option<NodeType>,
    lastId: string,
    returnValue: int)

  datatype Outcome = Ok(s: State) | Thrown

  /** A fresh checker over a table. */
  function Initial(t: Table): State {
    State(t, {}, {}, NoNode, None, None, "", 0)
  }

  /** Every method entry of the table has one recorded name per parameter index. */
  ghost predicate MethodsWf(t: Table) {
    forall c, k :: c in t && k in t[c].members && t[c].members[k].Method? ==> WfMethod(t[c].members[k].m)
  }

  /** What every reachable state satisfies. */
  ghost predicate Inv(s: State) {
    && Acyclic(s.classes)
    && MethodsWf(s.classes)
    && (s.returnValue == 0 || s.returnValue == 1)
    && (s.previous.Some? ==> s.previous.value in s.classes)
  }

  /**
    What checking an expression or a statement can change: no class is added
    or removed, no placeholder appears, the current node stays, and an error
    flag once set stays set.
   */
  predicate Follows(s: State, s': State) {
    && s'.classes == s.classes
    && s'.placeholders == s.placeholders
    && s'.current == s.current
    && (s.returnValue == 1 ==> s'.returnValue == 1)
  }

  function Flag(s: State): State {
    s.(returnValue := 1)
  }

  predicate Numeric(t: NodeType) {
    t == INT || t == FLOAT || t == DOUBLE
  }

  /** The two kinds of operand test: "a number" or one exact tag. */
  datatype Want = Number | Exactly(t: NodeType)

  predicate Fits(t: NodeType, w: Want) {
    match w
    case Number => Numeric(t)
    case Exactly(u) => t == u
  }

  /** `if (!rValueType.equals(..)) returnValue = 1;` after an operand: a null rValueType throws. */
  function Expect(r: Outcome, w: Want): Outcome {
    match r
    case Thrown => Thrown
    case Ok(s) =>
      if s.rValue.None? then Thrown
      else if Fits(s.rValue.value, w) then Ok(s)
      else Ok(Flag(s))
  }

  function WithType(r: Outcome, t: NodeType): Outcome {
    match r
    case Thrown => Thrown
    case Ok(s) => Ok(s.(rValue := Some(t)))
  }

  /** The method entry `currentNode` holds, when it holds one. */
  function CurrentMethod(s: State): (r: Option<MethodNode>)
    requires MethodsWf(s.classes)
    ensures r.Some? ==> WfMethod(r.value)
    ensures r.Some? <==>
      (s.current.MethodCursor? && s.current.c in s.classes
       && s.current.m in s.classes[s.current.c].members && s.classes[s.current.c].members[s.current.m].Method?)
    ensures r.Some? ==>
      var mn := s.classes[s.current.c].members[s.current.m].m;
      r.value.returnType == mn.returnType && r.value.parameters == mn.parameters && r.value.positions == mn.positions
  {
    match s.current
    case MethodCursor(c, m) =>
      if c in s.classes && m in s.classes[c].members && s.classes[c].members[m].Method?
      then
        var mn := s.classes[c].members[m].m;
        Some(if (c, m) in s.exposed then mn.(locals := ParamsAsLocals(mn, |mn.parameters|)) else mn)
      else None
    case _ => None
  }

  /** The class node `previousNode` holds, when it holds one. */
  function PrevClass(s: State): (r: Option<ClassNode>)
    ensures r.Some? <==> s.previous.Some? && s.previous.value in s.classes
    ensures r.Some? ==> r.value == s.classes[s.previous.value]
  {
    if s.previous.Some? && s.previous.value in s.classes then Some(s.classes[s.previous.value]) else None
  }

  /** The type an identifier naming a member has: a field's own type, a method's return type. */
  function ValueType(m: Member): NodeType {
    match m
    case Field(n) => n.ty
    case Method(mm) => mm.returnType.ty
  }

  /** The first parameter index from `i` on whose recorded name is `x`. */
  function ParamIndex(m: MethodNode, x: string, i: nat): (r: Option<nat>)
    requires WfMethod(m) && i <= |m.parameters|
    ensures r.Some? ==> i <= r.value < |m.parameters|
    decreases |m.parameters| - i
  {
    if i == |m.parameters| then None
    else if m.positions[i] == x then Some(i)
    else ParamIndex(m, x, i + 1)
  }

  /** `ParamIndex` finds the first index from `i` on that records `x`, and none when no index does. */
  lemma {:induction false} ParamIndexFirst(m: MethodNode, x: string, i: nat)
    requires WfMethod(m) && i <= |m.parameters|
    ensures ParamIndex(m, x, i).Some? ==> m.positions[ParamIndex(m, x, i).value] == x
    ensures ParamIndex(m, x, i).Some? ==> forall j :: i <= j < ParamIndex(m, x, i).value ==> m.positions[j] != x
    ensures ParamIndex(m, x, i).None? ==> forall j :: i <= j < |m.parameters| ==> m.positions[j] != x
    decreases |m.parameters| - i
  {
    if i < |m.parameters| && m.positions[i] != x {
      ParamIndexFirst(m, x, i + 1);
    }
  }

  // ---------------------------------------------------------------------------
  // Expressions

  predicate IsBinary(e: Exp) {
    || e.And? || e.LessThan? || e.LessThanEqual? || e.GreatThan? || e.GreatThanEqual?
    || e.EqualEqual? || e.NotEqual? || e.Plus? || e.Minus? || e.Times? || e.ArrayLookup?
  }

  /** `visit(IdentifierExp)`: locals, then the first parameter of that name, then the previous class's own members. */
  function CheckIdentifier(s: State, x: string): (r: Outcome)
    requires Inv(s)
    ensures r.Ok? ==> r.s.(rValue := s.rValue, lastId := s.lastId, returnValue := s.returnValue) == s
    ensures r.Ok? ==> r.s.lastId == x && (r.s.returnValue == s.returnValue || r.s.returnValue == 1)
  {
    var s1 := s.(lastId := x);
    match CurrentMethod(s)
    case None => Thrown
    case Some(m) =>
      if x in m.locals then Ok(s1.(rValue := Some(m.locals[x].ty)))
      else
        match ParamIndex(m, x, 0)
        case Some(i) => Ok(s1.(rValue := Some(m.parameters[i].ty)))
        case None =>
          match PrevClass(s)
          case Some(c) =>
            if x in c.members then Ok(s1.(rValue := Some(ValueType(c.members[x])))) else Ok(Flag(s1))
          case None => Ok(Flag(s1))
  }

  /** Both operands of a binary operator, each followed by its test; the result is left as the second operand's type. */
  function Operands(s: State, e: Exp, w1: Want, w2: Want): (r: Outcome)
    requires Inv(s) && IsBinary(e)
    ensures r.Ok? ==> Inv(r.s) && Follows(s, r.s)
    decreases e, 1
  {
    match Expect(CheckExp(s, e.e1), w1)
    case Thrown => Thrown
    case Ok(s1) => Expect(CheckExp(s1, e.e2), w2)
  }

  /** `visit(Plus/Minus/Times)`: numeric operands; FLOAT if either operand is FLOAT, INT otherwise. */
  function Arith(s: State, e: Exp): (r: Outcome)
    requires Inv(s) && (e.Plus? || e.Minus? || e.Times?)
    ensures r.Ok? ==> Inv(r.s) && Follows(s, r.s)
    decreases e, 1
  {
    match Expect(CheckExp(s, e.e1), Number)
    case Thrown => Thrown
    case Ok(s1) =>
      match Expect(CheckExp(s1, e.e2), Number)
      case Thrown => Thrown
      case Ok(s2) =>
        Ok(s2.(rValue := Some(if s1.rValue == Some(FLOAT) || s2.rValue == Some(FLOAT) then FLOAT else INT)))
  }

  /** The type `visit` leaves in `rValueType` for an expression, as an outcome. */
  function CheckExp(s: State, e: Exp): (r: Outcome)
    requires Inv(s)
    ensures r.Ok? ==> Inv(r.s) && Follows(s, r.s)
    decreases e, 3
  {
    if IsBinary(e) then CheckBinary(s, e)
    else if e.ArrayLength? || e.NewArray? || e.Not? then CheckUnary(s, e)
    else if e.Call? then CheckCall(s, e)
    else CheckLeaf(s, e)
  }

  /** The binary operators: operand tests, then the result type. */
  function CheckBinary(s: State, e: Exp): (r: Outcome)
    requires Inv(s) && IsBinary(e)
    ensures r.Ok? ==> Inv(r.s) && Follows(s, r.s)
    decreases e, 2
  {
    match e
    case And(_, _) => WithType(Operands(s, e, Exactly(BOOLEAN), Exactly(BOOLEAN)), BOOLEAN)
    case LessThan(_, _) => WithType(Operands(s, e, Number, Number), BOOLEAN)
    case LessThanEqual(_, _) => WithType(Operands(s, e, Number, Number), BOOLEAN)
    case GreatThan(_, _) => WithType(Operands(s, e, Number, Number), BOOLEAN)
    case GreatThanEqual(_, _) => WithType(Operands(s, e, Number, Number), BOOLEAN)
    case EqualEqual(_, _) => WithType(Operands(s, e, Number, Number), BOOLEAN)
    case NotEqual(_, _) => WithType(Operands(s, e, Number, Number), BOOLEAN)
    case Plus(_, _) => Arith(s, e)
    case Minus(_, _) => Arith(s, e)
    case Times(_, _) => Arith(s, e)
    case ArrayLookup(_, _) => Operands(s, e, Exactly(INTARRAY), Exactly(INT))
  }

  /** `length`, `new int[..]` and `!`: one operand test, then the result type. */
  function CheckUnary(s: State, e: Exp): (r: Outcome)
    requires Inv(s) && (e.ArrayLength? || e.NewArray? || e.Not?)
    ensures r.Ok? ==> Inv(r.s) && Follows(s, r.s)
    decreases e, 2
  {
    match e
    case ArrayLength(a) => WithType(Expect(CheckExp(s, a), Exactly(INTARRAY)), INT)
    case NewArray(a) => WithType(Expect(CheckExp(s, a), Number), INTARRAY)
    case Not(a) => WithType(Expect(CheckExp(s, a), Exactly(BOOLEAN)), BOOLEAN)
  }

  /** The expressions with no operand to visit (the operand of `instanceof` is not visited). */
  function CheckLeaf(s: State, e: Exp): (r: Outcome)
    requires Inv(s) && !IsBinary(e) && !(e.ArrayLength? || e.NewArray? || e.Not? || e.Call?)
    ensures r.Ok? ==> Inv(r.s) && Follows(s, r.s)
  {
    match e
    case IntegerLiteral(_) => Ok(s.(rValue := Some(INT)))
    case FloatLiteral(_) => Ok(s.(rValue := Some(FLOAT)))
    case DoubleLiteral(_) => Ok(s.(rValue := Some(DOUBLE)))
    case True => Ok(s.(rValue := Some(BOOLEAN)))
    case False => Ok(s.(rValue := Some(BOOLEAN)))
    case IdentifierExp(x) => CheckIdentifier(s, x)
    case This => Ok(s.(rValue := Some(CLASS)))
    case NewObject(i) =>
      var s1 := if i in s.classes || i in s.placeholders then s else Flag(s);
      Ok(s1.(rValue := Some(CLASS)))
    case Instanceof(_, _) => Ok(s.(rValue := Some(BOOLEAN)))
    case Null => Ok(s.(rValue := Some(UNKNOWN)))
  }

  // ---------------------------------------------------------------------------
  // Calls

  /** The current method's locals after `Call` has put every parameter into them, in index order. */
  function ParamsAsLocals(m: MethodNode, k: nat): map<string, Node>
    requires WfMethod(m) && k <= |m.parameters|
    decreases k
  {
    if k == 0 then m.locals else ParamsAsLocals(m, k - 1)[m.positions[k - 1] := m.parameters[k - 1]]
  }

  /** The last index below `k` whose recorded parameter name is `x`. */
  function LastParamIndex(m: MethodNode, x: string, k: nat): (r: Option<nat>)
    requires WfMethod(m) && k <= |m.parameters|
    ensures r.Some? ==> r.value < k && m.positions[r.value] == x
    ensures r.Some? ==> forall j :: r.value < j < k ==> m.positions[j] != x
    ensures r.None? ==> forall j :: 0 <= j < k ==> m.positions[j] != x
    decreases k
  {
    if k == 0 then None
    else if m.positions[k - 1] == x then Some(k - 1)
    else LastParamIndex(m, x, k - 1)
  }

  /**
    After copying parameters 0..k-1, a name some copied parameter records holds
    the last such parameter; any other name is a local exactly when it was one,
    with its old entry.
   */
  lemma {:induction false} ParamsAsLocalsLookup(m: MethodNode, k: nat, x: string)
    requires WfMethod(m) && k <= |m.parameters|
    ensures LastParamIndex(m, x, k).Some? ==>
      x in ParamsAsLocals(m, k) && ParamsAsLocals(m, k)[x] == m.parameters[LastParamIndex(m, x, k).value]
    ensures LastParamIndex(m, x, k).None? ==>
      (x in ParamsAsLocals(m, k) <==> x in m.locals) && (x in m.locals ==> ParamsAsLocals(m, k)[x] == m.locals[x])
    decreases k
  {
    if k > 0 && m.positions[k - 1] != x {
      ParamsAsLocalsLookup(m, k - 1, x);
    }
  }

  /** Copying the parameters into locals that already hold them changes nothing. */
  lemma ParamsAsLocalsIdempotent(m: MethodNode)
    requires WfMethod(m)
    ensures var k := |m.parameters|;
      ParamsAsLocals(m.(locals := ParamsAsLocals(m, k)), k) == ParamsAsLocals(m, k)
  {
    var k := |m.parameters|;
    var m' := m.(locals := ParamsAsLocals(m, k));
    forall x
      ensures x in ParamsAsLocals(m', k) <==> x in ParamsAsLocals(m, k)
      ensures x in ParamsAsLocals(m, k) ==> ParamsAsLocals(m', k)[x] == ParamsAsLocals(m, k)[x]
    {
      ParamsAsLocalsLookup(m, k, x);
      ParamsAsLocalsLookup(m', k, x);
      assert LastParamIndex(m', x, k) == LastParamIndex(m, x, k) by {
        LastParamIndexSame(m, m', x, k);
      }
    }
  }

  lemma {:induction false} LastParamIndexSame(m: MethodNode, m': MethodNode, x: string, k: nat)
    requires WfMethod(m) && WfMethod(m') && k <= |m.parameters|
    requires m'.parameters == m.parameters && m'.positions == m.positions
    ensures LastParamIndex(m', x, k) == LastParamIndex(m, x, k)
    decreases k
  {
    if k > 0 {
      LastParamIndexSame(m, m', x, k - 1);
    }
  }

  /** `classes.get(iam)` as a class node: absent, null or a placeholder yields no class. */
  function Resolve(s: State, iam: Option<string>): (r: Option<string>)
    ensures r.Some? ==> r.value in s.classes
  {
    if iam.Some? && iam.value in s.classes then iam else None
  }

  /**
    Lines 516-549 of `visit(Call)`: copy the parameters into the locals, move
    `previousNode` to the class of `lastId` when it names a CLASS-typed local
    or field, and cast it to a class node (throwing when it is none).
   */
  function Receiver(s: State): (r: Outcome)
    requires Inv(s)
    ensures r.Ok? ==> Inv(r.s) && Follows(s, r.s) && r.s.previous.Some?
    ensures r.Ok? ==> r.s.rValue == s.rValue && r.s.lastId == s.lastId && r.s.returnValue == s.returnValue
  {
    match s.current
    case MethodCursor(c, m) =>
      if CurrentMethod(s).None? || PrevClass(s).None? then Thrown
      else
        var mn := CurrentMethod(s).value;
        var mScope := ParamsAsLocals(mn, |mn.parameters|);
        // only method entries gained locals, and a method entry is never a receiver's type
        var cScope := s.classes[s.previous.value].members;
        var callId := s.lastId;
        var prev :=
          if callId in mScope then
            (if mScope[callId].ty == CLASS then Resolve(s, mScope[callId].iam) else s.previous)
          else if callId in cScope then
            // a method entry's own tag is never CLASS
            (if cScope[callId].Field? && cScope[callId].node.ty == CLASS then Resolve(s, cScope[callId].node.iam) else s.previous)
          else s.previous;
        if prev.None? then Thrown else Ok(s.(exposed := s.exposed + {(c, m)}, previous := prev))
    case _ => Thrown
  }

  /** The arguments `el[i..]` of a call, left to right. */
  function CheckArgs(s: State, call: Exp, i: nat): (r: Outcome)
    requires Inv(s) && call.Call? && i <= |call.el|
    ensures r.Ok? ==> Inv(r.s) && Follows(s, r.s)
    decreases call, 0, |call.el| - i
  {
    if i == |call.el| then Ok(s)
    else
      match CheckExp(s, call.el[i])
      case Thrown => Thrown
      case Ok(s1) => CheckArgs(s1, call, i + 1)
  }

  /**
    Lines 559-589 of `visit(Call)`: the member found in the caller itself, else
    (for a class with a parent) the one the upward walk finds; a field found
    fails the cast to a method entry.
   */
  function Dispatch(s: State, caller: string, found: Option<Member>, hasParent: bool, x: string): (r: Outcome)
    requires Inv(s) && caller in s.classes
    ensures r.Ok? ==> r.s.(rValue := s.rValue, returnValue := s.returnValue) == s
    ensures r.Ok? ==> r.s.returnValue == s.returnValue || r.s.returnValue == 1
  {
    match found
    case Some(Field(_)) => Thrown
    case Some(Method(mm)) => Ok(s.(rValue := Some(mm.returnType.ty)))
    case None =>
      if !hasParent then Ok(Flag(s))
      else
        match FindMember(s.classes, caller, x)
        case None => Ok(Flag(s))
        case Some(Field(_)) => Thrown
        case Some(Method(mm)) => Ok(s.(rValue := Some(mm.returnType.ty)))
  }

  /** `visit(Call)`. */
  function CheckCall(s: State, e: Exp): (r: Outcome)
    requires Inv(s) && e.Call?
    ensures r.Ok? ==> Inv(r.s) && Follows(s, r.s)
    decreases e, 1
  {
    match CheckExp(s, e.e)
    case Thrown => Thrown
    case Ok(s1) =>
      match Receiver(s1)
      case Thrown => Thrown
      case Ok(s2) =>
        var caller := s2.previous.value;
        var cn := s2.classes[caller];
        var found := if e.i in cn.members then Some(cn.members[e.i]) else None;
        match CheckArgs(s2, e, 0)
        case Thrown => Thrown
        case Ok(s3) => Dispatch(s3, caller, found, cn.parent.Some?, e.i)
  }

  // ---------------------------------------------------------------------------
  // Statements

  /** Where an assignment target was looked up: found with a type, not found, or a lookup that throws. */
  datatype Target = Found(t: NodeType) | Missing | Crash

  /** The scope `visit(Assign)` copies for a method: its locals, plus every parameter put under the name of parameter 0. */
  function AssignScope(m: MethodNode): map<string, Node>
    requires WfMethod(m)
  {
    if |m.parameters| == 0 then m.locals
    else m.locals[m.positions[0] := m.parameters[|m.parameters| - 1]]
  }

  /** Lines 296-313 of `visit(Assign)`: the target in the current node's own scope. */
  function LocalTarget(s: State, x: string): Target
    requires Inv(s)
  {
    match s.current
    case ClassCursor(c) =>
      if c !in s.classes then Crash
      else if x in s.classes[c].members then Found(MemberType(s.classes[c].members[x]))
      else Missing
    case MethodCursor(_, _) => (
      match CurrentMethod(s)
      case None => Crash
      case Some(m) =>
        var scope := AssignScope(m);
        if x in scope then Found(scope[x].ty) else Missing)
    case NoNode => Crash
  }

  /** Lines 296-337 of `visit(Assign)`: the own scope, then the previous class and its ancestors. */
  function AssignTarget(s: State, x: string): Target
    requires Inv(s)
  {
    match LocalTarget(s, x)
    case Missing =>
      if s.previous.None? then Crash
      else (
        match FindMember(s.classes, s.previous.value, x)
        case None => Missing
        case Some(mem) => Found(MemberType(mem)))
    case other => other
  }

  /** `visit(Assign)`: an unresolved target returns before the right-hand side is visited. */
  function CheckAssign(s: State, st: Statement): (r: Outcome)
    requires Inv(s) && st.Assign?
    ensures r.Ok? ==> Inv(r.s) && Follows(s, r.s)
    decreases st, 0
  {
    match AssignTarget(s, st.i)
    case Crash => Thrown
    case Missing => Ok(s)
    case Found(t) =>
      match CheckExp(s, st.e)
      case Thrown => Thrown
      case Ok(s1) => if s1.rValue == Some(t) then Ok(s1) else Ok(Flag(s1))
  }

  function CheckBlock(s: State, st: Statement, i: nat): (r: Outcome)
    requires Inv(s) && st.Block? && i <= |st.sl|
    ensures r.Ok? ==> Inv(r.s) && Follows(s, r.s)
    decreases st, 0, |st.sl| - i
  {
    if i == |st.sl| then Ok(s)
    else
      match CheckStmt(s, st.sl[i])
      case Thrown => Thrown
      case Ok(s1) => CheckBlock(s1, st, i + 1)
  }

  function CheckStmt(s: State, st: Statement): (r: Outcome)
    requires Inv(s)
    ensures r.Ok? ==> Inv(r.s) && Follows(s, r.s)
    decreases st, 1
  {
    match st
    case Block(_) => CheckBlock(s, st, 0)
    case If(e, s1, s2) => (
      match Expect(CheckExp(s, e), Exactly(BOOLEAN))
      case Thrown => Thrown
      case Ok(t1) => (
        match CheckStmt(t1, s1)
        case Thrown => Thrown
        case Ok(t2) => CheckStmt(t2, s2)))
    case While(e, body) => (
      match Expect(CheckExp(s, e), Exactly(BOOLEAN))
      case Thrown => Thrown
      case Ok(t1) => CheckStmt(t1, body))
    case Print(e) => Expect(CheckExp(s, e), Exactly(INT))
    case Assign(_, _) => CheckAssign(s, st)
    case ArrayAssign(_, e1, _) => Expect(CheckExp(s, e1), Exactly(INT))
  }

  /** A method body's statements in order. */
  function CheckStmts(s: State, sl: seq<Statement>): (r: Outcome)
    requires Inv(s)
    ensures r.Ok? ==> Inv(r.s) && Follows(s, r.s)
    decreases |sl|
  {
    if sl == [] then Ok(s)
    else
      match CheckStmt(s, sl[0])
      case Thrown => Thrown
      case Ok(s1) => CheckStmts(s1, sl[1..])
  }

  // ---------------------------------------------------------------------------
  // Declarations

  /**
    Lines 193-205 of `visit(MethodDecl)`: a formal beyond the entry's parameter
    list throws; any formal whose tag differs from the entry's sets the flag.
   */
  function CheckFormals(s: State, dm: MethodNode, fl: seq<Formal>): Outcome {
    if |fl| > |dm.parameters| then Thrown
    else if exists i :: 0 <= i < |fl| && dm.parameters[i].ty != NodeTypeOf(fl[i].t) then Ok(Flag(s))
    else Ok(s)
  }

  /** What checking a declaration can change: no class added or removed, placeholders only added, the flag latched. */
  predicate Advances(s: State, s': State) {
    && s'.classes == s.classes
    && s.placeholders <= s'.placeholders
    && (s.returnValue == 1 ==> s'.returnValue == 1)
  }

  /** `visit(MethodDecl)`, with `currentNode` the enclosing class. */
  function CheckMethodDecl(s: State, md: MethodDecl): (r: Outcome)
    requires Inv(s)
    ensures r.Ok? ==> Inv(r.s) && Advances(s, r.s)
  {
    match s.current
    case ClassCursor(c) =>
      if c !in s.classes then Thrown
      else if md.i !in s.classes[c].members then Ok(Flag(s))
      else (
        match s.classes[c].members[md.i]
        case Field(_) => Thrown
        case Method(dm) =>
          var s1 := if dm.returnType.ty == NodeTypeOf(md.t) then s else Flag(s);
          match CheckFormals(s1, dm, md.fl)
          case Thrown => Thrown
          case Ok(s2) =>
            var s3 := s2.(previous := Some(c), current := MethodCursor(c, md.i));
            match CheckStmts(s3, md.sl)
            case Thrown => Thrown
            case Ok(s4) =>
              match CheckExp(s4, md.e)
              case Thrown => Thrown
              case Ok(s5) => if s5.rValue == Some(dm.returnType.ty) then Ok(s5) else Ok(Flag(s5)))
    case _ => Thrown
  }

  /** The method loop of `visit(ClassDecl...)`: `currentNode` is reset to the class before each method. */
  function CheckMethods(s: State, c: string, ml: seq<MethodDecl>): (r: Outcome)
    requires Inv(s)
    ensures r.Ok? ==> Inv(r.s) && Advances(s, r.s)
    decreases |ml|
  {
    if ml == [] then Ok(s)
    else
      match CheckMethodDecl(s.(current := ClassCursor(c)), ml[0])
      case Thrown => Thrown
      case Ok(s1) => CheckMethods(s1, c, ml[1..])
  }

  /** `visit(ClassDeclSimple)` and `visit(ClassDeclExtends)`. */
  function CheckClassDecl(s: State, cd: ClassDecl): (r: Outcome)
    requires Inv(s)
    ensures r.Ok? ==> Inv(r.s) && Advances(s, r.s)
  {
    if cd.i !in s.classes then
      // a placeholder left by an earlier failure is not a class node: the cast throws
      if cd.i in s.placeholders then Thrown
      else Ok(Flag(s).(placeholders := s.placeholders + {cd.i}))
    else if cd.ClassDeclExtends? && s.classes[cd.i].parent.None? then Thrown
    else
      // the field loop only resets currentNode; visit(VarDecl) does nothing
      var s1 := if |cd.vl| > 0 then s.(current := ClassCursor(cd.i)) else s;
      CheckMethods(s1, cd.i, cd.ml)
  }

  function CheckClasses(s: State, cl: seq<ClassDecl>): (r: Outcome)
    requires Inv(s)
    ensures r.Ok? ==> Inv(r.s) && Advances(s, r.s)
    decreases |cl|
  {
    if cl == [] then Ok(s)
    else
      match CheckClassDecl(s, cl[0])
      case Thrown => Thrown
      case Ok(s1) => CheckClasses(s1, cl[1..])
  }

  /** `visit(Program)` on a fresh checker: the class declarations in order; the main class is not checked. */
  function CheckProgram(t: Table, p: Program): (r: Outcome)
    requires Acyclic(t) && WfTable(t)
    ensures r.Ok? ==> r.s.returnValue == 0 || r.s.returnValue == 1
    ensures r.Ok? ==> r.s.classes == t
  {
    CheckClasses(Initial(t), p.cl)
  }
}
