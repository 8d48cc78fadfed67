/**
  What the type checker guarantees, stated against independent definitions:
  a compositional typing relation over an explicit scope environment for
  expressions without calls, the nested-scope reading of identifier lookup,
  the single upward lookup that method dispatch amounts to, and the
  consequences for assignments, conditions and declarations.
 */
module TypeRules {
  import opened Common
  import opened Ast
  import opened Semantic
  import opened TypeCheck

  // ---------------------------------------------------------------------------
  // Scopes as maps

  /** The parameters from index `i` on as a name -> tag map, an earlier parameter hiding a later one of the same name. */
  function ParamScope(m: MethodNode, i: nat): map<string, NodeType>
    requires WfMethod(m) && i <= |m.parameters|
    decreases |m.parameters| - i
  {
    if i == |m.parameters| then map[] else ParamScope(m, i + 1)[m.positions[i] := m.parameters[i].ty]
  }

  /** The three scopes an identifier inside a method sees, innermost first. */
  datatype Scopes = Scopes(locals: map<string, Node>, params: map<string, NodeType>, own: map<string, Member>)

  /**
    Nested-scope lookup, the inner scope hiding the outer: the method's
    locals, then its parameters, then the previous class's own members (a
    method member standing for its return type).
   */
  function Lookup(sc: Scopes, x: string): Option<NodeType> {
    if x in sc.locals then Some(sc.locals[x].ty)
    else if x in sc.params then Some(sc.params[x])
    else if x in sc.own then Some(ValueType(sc.own[x]))
    else None
  }

  /** The scopes of the current method, inside the previous class. */
  function ScopesOf(s: State): Scopes
    requires MethodsWf(s.classes) && CurrentMethod(s).Some?
  {
    var m := CurrentMethod(s).value;
    Scopes(m.locals, ParamScope(m, 0), if PrevClass(s).Some? then PrevClass(s).value.members else map[])
  }

  lemma {:induction false} ParamScopeIndex(m: MethodNode, x: string, i: nat)
    requires WfMethod(m) && i <= |m.parameters|
    ensures x in ParamScope(m, i) <==> ParamIndex(m, x, i).Some?
    ensures ParamIndex(m, x, i).Some? ==> ParamScope(m, i)[x] == m.parameters[ParamIndex(m, x, i).value].ty
    decreases |m.parameters| - i
  {
    if i < |m.parameters| {
      ParamScopeIndex(m, x, i + 1);
    }
  }

  /** `visit(IdentifierExp)` resolves a name exactly as the nested scopes say, and flags a name none of them has. */
  lemma IdentifierResolution(s: State, x: string)
    requires Inv(s) && CurrentMethod(s).Some?
    ensures var t := Lookup(ScopesOf(s), x);
      CheckIdentifier(s, x) == Ok(if t.Some? then s.(lastId := x, rValue := t) else Flag(s.(lastId := x)))
  {
    ParamScopeIndex(CurrentMethod(s).value, x, 0);
  }

  /**
    Unlike an assignment target, an identifier is not looked up in the
    ancestors of the previous class: a name only an ancestor declares is flagged.
   */
  lemma IdentifierIgnoresAncestors(s: State, x: string)
    requires Inv(s) && CurrentMethod(s).Some? && PrevClass(s).Some?
    requires x !in CurrentMethod(s).value.locals
    requires forall i :: 0 <= i < |CurrentMethod(s).value.parameters| ==> CurrentMethod(s).value.positions[i] != x
    requires x !in PrevClass(s).value.members
    ensures CheckIdentifier(s, x) == Ok(Flag(s.(lastId := x)))
  {
    ParamIndexFirst(CurrentMethod(s).value, x, 0);
  }

  // ---------------------------------------------------------------------------
  // Typing of expressions without calls

  /** No method call is visited while checking the expression (the operand of `instanceof` is never visited). */
  predicate CallFree(e: Exp) {
    if IsBinary(e) then CallFree(e.e1) && CallFree(e.e2)
    else
      match e
      case Call(_, _, _) => false
      case ArrayLength(a) => CallFree(a)
      case NewArray(a) => CallFree(a)
      case Not(a) => CallFree(a)
      case _ => true
  }

  /** What an expression may refer to: the identifier scope (none outside a method) and the class names `new` accepts. */
  datatype Env = Env(scope: Option<Scopes>, known: set<string>)

  function EnvOf(s: State): Env
    requires Inv(s)
  {
    Env(if CurrentMethod(s).Some? then Some(ScopesOf(s)) else None, s.classes.Keys + s.placeholders)
  }

  predicate IsNumber(t: Option<NodeType>) {
    t.Some? && Numeric(t.value)
  }

  /**
    The typing relation the checker implements, defined by structure: an
    operand test that fails makes the expression untyped; arithmetic is FLOAT
    when an operand is FLOAT and INT otherwise; an array access has the type of
    its (integer) index; `instanceof` is BOOLEAN whatever its operand.
   */
  function Infer(env: Env, e: Exp): Option<NodeType> {
    match e
    case And(a, b) =>
      if Infer(env, a) == Some(BOOLEAN) && Infer(env, b) == Some(BOOLEAN) then Some(BOOLEAN) else None
    case LessThan(a, b) => Compare(Infer(env, a), Infer(env, b))
    case LessThanEqual(a, b) => Compare(Infer(env, a), Infer(env, b))
    case GreatThan(a, b) => Compare(Infer(env, a), Infer(env, b))
    case GreatThanEqual(a, b) => Compare(Infer(env, a), Infer(env, b))
    case EqualEqual(a, b) => Compare(Infer(env, a), Infer(env, b))
    case NotEqual(a, b) => Compare(Infer(env, a), Infer(env, b))
    case Plus(a, b) => Promote(Infer(env, a), Infer(env, b))
    case Minus(a, b) => Promote(Infer(env, a), Infer(env, b))
    case Times(a, b) => Promote(Infer(env, a), Infer(env, b))
    case ArrayLookup(a, b) =>
      if Infer(env, a) == Some(INTARRAY) && Infer(env, b) == Some(INT) then Some(INT) else None
    case ArrayLength(a) => if Infer(env, a) == Some(INTARRAY) then Some(INT) else None
    case Call(_, _, _) => None
    case IntegerLiteral(_) => Some(INT)
    case FloatLiteral(_) => Some(FLOAT)
    case DoubleLiteral(_) => Some(DOUBLE)
    case True => Some(BOOLEAN)
    case False => Some(BOOLEAN)
    case IdentifierExp(x) =>
      if env.scope.Some? then Lookup(env.scope.value, x) else None
    case This => Some(CLASS)
    case NewArray(a) => if IsNumber(Infer(env, a)) then Some(INTARRAY) else None
    case NewObject(i) => if i in env.known then Some(CLASS) else None
    case Not(a) => if Infer(env, a) == Some(BOOLEAN) then Some(BOOLEAN) else None
    case Instanceof(_, _) => Some(BOOLEAN)
    case Null => Some(UNKNOWN)
  }

  function Compare(a: Option<NodeType>, b: Option<NodeType>): Option<NodeType> {
    if IsNumber(a) && IsNumber(b) then Some(BOOLEAN) else None
  }

  function Promote(a: Option<NodeType>, b: Option<NodeType>): Option<NodeType> {
    if IsNumber(a) && IsNumber(b) then Some(if a == Some(FLOAT) || b == Some(FLOAT) then FLOAT else INT) else None
  }

  /** Only the type, the last identifier and the flag changed (the flag only by being set). */
  predicate Frame(s: State, s': State) {
    && s'.classes == s.classes
    && s'.exposed == s.exposed
    && s'.placeholders == s.placeholders
    && s'.current == s.current
    && s'.previous == s.previous
    && (s.returnValue == 1 ==> s'.returnValue == 1)
  }

  lemma EnvFrame(s: State, s': State)
    requires Inv(s) && Inv(s') && Frame(s, s')
    ensures EnvOf(s') == EnvOf(s)
  {
    assert s' == s.(rValue := s'.rValue, lastId := s'.lastId, returnValue := s'.returnValue);
  }

  /** The result of typing one operand and testing it against `w`. */
  predicate Typed(env: Env, e: Exp, w: Want) {
    Infer(env, e).Some? && Fits(Infer(env, e).value, w)
  }

  /**
    The checker's outcome `r` from `s` agrees with the typing `t`: a typed
    expression is checked without a new error and leaves `t`; an untyped one
    sets the flag unless it throws; and nothing but the type, the last
    identifier and the flag changes.
   */
  predicate Sound(s: State, r: Outcome, t: Option<NodeType>) {
    && (r.Ok? ==> Frame(s, r.s))
    && (t.Some? ==> r.Ok? && r.s.rValue == t && r.s.returnValue == s.returnValue)
    && (t.None? && r.Ok? ==> r.s.returnValue == 1)
  }

  /** For an expression without calls the checker computes exactly `Infer`. */
  lemma {:induction false} CheckExpTyping(s: State, e: Exp)
    requires Inv(s) && CallFree(e)
    ensures Sound(s, CheckExp(s, e), Infer(EnvOf(s), e))
    decreases e, 3
  {
    if IsBinary(e) {
      BinaryTyping(s, e);
    } else if e.ArrayLength? || e.NewArray? || e.Not? {
      UnaryTyping(s, e);
    } else {
      LeafTyping(s, e);
    }
  }

  /** One operand followed by its test. */
  lemma {:induction false} OperandTyping(s: State, a: Exp, w: Want)
    requires Inv(s) && CallFree(a)
    ensures Sound(s, Expect(CheckExp(s, a), w), if Typed(EnvOf(s), a, w) then Infer(EnvOf(s), a) else None)
    decreases a, 4
  {
    CheckExpTyping(s, a);
  }

  /** Both operands of a binary operator, each followed by its test; the second operand's type is left. */
  lemma {:induction false} OperandsTyping(s: State, e: Exp, w1: Want, w2: Want)
    requires Inv(s) && IsBinary(e) && CallFree(e)
    ensures Sound(s, Operands(s, e, w1, w2),
      if Typed(EnvOf(s), e.e1, w1) && Typed(EnvOf(s), e.e2, w2) then Infer(EnvOf(s), e.e2) else None)
    decreases e, 0
  {
    var a, b, env := e.e1, e.e2, EnvOf(s);
    OperandTyping(s, a, w1);
    var r1 := Expect(CheckExp(s, a), w1);
    if r1.Ok? {
      EnvFrame(s, r1.s);
      OperandTyping(r1.s, b, w2);
      var r2 := Expect(CheckExp(r1.s, b), w2);
      SoundThen(s, r1, if Typed(env, a, w1) then Infer(env, a) else None, r2, if Typed(env, b, w2) then Infer(env, b) else None);
      assert Operands(s, e, w1, w2) == r2;
    }
  }

  /** Two steps in sequence: typed when both are, the second step's type left. */
  lemma SoundThen(s: State, r1: Outcome, t1: Option<NodeType>, r2: Outcome, t2: Option<NodeType>)
    requires r1.Ok? && Sound(s, r1, t1) && Sound(r1.s, r2, t2)
    ensures Sound(s, r2, if t1.Some? && t2.Some? then t2 else None)
  {
  }

  lemma {:induction false} BinaryTyping(s: State, e: Exp)
    requires Inv(s) && IsBinary(e) && CallFree(e)
    ensures Sound(s, CheckBinary(s, e), Infer(EnvOf(s), e))
    decreases e, 2
  {
    if e.Plus? || e.Minus? || e.Times? {
      ArithSound(s, e);
    } else if e.And? {
      OperandsTyping(s, e, Exactly(BOOLEAN), Exactly(BOOLEAN));
    } else if e.ArrayLookup? {
      OperandsTyping(s, e, Exactly(INTARRAY), Exactly(INT));
    } else {
      ComparisonTyping(s, e);
    }
  }

  /** The six comparisons: numeric operands, a BOOLEAN result. */
  lemma {:induction false} ComparisonTyping(s: State, e: Exp)
    requires Inv(s) && CallFree(e)
    requires e.LessThan? || e.LessThanEqual? || e.GreatThan? || e.GreatThanEqual? || e.EqualEqual? || e.NotEqual?
    ensures Sound(s, CheckBinary(s, e), Infer(EnvOf(s), e))
    decreases e, 1
  {
    OperandsTyping(s, e, Number, Number);
  }

  /** Both operands numeric; FLOAT when either is. */
  lemma {:induction false} ArithSound(s: State, e: Exp)
    requires Inv(s) && (e.Plus? || e.Minus? || e.Times?) && CallFree(e)
    ensures Sound(s, Arith(s, e), Promote(Infer(EnvOf(s), e.e1), Infer(EnvOf(s), e.e2)))
    decreases e, 1
  {
    OperandTyping(s, e.e1, Number);
    var r1 := Expect(CheckExp(s, e.e1), Number);
    if r1.Ok? {
      EnvFrame(s, r1.s);
      OperandTyping(r1.s, e.e2, Number);
    }
  }

  lemma {:induction false} UnaryTyping(s: State, e: Exp)
    requires Inv(s) && (e.ArrayLength? || e.NewArray? || e.Not?) && CallFree(e)
    ensures Sound(s, CheckUnary(s, e), Infer(EnvOf(s), e))
    decreases e, 2
  {
    match e
    case ArrayLength(a) => OperandTyping(s, a, Exactly(INTARRAY));
    case NewArray(a) => OperandTyping(s, a, Number);
    case Not(a) => OperandTyping(s, a, Exactly(BOOLEAN));
  }

  lemma LeafTyping(s: State, e: Exp)
    requires Inv(s) && !IsBinary(e) && !(e.ArrayLength? || e.NewArray? || e.Not? || e.Call?)
    ensures Sound(s, CheckLeaf(s, e), Infer(EnvOf(s), e))
  {
    if e.IdentifierExp? && CurrentMethod(s).Some? {
      IdentifierResolution(s, e.s);
    }
  }

  /** Arithmetic on a DOUBLE and an INT is typed INT, not DOUBLE: only FLOAT wins. */
  lemma DoublePlusIntIsInt(s: State, x: string, y: string)
    requires Inv(s) && CurrentMethod(s).Some?
    requires Lookup(ScopesOf(s), x) == Some(DOUBLE) && Lookup(ScopesOf(s), y) == Some(INT)
    ensures var r := CheckExp(s, Plus(IdentifierExp(x), IdentifierExp(y)));
      r.Ok? && r.s.rValue == Some(INT) && r.s.returnValue == s.returnValue
  {
    var env := EnvOf(s);
    assert Infer(env, IdentifierExp(x)) == Some(DOUBLE);
    assert Infer(env, IdentifierExp(y)) == Some(INT);
    CheckExpTyping(s, Plus(IdentifierExp(x), IdentifierExp(y)));
  }

  /**
    The comparisons, `&&`, `!` and `instanceof` leave BOOLEAN as the type
    whatever their operands were, erroneous or not, calls included.
   */
  lemma BooleanOperatorsYieldBoolean(s: State, e: Exp)
    requires Inv(s)
    requires || e.And? || e.LessThan? || e.LessThanEqual? || e.GreatThan? || e.GreatThanEqual?
             || e.EqualEqual? || e.NotEqual? || e.Not? || e.Instanceof?
    ensures CheckExp(s, e).Ok? ==> CheckExp(s, e).s.rValue == Some(BOOLEAN)
  {
  }

  /**
    An arithmetic operator with a BOOLEAN operand is an error, and its type is
    still INT: the result is INT unless an operand is FLOAT.
   */
  lemma BooleanOperandStillInt(s: State)
    requires Inv(s)
    ensures CheckExp(s, Plus(True, IntegerLiteral(1))) == Ok(s.(rValue := Some(INT), returnValue := 1))
  {
    var e := Plus(True, IntegerLiteral(1));
    var s1 := s.(rValue := Some(BOOLEAN), returnValue := 1);
    assert CheckLeaf(s, True) == Ok(s.(rValue := Some(BOOLEAN)));
    assert CheckExp(s, True) == Ok(s.(rValue := Some(BOOLEAN)));
    assert Expect(CheckExp(s, True), Number) == Ok(s1);
    assert CheckLeaf(s1, IntegerLiteral(1)) == Ok(s1.(rValue := Some(INT)));
    assert CheckExp(s1, IntegerLiteral(1)) == Ok(s1.(rValue := Some(INT)));
    assert Arith(s, e) == Ok(s1.(rValue := Some(INT)));
    assert CheckBinary(s, e) == Arith(s, e);
  }

  /**
    An array lookup leaves the type of its index, not INT: indexing an array
    with `true` is flagged and the lookup's type is BOOLEAN.
   */
  lemma ArrayLookupYieldsIndexType(s: State, x: string)
    requires Inv(s) && CurrentMethod(s).Some? && Lookup(ScopesOf(s), x) == Some(INTARRAY)
    ensures CheckExp(s, ArrayLookup(IdentifierExp(x), True)) == Ok(s.(lastId := x, rValue := Some(BOOLEAN), returnValue := 1))
  {
    var e := ArrayLookup(IdentifierExp(x), True);
    var s1 := s.(lastId := x, rValue := Some(INTARRAY));
    ArrayOperandStep(s, x);
    OperandsStep(s, e, Exactly(INTARRAY), Exactly(INT), s1);
    TrueIndexStep(s1);
    LookupIsOperands(s, e);
  }

  /**
    For every state and every arithmetic expression, erroneous or not, calls
    included: the operands are visited left to right, and a checked `+`, `-`
    or `*` is typed FLOAT exactly when an operand's type is FLOAT and INT
    otherwise; an operand whose type is not a number sets the flag.
   */
  lemma ArithTypeOfAnyOperands(s: State, e: Exp)
    requires Inv(s) && (e.Plus? || e.Minus? || e.Times?)
    ensures var r := CheckExp(s, e);
      r.Ok? ==>
        var r1 := CheckExp(s, e.e1);
        && r1.Ok? && r1.s.rValue.Some?
        && var r2 := CheckExp(Expect(r1, Number).s, e.e2);
        && r2.Ok? && r2.s.rValue.Some?
        && (r.s.rValue == Some(FLOAT) <==> r1.s.rValue == Some(FLOAT) || r2.s.rValue == Some(FLOAT))
        && (r.s.rValue != Some(FLOAT) ==> r.s.rValue == Some(INT))
        && (!Numeric(r1.s.rValue.value) || !Numeric(r2.s.rValue.value) ==> r.s.returnValue == 1)
  {
    assert CheckExp(s, e) == Arith(s, e);
  }

  /**
    For every state and every array lookup, erroneous or not: a checked lookup
    has the type of its index, whatever that is, and an array operand that is
    not INTARRAY or an index that is not INT sets the flag.
   */
  lemma ArrayLookupTypeOfAnyIndex(s: State, e: Exp)
    requires Inv(s) && e.ArrayLookup?
    ensures var r := CheckExp(s, e);
      r.Ok? ==>
        var r1 := CheckExp(s, e.e1);
        && r1.Ok? && r1.s.rValue.Some?
        && var r2 := CheckExp(Expect(r1, Exactly(INTARRAY)).s, e.e2);
        && r2.Ok? && r2.s.rValue.Some?
        && r.s.rValue == r2.s.rValue
        && (r1.s.rValue != Some(INTARRAY) || r2.s.rValue != Some(INT) ==> r.s.returnValue == 1)
  {
    LookupIsOperands(s, e);
  }

  lemma ArrayOperandStep(s: State, x: string)
    requires Inv(s) && CurrentMethod(s).Some? && Lookup(ScopesOf(s), x) == Some(INTARRAY)
    ensures Expect(CheckExp(s, IdentifierExp(x)), Exactly(INTARRAY)) == Ok(s.(lastId := x, rValue := Some(INTARRAY)))
  {
    IdentifierExpStep(s, x);
  }

  lemma TrueIndexStep(s: State)
    requires Inv(s)
    ensures Expect(CheckExp(s, True), Exactly(INT)) == Ok(s.(rValue := Some(BOOLEAN), returnValue := 1))
  {
    assert CheckLeaf(s, True) == Ok(s.(rValue := Some(BOOLEAN)));
  }

  lemma LookupIsOperands(s: State, e: Exp)
    requires Inv(s) && e.ArrayLookup?
    ensures CheckExp(s, e) == Operands(s, e, Exactly(INTARRAY), Exactly(INT))
  {
  }

  /** Two operands: the second is checked from the state the first one's test leaves. */
  lemma OperandsStep(s: State, e: Exp, w1: Want, w2: Want, s1: State)
    requires Inv(s) && IsBinary(e) && Expect(CheckExp(s, e.e1), w1) == Ok(s1)
    ensures Inv(s1) && Operands(s, e, w1, w2) == Expect(CheckExp(s1, e.e2), w2)
  {
  }

  lemma IdentifierExpStep(s: State, x: string)
    requires Inv(s) && CurrentMethod(s).Some? && Lookup(ScopesOf(s), x).Some?
    ensures CheckExp(s, IdentifierExp(x)) == Ok(s.(lastId := x, rValue := Lookup(ScopesOf(s), x)))
  {
    IdentifierResolution(s, x);
    assert CheckLeaf(s, IdentifierExp(x)) == CheckIdentifier(s, x);
  }

  /** `new C()` is accepted exactly when C is a class of the table or a placeholder. */
  lemma NewObjectFlagsUndeclared(s: State, c: string)
    requires Inv(s) && s.returnValue == 0
    ensures var r := CheckExp(s, NewObject(c));
      r.Ok? && r.s.rValue == Some(CLASS) && (r.s.returnValue == 1 <==> c !in s.classes && c !in s.placeholders)
  {
  }

  // ---------------------------------------------------------------------------
  // Statements

  /**
    A condition of `if` or `while` that is not BOOLEAN, a printed value that is
    not INT, and an array-assignment index that is not INT each set the flag;
    a well-typed one adds no error of its own.
   */
  lemma ConditionsFlag(s: State, st: Statement)
    requires Inv(s) && (st.If? || st.While? || st.Print? || st.ArrayAssign?)
    requires CallFree(if st.ArrayAssign? then st.e1 else st.e)
    ensures var g := if st.ArrayAssign? then st.e1 else st.e;
      var want := if st.If? || st.While? then BOOLEAN else INT;
      && (Infer(EnvOf(s), g) != Some(want) && CheckStmt(s, st).Ok? ==> CheckStmt(s, st).s.returnValue == 1)
      && ((st.Print? || st.ArrayAssign?) && Infer(EnvOf(s), g) == Some(want) ==>
            CheckStmt(s, st).Ok? && CheckStmt(s, st).s.returnValue == s.returnValue)
  {
    var g := if st.ArrayAssign? then st.e1 else st.e;
    var want := if st.If? || st.While? then BOOLEAN else INT;
    OperandTyping(s, g, Exactly(want));
  }

  /**
    The same checks for every condition, printed value and index, calls
    included, stated on the type the check of the expression leaves: a type
    other than the wanted one sets the flag, and a printed value or index of
    the wanted type leaves the outcome of checking the expression unchanged.
   */
  lemma ConditionsFlagAny(s: State, st: Statement)
    requires Inv(s) && (st.If? || st.While? || st.Print? || st.ArrayAssign?)
    ensures var g := if st.ArrayAssign? then st.e1 else st.e;
      var want := if st.If? || st.While? then BOOLEAN else INT;
      var r1 := CheckExp(s, g);
      var r := CheckStmt(s, st);
      && (r.Ok? ==> r1.Ok? && r1.s.rValue.Some?)
      && (r.Ok? && r1.s.rValue != Some(want) ==> r.s.returnValue == 1)
      && ((st.Print? || st.ArrayAssign?) && r1.Ok? && r1.s.rValue == Some(want) ==> r == r1)
  {
  }

  /** The parameters `visit(Assign)` can see: only the first parameter's name, bound to the last parameter's entry. */
  lemma AssignScopeParams(m: MethodNode, x: string)
    requires WfMethod(m)
    ensures x in AssignScope(m) <==> x in m.locals || (|m.parameters| > 0 && x == m.positions[0])
    ensures |m.parameters| > 0 && x == m.positions[0] ==> AssignScope(m)[x] == m.parameters[|m.parameters| - 1]
  {
  }

  lemma {:induction false} FindInChainNone(t: Table, chain: seq<string>, x: string)
    requires forall i :: 0 <= i < |chain| ==> chain[i] in t
    requires forall i :: 0 <= i < |chain| ==> x !in t[chain[i]].members
    ensures FindInChain(t, chain, x).None?
    decreases |chain|
  {
    if chain != [] {
      FindInChainNone(t, chain[..|chain| - 1], x);
    }
  }

  /**
    An assignment to a name that is neither a local, nor the first parameter's
    name, nor a member of the previous class or any of its ancestors changes
    nothing at all: no error, and the right-hand side is not even checked.
   */
  lemma AssignUnresolvedIsSilent(s: State, x: string, e: Exp)
    requires Inv(s) && CurrentMethod(s).Some? && s.previous.Some?
    requires x !in CurrentMethod(s).value.locals
    requires |CurrentMethod(s).value.parameters| == 0 || CurrentMethod(s).value.positions[0] != x
    requires forall c :: c in Chain(s.classes, s.previous.value) ==> c in s.classes && x !in s.classes[c].members
    ensures CheckStmt(s, Assign(x, e)) == Ok(s)
  {
    var ch := Chain(s.classes, s.previous.value);
    ChainShape(s.classes, s.previous.value, |s.classes|);
    FindInChainNone(s.classes, ch, x);
    assert FindMember(s.classes, s.previous.value, x).None?;
    assert LocalTarget(s, x) == Missing;
    assert AssignTarget(s, x) == Missing;
  }

  /**
    An assignment whose target resolves with tag `t` and whose right-hand side
    has no calls adds an error exactly when the right-hand side's type is not
    `t`: types must be equal, there is no widening.
   */
  lemma AssignExactTyping(s: State, x: string, e: Exp)
    requires Inv(s) && CallFree(e) && AssignTarget(s, x).Found?
    ensures var r := CheckStmt(s, Assign(x, e));
      && (Infer(EnvOf(s), e) == Some(AssignTarget(s, x).t) ==> r.Ok? && r.s.returnValue == s.returnValue)
      && (Infer(EnvOf(s), e) != Some(AssignTarget(s, x).t) && r.Ok? ==> r.s.returnValue == 1)
  {
    CheckExpTyping(s, e);
  }

  /**
    For every right-hand side, calls included: an assignment whose target
    resolves with tag `t` checks the right-hand side, keeps its type, and ends
    with the flag set exactly when that check set it or left a type other
    than `t`.
   */
  lemma AssignExactTypingAny(s: State, x: string, e: Exp)
    requires Inv(s) && AssignTarget(s, x).Found?
    ensures var r := CheckStmt(s, Assign(x, e));
      var r1 := CheckExp(s, e);
      var t := AssignTarget(s, x).t;
      && (r.Ok? <==> r1.Ok?)
      && (r.Ok? ==> r.s.rValue == r1.s.rValue)
      && (r.Ok? ==> (r.s.returnValue == 1 <==> r1.s.returnValue == 1 || r1.s.rValue != Some(t)))
  {
  }

  // ---------------------------------------------------------------------------
  // Calls

  /**
    After the receiver step of a call, the current method's locals are its
    locals before with every parameter copied in (the last parameter of a
    name winning), whether or not an earlier call already copied them.
   */
  lemma ReceiverCopiesParams(s: State)
    requires Inv(s) && Receiver(s).Ok?
    ensures CurrentMethod(s).Some? && CurrentMethod(Receiver(s).s).Some?
    ensures var m := CurrentMethod(s).value;
      CurrentMethod(Receiver(s).s).value == m.(locals := ParamsAsLocals(m, |m.parameters|))
  {
    var c, x := s.current.c, s.current.m;
    var mn := s.classes[c].members[x].m;
    if (c, x) in s.exposed {
      ParamsAsLocalsIdempotent(mn);
    }
  }

  /** The method an upward lookup from `caller` finds, as the call's outcome. */
  function MethodLookup(s: State, caller: string, x: string): Outcome
    requires Acyclic(s.classes) && caller in s.classes
  {
    match FindMember(s.classes, caller, x)
    case None => Ok(Flag(s))
    case Some(Field(_)) => Thrown
    case Some(Method(mm)) => Ok(s.(rValue := Some(mm.returnType.ty)))
  }

  /**
    The two branches of `visit(Call)` after the arguments (the caller's own
    member, else the walk for a class with a parent, else an error) amount to
    one upward lookup from the caller.
   */
  lemma DispatchIsLookup(s: State, caller: string, x: string)
    requires Inv(s) && caller in s.classes
    ensures var cn := s.classes[caller];
      Dispatch(s, caller, if x in cn.members then Some(cn.members[x]) else None, cn.parent.Some?, x)
        == MethodLookup(s, caller, x)
  {
    assert Rooted(s.classes, caller);
    if x in s.classes[caller].members {
      FindMemberOwn(s.classes, caller, x);
    } else {
      FindMemberInherited(s.classes, caller, x);
    }
  }

  lemma {:induction false} ArgsFrame(s: State, call: Exp, i: nat)
    requires Inv(s) && call.Call? && i <= |call.el|
    requires forall j :: i <= j < |call.el| ==> CallFree(call.el[j])
    ensures CheckArgs(s, call, i).Ok? ==> Frame(s, CheckArgs(s, call, i).s)
    decreases |call.el| - i
  {
    if i < |call.el| {
      CheckExpTyping(s, call.el[i]);
      var r := CheckExp(s, call.el[i]);
      if r.Ok? {
        ArgsFrame(r.s, call, i + 1);
      }
    }
  }

  /**
    For every call, whatever its arguments: once the receiver is resolved and
    the arguments are checked, the call yields the return type of the method
    the upward lookup from the receiver's class finds, and sets the flag when
    there is none. The receiver's class is fixed before the arguments are
    visited.
   */
  lemma CallResolvesUpward(s: State, e: Exp)
    requires Inv(s) && e.Call?
    requires CheckExp(s, e.e).Ok? && Receiver(CheckExp(s, e.e).s).Ok?
    ensures var s2 := Receiver(CheckExp(s, e.e).s).s;
      var r := CheckArgs(s2, e, 0);
      r.Ok? ==> CheckCall(s, e) == MethodLookup(r.s, s2.previous.value, e.i)
  {
    var s2 := Receiver(CheckExp(s, e.e).s).s;
    var r := CheckArgs(s2, e, 0);
    if r.Ok? {
      DispatchIsLookup(r.s, s2.previous.value, e.i);
    }
  }

  /**
    When no argument contains a call, `previousNode` stays on the receiver's
    class after the call. A call among the arguments can move it to that
    inner call's receiver class; this lemma does not cover that case.
   */
  lemma CallKeepsReceiverClass(s: State, e: Exp)
    requires Inv(s) && e.Call? && forall j :: 0 <= j < |e.el| ==> CallFree(e.el[j])
    requires CheckExp(s, e.e).Ok? && Receiver(CheckExp(s, e.e).s).Ok?
    ensures var s2 := Receiver(CheckExp(s, e.e).s).s;
      CheckCall(s, e).Ok? ==> CheckCall(s, e).s.previous == s2.previous
  {
    var s2 := Receiver(CheckExp(s, e.e).s).s;
    ArgsFrame(s2, e, 0);
  }

  // ---------------------------------------------------------------------------
  // Declarations

  /**
    A method declaration checked without error (starting without one) is an
    entry of its class whose declared return type and formal tags agree with
    the table, with no more formals than the entry has parameters, and whose
    return expression has the declared return type.
   */
  lemma MethodDeclSound(s: State, md: MethodDecl)
    requires Inv(s) && CheckMethodDecl(s, md).Ok? && CheckMethodDecl(s, md).s.returnValue == 0
    ensures s.returnValue == 0 && s.current.ClassCursor?
    ensures var c := s.current.c;
      && c in s.classes && md.i in s.classes[c].members && s.classes[c].members[md.i].Method?
      && var dm := s.classes[c].members[md.i].m;
      && dm.returnType.ty == NodeTypeOf(md.t)
      && |md.fl| <= |dm.parameters|
      && (forall i :: 0 <= i < |md.fl| ==> dm.parameters[i].ty == NodeTypeOf(md.fl[i].t))
      && CheckMethodDecl(s, md).s.rValue == Some(dm.returnType.ty)
  {
  }

  /**
    The state `visit(MethodDecl)` reaches once the statements of the body are
    checked, just before the return expression is visited; None when the
    declaration stops earlier (it throws, or its name has no entry).
   */
  function BodyState(s: State, md: MethodDecl): (r: Option<State>)
    requires Inv(s)
    ensures r.Some? ==>
      && Inv(r.value) && s.current.ClassCursor? && s.current.c in s.classes
      && md.i in s.classes[s.current.c].members && s.classes[s.current.c].members[md.i].Method?
  {
    if !s.current.ClassCursor? then None
    else
      var c := s.current.c;
      if c !in s.classes || md.i !in s.classes[c].members || s.classes[c].members[md.i].Field? then None
      else
        var dm := s.classes[c].members[md.i].m;
        var s1 := if dm.returnType.ty == NodeTypeOf(md.t) then s else Flag(s);
        match CheckFormals(s1, dm, md.fl)
        case Thrown => None
        case Ok(s2) =>
          match CheckStmts(s2.(previous := Some(c), current := MethodCursor(c, md.i)), md.sl)
          case Thrown => None
          case Ok(s4) => Some(s4)
  }

  /**
    The return check of `visit(MethodDecl)`: once the body is checked, a
    return expression without calls whose typing is the declared return type
    adds no error, and one whose typing is anything else, or none, sets the flag.
   */
  lemma ReturnTypeChecked(s: State, md: MethodDecl)
    requires Inv(s) && CallFree(md.e) && BodyState(s, md).Some?
    ensures var s4 := BodyState(s, md).value;
      var ret := s.classes[s.current.c].members[md.i].m.returnType.ty;
      var r := CheckMethodDecl(s, md);
      && (Infer(EnvOf(s4), md.e) == Some(ret) ==> r.Ok? && r.s.rValue == Some(ret) && r.s.returnValue == s4.returnValue)
      && (Infer(EnvOf(s4), md.e) != Some(ret) && r.Ok? ==> r.s.returnValue == 1)
  {
    CheckExpTyping(BodyState(s, md).value, md.e);
  }

  /**
    A class declaration missing from the table is flagged once and its name
    becomes a placeholder; afterwards `new` of that name is accepted.
   */
  lemma PlaceholderSilencesNew(s: State, cd: ClassDecl)
    requires Inv(s) && cd.i !in s.classes && cd.i !in s.placeholders
    ensures var r := CheckClassDecl(s, cd);
      && r.Ok? && r.s.returnValue == 1 && cd.i in r.s.placeholders
      && var r2 := CheckExp(r.s.(returnValue := 0), NewObject(cd.i));
      r2.Ok? && r2.s.returnValue == 0
  {
  }

  /** A second declaration of a missing class name throws: its placeholder is not a class node. */
  lemma PlaceholderRedeclarationThrows(s: State, cd: ClassDecl)
    requires Inv(s) && cd.i !in s.classes && cd.i in s.placeholders
    ensures CheckClassDecl(s, cd) == Thrown
  {
  }
}
