/**
  The checker's error flag is written and never read.

  Setting `returnValue` before a construct is checked changes nothing about
  how that construct is checked: the walk takes the same branches, throws in
  the same places and leaves the same state, except that the flag stays set.
  So an error never stops or alters the rest of the walk: every later
  expression, statement, method and class is still checked as if no error
  had come before it.
 */
module ErrorFlag {
  import opened Common
  import opened Ast
  import opened Semantic
  import opened TypeCheck

  /** An outcome with the error flag set, if it is a state. */
  function Raise(r: Outcome): (r': Outcome)
    ensures r'.Thrown? <==> r.Thrown?
    ensures r'.Ok? ==> r'.s.returnValue == 1 && r'.s.(returnValue := r.s.returnValue) == r.s
  {
    match r
    case Thrown => Thrown
    case Ok(s) => Ok(Flag(s))
  }

  lemma ExpectRaise(r: Outcome, w: Want)
    ensures Expect(Raise(r), w) == Raise(Expect(r, w))
  {
  }

  lemma {:induction false} ExpFlagIgnored(s: State, e: Exp)
    requires Inv(s)
    ensures CheckExp(Flag(s), e) == Raise(CheckExp(s, e))
    decreases e, 3
  {
    if IsBinary(e) {
      BinaryFlagIgnored(s, e);
    } else if e.ArrayLength? || e.NewArray? || e.Not? {
      UnaryFlagIgnored(s, e);
    } else if e.Call? {
      CallFlagIgnored(s, e);
    } else {
      LeafFlagIgnored(s, e);
    }
  }

  lemma {:induction false} OperandsFlagIgnored(s: State, e: Exp, w1: Want, w2: Want)
    requires Inv(s) && IsBinary(e)
    ensures Operands(Flag(s), e, w1, w2) == Raise(Operands(s, e, w1, w2))
    decreases e, 0
  {
    ExpFlagIgnored(s, e.e1);
    ExpectRaise(CheckExp(s, e.e1), w1);
    match Expect(CheckExp(s, e.e1), w1)
    case Thrown =>
    case Ok(s1) =>
      ExpFlagIgnored(s1, e.e2);
      ExpectRaise(CheckExp(s1, e.e2), w2);
  }

  lemma {:induction false} ArithFlagIgnored(s: State, e: Exp)
    requires Inv(s) && (e.Plus? || e.Minus? || e.Times?)
    ensures Arith(Flag(s), e) == Raise(Arith(s, e))
    decreases e, 1
  {
    ExpFlagIgnored(s, e.e1);
    ExpectRaise(CheckExp(s, e.e1), Number);
    match Expect(CheckExp(s, e.e1), Number)
    case Thrown =>
    case Ok(s1) =>
      ExpFlagIgnored(s1, e.e2);
      ExpectRaise(CheckExp(s1, e.e2), Number);
  }

  lemma {:induction false} BinaryFlagIgnored(s: State, e: Exp)
    requires Inv(s) && IsBinary(e)
    ensures CheckBinary(Flag(s), e) == Raise(CheckBinary(s, e))
    decreases e, 2
  {
    if e.Plus? || e.Minus? || e.Times? {
      ArithFlagIgnored(s, e);
    } else if e.ArrayLookup? {
      OperandsFlagIgnored(s, e, Exactly(INTARRAY), Exactly(INT));
    } else if e.And? {
      OperandsFlagIgnored(s, e, Exactly(BOOLEAN), Exactly(BOOLEAN));
    } else {
      ComparisonFlagIgnored(s, e);
    }
  }

  lemma {:induction false} ComparisonFlagIgnored(s: State, e: Exp)
    requires Inv(s)
    requires e.LessThan? || e.LessThanEqual? || e.GreatThan? || e.GreatThanEqual? || e.EqualEqual? || e.NotEqual?
    ensures CheckBinary(Flag(s), e) == Raise(CheckBinary(s, e))
    decreases e, 1
  {
    OperandsFlagIgnored(s, e, Number, Number);
    assert CheckBinary(s, e) == WithType(Operands(s, e, Number, Number), BOOLEAN);
    assert CheckBinary(Flag(s), e) == WithType(Operands(Flag(s), e, Number, Number), BOOLEAN);
  }

  lemma {:induction false} UnaryFlagIgnored(s: State, e: Exp)
    requires Inv(s) && (e.ArrayLength? || e.NewArray? || e.Not?)
    ensures CheckUnary(Flag(s), e) == Raise(CheckUnary(s, e))
    decreases e, 2
  {
    ExpFlagIgnored(s, e.e);
    match e
    case ArrayLength(a) => ExpectRaise(CheckExp(s, a), Exactly(INTARRAY));
    case NewArray(a) => ExpectRaise(CheckExp(s, a), Number);
    case Not(a) => ExpectRaise(CheckExp(s, a), Exactly(BOOLEAN));
  }

  lemma LeafFlagIgnored(s: State, e: Exp)
    requires Inv(s) && !IsBinary(e) && !(e.ArrayLength? || e.NewArray? || e.Not? || e.Call?)
    ensures CheckLeaf(Flag(s), e) == Raise(CheckLeaf(s, e))
  {
    if e.IdentifierExp? {
      assert CurrentMethod(Flag(s)) == CurrentMethod(s);
      assert PrevClass(Flag(s)) == PrevClass(s);
    }
  }

  lemma {:induction false} ArgsFlagIgnored(s: State, call: Exp, i: nat)
    requires Inv(s) && call.Call? && i <= |call.el|
    ensures CheckArgs(Flag(s), call, i) == Raise(CheckArgs(s, call, i))
    decreases call, 0, |call.el| - i
  {
    if i < |call.el| {
      ExpFlagIgnored(s, call.el[i]);
      match CheckExp(s, call.el[i])
      case Thrown =>
      case Ok(s1) => ArgsFlagIgnored(s1, call, i + 1);
    }
  }

  lemma ReceiverFlagIgnored(s: State)
    requires Inv(s)
    ensures Receiver(Flag(s)) == Raise(Receiver(s))
  {
    assert CurrentMethod(Flag(s)) == CurrentMethod(s);
    assert PrevClass(Flag(s)) == PrevClass(s);
  }

  lemma DispatchFlagIgnored(s: State, caller: string, found: Option<Member>, hasParent: bool, x: string)
    requires Inv(s) && caller in s.classes
    ensures Dispatch(Flag(s), caller, found, hasParent, x) == Raise(Dispatch(s, caller, found, hasParent, x))
  {
  }

  lemma {:induction false} CallFlagIgnored(s: State, e: Exp)
    requires Inv(s) && e.Call?
    ensures CheckCall(Flag(s), e) == Raise(CheckCall(s, e))
    decreases e, 1
  {
    ExpFlagIgnored(s, e.e);
    match CheckExp(s, e.e)
    case Thrown =>
    case Ok(s1) =>
      ReceiverFlagIgnored(s1);
      match Receiver(s1)
      case Thrown =>
      case Ok(s2) =>
        var caller := s2.previous.value;
        var cn := s2.classes[caller];
        var found := if e.i in cn.members then Some(cn.members[e.i]) else None;
        ArgsFlagIgnored(s2, e, 0);
        match CheckArgs(s2, e, 0)
        case Thrown =>
        case Ok(s3) => DispatchFlagIgnored(s3, caller, found, cn.parent.Some?, e.i);
  }

  lemma AssignTargetFlagIgnored(s: State, x: string)
    requires Inv(s)
    ensures AssignTarget(Flag(s), x) == AssignTarget(s, x)
  {
    assert CurrentMethod(Flag(s)) == CurrentMethod(s);
  }

  lemma {:induction false} AssignFlagIgnored(s: State, st: Statement)
    requires Inv(s) && st.Assign?
    ensures CheckAssign(Flag(s), st) == Raise(CheckAssign(s, st))
    decreases st, 0
  {
    AssignTargetFlagIgnored(s, st.i);
    ExpFlagIgnored(s, st.e);
  }

  lemma {:induction false} BlockFlagIgnored(s: State, st: Statement, i: nat)
    requires Inv(s) && st.Block? && i <= |st.sl|
    ensures CheckBlock(Flag(s), st, i) == Raise(CheckBlock(s, st, i))
    decreases st, 0, |st.sl| - i
  {
    if i < |st.sl| {
      StmtFlagIgnored(s, st.sl[i]);
      match CheckStmt(s, st.sl[i])
      case Thrown =>
      case Ok(s1) => BlockFlagIgnored(s1, st, i + 1);
    }
  }

  lemma {:induction false} StmtFlagIgnored(s: State, st: Statement)
    requires Inv(s)
    ensures CheckStmt(Flag(s), st) == Raise(CheckStmt(s, st))
    decreases st, 1
  {
    match st
    case Block(_) => BlockFlagIgnored(s, st, 0);
    case If(e, s1, s2) =>
      ExpFlagIgnored(s, e);
      ExpectRaise(CheckExp(s, e), Exactly(BOOLEAN));
      match Expect(CheckExp(s, e), Exactly(BOOLEAN)) {
        case Thrown =>
        case Ok(t1) =>
          StmtFlagIgnored(t1, s1);
          match CheckStmt(t1, s1) {
            case Thrown =>
            case Ok(t2) => StmtFlagIgnored(t2, s2);
          }
      }
    case While(e, body) =>
      ExpFlagIgnored(s, e);
      ExpectRaise(CheckExp(s, e), Exactly(BOOLEAN));
      match Expect(CheckExp(s, e), Exactly(BOOLEAN)) {
        case Thrown =>
        case Ok(t1) => StmtFlagIgnored(t1, body);
      }
    case Print(e) =>
      ExpFlagIgnored(s, e);
      ExpectRaise(CheckExp(s, e), Exactly(INT));
    case Assign(_, _) => AssignFlagIgnored(s, st);
    case ArrayAssign(_, e1, _) =>
      ExpFlagIgnored(s, e1);
      ExpectRaise(CheckExp(s, e1), Exactly(INT));
  }

  /** A method body: an error in one statement leaves the checking of the rest unchanged. */
  lemma {:induction false} StmtsFlagIgnored(s: State, sl: seq<Statement>)
    requires Inv(s)
    ensures CheckStmts(Flag(s), sl) == Raise(CheckStmts(s, sl))
    decreases |sl|
  {
    if sl != [] {
      StmtFlagIgnored(s, sl[0]);
      match CheckStmt(s, sl[0])
      case Thrown =>
      case Ok(s1) => StmtsFlagIgnored(s1, sl[1..]);
    }
  }

  lemma {:induction false} MethodDeclFlagIgnored(s: State, md: MethodDecl)
    requires Inv(s)
    ensures CheckMethodDecl(Flag(s), md) == Raise(CheckMethodDecl(s, md))
  {
    match s.current
    case ClassCursor(c) =>
      if c in s.classes && md.i in s.classes[c].members {
        match s.classes[c].members[md.i]
        case Field(_) =>
        case Method(dm) =>
          var s1 := if dm.returnType.ty == NodeTypeOf(md.t) then s else Flag(s);
          assert (if dm.returnType.ty == NodeTypeOf(md.t) then Flag(s) else Flag(Flag(s))) == Flag(s1);
          match CheckFormals(s1, dm, md.fl)
          case Thrown =>
          case Ok(s2) =>
            assert CheckFormals(Flag(s1), dm, md.fl) == Ok(Flag(s2));
            var s3 := s2.(previous := Some(c), current := MethodCursor(c, md.i));
            assert Flag(s2).(previous := Some(c), current := MethodCursor(c, md.i)) == Flag(s3);
            StmtsFlagIgnored(s3, md.sl);
            match CheckStmts(s3, md.sl)
            case Thrown =>
            case Ok(s4) => ExpFlagIgnored(s4, md.e);
      }
    case _ =>
  }

  lemma {:induction false} MethodsFlagIgnored(s: State, c: string, ml: seq<MethodDecl>)
    requires Inv(s)
    ensures CheckMethods(Flag(s), c, ml) == Raise(CheckMethods(s, c, ml))
    decreases |ml|
  {
    if ml != [] {
      assert Flag(s).(current := ClassCursor(c)) == Flag(s.(current := ClassCursor(c)));
      MethodDeclFlagIgnored(s.(current := ClassCursor(c)), ml[0]);
      match CheckMethodDecl(s.(current := ClassCursor(c)), ml[0])
      case Thrown =>
      case Ok(s1) => MethodsFlagIgnored(s1, c, ml[1..]);
    }
  }

  lemma ClassDeclFlagIgnored(s: State, cd: ClassDecl)
    requires Inv(s)
    ensures CheckClassDecl(Flag(s), cd) == Raise(CheckClassDecl(s, cd))
  {
    if cd.i in s.classes && !(cd.ClassDeclExtends? && s.classes[cd.i].parent.None?) {
      var s1 := if |cd.vl| > 0 then s.(current := ClassCursor(cd.i)) else s;
      assert (if |cd.vl| > 0 then Flag(s).(current := ClassCursor(cd.i)) else Flag(s)) == Flag(s1);
      MethodsFlagIgnored(s1, cd.i, cd.ml);
    }
  }

  /**
    The class loop of `visit(Program)`: once the flag is set, the remaining
    classes are checked exactly as they would have been without it.
   */
  lemma {:induction false} ClassesFlagIgnored(s: State, cl: seq<ClassDecl>)
    requires Inv(s)
    ensures CheckClasses(Flag(s), cl) == Raise(CheckClasses(s, cl))
    decreases |cl|
  {
    if cl != [] {
      ClassDeclFlagIgnored(s, cl[0]);
      match CheckClassDecl(s, cl[0])
      case Thrown =>
      case Ok(s1) => ClassesFlagIgnored(s1, cl[1..]);
    }
  }
}
