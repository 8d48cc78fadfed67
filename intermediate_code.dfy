/**
  The intermediate-code pass: it builds every class's vtable from the symbol
  table, then walks the program appending lines of text to `code`.

  Lines that Java builds from an AST object's default `toString` (a class name
  and a hash code) have no fixed text; they are kept as `ObjectText`, the
  prefix and the node printed.
 */
module IntermediateText {
  import opened Common
  import opened Ast
  import opened Semantic
  import opened Layout

  datatype Line = Text(s: string) | ObjectText(prefix: string, e: Exp)

  /** The separator the list renderers put between items. */
  const Indent: string := "\n        "

  // ---------------------------------------------------------------------------
  // Rendering expressions and statements as text

  /** The node kinds `expToValue` has a rendering for. */
  predicate IsValue(e: Exp) {
    e.IdentifierExp? || e.IntegerLiteral? || e.FloatLiteral? || e.True? || e.False? || e.Plus? || e.Minus? || e.Times?
  }

  /** `expToValue`: names, literals and the three arithmetic operators; "" for any other node. */
  function ExpToValue(e: Exp): (r: string)
    ensures !IsValue(e) ==> r == ""
  {
    match e
    case IdentifierExp(s) => s
    case IntegerLiteral(n) => IntToString(n)
    case FloatLiteral(f) => f
    case True => "true"
    case False => "false"
    case Plus(a, b) => ExpToValue(a) + " + " + ExpToValue(b)
    case Minus(a, b) => ExpToValue(a) + " - " + ExpToValue(b)
    case Times(a, b) => ExpToValue(a) + " * " + ExpToValue(b)
    case _ => ""
  }

  /** The infix listing of an arithmetic tree: each other node as rendered, each operator as its symbol. */
  function Tokens(e: Exp): (r: seq<string>)
    ensures |r| > 0
  {
    match e
    case Plus(a, b) => Tokens(a) + ["+"] + Tokens(b)
    case Minus(a, b) => Tokens(a) + ["-"] + Tokens(b)
    case Times(a, b) => Tokens(a) + ["*"] + Tokens(b)
    case _ => [ExpToValue(e)]
  }

  /** The value text is the infix token listing joined by single spaces: no parentheses are ever written. */
  lemma {:induction false} ExpToValueIsTokens(e: Exp)
    ensures ExpToValue(e) == Join(Tokens(e), " ")
  {
    if e.Plus? {
      ExpToValueIsTokens(e.e1);
      ExpToValueIsTokens(e.e2);
      InfixJoin(Tokens(e.e1), "+", Tokens(e.e2));
      assert " " + "+" + " " == " + ";
    } else if e.Minus? {
      ExpToValueIsTokens(e.e1);
      ExpToValueIsTokens(e.e2);
      InfixJoin(Tokens(e.e1), "-", Tokens(e.e2));
      assert " " + "-" + " " == " - ";
    } else if e.Times? {
      ExpToValueIsTokens(e.e1);
      ExpToValueIsTokens(e.e2);
      InfixJoin(Tokens(e.e1), "*", Tokens(e.e2));
      assert " " + "*" + " " == " * ";
    } else {
      assert Tokens(e) == [ExpToValue(e)];
    }
  }

  lemma {:induction false} InfixJoin(xs: seq<string>, op: string, ys: seq<string>)
    requires |xs| > 0 && |ys| > 0
    ensures Join(xs + [op] + ys, " ") == Join(xs, " ") + (" " + op + " ") + Join(ys, " ")
  {
    var l := Join(xs, " ");
    var r := Join(ys, " ");
    JoinAppend(xs, [op], " ");
    assert Join([op], " ") == op;
    assert Join(xs + [op], " ") == l + " " + op;
    JoinAppend(xs + [op], ys, " ");
    assert Join(xs + [op] + ys, " ") == (l + " " + op) + " " + r;
    assert (l + " " + op) + " " + r == l + (" " + op + " ") + r;
  }

  /** The node kinds `expToCondition` has a rendering for. */
  predicate IsCondition(e: Exp) {
    e.LessThan? || e.LessThanEqual? || e.GreatThan? || e.GreatThanEqual? || e.EqualEqual? || e.NotEqual? || e.And? || e.Call?
  }

  /** `expToCondition`: the six comparisons, `&&` of two conditions, and a call; "" for any other node. */
  function ExpToCondition(e: Exp): (r: string)
    ensures !IsCondition(e) ==> r == ""
  {
    match e
    case LessThan(a, b) => ExpToValue(a) + " < " + ExpToValue(b)
    case LessThanEqual(a, b) => ExpToValue(a) + " <= " + ExpToValue(b)
    case GreatThan(a, b) => ExpToValue(a) + " > " + ExpToValue(b)
    case GreatThanEqual(a, b) => ExpToValue(a) + " >= " + ExpToValue(b)
    case EqualEqual(a, b) => ExpToValue(a) + " == " + ExpToValue(b)
    case NotEqual(a, b) => ExpToValue(a) + " != " + ExpToValue(b)
    case And(a, b) => ExpToCondition(a) + " && " + ExpToCondition(b)
    case Call(r, i, el) => ExpToValue(r) + i + " " + ExpListToValue(el)
    case _ => ""
  }

  /** The operands of a tree of `&&`, left to right. */
  function Conjuncts(e: Exp): (r: seq<Exp>)
    ensures |r| > 0 && forall i :: 0 <= i < |r| ==> !r[i].And?
  {
    match e
    case And(a, b) => Conjuncts(a) + Conjuncts(b)
    case _ => [e]
  }

  function Conditions(es: seq<Exp>): (r: seq<string>)
    ensures |r| == |es| && forall i :: 0 <= i < |es| ==> r[i] == ExpToCondition(es[i])
  {
    seq(|es|, i requires 0 <= i < |es| => ExpToCondition(es[i]))
  }

  /** A condition's text is its conjuncts' texts joined by " && ". */
  lemma {:induction false} ExpToConditionConjuncts(e: Exp)
    ensures ExpToCondition(e) == Join(Conditions(Conjuncts(e)), " && ")
  {
    if e.And? {
      var a, b := e.e1, e.e2;
      ExpToConditionConjuncts(a);
      ExpToConditionConjuncts(b);
      var ca, cb := Conjuncts(a), Conjuncts(b);
      ConditionsAppend(ca, cb);
      JoinAppend(Conditions(ca), Conditions(cb), " && ");
    } else {
      assert Conjuncts(e) == [e];
      assert Conditions([e]) == [ExpToCondition(e)];
    }
  }

  lemma ConditionsAppend(xs: seq<Exp>, ys: seq<Exp>)
    ensures Conditions(xs + ys) == Conditions(xs) + Conditions(ys)
  {
  }

  /**
    The loop of `expListToValue` and of the `Block` case of `statementToString`
    over already rendered items: each item is appended, followed by the
    separator unless it is the last.
   */
  function JoinLoop(xs: seq<string>, i: nat, value: string, sep: string): string
    requires i <= |xs|
    decreases |xs| - i
  {
    if i == |xs| then value
    else JoinLoop(xs, i + 1, value + xs[i] + (if i < |xs| - 1 then sep else ""), sep)
  }

  /** The loop computes the join of the items with the separator. */
  lemma JoinLoopIsJoin(xs: seq<string>, sep: string)
    ensures JoinLoop(xs, 0, "", sep) == Join(xs, sep)
  {
    if |xs| > 0 {
      assert xs[..1] == [xs[0]];
      assert Join(xs[..1], sep) == xs[0];
      assert JoinLoop(xs, 0, "", sep) == JoinLoop(xs, 1, "" + xs[0] + (if 0 < |xs| - 1 then sep else ""), sep);
      assert "" + xs[0] == xs[0];
      JoinLoopFrom(xs, 1, sep);
    }
  }

  /** After i items (0 < i), the loop has built the join of those items, plus a separator when more follow. */
  lemma {:induction false} JoinLoopFrom(xs: seq<string>, i: nat, sep: string)
    requires 0 < i <= |xs|
    ensures JoinLoop(xs, i, Join(xs[..i], sep) + (if i < |xs| then sep else ""), sep) == Join(xs, sep)
    decreases |xs| - i
  {
    if i == |xs| {
      assert xs[..i] == xs;
    } else {
      JoinAppend(xs[..i], [xs[i]], sep);
      assert xs[..i] + [xs[i]] == xs[..i + 1];
      assert Join([xs[i]], sep) == xs[i];
      JoinLoopFrom(xs, i + 1, sep);
    }
  }

  function Values(el: seq<Exp>): (r: seq<string>)
    ensures |r| == |el| && forall i :: 0 <= i < |el| ==> r[i] == ExpToValue(el[i])
  {
    seq(|el|, i requires 0 <= i < |el| => ExpToValue(el[i]))
  }

  /** `expListToValue`: the values of the arguments, one per line. */
  function ExpListToValue(el: seq<Exp>): (r: string)
    ensures r == Join(Values(el), Indent)
  {
    JoinLoopIsJoin(Values(el), Indent);
    JoinLoop(Values(el), 0, "", Indent)
  }

  /** `statementToString`: an assignment, a block of them, or a printed condition; "" for any other statement. */
  function StatementToString(st: Statement): (r: string)
    ensures !(st.Assign? || st.Block? || st.Print?) ==> r == ""
    decreases st, 1
  {
    match st
    case Assign(i, e) => i + " := " + ExpToValue(e)
    case Block(sl) => JoinLoop(Terminated(st), 0, "", Indent)
    case Print(e) => ExpToCondition(e)
    case _ => ""
  }

  /** Each statement of a block rendered and followed by ";". */
  function Terminated(st: Statement): (r: seq<string>)
    requires st.Block?
    ensures |r| == |st.sl|
    decreases st, 0
  {
    seq(|st.sl|, i requires 0 <= i < |st.sl| => StatementToString(st.sl[i]) + ";")
  }

  /** A block's text: its statements, each followed by ";", one per line. */
  lemma BlockText(st: Statement)
    requires st.Block?
    ensures StatementToString(st) == Join(Terminated(st), Indent)
    ensures forall i :: 0 <= i < |st.sl| ==> Terminated(st)[i] == StatementToString(st.sl[i]) + ";"
  {
    JoinLoopIsJoin(Terminated(st), Indent);
  }

  // ---------------------------------------------------------------------------
  // Labels

  /** `getLabel`'s text for counter value n. */
  function Label(n: nat): string {
    "L" + NatToString(n)
  }

  /** The labels handed out while the counter went from 0 to k. */
  function Issued(k: nat): set<string> {
    set n: nat | n < k :: Label(n)
  }

  /** Counter values below k never give the label of k, so every label is handed out once. */
  lemma IssuedStep(k: nat)
    ensures Label(k) !in Issued(k)
    ensures Issued(k + 1) == Issued(k) + {Label(k)}
  {
    if Label(k) in Issued(k) {
      var n: nat :| n < k && Label(n) == Label(k);
      assert Label(n)[1..] == NatToString(n) && Label(k)[1..] == NatToString(k);
      NatToStringInjective(n, k);
      assert false;
    }
  }

  // ---------------------------------------------------------------------------
  // The emitter's state and what each visit appends

  /** The pass's fields other than the symbol table. */
  datatype Out = Out(
    code: seq<Line>,
    currentClass: Option<string>,
    currentMethod: Option<string>,
    parameters: Option<map<string, int>>,
    variables: Option<map<string, int>>,
    lastLabel: nat,
    vTable: Option<map<string, map<string, int>>>,
    lastSeenType: Option<string>)

  function Fresh(): Out {
    Out([], None, None, None, None, 0, None, None)
  }

  function Emit(o: Out, lines: seq<Line>): Out {
    o.(code := o.code + lines)
  }

  /** What a visit may change: it appends to `code`, only advances the label counter, and keeps the cursors. */
  predicate Appends(o: Out, r: Out) {
    && o.code <= r.code
    && o.lastLabel <= r.lastLabel
    && r.currentClass == o.currentClass
    && r.vTable == o.vTable
  }

  /** Java's `"" + s` for a string that may be null. */
  function OrNull(s: Option<string>): string {
    if s.Some? then s.value else "null"
  }

  /** The visit of an expression node (`n.accept(this)`). */
  function EmitExp(o: Out, e: Exp): (r: Out)
    ensures Appends(o, r)
    ensures r.currentMethod == o.currentMethod && r.parameters == o.parameters && r.variables == o.variables
    decreases e, 1
  {
    if e.NewArray? then Emit(EmitExp(o, e.e), [ObjectText("    ", e)])
    else if e.Not? then Emit(EmitExp(o.(lastLabel := o.lastLabel + 2), e.e), [ObjectText("    ", e.e)])
    else if e.GreatThan? then EmitComparison(o, e, "    > ")
    else if e.GreatThanEqual? then EmitComparison(o, e, "    >= ")
    else if e.LessThanEqual? then EmitComparison(o, e, "    <= ")
    else if e.EqualEqual? then EmitComparison(o, e, "    == ")
    else if e.NotEqual? then EmitComparison(o, e, "    != ")
    else if IsOperator(e) then EmitOperator(o, e)
    else EmitLeaf(o, e)
  }

  /** The other nodes with two operands, and a call: each prints its line or lines and visits nothing. */
  predicate IsOperator(e: Exp) {
    e.And? || e.LessThan? || e.Plus? || e.Minus? || e.Times? || e.ArrayLookup? || e.ArrayLength? || e.Call?
  }

  function EmitOperator(o: Out, e: Exp): Out
    requires IsOperator(e)
  {
    match e
    case And(a, b) => Emit(o, [Text("    " + ExpToCondition(a) + " && " + ExpToCondition(b))])
    case LessThan(a, b) => Emit(o, [Text(ExpToValue(a) + " < " + ExpToValue(b))])
    case Plus(a, b) => Emit(o, [Text(ExpToValue(a) + " + " + ExpToValue(b))])
    case Minus(a, b) => Emit(o, [Text(ExpToValue(a) + " - " + ExpToValue(b))])
    case Times(a, b) => Emit(o, [Text(ExpToValue(a) + " * " + ExpToValue(b))])
    case ArrayLookup(a, b) => Emit(o, [ObjectText("    ", a), ObjectText("    ", b)])
    case ArrayLength(a) => Emit(o, [ObjectText("    ", a)])
    case Call(_, i, _) => Emit(o, [Text("    call " + i)])
  }

  /** Literals, names, `this` and `new C()`; the float, double, instanceof and null visits do nothing. */
  function EmitLeaf(o: Out, e: Exp): Out {
    match e
    case IntegerLiteral(n) => Emit(o, [Text("    " + IntToString(n))])
    case True => Emit(o, [Text("    true")])
    case False => Emit(o, [Text("    false")])
    case IdentifierExp(s) => Emit(o, [Text("    " + s)])
    case This => Emit(o, [ObjectText("    ", e)]).(lastSeenType := o.currentClass)
    case NewObject(i) => Emit(o, [Text("    " + i)]).(lastSeenType := Some(i))
    case _ => o
  }

  /** `>`, `>=`, `<=`, `==`, `!=`: two labels taken, then each operand visited and printed. */
  function EmitComparison(o: Out, e: Exp, op: string): (r: Out)
    requires e.GreatThan? || e.GreatThanEqual? || e.LessThanEqual? || e.EqualEqual? || e.NotEqual?
    ensures Appends(o, r) && r.lastLabel >= o.lastLabel + 2
    ensures r.currentMethod == o.currentMethod && r.parameters == o.parameters && r.variables == o.variables
    decreases e, 0
  {
    var o1 := Emit(EmitExp(o.(lastLabel := o.lastLabel + 2), e.e1), [ObjectText("    ", e.e1)]);
    Emit(EmitExp(o1, e.e2), [ObjectText(op, e.e2)])
  }

  /** The six lines of `visit(If)`: the else branch falls through, the then branch follows `ifTrue:`. */
  function IfLines(e: Exp, s1: Statement, s2: Statement): seq<Line> {
    [ Text("    if " + ExpToCondition(e) + " goto ifTrue"),
      Text("        " + StatementToString(s2) + ";"),
      Text("        goto endElse"),
      Text("    ifTrue:"),
      Text("        " + StatementToString(s1) + ";"),
      Text("    endElse:") ]
  }

  function WhileLines(e: Exp, s: Statement): seq<Line> {
    [ Text("    while: if " + ExpToCondition(e) + " goto endWhile"),
      Text("        " + StatementToString(s)),
      Text("        goto while:"),
      Text("   endWhile:") ]
  }

  function EmitStmt(o: Out, st: Statement): (r: Out)
    ensures Appends(o, r)
    ensures r.currentMethod == o.currentMethod && r.parameters == o.parameters && r.variables == o.variables
    decreases st, 1
  {
    match st
    case Block(_) => EmitBlock(o, st, 0)
    case If(e, s1, s2) => Emit(o, IfLines(e, s1, s2))
    case While(e, s) => Emit(o, WhileLines(e, s))
    case Print(e) => Emit(o, [Text("    print " + ExpToValue(e))])
    case Assign(i, e) => Emit(EmitExp(o, e), [Text("    " + i)])
    case ArrayAssign(_, e1, e2) => Emit(EmitExp(o, e2), [ObjectText("    ", e1)])
  }

  /** The statements `sl[i..]` of a block. */
  function EmitBlock(o: Out, st: Statement, i: nat): (r: Out)
    requires st.Block? && i <= |st.sl|
    ensures Appends(o, r)
    ensures r.currentMethod == o.currentMethod && r.parameters == o.parameters && r.variables == o.variables
    decreases st, 0, |st.sl| - i
  {
    if i == |st.sl| then o else EmitBlock(EmitStmt(o, st.sl[i]), st, i + 1)
  }

  function EmitStmts(o: Out, sl: seq<Statement>): (r: Out)
    ensures Appends(o, r)
    ensures r.currentMethod == o.currentMethod && r.parameters == o.parameters && r.variables == o.variables
    decreases |sl|
  {
    if sl == [] then o else EmitStmts(EmitStmt(o, sl[0]), sl[1..])
  }

  /** `put(name, i)` for the i-th formal: a repeated name keeps its last index. */
  function FormalOffsets(fl: seq<Formal>): map<string, int> {
    Numbered(Names(fl, FormalName), 0)
  }

  /** The names the declarations `xs` introduce, in order. */
  function Names<T>(xs: seq<T>, name: T -> string): (r: seq<string>)
    ensures |r| == |xs| && forall i :: 0 <= i < |xs| ==> r[i] == name(xs[i])
  {
    seq(|xs|, i requires 0 <= i < |xs| => name(xs[i]))
  }

  /** `put(name, i)` for the i-th local variable. */
  function VarDeclOffsets(vl: seq<VarDecl>): map<string, int> {
    Numbered(Names(vl, VarName), 0)
  }

  /** `visit(MethodDecl)`: its label, its statements, then `return` and the value of its expression. */
  function EmitMethod(o: Out, md: MethodDecl): (r: Out)
    ensures o.code <= r.code && o.lastLabel <= r.lastLabel && r.currentClass == o.currentClass && r.vTable == o.vTable
    ensures r.currentMethod.None? && r.parameters.None?
  {
    var o1 := Emit(o.(currentMethod := Some(md.i)), [Text(OrNull(o.currentClass) + "$" + md.i + ":")]);
    var o2 := o1.(parameters := Some(FormalOffsets(md.fl)), variables := Some(VarDeclOffsets(md.vl)));
    var o3 := EmitStmts(o2, md.sl);
    Emit(o3, [Text("return " + ExpToValue(md.e))]).(parameters := None, currentMethod := None)
  }

  function EmitMethods(o: Out, ml: seq<MethodDecl>): (r: Out)
    ensures o.code <= r.code && o.lastLabel <= r.lastLabel && r.currentClass == o.currentClass && r.vTable == o.vTable
    decreases |ml|
  {
    if ml == [] then o else EmitMethods(EmitMethod(o, ml[0]), ml[1..])
  }

  /** `visit(ClassDeclSimple)` and `visit(ClassDeclExtends)`: the methods with `currentClass` set, which is null after. */
  function EmitClass(o: Out, cd: ClassDecl): (r: Out)
    ensures o.code <= r.code && o.lastLabel <= r.lastLabel && r.vTable == o.vTable
    ensures r.currentClass.None?
  {
    EmitMethods(o.(currentClass := Some(cd.i)), cd.ml).(currentClass := None)
  }

  function EmitClasses(o: Out, cl: seq<ClassDecl>): (r: Out)
    ensures o.code <= r.code && o.lastLabel <= r.lastLabel && r.vTable == o.vTable
    ensures cl != [] ==> r.currentClass.None?
    decreases |cl|
  {
    if cl == [] then o else EmitClasses(EmitClass(o, cl[0]), cl[1..])
  }

  function EmitMain(o: Out, m: MainClass): Out {
    Emit(o, [Text("main: "), Text("    call " + StatementToString(m.s))])
  }

  // ---------------------------------------------------------------------------
  // Vtables as emitted

  /** `"    " + methods.get(meth)`: Java prints "null" for a name with no label. */
  function EntryLines(labels: map<string, string>, names: seq<string>): seq<Line>
    decreases |names|
  {
    if names == [] then []
    else
      var n := names[|names| - 1];
      EntryLines(labels, names[..|names| - 1]) + [EntryLine(labels, n)]
  }

  function EntryLine(labels: map<string, string>, n: string): Line {
    Text("    " + (if n in labels then labels[n] else "null"))
  }

  /** One line per name, the i-th for the i-th name. */
  lemma {:induction false} EntryLinesAt(labels: map<string, string>, names: seq<string>)
    ensures |EntryLines(labels, names)| == |names|
    ensures forall i :: 0 <= i < |names| ==> EntryLines(labels, names)[i] == EntryLine(labels, names[i])
    decreases |names|
  {
    if names != [] {
      EntryLinesAt(labels, names[..|names| - 1]);
    }
  }

  /** `constructTableEntry`'s output: the class's label, then one line per slot. */
  function TableEntryLines(t: Table, c: string): seq<Line>
    requires Rooted(t, c)
  {
    [Text(c + ":")] + EntryLines(Labels(t, c), VtableNames(t, c))
  }

  /**
    A class's vtable text is its label followed by exactly one line per slot,
    and the line of slot s reads `D$m` for the method m at slot s, D being the
    nearest class declaring m.
   */
  lemma TableEntryText(t: Table, c: string, m: string) returns (i: int)
    requires Rooted(t, c) && WfTable(t) && m in Vtable(t, c)
    ensures |TableEntryLines(t, c)| == 1 + |VtableNames(t, c)|
    ensures 1 <= Vtable(t, c)[m] < |TableEntryLines(t, c)|
    ensures InTable(t, Chain(t, c)) && 0 <= i < |Chain(t, c)|
    ensures m in t[Chain(t, c)[i]].members && t[Chain(t, c)[i]].members[m].Method?
    ensures TableEntryLines(t, c)[Vtable(t, c)[m]] == Text("    " + MethodLabel(Chain(t, c)[i], m))
    ensures forall j :: i < j < |Chain(t, c)| ==> !(m in t[Chain(t, c)[j]].members && t[Chain(t, c)[j]].members[m].Method?)
  {
    assert 1 <= Vtable(t, c)[m] <= |VtableNames(t, c)| && VtableNames(t, c)[Vtable(t, c)[m] - 1] == m by {
      VtableBijective(t, c);
    }
    EntryLineAt(Labels(t, c), VtableNames(t, c), Vtable(t, c)[m] - 1);
    i := LabelIsNearestDeclaring(t, c, m);
  }

  lemma EntryLineAt(labels: map<string, string>, names: seq<string>, k: int)
    requires 0 <= k < |names|
    ensures |EntryLines(labels, names)| == |names|
    ensures EntryLines(labels, names)[k] == EntryLine(labels, names[k])
  {
    EntryLinesAt(labels, names);
  }

  /** The text of `createVTables`: each class's entry in the table's enumeration order. */
  function VtableCode(t: Table, order: seq<string>): seq<Line>
    requires Acyclic(t) && InTable(t, order)
    decreases |order|
  {
    if order == [] then []
    else VtableCode(t, order[..|order| - 1]) + TableEntryLines(t, order[|order| - 1])
  }

  /** The `vTable` map `createVTables` leaves. */
  function VTables(t: Table, order: seq<string>): map<string, map<string, int>>
    requires Acyclic(t) && InTable(t, order)
    decreases |order|
  {
    if order == [] then map[]
    else VTables(t, order[..|order| - 1])[order[|order| - 1] := Vtable(t, order[|order| - 1])]
  }

  /** The vtable map holds each enumerated class's vtable, and nothing else. */
  lemma {:induction false} VTablesHoldEach(t: Table, order: seq<string>, c: string)
    requires Acyclic(t) && InTable(t, order)
    ensures c in VTables(t, order) <==> c in order
    ensures c in VTables(t, order) ==> VTables(t, order)[c] == Vtable(t, c)
    decreases |order|
  {
    if order != [] {
      var k := |order| - 1;
      VTablesHoldEach(t, order[..k], c);
      assert forall x :: x in order <==> x in order[..k] || x == order[k];
    }
  }

  /** `order` enumerates the table's keys: each class of the table exactly once, and nothing else. */
  predicate Enumerates(t: Table, order: seq<string>) {
    && InTable(t, order)
    && Distinct(order)
    && forall c :: c in t ==> c in order
  }

  /**
    When the order enumerates the table, every class of the table gets a
    vtable, equal to its layout, and no other name does.
   */
  lemma VTablesComplete(t: Table, order: seq<string>)
    requires Acyclic(t) && Enumerates(t, order)
    ensures VTables(t, order).Keys == t.Keys
    ensures forall c :: c in t ==> VTables(t, order)[c] == Vtable(t, c)
  {
    forall c
      ensures c in VTables(t, order) <==> c in t
      ensures c in t ==> VTables(t, order)[c] == Vtable(t, c)
    {
      VTablesHoldEach(t, order, c);
    }
  }

  function BuildVTables(o: Out, t: Table, order: seq<string>): Out
    requires Acyclic(t) && InTable(t, order)
  {
    Emit(o, VtableCode(t, order)).(vTable := Some(VTables(t, order)))
  }

  /** `visit(Program)`: the vtables, the main class, then each class declaration. */
  function EmitProgram(o: Out, t: Table, order: seq<string>, p: Program): (r: Out)
    requires Acyclic(t) && InTable(t, order)
    ensures r.vTable == Some(VTables(t, order))
    ensures o.code + VtableCode(t, order) <= r.code
  {
    EmitClasses(EmitMain(BuildVTables(o, t, order), p.m), p.cl)
  }
}
