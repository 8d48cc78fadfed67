/**
  The `IntermediateCode` visitor itself: its fields, the loops that build the
  vtables and the offset maps, and one visit method per AST node kind. Each
  method is proved against the spec functions of the IntermediateText and
  Layout modules.
 */
module Emitter {
  import opened Common
  import opened Ast
  import opened Semantic
  import opened Layout
  import opened IntermediateText

  // ---------------------------------------------------------------------------
  // The renderers with loops

  /** `expListToValue`: the arguments' values, separated by a line break and indentation. */
  method RenderArgs(el: seq<Exp>) returns (value: string)
    ensures value == Join(Values(el), Indent)
  {
    ghost var vs := Values(el);
    value := "";
    var i := 0;
    while i < |el|
      invariant 0 <= i <= |el|
      invariant JoinLoop(vs, i, value, Indent) == JoinLoop(vs, 0, "", Indent)
    {
      value := value + ExpToValue(el[i]);
      if i < |el| - 1 {
        value := value + Indent;
      } else {
        assert value + "" == value;
      }
      i := i + 1;
    }
    JoinLoopIsJoin(vs, Indent);
  }

  /** `statementToString`; a block's text is its statements' texts, each with ";", one per line. */
  method RenderStatement(st: Statement) returns (value: string)
    ensures value == StatementToString(st)
    ensures st.Block? ==> value == Join(Terminated(st), Indent)
    decreases st
  {
    match st
    case Assign(i, e) =>
      value := i + " := " + ExpToValue(e);
    case Block(sl) =>
      ghost var ts := Terminated(st);
      value := "";
      var i := 0;
      while i < |sl|
        invariant 0 <= i <= |sl|
        invariant JoinLoop(ts, i, value, Indent) == JoinLoop(ts, 0, "", Indent)
      {
        var s := RenderStatement(sl[i]);
        var item := s + ";";
        assert ts[i] == item;
        value := value + item;
        if i < |sl| - 1 {
          value := value + Indent;
        } else {
          assert value + "" == value;
        }
        i := i + 1;
      }
      BlockText(st);
    case Print(e) =>
      value := ExpToCondition(e);
    case _ =>
      value := "";
  }

  /** `getMethods`: the names of the class's method members, in the class's member order. */
  method GetMethods(cls: ClassNode) returns (names: seq<string>)
    ensures names == MethodNames(cls.order, cls.members)
  {
    names := [];
    var i := 0;
    while i < |cls.order|
      invariant 0 <= i <= |cls.order|
      invariant names == MethodNames(cls.order[..i], cls.members)
    {
      var k := cls.order[i];
      MethodNamesSnoc(cls.order, cls.members, i);
      if k in cls.members && cls.members[k].Method? {
        names := names + [k];
      }
      i := i + 1;
    }
    assert cls.order[..i] == cls.order;
  }

  /** The inner loop of `collectVtableMethods`: a label `cls$m` for each name not labelled yet. */
  method AddLabels(methods: map<string, string>, cls: string, names: seq<string>) returns (r: map<string, string>)
    ensures r == (map k | k in names :: MethodLabel(cls, k)) + methods
  {
    r := methods;
    var j := 0;
    while j < |names|
      invariant 0 <= j <= |names|
      invariant r == (map k | k in names[..j] :: MethodLabel(cls, k)) + methods
    {
      var m := names[j];
      assert forall k :: k in names[..j + 1] <==> k in names[..j] || k == m;
      if m !in r {
        r := r[m := MethodLabel(cls, m)];
      }
      j := j + 1;
    }
    assert names[..j] == names;
  }

  /** `getMethodVariableOffsets`'s `Arrays.sort`: the names in increasing `compareTo` order, each once. */
  method SortNames(names: set<string>) returns (sorted: seq<string>)
    ensures Distinct(sorted)
    ensures forall x :: x in sorted <==> x in names
    ensures forall a, b :: 0 <= a < b < |sorted| ==> LexLess(sorted[a], sorted[b])
  {
    sorted := [];
    var rest := names;
    while rest != {}
      invariant forall x :: x in names <==> x in sorted || x in rest
      invariant forall x :: x in sorted ==> x !in rest
      invariant forall a, b :: 0 <= a < b < |sorted| ==> LexLess(sorted[a], sorted[b])
      invariant forall a, y :: 0 <= a < |sorted| && y in rest ==> LexLess(sorted[a], y)
      decreases |rest|
    {
      var least := LeastExists(rest);
      var m :| m in rest && forall y :: y in rest && y != m ==> LexLess(m, y);
      sorted := sorted + [m];
      rest := rest - {m};
    }
    forall a, b | 0 <= a < b < |sorted| ensures sorted[a] != sorted[b] {
      LexLessIrreflexive(sorted[a]);
    }
  }

  /** Numbering names listed in strictly increasing order by position gives the sorted numbering. */
  lemma SortedIsNumbering(names: set<string>, sorted: seq<string>, rv: map<string, int>)
    requires forall x :: x in sorted <==> x in names
    requires Distinct(sorted)
    requires forall a, b :: 0 <= a < b < |sorted| ==> LexLess(sorted[a], sorted[b])
    requires rv.Keys == names
    requires forall a :: 0 <= a < |sorted| ==> rv[sorted[a]] == a
    ensures SortedNumbering(names, rv)
  {
    assert |names| == |sorted| by {
      DistinctCard(sorted, names);
    }
    forall x | x in rv ensures exists a :: 0 <= a < |sorted| && sorted[a] == x {
      assert x in sorted;
    }
    forall x, y | x in rv && y in rv ensures LexLess(x, y) <==> rv[x] < rv[y] {
      var a :| 0 <= a < |sorted| && sorted[a] == x;
      var b :| 0 <= b < |sorted| && sorted[b] == y;
      if a == b {
        LexLessIrreflexive(x);
      } else if b < a {
        LexLessAsymmetric(y, x);
      }
    }
  }

  /** A list without repeats has as many elements as the set it lists. */
  lemma {:induction false} DistinctCard(s: seq<string>, names: set<string>)
    requires Distinct(s) && forall x :: x in s <==> x in names
    ensures |names| == |s|
    decreases |s|
  {
    if s != [] {
      var k := |s| - 1;
      DistinctCard(s[..k], names - {s[k]});
    }
  }

  /** The labels of a class's method names listed in member order are its own labels. */
  lemma OwnLabelsListed(t: Table, c: string, names: seq<string>)
    requires c in t && WfTable(t) && names == MethodNames(t[c].order, t[c].members)
    ensures (map k | k in names :: MethodLabel(c, k)) == OwnLabels(c, t[c].members)
  {
    assert WfClass(t[c]);
  }

  lemma MapUnionAssoc(a: map<string, string>, b: map<string, string>, c: map<string, string>)
    ensures (a + b) + c == a + (b + c)
  {
  }

  /** One class of the upward walk of `collectVtableMethods`: its own labels join those already found, which win. */
  lemma CollectStep(t: Table, all: map<string, string>, cur: string, m0: map<string, string>, names: seq<string>)
    requires Rooted(t, cur) && WfTable(t) && names == MethodNames(t[cur].order, t[cur].members)
    requires all == Labels(t, cur) + m0
    ensures t[cur].parent.None? ==> all == (map k | k in names :: MethodLabel(cur, k)) + m0
    ensures t[cur].parent.Some? ==> Rooted(t, t[cur].parent.value)
    ensures t[cur].parent.Some? ==> all == Labels(t, t[cur].parent.value) + ((map k | k in names :: MethodLabel(cur, k)) + m0)
  {
    ChainInTable(t, cur);
    OwnLabelsListed(t, cur, names);
    LabelsStep(t, cur);
    var own := OwnLabels(cur, t[cur].members);
    if t[cur].parent.Some? {
      MapUnionAssoc(Labels(t, t[cur].parent.value), own, m0);
    }
  }

  /** One more name met by `constructTableEntry`: a new name gets the next slot and the next line. */
  lemma EntryStep(xs: seq<string>, meth: string, methods: map<string, string>, d: seq<string>, vt: map<string, int>)
    requires d == FirstSeen(xs) && vt == Numbered(d, 1)
    ensures meth in vt ==> FirstSeen(xs + [meth]) == d
    ensures meth !in vt ==> FirstSeen(xs + [meth]) == d + [meth]
    ensures Numbered(d + [meth], 1) == vt[meth := |d| + 1]
    ensures EntryLines(methods, d + [meth]) == EntryLines(methods, d) + [EntryLine(methods, meth)]
  {
    FirstSeenSnoc(xs, meth);
    NumberedSnoc(d, meth, 1);
    EntryLinesSnoc(methods, d, meth);
  }

  /** Numbering one more name gives it the next number. */
  lemma NumberedSnoc(d: seq<string>, x: string, first: int)
    ensures Numbered(d + [x], first) == Numbered(d, first)[x := first + |d|]
  {
    assert (d + [x])[..|d|] == d;
  }

  lemma EntryLinesSnoc(methods: map<string, string>, d: seq<string>, meth: string)
    ensures EntryLines(methods, d + [meth]) == EntryLines(methods, d) + [EntryLine(methods, meth)]
  {
    assert (d + [meth])[..|d|] == d;
  }

  lemma Assoc<T>(a: seq<T>, b: seq<T>, c: seq<T>)
    ensures (a + b) + c == a + (b + c)
  {
  }

  lemma PrefixSnoc<T>(s: seq<T>, i: nat)
    requires i < |s|
    ensures s[..i + 1] == s[..i] + [s[i]]
  {
  }

  /** One more member of a class looked at by `getInstanceVariableOffsets`: a field is listed next. */
  lemma FieldStep(order: seq<string>, members: map<string, Member>, j: nat, seen0: seq<string>, seen: seq<string>)
    requires j < |order| && seen == seen0 + FieldNames(order[..j], members)
    ensures order[j] in members && !members[order[j]].Method? ==> seen + [order[j]] == seen0 + FieldNames(order[..j + 1], members)
    ensures !(order[j] in members && !members[order[j]].Method?) ==> seen == seen0 + FieldNames(order[..j + 1], members)
  {
    assert order[..j + 1][..j] == order[..j];
    Assoc(seen0, FieldNames(order[..j], members), [order[j]]);
  }

  lemma MethodNamesSnoc(order: seq<string>, members: map<string, Member>, i: nat)
    requires i < |order|
    ensures MethodNames(order[..i + 1], members) ==
      MethodNames(order[..i], members) + (if order[i] in members && members[order[i]].Method? then [order[i]] else [])
  {
    assert order[..i + 1][..i] == order[..i];
  }

  lemma SnocSlice(before: seq<string>, names: seq<string>, j: nat)
    requires j < |names|
    ensures before + names[..j + 1] == (before + names[..j]) + [names[j]]
  {
    assert names[..j + 1] == names[..j] + [names[j]];
  }

  /** `constructTableEntry` given the labels and the chain of `c` writes the vtable of `c`. */
  lemma EntryIsVtable(t: Table, c: string)
    requires Rooted(t, c)
    ensures InTable(t, Chain(t, c))
    ensures Numbered(FirstSeen(ChainMethods(t, Chain(t, c))), 1) == Vtable(t, c)
    ensures [Text(c + ":")] + EntryLines(Labels(t, c), FirstSeen(ChainMethods(t, Chain(t, c)))) == TableEntryLines(t, c)
  {
    ChainInTable(t, c);
  }

  /** The vtable text and map for one more enumerated class. */
  lemma VTablesSnoc(t: Table, order: seq<string>, i: nat)
    requires Acyclic(t) && InTable(t, order) && i < |order|
    ensures InTable(t, order[..i]) && InTable(t, order[..i + 1])
    ensures VtableCode(t, order[..i + 1]) == VtableCode(t, order[..i]) + TableEntryLines(t, order[i])
    ensures VTables(t, order[..i + 1]) == VTables(t, order[..i])[order[i] := Vtable(t, order[i])]
  {
    assert order[..i + 1][..i] == order[..i];
  }

  /**
    The inner loop of `constructTableEntry` over one class's method names: a
    name without a slot yet gets the next one and a line with its label. The
    set of recorded names is the key set of the vtable built so far, so it is
    read off the map. The lines are returned for the caller to append.
   */
  method RecordMethods(names: seq<string>, methods: map<string, string>, ghost before: seq<string>,
                       ghost d0: seq<string>, vt0: map<string, int>, slot0: int)
    returns (ghost d: seq<string>, vt: map<string, int>, slotNumber: int, lines: seq<Line>)
    requires d0 == FirstSeen(before) && vt0 == Numbered(d0, 1) && slot0 == |d0| + 1
    ensures d == FirstSeen(before + names) && vt == Numbered(d, 1) && slotNumber == |d| + 1
    ensures EntryLines(methods, d0) + lines == EntryLines(methods, d)
  {
    d, vt, slotNumber := d0, vt0, slot0;
    lines := [];
    ghost var seen := before;
    var j := 0;
    while j < |names|
      invariant 0 <= j <= |names|
      invariant seen == before + names[..j]
      invariant d == FirstSeen(seen) && vt == Numbered(d, 1) && slotNumber == |d| + 1
      invariant EntryLines(methods, d0) + lines == EntryLines(methods, d)
    {
      d, vt, slotNumber, lines := RecordMethod(names[j], methods, seen, d0, d, vt, slotNumber, lines);
      SnocSlice(before, names, j);
      seen := seen + [names[j]];
      j := j + 1;
    }
    assert names[..j] == names;
  }

  /** One name of a class's method list: a name not yet numbered takes the next slot and writes its line. */
  method RecordMethod(meth: string, methods: map<string, string>, ghost seen: seq<string>, ghost d0: seq<string>,
                      ghost d: seq<string>, vt: map<string, int>, slotNumber: int, lines: seq<Line>)
    returns (ghost d': seq<string>, vt': map<string, int>, slotNumber': int, lines': seq<Line>)
    requires d == FirstSeen(seen) && vt == Numbered(d, 1) && slotNumber == |d| + 1
    requires EntryLines(methods, d0) + lines == EntryLines(methods, d)
    ensures d' == FirstSeen(seen + [meth]) && vt' == Numbered(d', 1) && slotNumber' == |d'| + 1
    ensures EntryLines(methods, d0) + lines' == EntryLines(methods, d')
  {
    EntryStep(seen, meth, methods, d, vt);
    if meth !in vt {
      var line := EntryLine(methods, meth);
      Assoc(EntryLines(methods, d0), lines, [line]);
      d', vt', slotNumber', lines' := d + [meth], vt[meth := slotNumber], slotNumber + 1, lines + [line];
    } else {
      d', vt', slotNumber', lines' := d, vt, slotNumber, lines;
    }
  }

  /**
    The loop of `constructTableEntry` over the chain, root first: the slots
    it assigns and the lines it writes after the class's label.
   */
  method TableEntry(t: Table, methods: map<string, string>, clsRel: seq<string>)
    returns (clsVTable: map<string, int>, lines: seq<Line>)
    requires InTable(t, clsRel)
    ensures clsVTable == Numbered(FirstSeen(ChainMethods(t, clsRel)), 1)
    ensures lines == EntryLines(methods, FirstSeen(ChainMethods(t, clsRel)))
  {
    clsVTable := map[];
    lines := [];
    var slotNumber := 1;
    // the names met so far, each once
    ghost var d: seq<string> := [];
    var i := 0;
    while i < |clsRel|
      invariant 0 <= i <= |clsRel|
      invariant d == FirstSeen(ChainMethods(t, clsRel[..i]))
      invariant clsVTable == Numbered(d, 1) && slotNumber == |d| + 1
      invariant lines == EntryLines(methods, d)
    {
      var names := GetMethods(t[clsRel[i]]);
      var more;
      d, clsVTable, slotNumber, more := RecordMethods(names, methods, ChainMethods(t, clsRel[..i]), d, clsVTable, slotNumber);
      lines := lines + more;
      assert clsRel[..i + 1][..i] == clsRel[..i];
      i := i + 1;
    }
    assert clsRel[..i] == clsRel;
  }

  /**
    The inner loop of `getInstanceVariableOffsets` over one class's members:
    each field gets the next offset.
   */
  method NumberFields(order: seq<string>, members: map<string, Member>, ghost seen0: seq<string>,
                      offsets0: map<string, int>, position0: int)
    returns (ghost seen: seq<string>, offsets: map<string, int>, currentPosition: int)
    requires offsets0 == Numbered(seen0, 1) && position0 == |seen0| + 1
    ensures seen == seen0 + FieldNames(order, members)
    ensures offsets == Numbered(seen, 1) && currentPosition == |seen| + 1
  {
    seen, offsets, currentPosition := seen0, offsets0, position0;
    var j := 0;
    while j < |order|
      invariant 0 <= j <= |order|
      invariant seen == seen0 + FieldNames(order[..j], members)
      invariant offsets == Numbered(seen, 1) && currentPosition == |seen| + 1
    {
      FieldStep(order, members, j, seen0, seen);
      seen, offsets, currentPosition := NumberField(order[j], members, seen, offsets, currentPosition);
      j := j + 1;
    }
    assert order[..j] == order;
  }

  /** One member of the class: a field takes the next offset. */
  method NumberField(k: string, members: map<string, Member>, ghost seen: seq<string>,
                     offsets: map<string, int>, currentPosition: int)
    returns (ghost seen': seq<string>, offsets': map<string, int>, currentPosition': int)
    requires offsets == Numbered(seen, 1) && currentPosition == |seen| + 1
    ensures seen' == if k in members && !members[k].Method? then seen + [k] else seen
    ensures offsets' == Numbered(seen', 1) && currentPosition' == |seen'| + 1
  {
    if k in members && !members[k].Method? {
      NumberedSnoc(seen, k, 1);
      seen', offsets', currentPosition' := seen + [k], offsets[k := currentPosition], currentPosition + 1;
    } else {
      seen', offsets', currentPosition' := seen, offsets, currentPosition;
    }
  }

  /** The parameter loop of `visit(MethodDecl)`: each formal's name with its index, the last index for a repeated name. */
  method NumberFormals(fl: seq<Formal>) returns (parameters: map<string, int>)
    ensures parameters == FormalOffsets(fl)
  {
    ghost var names := Names(fl, FormalName);
    parameters := map[];
    var i := 0;
    while i < |fl|
      invariant 0 <= i <= |fl|
      invariant parameters == Numbered(names[..i], 0)
    {
      PrefixSnoc(names, i);
      NumberedSnoc(names[..i], names[i], 0);
      parameters := parameters[fl[i].i := i];
      i := i + 1;
    }
    assert names[..i] == names;
  }

  /** The local variable loop of `visit(MethodDecl)`. */
  method NumberVarDecls(vl: seq<VarDecl>) returns (variables: map<string, int>)
    ensures variables == VarDeclOffsets(vl)
  {
    ghost var names := Names(vl, VarName);
    variables := map[];
    var i := 0;
    while i < |vl|
      invariant 0 <= i <= |vl|
      invariant variables == Numbered(names[..i], 0)
    {
      PrefixSnoc(names, i);
      NumberedSnoc(names[..i], names[i], 0);
      variables := variables[vl[i].i := i];
      i := i + 1;
    }
    assert names[..i] == names;
  }

  // ---------------------------------------------------------------------------
  // The visitor

  class IntermediateCode {
    var code: seq<Line>
    var currentClass: Option<string>
    var currentMethod: Option<string>
    /** The symbol table built by the declarations pass. */
    const declaredTypes: Table
    /** The order in which the table's classes are enumerated. */
    const classOrder: seq<string>
    var currentMethodParameters: Option<map<string, int>>
    var currentMethodVariables: Option<map<string, int>>
    var lastLabel: nat
    var vTable: Option<map<string, map<string, int>>>
    var lastSeenType: Option<string>

    /** The fields other than the symbol table. */
    function Snapshot(): Out
      reads this
    {
      Out(code, currentClass, currentMethod, currentMethodParameters, currentMethodVariables, lastLabel, vTable, lastSeenType)
    }

    constructor (declaredTypes: Table, classOrder: seq<string>)
      ensures Snapshot() == Fresh()
      ensures this.declaredTypes == declaredTypes && this.classOrder == classOrder
    {
      this.declaredTypes := declaredTypes;
      this.classOrder := classOrder;
      code := [];
      currentClass := None;
      currentMethod := None;
      currentMethodParameters := None;
      currentMethodVariables := None;
      lastLabel := 0;
      vTable := None;
      lastSeenType := None;
    }

    method GetCode() returns (r: seq<Line>)
      ensures r == code
    {
      r := code;
    }

    /** A label never handed out before; the counter moves on by one and nothing else changes. */
    method GetLabel() returns (rv: string)
      modifies this
      ensures rv == Label(old(lastLabel)) && rv !in Issued(old(lastLabel))
      ensures Snapshot() == old(Snapshot()).(lastLabel := old(lastLabel) + 1)
    {
      IssuedStep(lastLabel);
      rv := "L" + NatToString(lastLabel);
      lastLabel := lastLabel + 1;
    }

    // -------------------------------------------------------------------------
    // Vtables

    /** `createClsRelList`: the ancestors of `c`, root first, then `c`. */
    method CreateClsRelList(c: string) returns (rel: seq<string>)
      requires Rooted(declaredTypes, c)
      ensures rel == Chain(declaredTypes, c)
    {
      var t := declaredTypes;
      var cur := c;
      rel := [c];
      ChainInTable(t, c);
      while t[cur].parent.Some?
        invariant Rooted(t, cur) && |rel| > 0 && rel[0] == cur
        invariant Chain(t, cur) + rel[1..] == Chain(t, c)
        decreases |Chain(t, cur)|
      {
        ChainStep(t, cur);
        var p := t[cur].parent.value;
        assert ([p] + rel)[1..] == rel;
        rel := [p] + rel;
        cur := p;
      }
      ChainShape(t, cur, |t|);
      assert Chain(t, cur) == [cur];
    }

    /** `collectVtableMethods`: every method visible from `c`, labelled by the nearest class declaring it. */
    method CollectVtableMethods(c: string) returns (methods: map<string, string>)
      requires Rooted(declaredTypes, c) && WfTable(declaredTypes)
      ensures methods == Labels(declaredTypes, c)
    {
      var t := declaredTypes;
      var cur := c;
      methods := map[];
      assert Labels(t, c) == Labels(t, cur) + methods;
      while t[cur].parent.Some?
        invariant Rooted(t, cur)
        invariant Labels(t, c) == Labels(t, cur) + methods
        decreases |Chain(t, cur)|
      {
        var names := GetMethods(t[cur]);
        ghost var m0 := methods;
        methods := AddLabels(methods, cur, names);
        CollectStep(t, Labels(t, c), cur, m0, names);
        ChainStep(t, cur);
        cur := t[cur].parent.value;
      }
      var names := GetMethods(t[cur]);
      ghost var m0 := methods;
      methods := AddLabels(methods, cur, names);
      CollectStep(t, Labels(t, c), cur, m0, names);
    }

    /**
      `constructTableEntry`: the class's label line, then, walking the chain
      root first and each class's methods in order, one line and one slot per
      name not recorded yet; slots count from 1 (slot 0 is the parent pointer).
     */
    method ConstructTableEntry(clsName: string, methods: map<string, string>, clsRel: seq<string>)
      returns (clsVTable: map<string, int>)
      requires InTable(declaredTypes, clsRel)
      modifies this
      ensures clsVTable == Numbered(FirstSeen(ChainMethods(declaredTypes, clsRel)), 1)
      ensures Snapshot() == Emit(old(Snapshot()), [Text(clsName + ":")] + EntryLines(methods, FirstSeen(ChainMethods(declaredTypes, clsRel))))
    {
      var lines;
      clsVTable, lines := TableEntry(declaredTypes, methods, clsRel);
      code := code + ([Text(clsName + ":")] + lines);
    }

    /**
      `createVTables`: each class's entry in enumeration order, and the map
      from class to vtable, which gives every class of the table its layout.
     */
    method CreateVTables()
      requires Acyclic(declaredTypes) && WfTable(declaredTypes) && Enumerates(declaredTypes, classOrder)
      modifies this
      ensures Snapshot() == BuildVTables(old(Snapshot()), declaredTypes, classOrder)
      ensures vTable.Some? && vTable.value.Keys == declaredTypes.Keys
      ensures forall c :: c in declaredTypes ==> vTable.value[c] == Vtable(declaredTypes, c)
    {
      var t := declaredTypes;
      ghost var o := Snapshot();
      vTable := Some(map[]);
      var i := 0;
      while i < |classOrder|
        invariant 0 <= i <= |classOrder| && InTable(t, classOrder[..i])
        invariant code == o.code + VtableCode(t, classOrder[..i])
        invariant vTable == Some(VTables(t, classOrder[..i]))
        invariant Snapshot() == o.(code := code, vTable := vTable)
      {
        var c := classOrder[i];
        var methods := CollectVtableMethods(c);
        var clsRel := CreateClsRelList(c);
        EntryIsVtable(t, c);
        var clsVTable := ConstructTableEntry(c, methods, clsRel);
        vTable := Some(vTable.value[c := clsVTable]);
        VTablesSnoc(t, classOrder, i);
        Assoc(o.code, VtableCode(t, classOrder[..i]), TableEntryLines(t, c));
        i := i + 1;
      }
      assert classOrder[..i] == classOrder;
      VTablesComplete(t, classOrder);
    }

    // -------------------------------------------------------------------------
    // Offsets

    /**
      `getMethodParameterOffsets`: each parameter name with its index. Java
      fails (a null class or member, or a field cast to a method) exactly when
      the answer is None.
     */
    method GetMethodParameterOffsets(className: string, methodName: string) returns (rv: Option<map<string, int>>)
      requires WfTable(declaredTypes)
      ensures rv.Some? <==> (className in declaredTypes && methodName in declaredTypes[className].members
                             && declaredTypes[className].members[methodName].Method?)
      ensures rv.Some? ==> WfMethod(declaredTypes[className].members[methodName].m)
      ensures rv.Some? ==> rv.value == ParameterOffsets(declaredTypes[className].members[methodName].m)
    {
      var t := declaredTypes;
      if className !in t || methodName !in t[className].members || !t[className].members[methodName].Method? {
        return None;
      }
      var m := t[className].members[methodName].m;
      assert WfClass(t[className]);
      ghost var names := ParameterNames(m);
      var offsets := map[];
      var i := 0;
      while i < |m.parameters|
        invariant 0 <= i <= |m.parameters|
        invariant offsets == Numbered(names[..i], 0)
      {
        PrefixSnoc(names, i);
        NumberedSnoc(names[..i], names[i], 0);
        offsets := offsets[m.positions[i] := i];
        i := i + 1;
      }
      assert names[..i] == names;
      return Some(offsets);
    }

    /**
      `getMethodVariableOffsets`: the local variable names sorted, each
      numbered by its place in that order. None exactly where Java fails.
     */
    method GetMethodVariableOffsets(className: string, methodName: string) returns (rv: Option<map<string, int>>)
      ensures rv.Some? <==> (className in declaredTypes && methodName in declaredTypes[className].members
                             && declaredTypes[className].members[methodName].Method?)
      ensures rv.Some? ==> SortedNumbering(declaredTypes[className].members[methodName].m.locals.Keys, rv.value)
    {
      var t := declaredTypes;
      if className !in t || methodName !in t[className].members || !t[className].members[methodName].Method? {
        return None;
      }
      var names := t[className].members[methodName].m.locals.Keys;
      var localVariables := SortNames(names);
      var offsets := map[];
      var i := 0;
      while i < |localVariables|
        invariant 0 <= i <= |localVariables|
        invariant forall a :: 0 <= a < i ==> localVariables[a] in offsets && offsets[localVariables[a]] == a
        invariant forall x :: x in offsets ==> x in localVariables[..i]
      {
        offsets := offsets[localVariables[i] := i];
        i := i + 1;
      }
      assert forall x :: x in offsets <==> x in names by {
        assert localVariables[..i] == localVariables;
      }
      SortedIsNumbering(names, localVariables, offsets);
      return Some(offsets);
    }

    /**
      `getInstanceVariableOffsets`: walking up from the class, each class's
      fields in member order get the next offset, starting at 1 (0 holds the
      vtable pointer). None for a class that is not in the table.
     */
    method GetInstanceVariableOffsets(className: string) returns (rv: Option<map<string, int>>)
      requires Acyclic(declaredTypes)
      ensures rv.Some? <==> className in declaredTypes
      ensures rv.Some? ==> rv.value == InstanceOffsets(declaredTypes, className)
    {
      var t := declaredTypes;
      if className !in t {
        return None;
      }
      var offsets := map[];
      var currentPosition := 1;
      var klass := className;
      // the field names given an offset so far
      ghost var seen: seq<string> := [];
      while true
        invariant Rooted(t, klass)
        invariant FieldsUpFrom(t, className) == seen + FieldsUpFrom(t, klass)
        invariant offsets == Numbered(seen, 1) && currentPosition == |seen| + 1
        decreases |Chain(t, klass)|
      {
        var cls := t[klass];
        ghost var s0 := seen;
        seen, offsets, currentPosition := NumberFields(cls.order, cls.members, seen, offsets, currentPosition);
        FieldsUpFromStep(t, klass);
        if cls.parent.Some? {
          Assoc(s0, FieldNames(cls.order, cls.members), FieldsUpFrom(t, cls.parent.value));
          ChainStep(t, klass);
          klass := cls.parent.value;
        } else {
          break;
        }
      }
      return Some(offsets);
    }

    // -------------------------------------------------------------------------
    // Visiting the program

    /** `n.accept(this)` for an expression: the lines of `EmitExp`, and nothing else changes. */
    method VisitExp(e: Exp)
      modifies this
      ensures Snapshot() == EmitExp(old(Snapshot()), e)
      decreases e, 2
    {
      if e.NewArray? {
        VisitExp(e.e);
        code := code + [ObjectText("    ", e)];
      } else if e.Not? {
        var labelTrue := GetLabel();
        var labelEnd := GetLabel();
        VisitExp(e.e);
        code := code + [ObjectText("    ", e.e)];
      } else if e.GreatThan? {
        VisitComparison(e, "    > ");
      } else if e.GreatThanEqual? {
        VisitComparison(e, "    >= ");
      } else if e.LessThanEqual? {
        VisitComparison(e, "    <= ");
      } else if e.EqualEqual? {
        VisitComparison(e, "    == ");
      } else if e.NotEqual? {
        VisitComparison(e, "    != ");
      } else if IsOperator(e) {
        VisitOperator(e);
      } else {
        VisitLeaf(e);
      }
    }

    /** The operator nodes whose visit prints one or two lines and visits nothing. */
    method VisitOperator(e: Exp)
      requires IsOperator(e)
      modifies this
      ensures Snapshot() == EmitOperator(old(Snapshot()), e)
    {
      match e
      case And(a, b) =>
        code := code + [Text("    " + ExpToCondition(a) + " && " + ExpToCondition(b))];
      case LessThan(a, b) =>
        code := code + [Text(ExpToValue(a) + " < " + ExpToValue(b))];
      case Plus(a, b) =>
        code := code + [Text(ExpToValue(a) + " + " + ExpToValue(b))];
      case Minus(a, b) =>
        code := code + [Text(ExpToValue(a) + " - " + ExpToValue(b))];
      case Times(a, b) =>
        code := code + [Text(ExpToValue(a) + " * " + ExpToValue(b))];
      case ArrayLookup(a, b) =>
        code := code + [ObjectText("    ", a), ObjectText("    ", b)];
      case ArrayLength(a) =>
        code := code + [ObjectText("    ", a)];
      case Call(_, i, _) =>
        code := code + [Text("    call " + i)];
    }

    /** The literals, names, `this` and `new`: one line or none, and the type last seen for `this` and `new`. */
    method VisitLeaf(e: Exp)
      modifies this
      ensures Snapshot() == EmitLeaf(old(Snapshot()), e)
    {
      if e.IntegerLiteral? {
        code := code + [Text("    " + IntToString(e.n))];
      } else if e.True? {
        code := code + [Text("    true")];
      } else if e.False? {
        code := code + [Text("    false")];
      } else if e.IdentifierExp? {
        code := code + [Text("    " + e.s)];
      } else if e.This? {
        code := code + [ObjectText("    ", This)];
        lastSeenType := currentClass;
      } else if e.NewObject? {
        code := code + [Text("    " + e.i)];
        lastSeenType := Some(e.i);
      }
    }

    /** The comparisons other than `<`: two labels taken, then each operand visited and printed. */
    method VisitComparison(e: Exp, op: string)
      requires e.GreatThan? || e.GreatThanEqual? || e.LessThanEqual? || e.EqualEqual? || e.NotEqual?
      modifies this
      ensures Snapshot() == EmitComparison(old(Snapshot()), e, op)
      decreases e, 1
    {
      var labelTrue := GetLabel();
      var labelEnd := GetLabel();
      VisitExp(e.e1);
      code := code + [ObjectText("    ", e.e1)];
      VisitExp(e.e2);
      code := code + [ObjectText(op, e.e2)];
    }

    /** `n.accept(this)` for a statement. */
    method VisitStatement(st: Statement)
      modifies this
      ensures Snapshot() == EmitStmt(old(Snapshot()), st)
      decreases st, 1
    {
      match st
      case Block(_) =>
        VisitBlock(st);
      case If(e, s1, s2) =>
        var else_ := RenderStatement(s2);
        var then_ := RenderStatement(s1);
        code := code + [ Text("    if " + ExpToCondition(e) + " goto ifTrue"),
                         Text("        " + else_ + ";"),
                         Text("        goto endElse"),
                         Text("    ifTrue:"),
                         Text("        " + then_ + ";"),
                         Text("    endElse:") ];
      case While(e, s) =>
        var body := RenderStatement(s);
        code := code + [ Text("    while: if " + ExpToCondition(e) + " goto endWhile"),
                         Text("        " + body),
                         Text("        goto while:"),
                         Text("   endWhile:") ];
      case Print(e) =>
        code := code + [Text("    print " + ExpToValue(e))];
      case Assign(i, e) =>
        VisitExp(e);
        code := code + [Text("    " + i)];
      case ArrayAssign(_, e1, e2) =>
        VisitExp(e2);
        code := code + [ObjectText("    ", e1)];
    }

    /** `visit(Block)`: each statement in turn. */
    method VisitBlock(st: Statement)
      requires st.Block?
      modifies this
      ensures Snapshot() == EmitBlock(old(Snapshot()), st, 0)
      decreases st, 0
    {
      var i := 0;
      while i < |st.sl|
        invariant 0 <= i <= |st.sl|
        invariant EmitBlock(old(Snapshot()), st, 0) == EmitBlock(Snapshot(), st, i)
      {
        VisitStatement(st.sl[i]);
        i := i + 1;
      }
    }

    /**
      `visit(MethodDecl)`: the method's label, its parameter and local variable
      offsets recorded, its statements, then `return` with its value.
     */
    method VisitMethodDecl(md: MethodDecl)
      modifies this
      ensures Snapshot() == EmitMethod(old(Snapshot()), md)
    {
      ghost var o := Snapshot();
      currentMethod := Some(md.i);
      code := code + [Text(OrNull(currentClass) + "$" + md.i + ":")];
      var parameters := NumberFormals(md.fl);
      currentMethodParameters := Some(parameters);
      var variables := NumberVarDecls(md.vl);
      currentMethodVariables := Some(variables);
      ghost var o2 := Snapshot();
      assert o2 == Emit(o.(currentMethod := Some(md.i)), [Text(OrNull(o.currentClass) + "$" + md.i + ":")])
        .(parameters := Some(FormalOffsets(md.fl)), variables := Some(VarDeclOffsets(md.vl)));
      var i := 0;
      while i < |md.sl|
        invariant 0 <= i <= |md.sl|
        invariant EmitStmts(o2, md.sl) == EmitStmts(Snapshot(), md.sl[i..])
      {
        assert md.sl[i..][1..] == md.sl[i + 1..];
        VisitStatement(md.sl[i]);
        i := i + 1;
      }
      assert md.sl[i..] == [];
      code := code + [Text("return " + ExpToValue(md.e))];
      currentMethodParameters := None;
      currentMethod := None;
    }

    /**
      `visit(ClassDeclSimple)` and `visit(ClassDeclExtends)`: the methods
      with `currentClass` set, which is null afterwards. Visiting a variable
      declaration does nothing, so that loop is not written out.
     */
    method VisitClassDecl(cd: ClassDecl)
      modifies this
      ensures Snapshot() == EmitClass(old(Snapshot()), cd)
    {
      currentClass := Some(cd.i);
      ghost var o1 := Snapshot();
      var i := 0;
      while i < |cd.ml|
        invariant 0 <= i <= |cd.ml|
        invariant EmitMethods(o1, cd.ml) == EmitMethods(Snapshot(), cd.ml[i..])
      {
        assert cd.ml[i..][1..] == cd.ml[i + 1..];
        VisitMethodDecl(cd.ml[i]);
        i := i + 1;
      }
      currentClass := None;
    }

    /** `visit(MainClass)`: the `main:` label and a call line with the body's text. */
    method VisitMain(m: MainClass)
      modifies this
      ensures Snapshot() == EmitMain(old(Snapshot()), m)
    {
      var body := RenderStatement(m.s);
      code := code + [Text("main: "), Text("    call " + body)];
    }

    /** `visit(Program)`: the vtables, the main class, then each class declaration in turn. */
    method VisitProgram(p: Program)
      requires Acyclic(declaredTypes) && WfTable(declaredTypes) && Enumerates(declaredTypes, classOrder)
      modifies this
      ensures Snapshot() == EmitProgram(old(Snapshot()), declaredTypes, classOrder, p)
      ensures vTable.Some? && vTable.value.Keys == declaredTypes.Keys
      ensures forall c :: c in declaredTypes ==> vTable.value[c] == Vtable(declaredTypes, c)
    {
      CreateVTables();
      VisitMain(p.m);
      ghost var o1 := Snapshot();
      var i := 0;
      while i < |p.cl|
        invariant 0 <= i <= |p.cl|
        invariant EmitClasses(o1, p.cl) == EmitClasses(Snapshot(), p.cl[i..])
      {
        assert p.cl[i..][1..] == p.cl[i + 1..];
        VisitClassDecl(p.cl[i]);
        i := i + 1;
      }
      VTablesComplete(declaredTypes, classOrder);
    }
  }
}
