/**
  Object and dispatch layout as the intermediate-code pass derives it from the
  symbol table: the ancestor chain, the vtable slots and the label of each slot,
  instance-field offsets (slot 0 holds the vtable pointer), and the parameter
  and local-variable offsets of a method.

  Every numbering here is a counter that starts at a fixed value and is put into
  a map under a name, a later put of the same name replacing an earlier one.
 */
module Layout {
  import opened Common
  import opened Semantic

  // ---------------------------------------------------------------------------
  // Numbering a sequence of names

  /** `put(names[i], first + i)` for every i in order: each name gets its last position plus `first`. */
  function Numbered(names: seq<string>, first: int): (r: map<string, int>)
    ensures r.Keys == set x | x in names
    decreases |names|
  {
    if names == [] then map[]
    else Numbered(names[..|names| - 1], first)[names[|names| - 1] := first + |names| - 1]
  }

  /**
    Each name is numbered by its last position; so the numbers are pairwise
    distinct and lie in first .. first + |names| - 1.
   */
  lemma {:induction false} NumberedLast(names: seq<string>, first: int, x: string)
    requires x in names
    ensures var n := Numbered(names, first)[x] - first;
      0 <= n < |names| && names[n] == x && forall j :: n < j < |names| ==> names[j] != x
    decreases |names|
  {
    var k := |names| - 1;
    if names[k] != x {
      assert x in names[..k] by {
        var i :| 0 <= i < |names| && names[i] == x;
        assert names[..k][i] == x;
      }
      NumberedLast(names[..k], first, x);
    }
  }

  /** Two names never share a number. */
  lemma NumberedInjective(names: seq<string>, first: int, x: string, y: string)
    requires x in names && y in names && x != y
    ensures Numbered(names, first)[x] != Numbered(names, first)[y]
  {
    NumberedLast(names, first, x);
    NumberedLast(names, first, y);
  }

  /** With distinct names, position i is numbered `first + i`. */
  lemma NumberedDistinct(names: seq<string>, first: int, i: int)
    requires Distinct(names) && 0 <= i < |names|
    ensures names[i] in Numbered(names, first) && Numbered(names, first)[names[i]] == first + i
  {
    NumberedLast(names, first, names[i]);
  }

  /** Appending names leaves the numbers of the names not appended unchanged; appended names get larger numbers. */
  lemma {:induction false} NumberedAppend(xs: seq<string>, ys: seq<string>, first: int, x: string)
    requires x in xs + ys
    ensures x !in ys ==> x in Numbered(xs, first) && Numbered(xs + ys, first)[x] == Numbered(xs, first)[x]
    ensures x in ys ==> Numbered(xs + ys, first)[x] >= first + |xs|
    decreases |ys|
  {
    var zs := xs + ys;
    if ys == [] {
      assert zs == xs;
    } else {
      var k := |ys| - 1;
      assert zs[..|zs| - 1] == xs + ys[..k];
      if ys[k] != x {
        if x in ys {
          assert x in ys[..k] by {
            var i :| 0 <= i < |ys| && ys[i] == x;
            assert ys[..k][i] == x;
          }
        }
        NumberedAppend(xs, ys[..k], first, x);
      }
    }
  }

  // ---------------------------------------------------------------------------
  // The members of one class, in enumeration order

  /** `getMethods`: the names in `order` of method entries. */
  function MethodNames(order: seq<string>, members: map<string, Member>): (r: seq<string>)
    ensures forall k :: k in r <==> k in order && k in members && members[k].Method?
    decreases |order|
  {
    if order == [] then []
    else
      var k := order[|order| - 1];
      MethodNames(order[..|order| - 1], members) + (if k in members && members[k].Method? then [k] else [])
  }

  /** The names in `order` of field entries (every member that is not a method). */
  function FieldNames(order: seq<string>, members: map<string, Member>): (r: seq<string>)
    ensures forall k :: k in r <==> k in order && k in members && members[k].Field?
    decreases |order|
  {
    if order == [] then []
    else
      var k := order[|order| - 1];
      FieldNames(order[..|order| - 1], members) + (if k in members && members[k].Field? then [k] else [])
  }

  predicate InTable(t: Table, chain: seq<string>) {
    forall i :: 0 <= i < |chain| ==> chain[i] in t
  }

  lemma ChainInTable(t: Table, c: string)
    requires Rooted(t, c)
    ensures InTable(t, Chain(t, c)) && |Chain(t, c)| > 0 && Chain(t, c)[|Chain(t, c)| - 1] == c
  {
    ChainShape(t, c, |t|);
  }

  // ---------------------------------------------------------------------------
  // Vtables

  /** The method names of a chain's classes, root first, each class in its own order. */
  function ChainMethods(t: Table, chain: seq<string>): seq<string>
    requires InTable(t, chain)
    decreases |chain|
  {
    if chain == [] then []
    else
      var c := t[chain[|chain| - 1]];
      ChainMethods(t, chain[..|chain| - 1]) + MethodNames(c.order, c.members)
  }

  /** The first occurrence of each name, in order (`recordedMethods` of `constructTableEntry`). */
  function FirstSeen(xs: seq<string>): (r: seq<string>)
    ensures Distinct(r)
    ensures forall x :: x in r <==> x in xs
    decreases |xs|
  {
    if xs == [] then []
    else
      var d := FirstSeen(xs[..|xs| - 1]);
      var x := xs[|xs| - 1];
      assert forall y :: y in xs <==> y in xs[..|xs| - 1] || y == x;
      if x in d then d else d + [x]
  }

  /** One more name: kept if it is new, dropped if already seen. */
  lemma FirstSeenSnoc(xs: seq<string>, m: string)
    ensures FirstSeen(xs + [m]) == if m in FirstSeen(xs) then FirstSeen(xs) else FirstSeen(xs) + [m]
  {
    assert (xs + [m])[..|xs|] == xs;
  }

  /** Deduplicating a longer list extends the deduplicated shorter one. */
  lemma {:induction false} FirstSeenPrefix(xs: seq<string>, ys: seq<string>)
    ensures FirstSeen(xs) <= FirstSeen(xs + ys)
    decreases |ys|
  {
    if ys == [] {
      assert xs + ys == xs;
    } else {
      var k := |ys| - 1;
      assert (xs + ys)[..|xs + ys| - 1] == xs + ys[..k];
      FirstSeenPrefix(xs, ys[..k]);
    }
  }

  /** The method names a class's vtable holds, in slot order. */
  function VtableNames(t: Table, c: string): seq<string>
    requires Rooted(t, c)
  {
    FirstSeen(VisibleMethods(t, c))
  }

  /** The method names declared along the ancestor chain of `c`, root first. */
  function VisibleMethods(t: Table, c: string): seq<string>
    requires Rooted(t, c)
  {
    ChainInTable(t, c);
    ChainMethods(t, Chain(t, c))
  }

  /** `constructTableEntry`'s map: method name to slot, slots counted from 1. */
  function Vtable(t: Table, c: string): map<string, int>
    requires Rooted(t, c)
  {
    Numbered(VtableNames(t, c), 1)
  }

  /**
    The slots of a class are a bijection between 1..k and the distinct method
    names declared along its ancestor chain.
   */
  lemma VtableBijective(t: Table, c: string)
    requires Rooted(t, c)
    ensures forall m :: m in Vtable(t, c) <==> m in VisibleMethods(t, c)
    ensures forall m :: m in Vtable(t, c) ==>
      1 <= Vtable(t, c)[m] <= |VtableNames(t, c)| && VtableNames(t, c)[Vtable(t, c)[m] - 1] == m
    ensures forall i :: 0 <= i < |VtableNames(t, c)| ==>
      VtableNames(t, c)[i] in Vtable(t, c) && Vtable(t, c)[VtableNames(t, c)[i]] == i + 1
  {
    ChainInTable(t, c);
    var ns := VtableNames(t, c);
    forall m | m in Vtable(t, c)
      ensures 1 <= Vtable(t, c)[m] <= |ns| && ns[Vtable(t, c)[m] - 1] == m
    {
      NumberedLast(ns, 1, m);
    }
    forall i | 0 <= i < |ns|
      ensures ns[i] in Vtable(t, c) && Vtable(t, c)[ns[i]] == i + 1
    {
      NumberedDistinct(ns, 1, i);
    }
  }

  /**
    For `C extends P`, every method of P's vtable keeps its slot in C's, and
    the methods C adds get slots after all of P's.
   */
  lemma VtablePrefix(t: Table, c: string)
    requires Rooted(t, c) && t[c].parent.Some?
    ensures Rooted(t, t[c].parent.value)
    ensures var p := t[c].parent.value;
      && VtableNames(t, p) <= VtableNames(t, c)
      && (forall m :: m in Vtable(t, p) ==> m in Vtable(t, c) && Vtable(t, c)[m] == Vtable(t, p)[m])
      && (forall m :: m in Vtable(t, c) && m !in Vtable(t, p) ==> Vtable(t, c)[m] > |VtableNames(t, p)|)
  {
    var p := t[c].parent.value;
    VisibleMethodsStep(t, c);
    FirstSeenPrefix(VisibleMethods(t, p), MethodNames(t[c].order, t[c].members));
    NumberedPrefix(VtableNames(t, p), VtableNames(t, c), 1);
  }

  /** The methods visible from a class with a parent: the parent's, then the class's own. */
  lemma VisibleMethodsStep(t: Table, c: string)
    requires Rooted(t, c) && t[c].parent.Some?
    ensures Rooted(t, t[c].parent.value)
    ensures VisibleMethods(t, c) == VisibleMethods(t, t[c].parent.value) + MethodNames(t[c].order, t[c].members)
  {
    var p := t[c].parent.value;
    ChainStep(t, c);
    ChainInTable(t, c);
    ChainInTable(t, p);
    assert Chain(t, c)[..|Chain(t, c)| - 1] == Chain(t, p);
  }

  /** Numbering a longer list of distinct names keeps the numbers of a prefix and gives the rest larger ones. */
  lemma NumberedPrefix(np: seq<string>, nc: seq<string>, first: int)
    requires np <= nc && Distinct(nc)
    ensures forall m :: m in Numbered(np, first) ==> m in Numbered(nc, first) && Numbered(nc, first)[m] == Numbered(np, first)[m]
    ensures forall m :: m in Numbered(nc, first) && m !in Numbered(np, first) ==> Numbered(nc, first)[m] >= first + |np|
  {
    var extra := nc[|np|..];
    assert nc == np + extra;
    forall m | m in Numbered(np, first)
      ensures m in Numbered(nc, first) && Numbered(nc, first)[m] == Numbered(np, first)[m]
    {
      NumberedLast(np, first, m);
      assert nc[Numbered(np, first)[m] - first] == m;
      forall j | 0 <= j < |extra| ensures extra[j] != m {
        assert nc[|np| + j] == extra[j];
      }
      NumberedAppend(np, extra, first, m);
    }
    forall m | m in Numbered(nc, first) && m !in Numbered(np, first)
      ensures Numbered(nc, first)[m] >= first + |np|
    {
      NumberedAppend(np, extra, first, m);
    }
  }

  // ---------------------------------------------------------------------------
  // Vtable labels

  /** The index in `chain` of the last class (the nearest to the chain's end) declaring `m` as a method. */
  function Declaring(t: Table, chain: seq<string>, m: string): (r: Option<nat>)
    requires InTable(t, chain)
    ensures r.Some? ==> r.value < |chain| && m in t[chain[r.value]].members && t[chain[r.value]].members[m].Method?
    ensures r.Some? ==> forall j :: r.value < j < |chain| ==> !(m in t[chain[j]].members && t[chain[j]].members[m].Method?)
    ensures r.None? ==> forall j :: 0 <= j < |chain| ==> !(m in t[chain[j]].members && t[chain[j]].members[m].Method?)
    decreases |chain|
  {
    if chain == [] then None
    else
      var c := t[chain[|chain| - 1]];
      if m in c.members && c.members[m].Method? then Some(|chain| - 1)
      else Declaring(t, chain[..|chain| - 1], m)
  }

  /** `getLabel`'s text for method `m` of class `c` (the label of the method's code). */
  function MethodLabel(c: string, m: string): string {
    c + "$" + m
  }

  /** The labels a class's own methods contribute. */
  function OwnLabels(c: string, members: map<string, Member>): map<string, string> {
    map k | k in members && members[k].Method? :: MethodLabel(c, k)
  }

  /** `collectVtableMethods` given the chain: a class nearer the end hides the labels of its ancestors. */
  function ChainLabels(t: Table, chain: seq<string>): map<string, string>
    requires InTable(t, chain)
    decreases |chain|
  {
    if chain == [] then map[]
    else
      var c := chain[|chain| - 1];
      ChainLabels(t, chain[..|chain| - 1]) + OwnLabels(c, t[c].members)
  }

  /** A class's labels are its parent's, overridden by its own; a root has only its own. */
  lemma LabelsStep(t: Table, c: string)
    requires Rooted(t, c)
    ensures t[c].parent.None? ==> Labels(t, c) == OwnLabels(c, t[c].members)
    ensures t[c].parent.Some? ==> Rooted(t, t[c].parent.value)
    ensures t[c].parent.Some? ==> Labels(t, c) == Labels(t, t[c].parent.value) + OwnLabels(c, t[c].members)
  {
    ChainInTable(t, c);
    ChainShape(t, c, |t|);
    var ch := Chain(t, c);
    if t[c].parent.None? {
      assert ch == [c] && ch[..0] == [];
      assert ChainLabels(t, ch) == map[] + OwnLabels(c, t[c].members);
    } else {
      ChainStep(t, c);
      ChainInTable(t, t[c].parent.value);
      assert ch[..|ch| - 1] == Chain(t, t[c].parent.value);
    }
  }

  /** A method has a label exactly when a class of the chain declares it, and it is that of the nearest such class. */
  lemma {:induction false} ChainLabelsNearest(t: Table, chain: seq<string>, m: string)
    requires InTable(t, chain)
    ensures m in ChainLabels(t, chain) <==> Declaring(t, chain, m).Some?
    ensures m in ChainLabels(t, chain) ==> ChainLabels(t, chain)[m] == MethodLabel(chain[Declaring(t, chain, m).value], m)
    decreases |chain|
  {
    if chain != [] {
      ChainLabelsNearest(t, chain[..|chain| - 1], m);
    }
  }

  /** Every name the vtable lists is declared somewhere along the chain, so it has a label. */
  lemma {:induction false} ChainMethodsDeclared(t: Table, chain: seq<string>, m: string)
    requires InTable(t, chain) && WfTable(t)
    ensures m in ChainMethods(t, chain) <==> Declaring(t, chain, m).Some?
    decreases |chain|
  {
    if chain != [] {
      assert WfClass(t[chain[|chain| - 1]]);
      ChainMethodsDeclared(t, chain[..|chain| - 1], m);
    }
  }

  /** The labels of the methods visible from `c`. */
  function Labels(t: Table, c: string): map<string, string>
    requires Rooted(t, c)
  {
    ChainInTable(t, c);
    ChainLabels(t, Chain(t, c))
  }

  /**
    The vtable entry for `m` in class `c` reads `D$m`, with D the first class
    declaring `m` as a method on the way up from `c`: D is `c` or an ancestor,
    and no class between them declares it.
   */
  lemma LabelIsNearestDeclaring(t: Table, c: string, m: string) returns (i: int)
    requires Rooted(t, c) && WfTable(t) && m in Vtable(t, c)
    ensures InTable(t, Chain(t, c)) && 0 <= i < |Chain(t, c)|
    ensures m in t[Chain(t, c)[i]].members && t[Chain(t, c)[i]].members[m].Method?
    ensures m in Labels(t, c) && Labels(t, c)[m] == MethodLabel(Chain(t, c)[i], m)
    ensures forall j :: i < j < |Chain(t, c)| ==> !(m in t[Chain(t, c)[j]].members && t[Chain(t, c)[j]].members[m].Method?)
  {
    ChainInTable(t, c);
    var ch := Chain(t, c);
    ChainMethodsDeclared(t, ch, m);
    ChainLabelsNearest(t, ch, m);
    i := Declaring(t, ch, m).value;
    assert m in t[ch[i]].members && t[ch[i]].members[m].Method?;
  }

  // ---------------------------------------------------------------------------
  // Instance fields

  /** The field names met walking up from the chain's end: the class's own first, then its parent's, and so on. */
  function UpwardFields(t: Table, chain: seq<string>): seq<string>
    requires InTable(t, chain)
    decreases |chain|
  {
    if chain == [] then []
    else
      var c := t[chain[|chain| - 1]];
      FieldNames(c.order, c.members) + UpwardFields(t, chain[..|chain| - 1])
  }

  /** The field names of the chain root first: the root's, then each descendant's down to the class. */
  function DownwardFields(t: Table, chain: seq<string>): seq<string>
    requires InTable(t, chain)
    decreases |chain|
  {
    if chain == [] then []
    else
      var c := t[chain[|chain| - 1]];
      DownwardFields(t, chain[..|chain| - 1]) + FieldNames(c.order, c.members)
  }

  /** Class `c` of the table lists a field named `x`. */
  predicate HasField(t: Table, c: string, x: string)
    requires c in t
  {
    x in t[c].order && x in t[c].members && t[c].members[x].Field?
  }

  /** A name is listed exactly when some class of the chain has a field of that name. */
  lemma {:induction false} FieldsListed(t: Table, chain: seq<string>, x: string)
    requires InTable(t, chain)
    ensures x in UpwardFields(t, chain) <==> exists i :: 0 <= i < |chain| && HasField(t, chain[i], x)
    decreases |chain|
  {
    if chain != [] {
      var k := |chain| - 1;
      var pre := chain[..k];
      FieldsListed(t, pre, x);
      var own := FieldNames(t[chain[k]].order, t[chain[k]].members);
      assert UpwardFields(t, chain) == own + UpwardFields(t, pre);
      assert x in own <==> HasField(t, chain[k], x);
      if exists i :: 0 <= i < |chain| && HasField(t, chain[i], x) {
        var i :| 0 <= i < |chain| && HasField(t, chain[i], x);
        if i < k {
          assert pre[i] == chain[i];
        }
      }
      if exists i :: 0 <= i < k && HasField(t, pre[i], x) {
        var i :| 0 <= i < k && HasField(t, pre[i], x);
        assert pre[i] == chain[i];
      }
    }
  }

  /** Walking down lists the same names as walking up, in another order. */
  lemma {:induction false} FieldsBothWays(t: Table, chain: seq<string>, x: string)
    requires InTable(t, chain)
    ensures x in DownwardFields(t, chain) <==> x in UpwardFields(t, chain)
    decreases |chain|
  {
    if chain != [] {
      FieldsBothWays(t, chain[..|chain| - 1], x);
    }
  }

  /** `getInstanceVariableOffsets` as written: fields numbered from 1 walking upward, own fields first. */
  function InstanceOffsets(t: Table, c: string): map<string, int>
    requires Rooted(t, c)
  {
    Numbered(FieldsUpFrom(t, c), 1)
  }

  /** Walking up from `c`: its own fields, then those met walking up from its parent. */
  lemma FieldsUpFromStep(t: Table, c: string)
    requires Rooted(t, c)
    ensures t[c].parent.None? ==> FieldsUpFrom(t, c) == FieldNames(t[c].order, t[c].members)
    ensures t[c].parent.Some? ==> Rooted(t, t[c].parent.value)
    ensures t[c].parent.Some? ==> FieldsUpFrom(t, c) == FieldNames(t[c].order, t[c].members) + FieldsUpFrom(t, t[c].parent.value)
  {
    ChainInTable(t, c);
    ChainShape(t, c, |t|);
    var ch := Chain(t, c);
    if t[c].parent.None? {
      assert ch == [c] && ch[..0] == [];
      assert UpwardFields(t, ch) == FieldNames(t[c].order, t[c].members) + [];
    } else {
      ChainStep(t, c);
      ChainInTable(t, t[c].parent.value);
      assert ch[..|ch| - 1] == Chain(t, t[c].parent.value);
    }
  }

  /** The field names met walking up from `c`. */
  function FieldsUpFrom(t: Table, c: string): seq<string>
    requires Rooted(t, c)
  {
    ChainInTable(t, c);
    UpwardFields(t, Chain(t, c))
  }

  /**
    Every field along the chain gets an offset; offsets are pairwise distinct,
    lie in 1..N for the N fields met, and 0 (the vtable pointer) is never used.
   */
  lemma InstanceOffsetsRange(t: Table, c: string)
    requires Rooted(t, c)
    ensures var fs := FieldsUpFrom(t, c);
      && (forall x :: x in InstanceOffsets(t, c) <==> x in fs)
      && (forall x :: x in InstanceOffsets(t, c) ==> 1 <= InstanceOffsets(t, c)[x] <= |fs|)
      && (forall x, y :: x in InstanceOffsets(t, c) && y in InstanceOffsets(t, c) && x != y ==>
            InstanceOffsets(t, c)[x] != InstanceOffsets(t, c)[y])
  {
    var fs := FieldsUpFrom(t, c);
    forall x | x in InstanceOffsets(t, c) ensures 1 <= InstanceOffsets(t, c)[x] <= |fs| {
      NumberedLast(fs, 1, x);
    }
    forall x, y | x in InstanceOffsets(t, c) && y in InstanceOffsets(t, c) && x != y
      ensures InstanceOffsets(t, c)[x] != InstanceOffsets(t, c)[y]
    {
      NumberedInjective(fs, 1, x, y);
    }
  }

  /** A class's own field that no ancestor also has gets one of the first offsets, 1..(number of own fields). */
  lemma OwnFieldsFirst(t: Table, c: string, x: string)
    requires Rooted(t, c) && x in FieldNames(t[c].order, t[c].members)
    requires t[c].parent.Some? ==> Rooted(t, t[c].parent.value) && x !in FieldsUpFrom(t, t[c].parent.value)
    ensures 1 <= InstanceOffsets(t, c)[x] <= |FieldNames(t[c].order, t[c].members)|
  {
    ChainInTable(t, c);
    var ch := Chain(t, c);
    var own := FieldNames(t[c].order, t[c].members);
    var rest := UpwardFields(t, ch[..|ch| - 1]);
    assert FieldsUpFrom(t, c) == own + rest;
    if t[c].parent.Some? {
      ChainStep(t, c);
      assert ch[..|ch| - 1] == Chain(t, t[c].parent.value);
    } else {
      assert ch == [c];
      assert rest == [];
    }
    NumberedAppend(own, rest, 1, x);
    NumberedLast(own, 1, x);
  }

  /**
    The numbering that keeps a parent's fields at their offsets in every
    subclass: root first, each class's own fields after its ancestors'.
   */
  function InheritedFirstOffsets(t: Table, c: string): map<string, int>
    requires Rooted(t, c)
  {
    Numbered(FieldsDownTo(t, c), 1)
  }

  /** The field names of the chain of `c`, root first. */
  function FieldsDownTo(t: Table, c: string): seq<string>
    requires Rooted(t, c)
  {
    ChainInTable(t, c);
    DownwardFields(t, Chain(t, c))
  }

  /**
    With inherited fields numbered first, a field of `P` that `C extends P` does
    not redeclare has the same offset in C as in P, and C's own fields come after.
   */
  lemma InheritedFirstPrefix(t: Table, c: string)
    requires Rooted(t, c) && t[c].parent.Some?
    ensures Rooted(t, t[c].parent.value)
    ensures var p := t[c].parent.value; var own := FieldNames(t[c].order, t[c].members);
      && (forall x :: x in InheritedFirstOffsets(t, p) && x !in own ==>
            x in InheritedFirstOffsets(t, c) && InheritedFirstOffsets(t, c)[x] == InheritedFirstOffsets(t, p)[x])
      && (forall x :: x in own ==> InheritedFirstOffsets(t, c)[x] > |InheritedFirstOffsets(t, p)|)
  {
    var p := t[c].parent.value;
    ChainStep(t, c);
    ChainInTable(t, c);
    ChainInTable(t, p);
    var cp := Chain(t, p);
    var own := FieldNames(t[c].order, t[c].members);
    assert Chain(t, c)[..|Chain(t, c)| - 1] == cp;
    var dp := FieldsDownTo(t, p);
    assert FieldsDownTo(t, c) == dp + own;
    forall x | x in InheritedFirstOffsets(t, p) && x !in own
      ensures x in InheritedFirstOffsets(t, c) && InheritedFirstOffsets(t, c)[x] == InheritedFirstOffsets(t, p)[x]
    {
      NumberedAppend(dp, own, 1, x);
    }
    forall x | x in own
      ensures InheritedFirstOffsets(t, c)[x] > |InheritedFirstOffsets(t, p)|
    {
      NumberedAppend(dp, own, 1, x);
      assert |InheritedFirstOffsets(t, p)| <= |dp| by {
        NumberedCard(dp, 1);
      }
    }
  }

  lemma {:induction false} NumberedCard(names: seq<string>, first: int)
    ensures |Numbered(names, first)| <= |names|
    decreases |names|
  {
    if names != [] {
      NumberedCard(names[..|names| - 1], first);
    }
  }

  /**
    The own-first numbering moves inherited fields: with `class P { int b; }`
    and `class C extends P { int a; }`, `b` is at offset 1 in P but at offset 2
    in C, where offset 1 holds `a`.
   */
  lemma OwnFirstMovesInheritedField()
    ensures var t := TwoClasses();
      && Rooted(t, "C") && Rooted(t, "P")
      && InstanceOffsets(t, "P") == map["b" := 1]
      && InstanceOffsets(t, "C") == map["a" := 1, "b" := 2]
      && InheritedFirstOffsets(t, "C") == map["b" := 1, "a" := 2]
  {
    TwoClassesFields();
    var t := TwoClasses();
    assert ["b"][..0] == [];
    assert Numbered(["b"], 1) == map["b" := 1];
    assert InstanceOffsets(t, "P") == map["b" := 1];
    NumberedPair("a", "b");
    assert InstanceOffsets(t, "C") == map["a" := 1, "b" := 2];
    NumberedPair("b", "a");
    assert InheritedFirstOffsets(t, "C") == map["b" := 1, "a" := 2];
  }

  lemma NumberedPair(x: string, y: string)
    requires x != y
    ensures Numbered([x, y], 1) == map[x := 1, y := 2]
  {
    assert [x, y][..1] == [x] && [x][..0] == [];
  }

  lemma TwoClassesFields()
    ensures Rooted(TwoClasses(), "P") && Rooted(TwoClasses(), "C")
    ensures FieldsUpFrom(TwoClasses(), "P") == ["b"]
    ensures FieldsUpFrom(TwoClasses(), "C") == ["a", "b"]
    ensures FieldsDownTo(TwoClasses(), "C") == ["b", "a"]
  {
    var t := TwoClasses();
    TwoClassesChains();
    TwoClassesOwnFields();
    FieldsOfTwo(t, "P", "C");
  }

  /** The field lists of a two-class chain. */
  lemma FieldsOfTwo(t: Table, p: string, c: string)
    requires p in t && c in t
    ensures InTable(t, [p]) && InTable(t, [p, c])
    ensures UpwardFields(t, [p]) == FieldNames(t[p].order, t[p].members)
    ensures UpwardFields(t, [p, c]) == FieldNames(t[c].order, t[c].members) + FieldNames(t[p].order, t[p].members)
    ensures DownwardFields(t, [p, c]) == FieldNames(t[p].order, t[p].members) + FieldNames(t[c].order, t[c].members)
  {
    assert [p, c][..1] == [p] && [p][..0] == [];
    assert DownwardFields(t, [p]) == [] + FieldNames(t[p].order, t[p].members);
  }

  lemma TwoClassesOwnFields()
    ensures FieldNames(TwoClasses()["P"].order, TwoClasses()["P"].members) == ["b"]
    ensures FieldNames(TwoClasses()["C"].order, TwoClasses()["C"].members) == ["a"]
  {
    assert ["b"][..0] == [] && ["a"][..0] == [];
  }

  /** `class P { int b; }` and `class C extends P { int a; }`. */
  function TwoClasses(): Table {
    var nodeInt := Field(Node(INT, None));
    map[
      "P" := ClassNode("P", None, map["b" := nodeInt], ["b"]),
      "C" := ClassNode("C", Some("P"), map["a" := nodeInt], ["a"])]
  }

  lemma TwoClassesChains()
    ensures Rooted(TwoClasses(), "P") && Rooted(TwoClasses(), "C")
    ensures Chain(TwoClasses(), "P") == ["P"] && Chain(TwoClasses(), "C") == ["P", "C"]
  {
    var t := TwoClasses();
    assert t.Keys == {"P", "C"};
    assert |t| == 2;
    assert ReachesRoot(t, "P", 0);
    assert ReachesRoot(t, "P", 1);
    assert ReachesRoot(t, "P", 2);
    assert ReachesRoot(t, "C", 2);
    assert ChainFuel(t, "P", 1) == ["P"];
    assert ChainFuel(t, "P", 2) == ["P"];
    assert ChainFuel(t, "C", 2) == ["P", "C"];
  }

  // ---------------------------------------------------------------------------
  // Method frames

  /**
    `getMethodParameterOffsets`: the inverse of the parameter positions, read in
    index order, so a name recorded at several indexes keeps the last one.
   */
  function ParameterOffsets(m: MethodNode): map<string, int>
    requires WfMethod(m)
  {
    Numbered(ParameterNames(m), 0)
  }

  /** The recorded parameter names in index order. */
  function ParameterNames(m: MethodNode): (r: seq<string>)
    requires WfMethod(m)
    ensures |r| == |m.parameters| && forall i :: 0 <= i < |r| ==> r[i] == m.positions[i]
  {
    seq(|m.parameters|, i requires 0 <= i < |m.parameters| => m.positions[i])
  }

  /** Every offset is a position recording its name, and every position's name has an offset no smaller. */
  lemma ParameterOffsetsInvert(m: MethodNode)
    requires WfMethod(m)
    ensures forall x :: x in ParameterOffsets(m) ==> ParameterOffsets(m)[x] in m.positions && m.positions[ParameterOffsets(m)[x]] == x
    ensures forall i :: 0 <= i < |m.parameters| ==> m.positions[i] in ParameterOffsets(m) && ParameterOffsets(m)[m.positions[i]] >= i
  {
    var names := ParameterNames(m);
    forall x | x in Numbered(names, 0) ensures Numbered(names, 0)[x] in m.positions && m.positions[Numbered(names, 0)[x]] == x {
      NumberedLast(names, 0, x);
    }
    forall i | 0 <= i < |m.parameters| ensures m.positions[i] in Numbered(names, 0) && Numbered(names, 0)[m.positions[i]] >= i {
      assert names[i] == m.positions[i];
      NumberedLast(names, 0, m.positions[i]);
    }
  }

  /** With pairwise distinct parameter names, parameter offsets and positions are inverse bijections. */
  lemma ParameterOffsetsInverse(m: MethodNode)
    requires WfMethod(m)
    requires forall i, j :: 0 <= i < j < |m.parameters| ==> m.positions[i] != m.positions[j]
    ensures forall i :: 0 <= i < |m.parameters| ==> ParameterOffsets(m)[m.positions[i]] == i
  {
    ParameterOffsetsInvert(m);
    forall i | 0 <= i < |m.parameters| ensures ParameterOffsets(m)[m.positions[i]] == i {
      var r := ParameterOffsets(m);
      var j := r[m.positions[i]];
      assert j in m.positions && m.positions[j] == m.positions[i];
    }
  }

  /**
    The ordering `getMethodVariableOffsets` gives: every local name numbered
    0..n-1 in increasing lexicographic order.
   */
  ghost predicate SortedNumbering(names: set<string>, r: map<string, int>) {
    && r.Keys == names
    && (forall x :: x in r ==> 0 <= r[x] < |names|)
    && (forall x, y :: x in r && y in r ==> (LexLess(x, y) <==> r[x] < r[y]))
  }

  /** The numbering is one-to-one: two names never share an offset. */
  lemma SortedNumberingInjective(names: set<string>, r: map<string, int>, x: string, y: string)
    requires SortedNumbering(names, r) && x in r && y in r && x != y
    ensures r[x] != r[y]
  {
    LexLessTotal(x, y);
  }
}
