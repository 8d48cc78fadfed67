/**
  The symbol table's shapes (the Semantic package: Node, MethodNode, ClassNode,
  ClassWithParentNode, NodeType) and the class hierarchy read from it.

  A class's members live in one map keyed by name, fields and methods alike.
  The order in which a class's members are enumerated is kept in `order`
  (first insertion first); every pass that iterates over members uses it.
 */
module Semantic {
  import opened Common
  import opened Ast

  /** The checker's closed set of type tags. */
  datatype NodeType = INT | BOOLEAN | INTARRAY | FLOAT | DOUBLE | CLASS | UNKNOWN

  /** `nodeTypeOf`: the tag of a declared type; a class name becomes CLASS. */
  function NodeTypeOf(t: Type): (r: NodeType)
    ensures r == CLASS <==> t.IdentifierType?
    ensures r != UNKNOWN
  {
    match t
    case BooleanType => BOOLEAN
    case FloatType => FLOAT
    case DoubleType => DOUBLE
    case IntegerType => INT
    case IntArrayType => INTARRAY
    case IdentifierType(_) => CLASS
  }

  /** A typed entry; `iam` is the referent class name of a CLASS-typed entry. */
  datatype Node = Node(ty: NodeType, iam: Option<string>)

  /**
    A method entry: its return type, its parameter types in declaration order,
    the index -> name map of its parameters, and its local variables.
   */
  datatype MethodNode = MethodNode(
    returnType: Node,
    parameters: seq<Node>,
    positions: map<int, string>,
    locals: map<string, Node>)

  datatype Member = Field(node: Node) | Method(m: MethodNode)

  /**
    What `getType()` answers for a member. A method entry's own tag is taken to
    be UNKNOWN: it is never CLASS, and callers that want a method's type ask for
    its return type.
   */
  function MemberType(m: Member): NodeType {
    match m
    case Field(n) => n.ty
    case Method(_) => UNKNOWN
  }

  /** A class entry; `parent` is present for a class declared with `extends`. */
  datatype ClassNode = ClassNode(
    name: string,
    parent: Option<string>,
    members: map<string, Member>,
    order: seq<string>)

  type Table = map<string, ClassNode>

  /** The parameter positions are exactly 0 .. |parameters| - 1. */
  ghost predicate WfMethod(m: MethodNode) {
    forall i :: i in m.positions <==> 0 <= i < |m.parameters|
  }

  predicate Distinct(s: seq<string>) {
    forall i, j :: 0 <= i < j < |s| ==> s[i] != s[j]
  }

  /** `order` lists every member exactly once, and every method entry is well formed. */
  ghost predicate WfClass(c: ClassNode) {
    && Distinct(c.order)
    && (forall k :: k in c.members <==> k in c.order)
    && (forall k :: k in c.members && c.members[k].Method? ==> WfMethod(c.members[k].m))
  }

  ghost predicate WfTable(t: Table) {
    forall c :: c in t ==> WfClass(t[c])
  }

  // ---------------------------------------------------------------------------
  // The class hierarchy

  /** Following parent links from `c` reaches a parentless class within `fuel` steps, every name on the way present. */
  predicate ReachesRoot(t: Table, c: string, fuel: nat)
    decreases fuel
  {
    c in t && (t[c].parent.None? || (fuel > 0 && ReachesRoot(t, t[c].parent.value, fuel - 1)))
  }

  /** At most as many parent links as there are classes lead from `c` to a root. */
  predicate Rooted(t: Table, c: string) {
    ReachesRoot(t, c, |t|)
  }

  /** Every class of the table is rooted: no cycle and no dangling parent name. */
  predicate Acyclic(t: Table) {
    forall c {:trigger Rooted(t, c)} :: c in t ==> Rooted(t, c)
  }

  lemma {:induction false} ReachesRootMono(t: Table, c: string, f: nat, g: nat)
    requires f <= g && ReachesRoot(t, c, f)
    ensures ReachesRoot(t, c, g)
    decreases f
  {
    if t[c].parent.Some? {
      ReachesRootMono(t, t[c].parent.value, f - 1, g - 1);
    }
  }

  /** In an acyclic table the parent of a class is present and rooted. */
  lemma ParentRooted(t: Table, c: string)
    requires Acyclic(t) && c in t && t[c].parent.Some?
    ensures t[c].parent.value in t && Rooted(t, t[c].parent.value)
  {
    assert Rooted(t, c);
    ReachesRootMono(t, t[c].parent.value, |t| - 1, |t|);
  }

  /** A class whose parent chain comes back to it (a self-loop or a two-cycle) is never rooted, whatever the fuel. */
  lemma {:induction false} CycleNeverRooted(t: Table, a: string, b: string, fuel: nat)
    requires a in t && b in t
    requires t[a].parent == Some(b) && t[b].parent == Some(a)
    ensures !ReachesRoot(t, a, fuel) && !ReachesRoot(t, b, fuel)
    decreases fuel
  {
    if fuel > 0 {
      CycleNeverRooted(t, a, b, fuel - 1);
    }
  }

  /** The ancestor chain with explicit fuel, root first, ending with `c`. */
  function ChainFuel(t: Table, c: string, fuel: nat): seq<string>
    requires ReachesRoot(t, c, fuel)
    decreases fuel
  {
    if t[c].parent.None? then [c] else ChainFuel(t, t[c].parent.value, fuel - 1) + [c]
  }

  lemma {:induction false} ChainFuelIndependent(t: Table, c: string, f: nat, g: nat)
    requires ReachesRoot(t, c, f) && ReachesRoot(t, c, g)
    ensures ChainFuel(t, c, f) == ChainFuel(t, c, g)
    decreases f
  {
    if t[c].parent.Some? {
      ChainFuelIndependent(t, t[c].parent.value, f - 1, g - 1);
    }
  }

  /** `createClsRelList`'s answer: the ancestors of `c`, root first, then `c` itself. */
  function Chain(t: Table, c: string): seq<string>
    requires Rooted(t, c)
  {
    ChainFuel(t, c, |t|)
  }

  /** The chain of a class with a parent is the parent's chain followed by the class. */
  lemma ChainStep(t: Table, c: string)
    requires Rooted(t, c) && t[c].parent.Some?
    ensures Rooted(t, t[c].parent.value)
    ensures Chain(t, c) == Chain(t, t[c].parent.value) + [c]
  {
    var p := t[c].parent.value;
    ReachesRootMono(t, p, |t| - 1, |t|);
    ChainFuelIndependent(t, p, |t| - 1, |t|);
  }

  /** Shape of the chain: it ends with `c`, starts at a root, and each element is the parent of the next. */
  lemma {:induction false} ChainShape(t: Table, c: string, fuel: nat)
    requires ReachesRoot(t, c, fuel)
    ensures var ch := ChainFuel(t, c, fuel);
      && |ch| > 0 && ch[|ch| - 1] == c
      && (forall i :: 0 <= i < |ch| ==> ch[i] in t)
      && t[ch[0]].parent.None?
      && (forall i :: 0 <= i < |ch| - 1 ==> t[ch[i + 1]].parent == Some(ch[i]))
    decreases fuel
  {
    if t[c].parent.Some? {
      ChainShape(t, t[c].parent.value, fuel - 1);
    }
  }

  /** Two tables with the same classes and the same parent links. */
  predicate SameHierarchy(t: Table, u: Table) {
    && t.Keys == u.Keys
    && (forall k :: k in t ==> t[k].parent == u[k].parent)
  }

  lemma {:induction false} SameHierarchyReaches(t: Table, u: Table, c: string, fuel: nat)
    requires SameHierarchy(t, u) && ReachesRoot(t, c, fuel)
    ensures ReachesRoot(u, c, fuel) && ChainFuel(t, c, fuel) == ChainFuel(u, c, fuel)
    decreases fuel
  {
    if t[c].parent.Some? {
      SameHierarchyReaches(t, u, t[c].parent.value, fuel - 1);
    }
  }

  /** Changing members only keeps the hierarchy acyclic and every chain the same. */
  lemma SameHierarchyAcyclic(t: Table, u: Table)
    requires SameHierarchy(t, u) && Acyclic(t)
    ensures Acyclic(u)
    ensures forall c :: c in t ==> Chain(t, c) == Chain(u, c)
  {
    assert |t| == |u| by {
      assert t.Keys == u.Keys;
    }
    forall c | c in u ensures Rooted(u, c) && Chain(t, c) == Chain(u, c) {
      assert Rooted(t, c);
      SameHierarchyReaches(t, u, c, |t|);
    }
  }

  // ---------------------------------------------------------------------------
  // Member lookup along a chain

  /**
    The member named `x` of the LAST class of `chain` that has one; the walk the
    checker does from a class up through its ancestors, given the class's chain.
   */
  function FindInChain(t: Table, chain: seq<string>, x: string): Option<Member>
    requires forall i :: 0 <= i < |chain| ==> chain[i] in t
    decreases |chain|
  {
    if chain == [] then None
    else
      var c := chain[|chain| - 1];
      if x in t[c].members then Some(t[c].members[x])
      else FindInChain(t, chain[..|chain| - 1], x)
  }

  /** The member a lookup from `c` finds: `c`'s own first, then its ancestors' nearest first. */
  function FindMember(t: Table, c: string, x: string): (r: Option<Member>)
    requires Rooted(t, c)
  {
    ChainShape(t, c, |t|);
    FindInChain(t, Chain(t, c), x)
  }

  /** A member a class declares itself shadows every inherited one of the same name. */
  lemma FindMemberOwn(t: Table, c: string, x: string)
    requires Rooted(t, c) && x in t[c].members
    ensures FindMember(t, c, x) == Some(t[c].members[x])
  {
    ChainShape(t, c, |t|);
  }

  /** A name the class does not declare is looked up in its parent, or not found at a root. */
  lemma FindMemberInherited(t: Table, c: string, x: string)
    requires Rooted(t, c) && x !in t[c].members
    ensures t[c].parent.None? ==> FindMember(t, c, x).None?
    ensures t[c].parent.Some? ==> Rooted(t, t[c].parent.value) && FindMember(t, c, x) == FindMember(t, t[c].parent.value, x)
  {
    ChainShape(t, c, |t|);
    if t[c].parent.None? {
      var ch := Chain(t, c);
      assert ch == [c] && ch[..0] == [];
      assert FindInChain(t, ch, x) == FindInChain(t, [], x);
    } else {
      ChainStep(t, c);
      var ch := Chain(t, c);
      assert ch[..|ch| - 1] == Chain(t, t[c].parent.value);
    }
  }
}
