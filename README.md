# MiniJava middle end: symbol table, type checker, vtables and IR text

This project models three passes of a MiniJava compiler's middle end. All
three work on in-memory trees and maps.

- **The symbol-table builder** (`TypeVisitor`) walks the class declarations
  and fills a map from class name to class node. A class node records the
  parent name of an `extends` class and a single members map shared by
  fields and methods. A method entry records its return type, its
  parameter list, an index-to-name positions map and its local variables.
  Module `SymbolTable` holds the builder, as a class whose methods update
  `classes`, `currentClass` and `currentMethod`. Each method is proved
  against fold functions, and the shape of the table is proved about those
  folds. Module `Semantic` holds the table's data model, the parent chain
  and the upward member lookup.
- **The type checker** (`VerifyTypeVisitor`) walks the program again. It
  leaves a `NodeType` in `rValueType` for every expression and latches the
  error flag `returnValue` to 1 on every violation.
  - Module `TypeCheck` gives each visit as a function on the checker's
    state. The result is `Thrown` where the Java code would raise an
    exception: a null `rValueType`, a failing cast, or an index past the
    end of a list.
  - Module `TypeChecker` holds the class `VerifyTypeVisitor`. Each of its
    methods is proved to leave exactly the state the matching function
    gives.
  - Module `TypeRules` proves what the checker accepts. For call-free
    expressions, `CheckExp` computes a reference typing relation `Infer`
    and flags exactly the ill-typed expressions. The module also proves
    how identifiers, assignment targets and calls are resolved.
  - Module `ErrorFlag` proves that the flag is never read. After an error
    the rest of the program is checked exactly as it would have been
    without it.
- **The intermediate-code builder** (`IntermediateCode`) computes the class
  layout and renders code as text lines.
  - The layout is:
    - the ancestor chain, root first;
    - per-class vtable slots, numbered root first with the first occurrence of a name winning;
    - the label of the nearest declaring class for each slot;
    - field, parameter and local-variable offsets.
  - The text is:
    - expression and condition rendering;
    - a fresh-label counter;
    - an append-only `code` list.
  - Module `Layout` specifies the layout and proves its properties:
    - slots biject onto the visible method names;
    - a parent's slots keep their numbers in a child;
    - each label names the nearest declaring class;
    - offsets are distinct and in range.
  - Module `IntermediateText` specifies the rendering and the emitted code.
  - Module `Emitter` holds the class `IntermediateCode` and the loops of its
    helpers. Each is proved against those specifications.

Modules `Common` (decimal rendering, `Join`, lexicographic order) and `Ast`
(the MiniJava abstract syntax) support the rest.

Where the code and the language's design disagree, the model follows the
code:
- an identifier in an expression is looked up in the enclosing class only, never in its ancestors;
- an unresolved identifier leaves `rValueType` unchanged;
- an array lookup has its index's type;
- a call's arguments are not checked against the parameters;
- a call to a method found nowhere is flagged but keeps whatever `rValueType` the receiver or the last argument left, instead of taking a return type;
- after a call whose arguments contain a call, `previousNode` is left where the last such inner call set it, not on the outer call's receiver class;
- instance-field offsets number the class's own fields before the inherited ones.

The last point means an inherited field changes offset in a subclass.
`Layout.OwnFirstMovesInheritedField` exhibits this, and
`Layout.InheritedFirstPrefix` proves that numbering inherited fields first
would keep the parent's offsets.

## Model

| member | source | states |
|---|---|---|
| Semantic.NodeTypeOf | src/AST/Visitor/TypeVisitor.java:278-294 | the tag of a declared type is total and never UNKNOWN for a MiniJava type; it is CLASS exactly for a class-name type |
| Semantic.ParentRooted | src/IntermediateCode/IntermediateCode.java:181-195 | in an acyclic table with every parent present, a class's parent is itself present and reaches a root |
| Semantic.CycleNeverRooted | src/IntermediateCode/IntermediateCode.java:128-140 | two classes that extend each other never reach a root, whatever the fuel: the parent walk would not terminate on them |
| Semantic.ChainStep | src/IntermediateCode/IntermediateCode.java:181-195 | the chain of a class with a parent is its parent's chain followed by the class |
| Semantic.ChainShape | src/IntermediateCode/IntermediateCode.java:181-195 | the chain starts at a root, ends at the class itself, lists only table entries, and each entry's parent is the one before it |
| Semantic.SameHierarchyAcyclic | src/AST/Visitor/VerifyTypeVisitor.java:521-526 | changing method entries (as `Call` does) keeps the hierarchy acyclic and every chain unchanged |
| Semantic.FindMemberOwn | src/AST/Visitor/VerifyTypeVisitor.java:322-332 | the upward member lookup finds a class's own member first |
| Semantic.FindMemberInherited | src/AST/Visitor/VerifyTypeVisitor.java:559-575 | a name a class lacks is looked up in its parent; in a root it is not found |
| SymbolTable.DeclNode | src/AST/Visitor/TypeVisitor.java:190-194 | a declared variable's node has the type's tag, and it records the class name exactly when the tag is CLASS |
| SymbolTable.PutMember | src/AST/Visitor/TypeVisitor.java:199 | putting a member keeps the class's name and parent and maps the name to the new member |
| SymbolTable.PutMemberTwice | src/AST/Visitor/TypeVisitor.java:207 | fields and methods share one map: a later member of the same name replaces the earlier one |
| SymbolTable.RegisteredLookup | src/AST/Visitor/TypeVisitor.java:150-153 | after the class loop a name is in the table iff it was before or some declaration has it; the last declaration of a name wins; other entries are untouched |
| SymbolTable.RegisteredKeys | src/AST/Visitor/TypeVisitor.java:140-146 | the class loop adds exactly one entry per declared class name and removes none |
| SymbolTable.DeclaredMethodShape | src/AST/Visitor/TypeVisitor.java:203-237 | a method with k formals has k parameters, positions maps each i < k to the i-th formal's name, and its locals are exactly its variable declarations, the last one of each name winning |
| SymbolTable.DeclaredClassShape | src/AST/Visitor/TypeVisitor.java:170-188 | a class entry keeps the parent name as written, unchecked; its members are its fields and methods, with a method overwriting a field of the same name; the entry is well formed |
| SymbolTable.RegisteredWf | src/AST/Visitor/TypeVisitor.java:140-146 | every method entry the builder creates has one recorded name per parameter index |
| SymbolTable.TypeVisitor.constructor | src/AST/Visitor/TypeVisitor.java:69-75 | a fresh builder has an empty table and no current class or method |
| SymbolTable.TypeVisitor.VisitProgram | src/AST/Visitor/TypeVisitor.java:140-148 | the table becomes the class loop's registration of the declarations, and the main class adds nothing; both cursors are null afterwards |
| SymbolTable.TypeVisitor.VisitClassDecl | src/AST/Visitor/TypeVisitor.java:150-188 | the class's entry is replaced by the fully declared class and `currentClass` is null afterwards |
| SymbolTable.TypeVisitor.VisitFields | src/AST/Visitor/TypeVisitor.java:155-159 | the field loop puts every field into the current class, in order |
| SymbolTable.TypeVisitor.VisitMethods | src/AST/Visitor/TypeVisitor.java:161-165 | the method loop puts every declared method into the current class, in order |
| SymbolTable.TypeVisitor.VisitVarDecl | src/AST/Visitor/TypeVisitor.java:190-201 | inside a method the variable goes into that method's locals and class members are untouched; outside one it becomes a class member |
| SymbolTable.TypeVisitor.VisitMethodDecl | src/AST/Visitor/TypeVisitor.java:203-222 | the method entry put under its name is the declared method, and `currentMethod` is null afterwards |
| SymbolTable.TypeVisitor.VisitFormal | src/AST/Visitor/TypeVisitor.java:224-237 | the formal is appended to the parameters and its index is recorded under its name |
| TypeCheck.CheckIdentifier | src/AST/Visitor/VerifyTypeVisitor.java:604-653 | an identifier only changes `lastId`, `rValueType` and the flag, and the flag is only ever raised |
| TypeCheck.ParamIndexFirst | src/AST/Visitor/VerifyTypeVisitor.java:618-624 | the parameter search finds the first index recording the name, or none when no index does |
| TypeCheck.ParamsAsLocalsLookup | src/AST/Visitor/VerifyTypeVisitor.java:521-526 | after `Call` copies the parameters into the locals, a parameter name holds the last parameter of that name and other locals keep their entries |
| TypeCheck.ParamsAsLocalsIdempotent | src/AST/Visitor/VerifyTypeVisitor.java:521-526 | copying the parameters into the locals a second time changes nothing |
| TypeCheck.Operands | src/AST/Visitor/VerifyTypeVisitor.java:360-374 | checking two operands keeps the table, the placeholders and the current node, and never lowers the flag |
| TypeCheck.Arith | src/AST/Visitor/VerifyTypeVisitor.java:396-484 | an arithmetic operator keeps the invariant and only raises the flag |
| TypeCheck.CheckExp | src/AST/Visitor/VerifyTypeVisitor.java:360-691 | checking an expression keeps the table, the placeholders and the current node, and the flag once set stays set |
| TypeCheck.CheckBinary | src/AST/Visitor/VerifyTypeVisitor.java:733-839 | the binary operators keep the invariant and only raise the flag |
| TypeCheck.CheckUnary | src/AST/Visitor/VerifyTypeVisitor.java:659-691 | `length`, `new int[]` and `!` keep the invariant and only raise the flag |
| TypeCheck.CheckLeaf | src/AST/Visitor/VerifyTypeVisitor.java:592-679 | the leaf expressions keep the invariant and only raise the flag |
| TypeCheck.Receiver | src/AST/Visitor/VerifyTypeVisitor.java:516-549 | the receiver step leaves `previousNode` on a class in the table, or throws; it leaves the type, `lastId` and the flag alone |
| TypeCheck.CheckArgs | src/AST/Visitor/VerifyTypeVisitor.java:553-557 | checking the arguments keeps the invariant and only raises the flag |
| TypeCheck.Dispatch | src/AST/Visitor/VerifyTypeVisitor.java:559-589 | dispatch changes only the type and the flag, and only raises the flag |
| TypeCheck.CheckCall | src/AST/Visitor/VerifyTypeVisitor.java:513-590 | a call keeps the table, the placeholders and the current node, and only raises the flag |
| TypeCheck.CheckAssign | src/AST/Visitor/VerifyTypeVisitor.java:295-349 | an assignment keeps the invariant and only raises the flag |
| TypeCheck.CheckBlock | src/AST/Visitor/VerifyTypeVisitor.java:254-261 | a block keeps the invariant and only raises the flag |
| TypeCheck.CheckStmt | src/AST/Visitor/VerifyTypeVisitor.java:263-358 | a statement keeps the invariant and only raises the flag |
| TypeCheck.CheckStmts | src/AST/Visitor/VerifyTypeVisitor.java:216-219 | a method body keeps the invariant and only raises the flag |
| TypeCheck.CheckMethodDecl | src/AST/Visitor/VerifyTypeVisitor.java:169-229 | a method declaration keeps the table, only adds placeholders and only raises the flag |
| TypeCheck.CheckMethods | src/AST/Visitor/VerifyTypeVisitor.java:123-128 | the method loop keeps the table, only adds placeholders and only raises the flag |
| TypeCheck.CheckClassDecl | src/AST/Visitor/VerifyTypeVisitor.java:96-165 | a class declaration keeps the table, only adds placeholders and only raises the flag |
| TypeCheck.CheckClasses | src/AST/Visitor/VerifyTypeVisitor.java:86-92 | the class loop keeps the table, only adds placeholders and only raises the flag |
| TypeCheck.CheckProgram | src/AST/Visitor/VerifyTypeVisitor.java:75-92 | starting from 0, the flag a checked program ends with is 0 or 1, and the class entries are the ones built |
| TypeRules.ParamScopeIndex | src/AST/Visitor/VerifyTypeVisitor.java:614-624 | the parameter scope holds a name iff some parameter records it, and then it holds the first such parameter's type |
| TypeRules.IdentifierResolution | src/AST/Visitor/VerifyTypeVisitor.java:604-653 | an identifier gets the type of its first match in locals, then parameters, then the previous class's own members (a method gives its return type); with no match the flag is set and `rValueType` is left as it was |
| TypeRules.IdentifierIgnoresAncestors | src/AST/Visitor/VerifyTypeVisitor.java:632-650 | a name declared only in an ancestor of the enclosing class is flagged as unresolved |
| TypeRules.CheckExpTyping | src/AST/Visitor/VerifyTypeVisitor.java:360-847 | for a call-free expression, the checker leaves the flag as it was and the reference type exactly when the expression is well typed, and raises the flag otherwise |
| TypeRules.OperandTyping | src/AST/Visitor/VerifyTypeVisitor.java:486-500 | an operand followed by its test passes silently iff it is well typed with the wanted type |
| TypeRules.OperandsTyping | src/AST/Visitor/VerifyTypeVisitor.java:360-374 | two operands pass silently iff both are well typed with their wanted types; the result is the second one's type |
| TypeRules.BinaryTyping | src/AST/Visitor/VerifyTypeVisitor.java:360-500 | each binary operator agrees with the reference typing |
| TypeRules.ComparisonTyping | src/AST/Visitor/VerifyTypeVisitor.java:733-839 | comparisons need numeric operands and give BOOLEAN |
| TypeRules.ArithSound | src/AST/Visitor/VerifyTypeVisitor.java:396-484 | arithmetic needs numeric operands and gives FLOAT if either operand is FLOAT, INT otherwise |
| TypeRules.UnaryTyping | src/AST/Visitor/VerifyTypeVisitor.java:659-691 | `length` needs an int array and gives INT; `new int[]` needs a number and gives INTARRAY; `!` needs BOOLEAN and gives BOOLEAN |
| TypeRules.LeafTyping | src/AST/Visitor/VerifyTypeVisitor.java:592-679 | literals, `this`, `new C()`, `instanceof` and `null` agree with the reference typing |
| TypeRules.DoublePlusIntIsInt | src/AST/Visitor/VerifyTypeVisitor.java:396-424 | a DOUBLE plus an INT is accepted and typed INT, not DOUBLE |
| TypeRules.BooleanOperatorsYieldBoolean | src/AST/Visitor/VerifyTypeVisitor.java:733-843 | comparisons, `&&`, `!` and `instanceof` leave BOOLEAN, whatever errors their operands had, calls included |
| TypeRules.BooleanOperandStillInt | src/AST/Visitor/VerifyTypeVisitor.java:396-424 | `true + 1` is flagged and still typed INT |
| TypeRules.ArrayLookupYieldsIndexType | src/AST/Visitor/VerifyTypeVisitor.java:486-500 | `a[true]` is flagged and typed BOOLEAN, the index's type, not INT |
| TypeRules.ArithTypeOfAnyOperands | src/AST/Visitor/VerifyTypeVisitor.java:396-484 | for every state and operands, erroneous ones and calls included, a checked `+`, `-` or `*` is FLOAT exactly when an operand's type is FLOAT and INT otherwise; a non-numeric operand sets the flag |
| TypeRules.ArrayLookupTypeOfAnyIndex | src/AST/Visitor/VerifyTypeVisitor.java:486-500 | for every state and operands, a checked array lookup has its index's type, whatever that is; an array operand that is not INTARRAY or an index that is not INT sets the flag |
| TypeRules.IdentifierExpStep | src/AST/Visitor/VerifyTypeVisitor.java:604-626 | a resolvable identifier expression sets `lastId` and the resolved type and nothing else |
| TypeRules.NewObjectFlagsUndeclared | src/AST/Visitor/VerifyTypeVisitor.java:672-679 | `new C()` gives CLASS and is flagged exactly when C is neither a class nor a placeholder |
| TypeRules.ConditionsFlag | src/AST/Visitor/VerifyTypeVisitor.java:263-358 | for a call-free condition, `print` argument or array-assignment index, stated against the reference typing `Infer`: an `if` or `while` condition that is not BOOLEAN, or a `print` argument or index that is not INT, sets the flag; a well-typed `print` or array assignment leaves it |
| TypeRules.ConditionsFlagAny | src/AST/Visitor/VerifyTypeVisitor.java:263-358 | for every condition, `print` argument and array-assignment index, calls included: a checked type other than BOOLEAN (conditions) or INT (the others) sets the flag, and a `print` or array assignment of an INT adds nothing to the check of its expression |
| TypeRules.AssignScopeParams | src/AST/Visitor/VerifyTypeVisitor.java:301-310 | the assignment scope adds only parameter 0's name, bound to the last parameter, because the loop index never advances |
| TypeRules.FindInChainNone | src/AST/Visitor/VerifyTypeVisitor.java:315-337 | a name no class in the chain declares is not found |
| TypeRules.AssignUnresolvedIsSilent | src/AST/Visitor/VerifyTypeVisitor.java:315-337 | an assignment whose target is found nowhere returns without visiting the right side and without setting the flag |
| TypeRules.AssignExactTyping | src/AST/Visitor/VerifyTypeVisitor.java:339-348 | for a call-free right side, stated against the reference typing `Infer`: a resolved assignment passes silently when the right side has exactly the target's type, and is flagged when it has another |
| TypeRules.AssignExactTypingAny | src/AST/Visitor/VerifyTypeVisitor.java:339-348 | for every right side, calls included: a resolved assignment keeps the right side's type and ends flagged exactly when checking the right side flagged or left a type other than the target's |
| TypeRules.ReceiverCopiesParams | src/AST/Visitor/VerifyTypeVisitor.java:521-526 | a call leaves the current method's locals holding its parameters |
| TypeRules.DispatchIsLookup | src/AST/Visitor/VerifyTypeVisitor.java:559-589 | the method a call finds is the receiver class's own member, else the one the upward walk finds |
| TypeRules.ArgsFrame | src/AST/Visitor/VerifyTypeVisitor.java:553-557 | call-free arguments change nothing the lookup environment depends on |
| TypeRules.CallResolvesUpward | src/AST/Visitor/VerifyTypeVisitor.java:532-589 | for every call, whatever its arguments: its type is the declared return type of the method found from the receiver's class upward; if none is found the flag is set and the type is left as the arguments left it |
| TypeRules.CallKeepsReceiverClass | src/AST/Visitor/VerifyTypeVisitor.java:532-557 | when no argument contains a call, `previousNode` stays on the receiver's class after the call |
| TypeRules.MethodDeclSound | src/AST/Visitor/VerifyTypeVisitor.java:169-228 | a method declaration that leaves the flag at 0 has an entry that is a method, with the declared return type and matching parameter types, and its return expression has the declared return type |
| TypeRules.ReturnTypeChecked | src/AST/Visitor/VerifyTypeVisitor.java:221-228 | once the body is checked, a call-free return expression typed as the declared return type adds no error, and one with any other type, or none, sets the flag |
| TypeRules.PlaceholderSilencesNew | src/AST/Visitor/VerifyTypeVisitor.java:100-106 | a class missing from the table is flagged and entered as a placeholder, after which `new` of it is accepted |
| TypeRules.PlaceholderRedeclarationThrows | src/AST/Visitor/VerifyTypeVisitor.java:96-98 | a second declaration of such a class fails the cast |
| ErrorFlag.ExpFlagIgnored | src/AST/Visitor/VerifyTypeVisitor.java:360-847 | an expression is checked the same whether or not the flag was set before; only the flag differs |
| ErrorFlag.ComparisonFlagIgnored | src/AST/Visitor/VerifyTypeVisitor.java:733-839 | a comparison is checked the same whether or not the flag was set before |
| ErrorFlag.CallFlagIgnored | src/AST/Visitor/VerifyTypeVisitor.java:513-590 | a call is checked the same whether or not the flag was set before |
| ErrorFlag.StmtFlagIgnored | src/AST/Visitor/VerifyTypeVisitor.java:254-358 | a statement is checked the same whether or not the flag was set before |
| ErrorFlag.StmtsFlagIgnored | src/AST/Visitor/VerifyTypeVisitor.java:216-219 | after an erroneous statement the rest of a method body is checked exactly as without the error |
| ErrorFlag.MethodDeclFlagIgnored | src/AST/Visitor/VerifyTypeVisitor.java:169-229 | a method declaration is checked the same whether or not the flag was set before |
| ErrorFlag.ClassesFlagIgnored | src/AST/Visitor/VerifyTypeVisitor.java:86-92 | after an error the remaining classes are checked exactly as without it: the walk never stops early and the flag is never read |
| TypeChecker.FirstParam | src/AST/Visitor/VerifyTypeVisitor.java:618-624 | the parameter loop of `IdentifierExp` finds the first index whose recorded name matches |
| TypeChecker.CopyParams | src/AST/Visitor/VerifyTypeVisitor.java:521-526 | the parameter copy of `Call` yields the locals with every parameter put in index order |
| TypeChecker.AssignScopeOf | src/AST/Visitor/VerifyTypeVisitor.java:301-310 | the parameter loop of `Assign`, whose index never advances, yields the assignment scope |
| TypeChecker.LookupUpward | src/AST/Visitor/VerifyTypeVisitor.java:559-575 | the while-loop over the parent chain finds the same member as the upward lookup |
| TypeChecker.VerifyTypeVisitor.constructor | src/AST/Visitor/VerifyTypeVisitor.java:75-80 | a fresh checker has the flag at 0, `lastId` empty and `rValueType` null |
| TypeChecker.VerifyTypeVisitor.GetReturnValue | src/AST/Visitor/VerifyTypeVisitor.java:82-84 | the flag returned is 0 or 1 |
| TypeChecker.VerifyTypeVisitor.Require | src/AST/Visitor/VerifyTypeVisitor.java:286-293 | an operand test throws on a null type, raises the flag on a wrong one, and otherwise changes nothing |
| TypeChecker.VerifyTypeVisitor.VisitExp | src/AST/Visitor/VerifyTypeVisitor.java:360-847 | visiting an expression leaves exactly the state the checker's expression rules give, and fails exactly where they throw |
| TypeChecker.VerifyTypeVisitor.VisitOperand | src/AST/Visitor/VerifyTypeVisitor.java:486-500 | one operand and its test, as the rules give them |
| TypeChecker.VerifyTypeVisitor.VisitOperands | src/AST/Visitor/VerifyTypeVisitor.java:360-374 | both operands and their tests, as the rules give them |
| TypeChecker.VerifyTypeVisitor.VisitArith | src/AST/Visitor/VerifyTypeVisitor.java:396-484 | `+`, `-` and `*` leave the state the arithmetic rule gives |
| TypeChecker.VerifyTypeVisitor.VisitBinary | src/AST/Visitor/VerifyTypeVisitor.java:733-839 | the binary operators leave the state the rules give |
| TypeChecker.VerifyTypeVisitor.VisitUnary | src/AST/Visitor/VerifyTypeVisitor.java:659-691 | `length`, `new int[]` and `!` leave the state the rules give |
| TypeChecker.VerifyTypeVisitor.VisitLeaf | src/AST/Visitor/VerifyTypeVisitor.java:592-679 | the leaf expressions leave the state the rules give |
| TypeChecker.VerifyTypeVisitor.VisitIdentifierExp | src/AST/Visitor/VerifyTypeVisitor.java:604-653 | the identifier lookup loops leave the state the resolution rule gives |
| TypeChecker.VerifyTypeVisitor.ExposeReceiver | src/AST/Visitor/VerifyTypeVisitor.java:516-549 | the parameter copy and the receiver class step leave the state the receiver rule gives |
| TypeChecker.VerifyTypeVisitor.VisitArgs | src/AST/Visitor/VerifyTypeVisitor.java:553-557 | the argument loop checks every argument in order |
| TypeChecker.VerifyTypeVisitor.VisitCall | src/AST/Visitor/VerifyTypeVisitor.java:513-590 | a call leaves the state the call rule gives, with the upward walk done by a loop |
| TypeChecker.VerifyTypeVisitor.VisitStatement | src/AST/Visitor/VerifyTypeVisitor.java:263-358 | a statement leaves the state the statement rules give |
| TypeChecker.VerifyTypeVisitor.VisitBlock | src/AST/Visitor/VerifyTypeVisitor.java:254-261 | a block checks its statements in order |
| TypeChecker.VerifyTypeVisitor.OwnTarget | src/AST/Visitor/VerifyTypeVisitor.java:296-313 | the assignment target looked up in the current node's own scope |
| TypeChecker.VerifyTypeVisitor.VisitAssign | src/AST/Visitor/VerifyTypeVisitor.java:295-349 | an assignment leaves the state the assignment rule gives, with the upward walk done by a loop |
| TypeChecker.VerifyTypeVisitor.VisitFormals | src/AST/Visitor/VerifyTypeVisitor.java:193-205 | the formal loop throws past the entry's parameter list and flags a mismatching tag |
| TypeChecker.VerifyTypeVisitor.VisitStatements | src/AST/Visitor/VerifyTypeVisitor.java:216-219 | the statement loop checks the body in order |
| TypeChecker.VerifyTypeVisitor.VisitMethodDecl | src/AST/Visitor/VerifyTypeVisitor.java:169-229 | a method declaration leaves the state the declaration rule gives |
| TypeChecker.VerifyTypeVisitor.VisitMethods | src/AST/Visitor/VerifyTypeVisitor.java:123-128 | the method loop resets the current node to the class before each method |
| TypeChecker.VerifyTypeVisitor.VisitClassDecl | src/AST/Visitor/VerifyTypeVisitor.java:96-165 | a class declaration leaves the state the class rule gives, placeholders included |
| TypeChecker.VerifyTypeVisitor.VisitProgram | src/AST/Visitor/VerifyTypeVisitor.java:86-92 | the program visit checks every class declaration in order |
| Layout.NumberedLast | src/IntermediateCode/IntermediateCode.java:252-257 | numbering a list by position gives a repeated name the number of its last occurrence |
| Layout.NumberedInjective | src/IntermediateCode/IntermediateCode.java:252-257 | numbering a list by position gives distinct names distinct numbers |
| Layout.MethodNames | src/IntermediateCode/IntermediateCode.java:157-171 | the methods of a class are exactly its members that are method entries |
| Layout.FieldNames | src/IntermediateCode/IntermediateCode.java:252-257 | the fields of a class are exactly its members that are not method entries |
| Layout.ChainInTable | src/IntermediateCode/IntermediateCode.java:181-195 | the chain of a rooted class lists only table entries and ends with the class |
| Layout.FirstSeen | src/IntermediateCode/IntermediateCode.java:97-112 | keeping the first occurrence of each name gives a list without repeats and with the same names |
| Layout.FirstSeenPrefix | src/IntermediateCode/IntermediateCode.java:97-112 | names seen later never reorder those seen earlier |
| Layout.VtableBijective | src/IntermediateCode/IntermediateCode.java:81-114 | a class's vtable gives slots 1..k bijectively to the k distinct method names visible along its chain |
| Layout.VtablePrefix | src/IntermediateCode/IntermediateCode.java:97-112 | every method visible in the parent keeps its slot in the child; methods new in the child get larger slots |
| Layout.VisibleMethodsStep | src/IntermediateCode/IntermediateCode.java:97-112 | a child's visible methods are its parent's followed by its own |
| Layout.Declaring | src/IntermediateCode/IntermediateCode.java:128-150 | finds the class nearest the end of the chain that declares a method, or reports that none does |
| Layout.LabelsStep | src/IntermediateCode/IntermediateCode.java:128-150 | the labels of a class are its parent's with its own labels taking precedence |
| Layout.ChainLabelsNearest | src/IntermediateCode/IntermediateCode.java:120-152 | a name has a label iff some class in the chain declares it, and the label names the nearest such class |
| Layout.ChainMethodsDeclared | src/IntermediateCode/IntermediateCode.java:97-112 | a name is among the chain's methods iff some class in the chain declares it as a method |
| Layout.LabelIsNearestDeclaring | src/IntermediateCode/IntermediateCode.java:120-152 | the vtable label of m in C is D$m, where D is the first class declaring m walking upward from C |
| Layout.FieldsListed | src/IntermediateCode/IntermediateCode.java:251-264 | the upward field walk lists exactly the fields of the classes on the chain |
| Layout.FieldsBothWays | src/IntermediateCode/IntermediateCode.java:251-264 | walking the chain downward or upward collects the same field names |
| Layout.FieldsUpFromStep | src/IntermediateCode/IntermediateCode.java:251-264 | a class's field list is its own fields followed by its parent's list |
| Layout.InstanceOffsetsRange | src/IntermediateCode/IntermediateCode.java:243-267 | every field along the chain gets an offset; offsets are distinct and lie in 1..N, so 0 is never used |
| Layout.OwnFieldsFirst | src/IntermediateCode/IntermediateCode.java:251-264 | a class's own fields take the first offsets, before inherited ones |
| Layout.InheritedFirstPrefix | src/IntermediateCode/IntermediateCode.java:243-267 | under the inherited-first numbering, a parent's fields keep their offsets in the child and the child's own fields come after them |
| Layout.OwnFirstMovesInheritedField | src/IntermediateCode/IntermediateCode.java:251-264 | with P{b} and C extends P{a}, the code gives b offset 1 in P but 2 in C; the inherited-first numbering keeps it at 1 |
| Layout.ParameterNames | src/IntermediateCode/IntermediateCode.java:210-213 | the positions map read in index order gives one name per parameter |
| Layout.ParameterOffsetsInvert | src/IntermediateCode/IntermediateCode.java:197-216 | each parameter offset points back to a position recording that name, and every recorded name gets an offset at or after its position |
| Layout.ParameterOffsetsInverse | src/IntermediateCode/IntermediateCode.java:197-216 | with distinct parameter names, the offsets are exactly the inverse of the positions map |
| Layout.SortedNumberingInjective | src/IntermediateCode/IntermediateCode.java:218-241 | the local-variable numbering gives distinct names distinct offsets |
| IntermediateText.ExpToValue | src/IntermediateCode/IntermediateCode.java:373-394 | node kinds other than literals, identifiers and `+ - *` render as the empty string |
| IntermediateText.ExpToValueIsTokens | src/IntermediateCode/IntermediateCode.java:373-394 | a value renders as its flattened token list joined by single spaces, so `a + b` renders as a's text, " + ", then b's text |
| IntermediateText.ExpToCondition | src/IntermediateCode/IntermediateCode.java:408-430 | node kinds other than the six comparisons, `&&` and a call render as the empty string |
| IntermediateText.ExpToConditionConjuncts | src/IntermediateCode/IntermediateCode.java:408-430 | a condition renders as its conjuncts' renderings joined by " && " |
| IntermediateText.JoinLoopIsJoin | src/IntermediateCode/IntermediateCode.java:396-406 | the separator-tracking loop builds the plain separated join |
| IntermediateText.ExpListToValue | src/IntermediateCode/IntermediateCode.java:396-406 | an argument list renders as its values joined by the indent |
| IntermediateText.StatementToString | src/IntermediateCode/IntermediateCode.java:432-450 | statements other than assignment, block and print render as the empty string |
| IntermediateText.BlockText | src/IntermediateCode/IntermediateCode.java:437-444 | a block renders as its statements, each followed by ";", joined by the indent |
| IntermediateText.IssuedStep | src/IntermediateCode/IntermediateCode.java:35-39 | the next label has not been issued yet, and issuing it adds exactly that label |
| IntermediateText.EmitExp | src/IntermediateCode/IntermediateCode.java:488-565 | emitting an expression only appends lines and never lowers the label counter |
| IntermediateText.EmitComparison | src/IntermediateCode/IntermediateCode.java:567-625 | each of the five comparisons other than `<` takes two fresh labels and only appends lines |
| IntermediateText.EmitStmt | src/IntermediateCode/IntermediateCode.java:452-486 | emitting a statement only appends lines |
| IntermediateText.EmitBlock | src/IntermediateCode/IntermediateCode.java:365-371 | emitting a block only appends lines |
| IntermediateText.EmitMethod | src/IntermediateCode/IntermediateCode.java:324-353 | emitting a method only appends lines and clears the current method and its parameters afterwards |
| IntermediateText.EmitClass | src/IntermediateCode/IntermediateCode.java:286-320 | emitting a class only appends lines and clears the current class afterwards |
| IntermediateText.EntryLinesAt | src/IntermediateCode/IntermediateCode.java:103-111 | one entry line per slot, the i-th for the i-th name |
| IntermediateText.TableEntryText | src/IntermediateCode/IntermediateCode.java:81-114 | a class's vtable is its label line and exactly k entry lines; the line at m's slot names the nearest class declaring m |
| IntermediateText.VTablesHoldEach | src/IntermediateCode/IntermediateCode.java:44-64 | the vtable map holds exactly the listed classes, each with its own vtable |
| IntermediateText.VTablesComplete | src/IntermediateCode/IntermediateCode.java:44-64 | when the order enumerates the table's classes once each, the vtable map's keys are the table's classes and each maps to its own vtable |
| IntermediateText.EmitProgram | src/IntermediateCode/IntermediateCode.java:269-279 | the program visit records every class's vtable, and the code begins with the old code followed by all vtables |
| Emitter.RenderArgs | src/IntermediateCode/IntermediateCode.java:396-406 | the argument loop builds the values joined by the indent |
| Emitter.RenderStatement | src/IntermediateCode/IntermediateCode.java:432-450 | the statement renderer's loop gives each block statement followed by ";", joined by the indent |
| Emitter.GetMethods | src/IntermediateCode/IntermediateCode.java:157-171 | the member loop keeps exactly the method entries, in member order |
| Emitter.AddLabels | src/IntermediateCode/IntermediateCode.java:128-150 | the label loop adds C$m for each of C's methods without overwriting a label already recorded |
| Emitter.SortNames | src/IntermediateCode/IntermediateCode.java:228-231 | sorting the local names gives each once, in strictly increasing lexicographic order |
| Emitter.SortedIsNumbering | src/IntermediateCode/IntermediateCode.java:218-241 | numbering the sorted names by position is the lexicographic numbering 0..n-1 |
| Emitter.RecordMethods | src/IntermediateCode/IntermediateCode.java:102-111 | one class's methods extend the slot numbering and the entry lines in first-seen order |
| Emitter.RecordMethod | src/IntermediateCode/IntermediateCode.java:104-110 | a name not seen yet gets the next slot and one entry line; a seen one changes nothing |
| Emitter.TableEntry | src/IntermediateCode/IntermediateCode.java:97-112 | the chain loop yields the first-seen numbering from 1 and its entry lines |
| Emitter.EntryIsVtable | src/IntermediateCode/IntermediateCode.java:81-114 | the lines and slots of the loop are the class's vtable |
| Emitter.NumberFields | src/IntermediateCode/IntermediateCode.java:252-257 | the field loop numbers each field from the current position on |
| Emitter.NumberField | src/IntermediateCode/IntermediateCode.java:253-256 | a member that is not a method takes the next position; a method is skipped |
| Emitter.NumberFormals | src/IntermediateCode/IntermediateCode.java:329-334 | the formal loop numbers each formal by its position |
| Emitter.NumberVarDecls | src/IntermediateCode/IntermediateCode.java:336-341 | the variable loop numbers each declared variable by its position |
| Emitter.IntermediateCode.constructor | src/IntermediateCode/IntermediateCode.java:19-29 | a fresh builder has no code, no label issued and no vtables |
| Emitter.IntermediateCode.GetCode | src/IntermediateCode/IntermediateCode.java:31-33 | returns the code emitted so far |
| Emitter.IntermediateCode.GetLabel | src/IntermediateCode/IntermediateCode.java:35-39 | returns "L" followed by the counter, a label not issued before, and advances the counter by one |
| Emitter.IntermediateCode.CreateClsRelList | src/IntermediateCode/IntermediateCode.java:181-195 | the chain list of a class, root first and ending with the class |
| Emitter.IntermediateCode.CollectVtableMethods | src/IntermediateCode/IntermediateCode.java:120-152 | the upward walk records for each visible method the label of its nearest declaring class |
| Emitter.IntermediateCode.ConstructTableEntry | src/IntermediateCode/IntermediateCode.java:81-114 | appends the class label and one entry line per slot, and returns the first-seen numbering |
| Emitter.IntermediateCode.CreateVTables | src/IntermediateCode/IntermediateCode.java:44-64 | iterating the table's classes once each, records each class's vtable and appends its table lines, class by class; afterwards every class of the table has its vtable and no other name has one |
| Emitter.IntermediateCode.GetMethodParameterOffsets | src/IntermediateCode/IntermediateCode.java:197-216 | for a method entry, the inverse of its positions map; for a missing class or method, nothing |
| Emitter.IntermediateCode.GetMethodVariableOffsets | src/IntermediateCode/IntermediateCode.java:218-241 | for a method entry, its local names in lexicographic order numbered 0..n-1 |
| Emitter.IntermediateCode.GetInstanceVariableOffsets | src/IntermediateCode/IntermediateCode.java:243-267 | for a class in the table, the chain's fields numbered from 1, own fields first |
| Emitter.IntermediateCode.VisitExp | src/IntermediateCode/IntermediateCode.java:488-565 | an expression visit appends the lines the emitter specification gives |
| Emitter.IntermediateCode.VisitOperator | src/IntermediateCode/IntermediateCode.java:498-522 | `+ - *`, array access and calls append the lines the specification gives |
| Emitter.IntermediateCode.VisitLeaf | src/IntermediateCode/IntermediateCode.java:524-557 | the leaf expressions append the lines the specification gives |
| Emitter.IntermediateCode.VisitComparison | src/IntermediateCode/IntermediateCode.java:567-625 | each of the five comparisons other than `<` takes two labels and appends the lines the specification gives |
| Emitter.IntermediateCode.VisitStatement | src/IntermediateCode/IntermediateCode.java:452-486 | a statement appends the lines the specification gives; `if` and `while` use the fixed label names of their lines and take no fresh label |
| Emitter.IntermediateCode.VisitBlock | src/IntermediateCode/IntermediateCode.java:365-371 | a block visits its statements in order |
| Emitter.IntermediateCode.VisitMethodDecl | src/IntermediateCode/IntermediateCode.java:324-353 | a method records its parameter and variable offsets, emits its body and clears the current method |
| Emitter.IntermediateCode.VisitClassDecl | src/IntermediateCode/IntermediateCode.java:286-320 | a class emits each method with the class current, then clears it |
| Emitter.IntermediateCode.VisitMain | src/IntermediateCode/IntermediateCode.java:281-284 | the main class appends its label line and a call of its statement |
| Emitter.IntermediateCode.VisitProgram | src/IntermediateCode/IntermediateCode.java:269-279 | the vtables first, then the main class, then every class; every class of the table ends with its vtable |

## Left out

- Console output: `TypeVisitor.printTypes` and every message the checker prints. The checker's only observable result is its flag.
- The drivers (`TestSemantic`, `TestIntermediateCode`, `TestCodeGenerator`), the parser and scanner they call, file output and `System.exit`.
- Source line numbers carried by AST nodes. They appear only in messages.
- Float literal formatting. A float literal carries its source text (`FloatLiteral(text)`), which the emitter copies verbatim.
- Java's default `toString` of AST objects, printed by some emitter lines. `IntermediateText.Line.ObjectText` keeps the kind and operand of such a line and leaves the text opaque.
- `HashMap` iteration order:
  - each class's members carry one fixed order (`ClassNode.order`). It stands both for the order of the members map and for the order of the fresh map that `getMethods` builds from it. The two can differ in Java once a class has more than 12 members; the model assumes they are the same;
  - the class order that `createVTables` iterates is an explicit parameter (`classOrder`). `CreateVTables` and `VisitProgram` require it to list every class of the table exactly once (`IntermediateText.Enumerates`), as iterating a map's keys does.
- The `Semantic` classes (`Node`, `ClassNode`, `ClassWithParentNode`, `MethodNode`, `NodeType`) are not part of this model's sources. Their shape is modelled from their uses, with two assumptions:
  - a method entry's own type is UNKNOWN and a class entry's is CLASS;
  - `Identifier.toString()` is the identifier's name.
- TypeCheck.CheckClassDecl: does not model the "declared as" check of `VerifyTypeVisitor` lines 109-114. Under the assumption above a class entry's type is always CLASS, so that check never fires.
- `VerifyTypeVisitor.visit(Formal)`, `visit(Identifier)` and the visits of type nodes. Nothing in the checker's walk reaches them: formals are compared through `nodeTypeOf`, and identifiers and types are never visited.
- The `MainClass` visits. They do nothing in both the builder and the checker.
- Semantic.Chain: every parent walk requires an acyclic hierarchy in which every parent name is present. The source loops forever on a cycle (`Semantic.CycleNeverRooted`) and throws on a missing parent.
- Emitter.IntermediateCode.GetLabel: the counter is an unbounded natural number; the source's 32-bit `int` counter, its wrap-around and the int slot and position counters are not modelled.
- Exceptions are not modelled as Java exceptions:
  - the checker's throws become the `Thrown` outcome, which carries no state;
  - the emitter's offset getters return no map where the source dereferences null.
- TypeCheck.State: the table that `Call` changes in place is modelled as the table as built plus the set `exposed` of methods whose locals gained their parameters. The copy is idempotent (`TypeCheck.ParamsAsLocalsIdempotent`), so `CurrentMethod` gives the map the Java object holds.
  - That change is not carried into the table the intermediate-code pass later reads. The pass is given the table as built.
  - The checker's placeholder entries are kept in a set of their own.
- Common.LexLess: names are ordered by code point. Java's `String.compareTo` compares UTF-16 code units, and the two orders differ only for names containing characters outside the Basic Multilingual Plane.
- Emitter.IntermediateCode.VisitMethodDecl: `currentMethodVariables` is not reset after a method, as in the source. Nothing in the model reads it afterwards.
