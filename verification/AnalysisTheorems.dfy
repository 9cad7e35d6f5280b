/** Accepted programs are typed once coercions have been inserted, and mean what they meant before. */
module AnalysisTheorems {
  import opened Sums
  import opened Semantics
  import opened Hir
  import opened HirTypes
  import opened Analysis

  // ----- Canonical unions -----

  lemma SortedHead(o: Order, members: seq<Type>)
    requires Sorted(o, members) && members != []
    ensures Sorted(o, members[1..]) && forall x :: x in members[1..] ==> o(members[0]) < o(x)
    ensures forall x :: x in members <==> x == members[0] || x in members[1..]
  {
    assert members == [members[0]] + members[1..];
    forall x | x in members[1..] ensures o(members[0]) < o(x) {
      var i :| 0 <= i < |members[1..]| && members[1..][i] == x;
      assert members[i + 1] == x;
    }
  }

  lemma SortedCons(o: Order, t: Type, members: seq<Type>)
    requires Sorted(o, members) && forall x :: x in members ==> o(t) < o(x)
    ensures Sorted(o, [t] + members)
  {
    var all := [t] + members;
    forall i, j | 0 <= i < j < |all| ensures o(all[i]) < o(all[j]) {
      assert all[j] == members[j - 1] && all[j] in members;
    }
  }

  lemma {:induction false} InsertFacts(o: Order, members: seq<Type>, t: Type)
    requires IsOrder(o) && Sorted(o, members)
    ensures Sorted(o, Insert(o, members, t))
    ensures forall x :: x in Insert(o, members, t) <==> x == t || x in members
    decreases |members|
  {
    if members != [] {
      SortedHead(o, members);
      if o(t) < o(members[0]) {
        SortedCons(o, t, members);
      } else if t != members[0] {
        InsertFacts(o, members[1..], t);
        assert o(t) != o(members[0]);
        hide Sorted;
        SortedCons(o, members[0], Insert(o, members[1..], t));
      }
    }
  }

  lemma {:induction false} InsertAllFacts(o: Order, members: seq<Type>, ts: seq<Type>)
    requires IsOrder(o) && Sorted(o, members)
    ensures Sorted(o, InsertAll(o, members, ts))
    ensures forall x :: x in InsertAll(o, members, ts) <==> x in ts || x in members
    decreases |ts|
  {
    if ts != [] {
      InsertFacts(o, members, ts[0]);
      InsertAllFacts(o, Insert(o, members, ts[0]), ts[1..]);
      assert ts == [ts[0]] + ts[1..];
    }
  }

  /** Whether a type is a member of one of some types. */
  ghost predicate IsMember(x: Type, ts: seq<Type>) {
    exists i :: 0 <= i < |ts| && x in Members(ts[i])
  }

  lemma {:induction false} GatherFacts(o: Order, ts: seq<Type>)
    requires IsOrder(o)
    ensures Sorted(o, Gather(o, ts))
    ensures forall x :: x in Gather(o, ts) <==> IsMember(x, ts)
  {
    if ts != [] {
      GatherFacts(o, ts[1..]);
      InsertAllFacts(o, Gather(o, ts[1..]), Members(ts[0]));
      forall x ensures x in Gather(o, ts) <==> IsMember(x, ts) {
        if IsMember(x, ts[1..]) {
          var i :| 0 <= i < |ts[1..]| && x in Members(ts[1..][i]);
          assert x in Members(ts[i + 1]);
        }
        if IsMember(x, ts) {
          var i :| 0 <= i < |ts| && x in Members(ts[i]);
          if i > 0 {
            assert x in Members(ts[1..][i - 1]);
          }
        }
      }
    }
  }

  lemma Inhabited<T>(s: seq<T>)
    requires s != []
    ensures exists x :: x in s
  {
    assert s[0] in s;
  }

  ghost predicate SameMembers(a: seq<Type>, b: seq<Type>) {
    forall x :: x in a <==> x in b
  }

  lemma SameHeads(o: Order, a: seq<Type>, b: seq<Type>)
    requires IsOrder(o) && Sorted(o, a) && Sorted(o, b) && SameMembers(a, b) && a != [] && b != []
    ensures a[0] == b[0]
  {
    SortedHead(o, a);
    SortedHead(o, b);
    hide Sorted;
    assert a[0] in a && b[0] in b;
  }

  lemma SameTails(o: Order, a: seq<Type>, b: seq<Type>)
    requires Sorted(o, a) && Sorted(o, b) && SameMembers(a, b) && a != [] && b != [] && a[0] == b[0]
    ensures Sorted(o, a[1..]) && Sorted(o, b[1..]) && SameMembers(a[1..], b[1..])
  {
    SortedHead(o, a);
    SortedHead(o, b);
    hide Sorted;
    var s, t := a[1..], b[1..];
    forall x ensures x in s <==> x in t {
      assert x in a <==> x in b;
    }
  }

  /** An order leaves no choice of how to list members. */
  lemma {:induction false} SortedIsUnique(o: Order, a: seq<Type>, b: seq<Type>)
    requires IsOrder(o) && Sorted(o, a) && Sorted(o, b) && SameMembers(a, b)
    ensures a == b
    decreases |a|
  {
    if a == [] {
      if b != [] {
        Inhabited(b);
        assert false;
      }
    } else {
      assert a[0] in a;
      assert a[0] in b;
      SameHeads(o, a, b);
      SameTails(o, a, b);
      hide Sorted, SameMembers, IsOrder;
      SortedIsUnique(o, a[1..], b[1..]);
      assert a == [a[0]] + a[1..] && b == [b[0]] + b[1..];
    }
  }

  lemma MemberIsConcrete(o: Order, t: Type, x: Type)
    requires Canonical(o, t) && !t.AnyType? && x in Members(t)
    ensures IsConcrete(x) && Canonical(o, x)
  {
  }

  ghost predicate AreConcrete(o: Order, members: seq<Type>) {
    forall i :: 0 <= i < |members| ==> IsConcrete(members[i]) && Canonical(o, members[i])
  }

  lemma FromMembersFacts(o: Order, members: seq<Type>)
    requires members != [] && Sorted(o, members) && AreConcrete(o, members)
    ensures var t := FromMembers(members); Canonical(o, t) && Members(t) == members && !t.AnyType?
  {
    assert IsConcrete(members[0]);
  }

  lemma SubsumedByMembers(o: Order, t: Type, members: seq<Type>)
    requires members != [] && AreConcrete(o, members) && Canonical(o, t) && !t.AnyType?
    requires forall x :: x in Members(t) ==> x in members
    ensures IsSubsumed(t, FromMembers(members))
  {
    assert IsConcrete(members[0]);
    if t.UnionType? {
      assert t.members[0] in Members(t) && t.members[1] in Members(t) && o(t.members[0]) < o(t.members[1]);
    } else {
      assert t in Members(t);
    }
  }

  lemma GatheredAreConcrete(o: Order, ts: seq<Type>)
    requires IsOrder(o) && AllCanonical(o, ts) && AnyType !in ts
    ensures AreConcrete(o, Gather(o, ts))
  {
    GatherFacts(o, ts);
    hide Gather, Sorted;
    var ms := Gather(o, ts);
    forall i | 0 <= i < |ms| ensures IsConcrete(ms[i]) && Canonical(o, ms[i]) {
      assert ms[i] in ms;
      var j :| 0 <= j < |ts| && ms[i] in Members(ts[j]);
      MemberIsConcrete(o, ts[j], ms[i]);
    }
  }

  /** The union of types is canonical, and all of them are subsumed. */
  lemma UnionFacts(o: Order, ts: seq<Type>)
    requires IsOrder(o) && AllCanonical(o, ts) && ts != []
    ensures Union(o, ts).Some? && Canonical(o, Union(o, ts).value)
    ensures forall i :: 0 <= i < |ts| ==> IsSubsumed(ts[i], Union(o, ts).value)
    ensures AnyType !in ts ==> !Union(o, ts).value.AnyType? && forall x :: x in Members(Union(o, ts).value) <==> IsMember(x, ts)
  {
    if AnyType !in ts {
      var ms := Gather(o, ts);
      GatherFacts(o, ts);
      GatheredAreConcrete(o, ts);
      HasMember(o, ts[0]);
      var x :| x in Members(ts[0]);
      assert IsMember(x, ts) && x in ms;
      FromMembersFacts(o, ms);
      hide Gather, FromMembers, AreConcrete, Canonical, IsSubsumed;
      forall i | 0 <= i < |ts| ensures IsSubsumed(ts[i], FromMembers(ms)) {
        assert forall x :: x in Members(ts[i]) ==> IsMember(x, ts);
        SubsumedByMembers(o, ts[i], ms);
      }
    }
  }

  lemma HasMember(o: Order, t: Type)
    requires Canonical(o, t)
    ensures exists x :: x in Members(t)
  {
    assert Members(t)[0] in Members(t);
  }

  lemma UnionOfSame(o: Order, ts: seq<Type>, t: Type)
    requires IsOrder(o) && Canonical(o, t) && ts != [] && forall i :: 0 <= i < |ts| ==> ts[i] == t
    ensures Union(o, ts) == Some(t)
  {
    if !t.AnyType? {
      UnionFacts(o, ts);
      GatherFacts(o, ts);
      forall x ensures x in Gather(o, ts) <==> x in Members(t) {
        if x in Members(t) {
          assert x in Members(ts[0]);
        }
      }
      SortedIsUnique(o, Gather(o, ts), Members(t));
    }
  }

  lemma {:induction false} WithoutFacts(o: Order, members: seq<Type>, others: seq<Type>)
    requires Sorted(o, members)
    ensures Sorted(o, Without(members, others))
    ensures forall x :: x in Without(members, others) <==> x in members && x !in others
  {
    if members != [] {
      SortedHead(o, members);
      WithoutFacts(o, members[1..], others);
      if members[0] !in others {
        SortedCons(o, members[0], Without(members[1..], others));
      }
    }
  }

  /** What is left of a type is canonical, and covers what has not been ruled out. */
  lemma DifferenceFacts(o: Order, one: Type, other: Type)
    requires Canonical(o, one)
    ensures var d := Difference(one, other);
            && (d.Some? ==> Canonical(o, d.value) && (d.value.AnyType? <==> one.AnyType?))
            && (!other.AnyType? && !one.AnyType? ==>
                  forall x :: x in Members(one) && x !in Members(other) ==> d.Some? && x in Members(d.value))
  {
    if !other.AnyType? && !one.AnyType? {
      var rest := Without(Members(one), Members(other));
      WithoutFacts(o, Members(one), Members(other));
      forall i | 0 <= i < |rest| ensures IsConcrete(rest[i]) && Canonical(o, rest[i]) {
        MemberIsConcrete(o, one, rest[i]);
      }
      if rest != [] {
        FromMembersFacts(o, rest);
      }
    }
  }

  lemma SubsumedCoerces(o: Order, lower: Type, upper: Type)
    requires Canonical(o, lower) && Canonical(o, upper) && IsSubsumed(lower, upper) && lower != upper
    ensures CanCoerce(lower, upper)
  {
    if upper.UnionType? && !lower.UnionType? {
      MemberIsConcrete(o, upper, lower);
    }
  }

  /** Only a type itself is subsumed by a type that is not a variant. */
  lemma FitsConcrete(t: Option<Type>, upper: Type)
    requires Fits(t, upper) && IsConcrete(upper)
    ensures t == Some(upper)
  {
  }

  // ----- Programs -----

  predicate CanonicalArguments(o: Order, arguments: seq<Argument>) {
    forall i :: 0 <= i < |arguments| ==> Canonical(o, arguments[i].type_)
  }

  predicate CanonicalDeclaration(o: Order, d: Declaration) {
    DistinctFields(d.fields) && forall i :: 0 <= i < |d.fields| ==> Canonical(o, d.fields[i].type_)
  }

  predicate CanonicalDefinition(o: Order, d: Definition) {
    CanonicalArguments(o, d.arguments) && Canonical(o, d.result)
  }

  /** Declared types are canonical, and records declare every field once. */
  predicate CanonicalProgram(o: Order, p: Program) {
    && (forall i :: 0 <= i < |p.records| ==> CanonicalDeclaration(o, p.records[i]))
    && (forall i :: 0 <= i < |p.functions| ==> CanonicalDefinition(o, p.functions[i]))
    && (forall i :: 0 <= i < |p.foreigns| ==> AllCanonical(o, p.foreigns[i].types) && Canonical(o, p.foreigns[i].result))
  }

  lemma {:induction false} LookupIsCanonical(o: Order, ctx: Context, name: string)
    requires CanonicalArguments(o, ctx) && LookupType(ctx, name).Some?
    ensures Canonical(o, LookupType(ctx, name).value)
  {
    if ctx[0].name != name {
      LookupIsCanonical(o, ctx[1..], name);
    }
  }

  lemma {:induction false} FindIsCanonical(o: Order, ds: seq<Definition>, name: string)
    requires (forall i :: 0 <= i < |ds| ==> CanonicalDefinition(o, ds[i])) && FindDefinition(ds, name).Some?
    ensures CanonicalDefinition(o, FindDefinition(ds, name).value)
  {
    if ds[0].name != name {
      FindIsCanonical(o, ds[1..], name);
    }
  }

  lemma {:induction false} FindRecordIsCanonical(o: Order, records: seq<Declaration>, name: string)
    requires (forall i :: 0 <= i < |records| ==> CanonicalDeclaration(o, records[i])) && FindRecord(records, name).Some?
    ensures var fields := FindRecord(records, name).value;
            DistinctFields(fields) && forall i :: 0 <= i < |fields| ==> Canonical(o, fields[i].type_)
  {
    if records[0].name != name {
      FindRecordIsCanonical(o, records[1..], name);
    }
  }

  lemma VariableIsCanonical(o: Order, p: Program, ctx: Context, name: string)
    requires CanonicalProgram(o, p) && CanonicalArguments(o, ctx) && VariableType(p, ctx, name).Some?
    ensures Canonical(o, VariableType(p, ctx, name).value)
  {
    if LookupType(ctx, name).Some? {
      LookupIsCanonical(o, ctx, name);
    } else if FindDefinition(p.functions, name).Some? {
      FindIsCanonical(o, p.functions, name);
    } else {
      var d := FindForeign(p.foreigns, name).value;
      var i :| 0 <= i < |p.foreigns| && p.foreigns[i] == d;
    }
  }

  lemma DeclaredIsCanonical(o: Order, p: Program, record: string, field: string)
    requires CanonicalProgram(o, p) && DeclaredType(p, record, field).Some?
    ensures Canonical(o, DeclaredType(p, record, field).value)
  {
    FindRecordIsCanonical(o, p.records, record);
  }

  lemma {:induction false} BindIsCanonical(o: Order, ctx: Context, arguments: seq<Argument>)
    requires CanonicalArguments(o, ctx) && CanonicalArguments(o, arguments)
    ensures CanonicalArguments(o, BindTypes(ctx, arguments))
    decreases |arguments|
  {
    if arguments != [] {
      BindIsCanonical(o, [arguments[0]] + ctx, arguments[1..]);
    }
  }

  // ----- Sources -----

  predicate DistinctNames(fields: seq<Field>) {
    forall i, j :: 0 <= i < j < |fields| ==> fields[i].name != fields[j].name
  }

  /** An expression of a source: without inferred types and coercions, with names of users and canonical types. */
  predicate IsSource(o: Order, e: Expression)
    decreases e, 0
  {
    match e
    case Constant(_) => true
    case Variable(name) => IsUserName(name)
    case If(condition, consequence, alternative) => IsSource(o, condition) && IsSource(o, consequence) && IsSource(o, alternative)
    case Let(name, annotation, bound, body) =>
      (name.Some? ==> IsUserName(name.value)) && annotation.None? && IsSource(o, bound) && IsSource(o, body)
    case Lambda(arguments, result, body) =>
      UserNames(arguments) && CanonicalArguments(o, arguments) && Canonical(o, result) && IsSource(o, body)
    case Call(callee, operands) => IsSource(o, callee) && IsSourceAll(o, operands)
    case IfType(name, argument, branches, otherwise) =>
      && IsUserName(name) && IsSource(o, argument) && IsSourceBranches(o, branches)
      && (otherwise.Some? ==> otherwise.value.annotation.None? && IsSourceBranch(o, otherwise.value))
    case Coerce(_, _, _) => false
    case Construct(_, fields) => DistinctNames(fields) && IsSourceFields(o, fields)
    case Select(record, argument, _) => record.None? && IsSource(o, argument)
    case Update(_, argument, fields) => IsSource(o, argument) && IsSourceFields(o, fields)
    case Not(argument) => IsSource(o, argument)
    case And(left, right) => IsSource(o, left) && IsSource(o, right)
    case Or(left, right) => IsSource(o, left) && IsSource(o, right)
    case Numeric(_, left, right) => IsSource(o, left) && IsSource(o, right)
    case NotEqual(left, right) => IsSource(o, left) && IsSource(o, right)
    case Try(annotation, argument) => annotation.None? && IsSource(o, argument)
  }

  predicate IsSourceAll(o: Order, es: seq<Expression>)
    decreases es, 0
  {
    forall i :: 0 <= i < |es| ==> IsSource(o, es[i])
  }

  predicate IsSourceBranches(o: Order, branches: seq<Branch>)
    decreases branches, 0
  {
    forall i :: 0 <= i < |branches| ==> branches[i].annotation.Some? && IsSourceBranch(o, branches[i])
  }

  predicate IsSourceFields(o: Order, fields: seq<Field>)
    decreases fields, 0
  {
    forall i :: 0 <= i < |fields| ==> IsSourceField(o, fields[i])
  }

  predicate IsSourceBranch(o: Order, branch: Branch)
    decreases branch, 0
  {
    match branch
    case Branch(annotation, body) => (annotation.Some? ==> Canonical(o, annotation.value)) && IsSource(o, body)
  }

  predicate IsSourceField(o: Order, field: Field)
    decreases field, 0
  {
    match field
    case Field(_, expression) => IsSource(o, expression)
  }

  predicate IsSourceDefinition(o: Order, d: Definition) {
    IsUserName(d.name) && UserNames(d.arguments) && IsSource(o, d.body)
  }

  /** A program of a source; foreign functions take and return values without structure. */
  predicate IsSourceProgram(o: Order, p: Program) {
    && CanonicalProgram(o, p)
    && (forall i :: 0 <= i < |p.functions| ==> IsSourceDefinition(o, p.functions[i]))
    && forall i :: 0 <= i < |p.foreigns| ==> IsUserName(p.foreigns[i].name) && IsForeign(p.foreigns[i].types, p.foreigns[i].result)
  }

  // ----- Inferred types -----

  /** An expression that is annotated with the types that are inferred for its parts. */
  predicate Annotated(o: Order, p: Program, ctx: Context, e: Expression)
    decreases e, 0
  {
    match e
    case Constant(_) => true
    case Variable(name) => IsUserName(name)
    case If(condition, consequence, alternative) =>
      Annotated(o, p, ctx, condition) && Annotated(o, p, ctx, consequence) && Annotated(o, p, ctx, alternative)
    case Let(name, annotation, bound, body) =>
      && (name.Some? ==> IsUserName(name.value)) && annotation.Some? && annotation == Extract(o, p, ctx, bound)
      && Annotated(o, p, ctx, bound) && Annotated(o, p, BindName(ctx, name, annotation.value), body)
    case Lambda(arguments, result, body) =>
      && UserNames(arguments) && CanonicalArguments(o, arguments) && Canonical(o, result)
      && Annotated(o, p, BindTypes(ctx, arguments), body)
    case Call(callee, operands) =>
      Annotated(o, p, ctx, callee) && AnnotatedAll(o, p, ctx, operands)
    case IfType(name, argument, branches, otherwise) =>
      && IsUserName(name) && Annotated(o, p, ctx, argument) && AnnotatedBranches(o, p, ctx, name, branches)
      && (otherwise.Some? ==>
            AnnotatedBranch(o, p, ctx, name, otherwise.value) && otherwise.value.annotation == ElseType(o, p, ctx, argument, branches))
    case Coerce(_, _, _) => false
    case Construct(_, fields) => DistinctNames(fields) && AnnotatedFields(o, p, ctx, fields)
    case Select(record, argument, _) => record.Some? && Annotated(o, p, ctx, argument)
    case Update(_, argument, fields) =>
      Annotated(o, p, ctx, argument) && AnnotatedFields(o, p, ctx, fields)
    case Not(argument) => Annotated(o, p, ctx, argument)
    case And(left, right) => Annotated(o, p, ctx, left) && Annotated(o, p, ctx, right)
    case Or(left, right) => Annotated(o, p, ctx, left) && Annotated(o, p, ctx, right)
    case Numeric(_, left, right) => Annotated(o, p, ctx, left) && Annotated(o, p, ctx, right)
    case NotEqual(left, right) => Annotated(o, p, ctx, left) && Annotated(o, p, ctx, right)
    case Try(annotation, argument) =>
      annotation.Some? && annotation == SuccessType(o, p, ctx, argument) && Annotated(o, p, ctx, argument)
  }

  predicate AnnotatedAll(o: Order, p: Program, ctx: Context, es: seq<Expression>)
    decreases es, 0
  {
    forall i :: 0 <= i < |es| ==> Annotated(o, p, ctx, es[i])
  }

  predicate AnnotatedBranches(o: Order, p: Program, ctx: Context, name: string, branches: seq<Branch>)
    decreases branches, 0
  {
    forall i :: 0 <= i < |branches| ==> AnnotatedBranch(o, p, ctx, name, branches[i])
  }

  predicate AnnotatedFields(o: Order, p: Program, ctx: Context, fields: seq<Field>)
    decreases fields, 0
  {
    forall i :: 0 <= i < |fields| ==> AnnotatedField(o, p, ctx, fields[i])
  }

  predicate AnnotatedBranch(o: Order, p: Program, ctx: Context, name: string, branch: Branch)
    decreases branch, 0
  {
    match branch
    case Branch(None, _) => false
    case Branch(Some(t), body) => Canonical(o, t) && Annotated(o, p, [Argument(name, t)] + ctx, body)
  }

  predicate AnnotatedField(o: Order, p: Program, ctx: Context, field: Field)
    decreases field, 0
  {
    match field
    case Field(_, expression) => Annotated(o, p, ctx, expression)
  }

  /** Where types are looked up. */
  ghost predicate Known(o: Order, p: Program, ctx: Context) {
    IsOrder(o) && CanonicalProgram(o, p) && CanonicalArguments(o, ctx)
  }

  /** Types of annotated expressions are canonical. */
  lemma {:induction false} ExtractsCanonical(o: Order, p: Program, ctx: Context, e: Expression)
    requires Known(o, p, ctx) && Annotated(o, p, ctx, e) && Extract(o, p, ctx, e).Some?
    ensures Canonical(o, Extract(o, p, ctx, e).value)
    decreases e, 0
  {
    hide CanonicalProgram, Gather, IsOrder, Union;
    match e
    case Variable(name) => VariableIsCanonical(o, p, ctx, name);
    case If(_, consequence, alternative) =>
      ExtractsCanonical(o, p, ctx, consequence);
      ExtractsCanonical(o, p, ctx, alternative);
      UnionFacts(o, [Extract(o, p, ctx, consequence).value, Extract(o, p, ctx, alternative).value]);
    case Let(name, annotation, bound, body) =>
      ExtractsCanonical(o, p, ctx, bound);
      ExtractsCanonical(o, p, BindName(ctx, name, annotation.value), body);
    case Call(callee, _) => ExtractsCanonical(o, p, ctx, callee);
    case IfType(name, _, branches, otherwise) =>
      var types := ExtractBranches(o, p, ctx, name, branches).value;
      var elses := ExtractElse(o, p, ctx, name, otherwise).value;
      BranchesCanonical(o, p, ctx, name, branches);
      if otherwise.Some? {
        BranchCanonical(o, p, ctx, name, otherwise.value);
      }
      NoneOfNothing(o);
      UnionFacts(o, types + elses);
    case Select(record, _, field) => DeclaredIsCanonical(o, p, record.value, field);
    case Try(annotation, argument) =>
      ExtractsCanonical(o, p, ctx, argument);
      DifferenceFacts(o, Extract(o, p, ctx, argument).value, ErrorType);
    case _ =>
  }

  lemma NoneOfNothing(o: Order)
    ensures Union(o, []).None?
  {
  }

  lemma {:induction false} BranchesCanonical(o: Order, p: Program, ctx: Context, name: string, branches: seq<Branch>)
    requires Known(o, p, ctx) && AnnotatedBranches(o, p, ctx, name, branches)
    requires ExtractBranches(o, p, ctx, name, branches).Some?
    ensures AllCanonical(o, ExtractBranches(o, p, ctx, name, branches).value)
    decreases branches, 0
  {
    hide CanonicalProgram, IsOrder;
    if branches != [] {
      BranchCanonical(o, p, ctx, name, branches[0]);
      BranchesCanonical(o, p, ctx, name, branches[1..]);
    }
  }

  lemma {:induction false} BranchCanonical(o: Order, p: Program, ctx: Context, name: string, branch: Branch)
    requires Known(o, p, ctx) && AnnotatedBranch(o, p, ctx, name, branch) && ExtractBranch(o, p, ctx, name, branch).Some?
    ensures Canonical(o, ExtractBranch(o, p, ctx, name, branch).value)
    decreases branch, 0
  {
    hide CanonicalProgram, IsOrder;
    match branch
    case Branch(Some(t), body) => ExtractsCanonical(o, p, [Argument(name, t)] + ctx, body);
  }

  /** Inference annotates expressions of sources. */
  lemma {:induction false} InferAnnotates(o: Order, p: Program, ctx: Context, e: Expression)
    requires Known(o, p, ctx) && IsSource(o, e) && InferTypes(o, p, ctx, e).Some?
    ensures Annotated(o, p, ctx, InferTypes(o, p, ctx, e).value)
    decreases e, 1
  {
    hide CanonicalProgram, IsOrder, Extract, ElseType, SuccessType, InferTypesAll, InferTypesFields, IsSourceAll, IsSourceFields,
         AnnotatedAll, AnnotatedFields, DistinctNames;
    match e
    case Constant(_) =>
    case Variable(_) =>
    case If(condition, consequence, alternative) =>
      InferAnnotates(o, p, ctx, condition);
      InferAnnotates(o, p, ctx, consequence);
      InferAnnotates(o, p, ctx, alternative);
    case Let(name, _, bound, body) =>
      InferAnnotates(o, p, ctx, bound);
      var t := Extract(o, p, ctx, InferTypes(o, p, ctx, bound).value).value;
      ExtractsCanonical(o, p, ctx, InferTypes(o, p, ctx, bound).value);
      InferAnnotates(o, p, BindName(ctx, name, t), body);
    case Lambda(arguments, _, body) =>
      BindIsCanonical(o, ctx, arguments);
      InferAnnotates(o, p, BindTypes(ctx, arguments), body);
    case Call(callee, operands) =>
      InferAnnotates(o, p, ctx, callee);
      InferAnnotatesAll(o, p, ctx, operands);
    case IfType(_, _, _, _) => InferAnnotatesIfType(o, p, ctx, e);
    case Construct(_, fields) => InferAnnotatesFields(o, p, ctx, fields);
    case Select(_, argument, _) => InferAnnotates(o, p, ctx, argument);
    case Update(_, argument, fields) =>
      InferAnnotates(o, p, ctx, argument);
      InferAnnotatesFields(o, p, ctx, fields);
    case Not(argument) => InferAnnotates(o, p, ctx, argument);
    case And(left, right) =>
      InferAnnotates(o, p, ctx, left);
      InferAnnotates(o, p, ctx, right);
    case Or(left, right) =>
      InferAnnotates(o, p, ctx, left);
      InferAnnotates(o, p, ctx, right);
    case Numeric(_, left, right) =>
      InferAnnotates(o, p, ctx, left);
      InferAnnotates(o, p, ctx, right);
    case NotEqual(left, right) =>
      InferAnnotates(o, p, ctx, left);
      InferAnnotates(o, p, ctx, right);
    case Try(_, argument) => InferAnnotates(o, p, ctx, argument);
  }

  lemma {:induction false} InferAnnotatesIfType(o: Order, p: Program, ctx: Context, e: Expression)
    requires e.IfType? && Known(o, p, ctx) && IsSource(o, e) && InferTypes(o, p, ctx, e).Some?
    ensures Annotated(o, p, ctx, InferTypes(o, p, ctx, e).value)
    decreases e, 0
  {
    hide CanonicalProgram, IsOrder, Extract, Union, InferTypesBranches, IsSourceBranches, AnnotatedBranches;
    InferAnnotates(o, p, ctx, e.argument);
    InferAnnotatesBranches(o, p, ctx, e.name, e.branches);
    if e.otherwise.Some? {
      var argument := InferTypes(o, p, ctx, e.argument).value;
      ExtractsCanonical(o, p, ctx, argument);
      var branches := InferTypesBranches(o, p, ctx, e.name, e.branches).value;
      var t := ElseType(o, p, ctx, argument, branches).value;
      DifferenceFacts(o, Extract(o, p, ctx, argument).value, Union(o, AnnotationTypes(branches)).value);
      InferAnnotatesBranch(o, p, ctx, e.name, e.otherwise.value, t);
    }
  }

  lemma {:induction false} InferAnnotatesAll(o: Order, p: Program, ctx: Context, es: seq<Expression>)
    requires Known(o, p, ctx) && IsSourceAll(o, es) && InferTypesAll(o, p, ctx, es).Some?
    ensures AnnotatedAll(o, p, ctx, InferTypesAll(o, p, ctx, es).value)
    decreases es, 0
  {
    hide CanonicalProgram, IsOrder, InferTypes, Annotated, IsSource;
    if es != [] {
      InferAnnotates(o, p, ctx, es[0]);
      InferAnnotatesAll(o, p, ctx, es[1..]);
    }
  }

  lemma {:induction false} InferAnnotatesBranches(o: Order, p: Program, ctx: Context, name: string, branches: seq<Branch>)
    requires Known(o, p, ctx) && IsSourceBranches(o, branches) && InferTypesBranches(o, p, ctx, name, branches).Some?
    ensures AnnotatedBranches(o, p, ctx, name, InferTypesBranches(o, p, ctx, name, branches).value)
    decreases branches, 0
  {
    hide CanonicalProgram, IsOrder, InferTypesBranch, AnnotatedBranch;
    if branches != [] {
      assert IsSourceBranch(o, branches[0]);
      InferAnnotatesBranch(o, p, ctx, name, branches[0], branches[0].annotation.value);
      InferAnnotatesBranches(o, p, ctx, name, branches[1..]);
    }
  }

  lemma {:induction false} InferAnnotatesBranch(o: Order, p: Program, ctx: Context, name: string, branch: Branch, t: Type)
    requires Known(o, p, ctx) && IsSourceBranch(o, branch) && Canonical(o, t) && InferTypesBranch(o, p, ctx, name, branch, t).Some?
    ensures AnnotatedBranch(o, p, ctx, name, InferTypesBranch(o, p, ctx, name, branch, t).value)
    decreases branch, 0
  {
    hide CanonicalProgram, IsOrder;
    match branch
    case Branch(_, body) => InferAnnotates(o, p, [Argument(name, t)] + ctx, body);
  }

  lemma {:induction false} InferAnnotatesFields(o: Order, p: Program, ctx: Context, fields: seq<Field>)
    requires Known(o, p, ctx) && IsSourceFields(o, fields) && InferTypesFields(o, p, ctx, fields).Some?
    ensures var r := InferTypesFields(o, p, ctx, fields).value;
            AnnotatedFields(o, p, ctx, r) && (DistinctNames(fields) ==> DistinctNames(r)) && FieldNames(r) == FieldNames(fields)
    decreases fields, 0
  {
    hide CanonicalProgram, IsOrder, InferTypesField, AnnotatedField;
    if fields != [] {
      InferAnnotatesField(o, p, ctx, fields[0]);
      InferAnnotatesFields(o, p, ctx, fields[1..]);
      var r := InferTypesFields(o, p, ctx, fields).value;
      forall i | 0 <= i < |r| ensures r[i].name == fields[i].name {
        if i > 0 {
          assert FieldNames(r[1..])[i - 1] == FieldNames(fields[1..])[i - 1];
        }
      }
    }
  }

  lemma {:induction false} InferAnnotatesField(o: Order, p: Program, ctx: Context, field: Field)
    requires Known(o, p, ctx) && IsSourceField(o, field) && InferTypesField(o, p, ctx, field).Some?
    ensures AnnotatedField(o, p, ctx, InferTypesField(o, p, ctx, field).value)
    ensures InferTypesField(o, p, ctx, field).value.name == field.name
    decreases field, 0
  {
    hide CanonicalProgram, IsOrder;
    match field
    case Field(_, expression) => InferAnnotates(o, p, ctx, expression);
  }

  // ----- Insertion of coercions -----

  predicate SameSignature(d: Option<Definition>, d': Option<Definition>) {
    (d.Some? <==> d'.Some?) && (d.Some? ==> d'.value.arguments == d.value.arguments && d'.value.result == d.value.result)
  }

  /** Programs that differ in the bodies of functions only. */
  ghost predicate SameSignatures(p: Program, p': Program) {
    && p'.records == p.records && p'.foreigns == p.foreigns
    && forall name :: SameSignature(FindDefinition(p.functions, name), FindDefinition(p'.functions, name))
  }

  /** Functions whose results are variants that include errors: early returns yield variants. */
  predicate PassesVariants(result: Type) {
    CanFail(Some(result))
  }

  ghost predicate Accepted(o: Order, p: Program, p': Program, ctx: Context, ret: Type, e: Expression, t: Type) {
    && Known(o, p, ctx) && SameSignatures(p, p') && Annotated(o, p, ctx, e)
    && TriesReturn(PassesVariants, ret, e) && Check(o, p, ctx, e) == Some(t)
  }

  /** An expression that is typed, and that is checked and extracted to have that type. */
  ghost predicate Coerced(o: Order, p: Program, p': Program, ctx: Context, ret: Type, e: Option<Expression>, t: Type) {
    && e.Some? && Infer(p', ctx, Some(ret), e.value) == Some(t)
    && Extract(o, p, ctx, e.value) == Some(t) && Check(o, p, ctx, e.value) == Some(t)
  }

  /** Checking and extraction yield the same types. */
  lemma {:induction false} ChecksExtract(o: Order, p: Program, ctx: Context, e: Expression)
    requires Check(o, p, ctx, e).Some? && Annotated(o, p, ctx, e)
    ensures Extract(o, p, ctx, e) == Check(o, p, ctx, e)
    decreases e
  {
    hide Union, BranchesFit, FieldsFit, AllSubsumed;
    match e
    case Let(name, annotation, _, body) => ChecksExtract(o, p, BindName(ctx, name, annotation.value), body);
    case _ =>
  }

  lemma ChecksCanonical(o: Order, p: Program, ctx: Context, e: Expression)
    requires Known(o, p, ctx) && Check(o, p, ctx, e).Some? && Annotated(o, p, ctx, e)
    ensures Extract(o, p, ctx, e) == Check(o, p, ctx, e) && Canonical(o, Check(o, p, ctx, e).value)
  {
    hide Check, Extract, Annotated, Known;
    ChecksExtract(o, p, ctx, e);
    ExtractsCanonical(o, p, ctx, e);
  }

  lemma CoercesTo(o: Order, p: Program, p': Program, ctx: Context, ret: Type, e: Option<Expression>, lower: Type, upper: Type)
    requires Coerced(o, p, p', ctx, ret, e, lower) && Canonical(o, lower) && Canonical(o, upper) && IsSubsumed(lower, upper)
    ensures Coerced(o, p, p', ctx, ret, CoerceTo(o, p, ctx, e, upper), upper)
  {
    if lower != upper {
      SubsumedCoerces(o, lower, upper);
      hide CanCoerce, Canonical, IsSubsumed;
    }
  }

  lemma VariableIsTyped(o: Order, p: Program, p': Program, ctx: Context, ret: Type, e: Expression, t: Type)
    requires e.Variable? && Accepted(o, p, p', ctx, ret, e, t)
    ensures Coerced(o, p, p', ctx, ret, CoerceTypes(o, p, ctx, e), t)
  {
    hide CanonicalProgram, IsOrder;
    assert SameSignature(FindDefinition(p.functions, e.name), FindDefinition(p'.functions, e.name));
  }

  lemma IfIsTyped(o: Order, p: Program, p': Program, ctx: Context, ret: Type, c: Expression, a: Expression, b: Expression, t: Type)
    requires IsOrder(o) && Canonical(o, t) && Coerced(o, p, p', ctx, ret, Some(c), BooleanType)
    requires Coerced(o, p, p', ctx, ret, Some(a), t) && Coerced(o, p, p', ctx, ret, Some(b), t)
    ensures Coerced(o, p, p', ctx, ret, Some(If(c, a, b)), t)
  {
    hide IsOrder, Canonical, Union;
    UnionOfSame(o, [t, t], t);
  }

  /** The branches of a condition have types whose union is that of the condition. */
  lemma IfParts(o: Order, p: Program, p': Program, ctx: Context, ret: Type, e: Expression, t: Type)
    requires e.If? && Accepted(o, p, p', ctx, ret, e, t)
    ensures Accepted(o, p, p', ctx, ret, e.condition, BooleanType)
    ensures var a, b := Check(o, p, ctx, e.consequence), Check(o, p, ctx, e.alternative);
            && a.Some? && b.Some? && Accepted(o, p, p', ctx, ret, e.consequence, a.value) && Accepted(o, p, p', ctx, ret, e.alternative, b.value)
            && Canonical(o, a.value) && Canonical(o, b.value) && Canonical(o, t) && IsSubsumed(a.value, t) && IsSubsumed(b.value, t)
            && Extract(o, p, ctx, e) == Some(t)
  {
    hide CanonicalProgram, CanonicalArguments, IsOrder, Union, SameSignatures;
    FitsConcrete(Check(o, p, ctx, e.condition), BooleanType);
    var a, b := Check(o, p, ctx, e.consequence).value, Check(o, p, ctx, e.alternative).value;
    ChecksCanonical(o, p, ctx, e.consequence);
    ChecksCanonical(o, p, ctx, e.alternative);
    UnionFacts(o, [a, b]);
    assert IsSubsumed([a, b][0], t) && IsSubsumed([a, b][1], t);
  }

  lemma {:induction false} CoercesIf(o: Order, p: Program, p': Program, ctx: Context, ret: Type, e: Expression, t: Type)
    requires e.If? && Accepted(o, p, p', ctx, ret, e, t)
    ensures Coerced(o, p, p', ctx, ret, CoerceTypes(o, p, ctx, e), t)
    decreases e, 0
  {
    hide Check, Extract, Infer, Annotated, TriesReturn, SameSignatures, Canonical, IsSubsumed, CoerceTo, CanonicalProgram, CanonicalArguments, IsOrder;
    IfParts(o, p, p', ctx, ret, e, t);
    var a, b := Check(o, p, ctx, e.consequence).value, Check(o, p, ctx, e.alternative).value;
    Coerces(o, p, p', ctx, ret, e.condition, BooleanType);
    Coerces(o, p, p', ctx, ret, e.consequence, a);
    Coerces(o, p, p', ctx, ret, e.alternative, b);
    var a', b' := CoerceTypes(o, p, ctx, e.consequence), CoerceTypes(o, p, ctx, e.alternative);
    CoercesTo(o, p, p', ctx, ret, a', a, t);
    CoercesTo(o, p, p', ctx, ret, b', b, t);
    IfIsTyped(o, p, p', ctx, ret, CoerceTypes(o, p, ctx, e.condition).value, CoerceTo(o, p, ctx, a', t).value, CoerceTo(o, p, ctx, b', t).value, t);
  }

  lemma LetIsTyped(o: Order, p: Program, p': Program, ctx: Context, ret: Type, name: Option<string>, s: Type,
                   bound: Expression, body: Expression, t: Type)
    requires (name.Some? ==> IsUserName(name.value)) && Coerced(o, p, p', ctx, ret, Some(bound), s)
    requires Coerced(o, p, p', BindName(ctx, name, s), ret, Some(body), t)
    ensures Coerced(o, p, p', ctx, ret, Some(Let(name, Some(s), bound, body)), t)
  {
  }

  lemma LetParts(o: Order, p: Program, p': Program, ctx: Context, ret: Type, e: Expression, t: Type)
    requires e.Let? && Accepted(o, p, p', ctx, ret, e, t)
    ensures e.annotation.Some? && Accepted(o, p, p', ctx, ret, e.bound, e.annotation.value)
    ensures Accepted(o, p, p', BindName(ctx, e.bound_name, e.annotation.value), ret, e.body, t)
    ensures e.bound_name.Some? ==> IsUserName(e.bound_name.value)
  {
    hide CanonicalProgram, IsOrder, SameSignatures;
    ChecksCanonical(o, p, ctx, e.bound);
  }

  lemma {:induction false} CoercesLet(o: Order, p: Program, p': Program, ctx: Context, ret: Type, e: Expression, t: Type)
    requires e.Let? && Accepted(o, p, p', ctx, ret, e, t)
    ensures Coerced(o, p, p', ctx, ret, CoerceTypes(o, p, ctx, e), t)
    decreases e, 0
  {
    hide Accepted, Infer, Extract;
    LetParts(o, p, p', ctx, ret, e, t);
    var inner := BindName(ctx, e.bound_name, e.annotation.value);
    Coerces(o, p, p', ctx, ret, e.bound, e.annotation.value);
    Coerces(o, p, p', inner, ret, e.body, t);
    LetIsTyped(o, p, p', ctx, ret, e.bound_name, e.annotation.value, CoerceTypes(o, p, ctx, e.bound).value,
               CoerceTypes(o, p, inner, e.body).value, t);
  }

  lemma {:induction false} CoercesLambda(o: Order, p: Program, p': Program, ctx: Context, ret: Type, e: Expression, t: Type)
    requires e.Lambda? && Accepted(o, p, p', ctx, ret, e, t)
    ensures Coerced(o, p, p', ctx, ret, CoerceTypes(o, p, ctx, e), t)
    decreases e, 0
  {
    hide CanonicalProgram, IsOrder, SameSignatures, CoerceTo;
    var inner := BindTypes(ctx, e.arguments);
    BindIsCanonical(o, ctx, e.arguments);
    ChecksCanonical(o, p, inner, e.body);
    var s := Check(o, p, inner, e.body).value;
    Coerces(o, p, p', inner, e.result, e.body, s);
    CoercesTo(o, p, p', inner, e.result, CoerceTypes(o, p, inner, e.body), s, e.result);
  }

  lemma CallIsTyped(o: Order, p: Program, p': Program, ctx: Context, ret: Type, callee: Expression, operands: seq<Expression>,
                    arguments: seq<Type>, t: Type)
    requires Coerced(o, p, p', ctx, ret, Some(callee), FunctionType(arguments, t))
    requires InferAll(p', ctx, Some(ret), operands) == Some(arguments) && CheckAll(o, p, ctx, operands) == Some(arguments)
    ensures Coerced(o, p, p', ctx, ret, Some(Call(callee, operands)), t)
  {
    hide InferAll, CheckAll;
  }

  lemma CallParts(o: Order, p: Program, p': Program, ctx: Context, ret: Type, e: Expression, t: Type)
    requires e.Call? && Accepted(o, p, p', ctx, ret, e, t)
    ensures var f, types := Extract(o, p, ctx, e.callee), CheckAll(o, p, ctx, e.operands);
            && f.Some? && f.value.FunctionType? && f.value.result == t && AllCanonical(o, f.value.arguments)
            && Accepted(o, p, p', ctx, ret, e.callee, f.value)
            && types.Some? && AllSubsumed(types.value, f.value.arguments)
    ensures AnnotatedAll(o, p, ctx, e.operands) && AllReturn(PassesVariants, ret, e.operands)
  {
    hide CanonicalProgram, IsOrder, SameSignatures, CanonicalArguments, CheckAll, AnnotatedAll, AllReturn, AllSubsumed;
    ChecksCanonical(o, p, ctx, e.callee);
  }

  lemma {:induction false} CoercesCall(o: Order, p: Program, p': Program, ctx: Context, ret: Type, e: Expression, t: Type)
    requires e.Call? && Accepted(o, p, p', ctx, ret, e, t)
    ensures Coerced(o, p, p', ctx, ret, CoerceTypes(o, p, ctx, e), t)
    decreases e, 0
  {
    hide Check, Extract, Infer, InferAll, Annotated, TriesReturn, Known, SameSignatures, CheckAll, AnnotatedAll, AllReturn, AllSubsumed;
    CallParts(o, p, p', ctx, ret, e, t);
    var f := Extract(o, p, ctx, e.callee).value;
    Coerces(o, p, p', ctx, ret, e.callee, f);
    CoercesAll(o, p, p', ctx, ret, e.operands, CheckAll(o, p, ctx, e.operands).value, f.arguments);
    CallIsTyped(o, p, p', ctx, ret, CoerceTypes(o, p, ctx, e.callee).value, CoerceAll(o, p, ctx, e.operands, f.arguments).value, f.arguments, t);
  }

  lemma FirstOfAll(o: Order, p: Program, ctx: Context, ret: Type, es: seq<Expression>, types: seq<Type>, uppers: seq<Type>)
    requires es != [] && AnnotatedAll(o, p, ctx, es) && AllReturn(PassesVariants, ret, es)
    requires CheckAll(o, p, ctx, es) == Some(types) && AllSubsumed(types, uppers) && AllCanonical(o, uppers)
    ensures |types| == |uppers| == |es| && Annotated(o, p, ctx, es[0]) && TriesReturn(PassesVariants, ret, es[0])
    ensures Check(o, p, ctx, es[0]) == Some(types[0]) && IsSubsumed(types[0], uppers[0]) && Canonical(o, uppers[0])
  {
    hide Check, Annotated, TriesReturn, IsSubsumed, Canonical;
  }

  lemma RestOfAll(o: Order, p: Program, ctx: Context, ret: Type, es: seq<Expression>, types: seq<Type>, uppers: seq<Type>)
    requires es != [] && AnnotatedAll(o, p, ctx, es) && AllReturn(PassesVariants, ret, es)
    requires CheckAll(o, p, ctx, es) == Some(types) && AllSubsumed(types, uppers) && AllCanonical(o, uppers)
    ensures |types| == |uppers| == |es| && AnnotatedAll(o, p, ctx, es[1..]) && AllReturn(PassesVariants, ret, es[1..])
    ensures CheckAll(o, p, ctx, es[1..]) == Some(types[1..]) && AllSubsumed(types[1..], uppers[1..]) && AllCanonical(o, uppers[1..])
  {
    hide Check, Annotated, TriesReturn, IsSubsumed, Canonical;
  }

  lemma ConsInferred(o: Order, p: Program, p': Program, ctx: Context, ret: Type, e: Expression, es: seq<Expression>, t: Type, ts: seq<Type>)
    requires Coerced(o, p, p', ctx, ret, Some(e), t)
    requires InferAll(p', ctx, Some(ret), es) == Some(ts) && CheckAll(o, p, ctx, es) == Some(ts)
    ensures InferAll(p', ctx, Some(ret), [e] + es) == Some([t] + ts) && CheckAll(o, p, ctx, [e] + es) == Some([t] + ts)
  {
    hide Infer, Check, Extract;
    assert ([e] + es)[1..] == es;
  }

  lemma {:induction false} CoercesAll(o: Order, p: Program, p': Program, ctx: Context, ret: Type, es: seq<Expression>,
                                      types: seq<Type>, uppers: seq<Type>)
    requires Known(o, p, ctx) && SameSignatures(p, p') && AnnotatedAll(o, p, ctx, es) && AllReturn(PassesVariants, ret, es)
    requires CheckAll(o, p, ctx, es) == Some(types) && AllSubsumed(types, uppers) && AllCanonical(o, uppers)
    ensures CoerceAll(o, p, ctx, es, uppers).Some?
    ensures InferAll(p', ctx, Some(ret), CoerceAll(o, p, ctx, es, uppers).value) == Some(uppers)
    ensures CheckAll(o, p, ctx, CoerceAll(o, p, ctx, es, uppers).value) == Some(uppers)
    decreases es, 0
  {
    hide Check, CoerceTypes, CoerceTo, Extract, Infer, Annotated, TriesReturn, Known, SameSignatures, Canonical, IsSubsumed;
    if es != [] {
      FirstOfAll(o, p, ctx, ret, es, types, uppers);
      RestOfAll(o, p, ctx, ret, es, types, uppers);
      hide CheckAll, AnnotatedAll, AllReturn, AllSubsumed, AllCanonical, InferAll;
      ChecksCanonical(o, p, ctx, es[0]);
      Coerces(o, p, p', ctx, ret, es[0], types[0]);
      CoercesTo(o, p, p', ctx, ret, CoerceTypes(o, p, ctx, es[0]), types[0], uppers[0]);
      CoercesAll(o, p, p', ctx, ret, es[1..], types[1..], uppers[1..]);
      ConsInferred(o, p, p', ctx, ret, CoerceTo(o, p, ctx, CoerceTypes(o, p, ctx, es[0]), uppers[0]).value,
                   CoerceAll(o, p, ctx, es[1..], uppers[1..]).value, uppers[0], uppers[1..]);
      assert uppers == [uppers[0]] + uppers[1..];
    }
  }

  lemma {:induction false} CoercesUnary(o: Order, p: Program, p': Program, ctx: Context, ret: Type, e: Expression, t: Type)
    requires (e.Not? || e.Select?) && Accepted(o, p, p', ctx, ret, e, t)
    ensures Coerced(o, p, p', ctx, ret, CoerceTypes(o, p, ctx, e), t)
    decreases e, 0
  {
    hide CanonicalProgram, IsOrder, CanonicalArguments;
    var s := if e.Not? then BooleanType else RecordType(e.record_name.value);
    FitsConcrete(Check(o, p, ctx, e.argument), s);
    Coerces(o, p, p', ctx, ret, e.argument, s);
  }

  lemma BinaryParts(o: Order, p: Program, p': Program, ctx: Context, ret: Type, e: Expression, t: Type, s: Type)
    requires (e.And? || e.Or? || e.Numeric? || e.NotEqual?) && Accepted(o, p, p', ctx, ret, e, t)
    requires s == if e.And? || e.Or? then BooleanType else NumberType
    ensures Accepted(o, p, p', ctx, ret, e.left, s) && Accepted(o, p, p', ctx, ret, e.right, s)
    ensures t == if e.Numeric? && !IsComparison(e.operator) then NumberType else BooleanType
  {
    hide Known, SameSignatures;
    FitsConcrete(Check(o, p, ctx, e.left), s);
    FitsConcrete(Check(o, p, ctx, e.right), s);
  }

  lemma BinaryIsTyped(o: Order, p: Program, p': Program, ctx: Context, ret: Type, e: Expression, e': Expression, a: Expression, b: Expression, t: Type)
    requires (e.And? && e' == And(a, b)) || (e.Or? && e' == Or(a, b)) || (e.Numeric? && e' == Numeric(e.operator, a, b)) || (e.NotEqual? && e' == NotEqual(a, b))
    requires var s := if e.And? || e.Or? then BooleanType else NumberType;
             Coerced(o, p, p', ctx, ret, Some(a), s) && Coerced(o, p, p', ctx, ret, Some(b), s)
    requires t == if e.Numeric? && !IsComparison(e.operator) then NumberType else BooleanType
    ensures Coerced(o, p, p', ctx, ret, Some(e'), t)
  {
  }

  lemma {:induction false} CoercesBinary(o: Order, p: Program, p': Program, ctx: Context, ret: Type, e: Expression, t: Type)
    requires (e.And? || e.Or? || e.Numeric? || e.NotEqual?) && Accepted(o, p, p', ctx, ret, e, t)
    ensures Coerced(o, p, p', ctx, ret, CoerceTypes(o, p, ctx, e), t)
    decreases e, 0
  {
    hide Accepted, Infer, Extract;
    var s := if e.And? || e.Or? then BooleanType else NumberType;
    BinaryParts(o, p, p', ctx, ret, e, t, s);
    Coerces(o, p, p', ctx, ret, e.left, s);
    Coerces(o, p, p', ctx, ret, e.right, s);
    var a, b := CoerceTypes(o, p, ctx, e.left).value, CoerceTypes(o, p, ctx, e.right).value;
    BinaryIsTyped(o, p, p', ctx, ret, e, CoerceTypes(o, p, ctx, e).value, a, b, t);
  }

  lemma {:induction false} CoercesTry(o: Order, p: Program, p': Program, ctx: Context, ret: Type, e: Expression, t: Type)
    requires e.Try? && Accepted(o, p, p', ctx, ret, e, t)
    ensures Coerced(o, p, p', ctx, ret, CoerceTypes(o, p, ctx, e), t)
    decreases e, 0
  {
    hide CanonicalProgram, IsOrder, CanonicalArguments, SameSignatures, Union;
    ChecksCanonical(o, p, ctx, e.argument);
    var s := Check(o, p, ctx, e.argument).value;
    Coerces(o, p, p', ctx, ret, e.argument, s);
    DifferenceFacts(o, s, ErrorType);
    TryIsTyped(o, s, t);
  }

  lemma NoneButErrors()
    ensures Difference(ErrorType, ErrorType).None?
  {
    var members := Members(ErrorType);
    assert members[1..] == [];
  }

  /** The tested type is a union of errors and what is left without them. */
  lemma TryIsTyped(o: Order, s: Type, t: Type)
    requires IsOrder(o) && Canonical(o, s) && Canonical(o, t) && Difference(s, ErrorType) == Some(t) && !t.AnyType? && IsSubsumed(ErrorType, s)
    ensures s.UnionType? && IsTestable(t)
    ensures forall i :: 0 <= i < |s.members| ==> s.members[i] == ErrorType || s.members[i] in Members(t)
  {
    DifferenceFacts(o, s, ErrorType);
    NoneButErrors();
    forall i | 0 <= i < |s.members| ensures s.members[i] == ErrorType || s.members[i] in Members(t) {
      assert s.members[i] in Members(s);
    }
  }

  // ----- Records -----

  lemma FirstField(o: Order, p: Program, ctx: Context, ret: Type, record: string, fields: seq<Field>, types: seq<Type>)
    requires fields != [] && AnnotatedFields(o, p, ctx, fields) && FieldsReturn(PassesVariants, ret, fields)
    requires CheckFields(o, p, ctx, fields) == Some(types) && FieldsFit(p, record, FieldNames(fields), types)
    ensures AnnotatedField(o, p, ctx, fields[0]) && FieldReturns(PassesVariants, ret, fields[0])
    ensures CheckField(o, p, ctx, fields[0]) == Some(types[0]) && DeclaredType(p, record, fields[0].name).Some?
    ensures IsSubsumed(types[0], DeclaredType(p, record, fields[0].name).value)
  {
    hide CheckField, AnnotatedField, FieldReturns, IsSubsumed, DeclaredType;
    assert FieldNames(fields)[0] == fields[0].name;
  }

  lemma RestOfFields(o: Order, p: Program, ctx: Context, ret: Type, fields: seq<Field>, types: seq<Type>)
    requires fields != [] && AnnotatedFields(o, p, ctx, fields) && FieldsReturn(PassesVariants, ret, fields)
    requires CheckFields(o, p, ctx, fields) == Some(types)
    ensures AnnotatedFields(o, p, ctx, fields[1..]) && FieldsReturn(PassesVariants, ret, fields[1..])
    ensures CheckFields(o, p, ctx, fields[1..]) == Some(types[1..])
  {
    hide CheckField, AnnotatedField, FieldReturns;
  }

  lemma RestFits(p: Program, record: string, fields: seq<Field>, types: seq<Type>)
    requires fields != [] && |types| == |fields| && FieldsFit(p, record, FieldNames(fields), types)
    ensures FieldsFit(p, record, FieldNames(fields[1..]), types[1..])
  {
    hide IsSubsumed, DeclaredType;
    var rest := fields[1..];
    assert forall i :: 0 <= i < |rest| ==> FieldNames(rest)[i] == FieldNames(fields)[i + 1] && types[1..][i] == types[i + 1];
  }

  lemma {:induction false} CoercesFields(o: Order, p: Program, p': Program, ctx: Context, ret: Type, record: string,
                                         fields: seq<Field>, types: seq<Type>)
    requires Known(o, p, ctx) && SameSignatures(p, p') && AnnotatedFields(o, p, ctx, fields) && FieldsReturn(PassesVariants, ret, fields)
    requires CheckFields(o, p, ctx, fields) == Some(types) && FieldsFit(p, record, FieldNames(fields), types)
    ensures CoerceFields(o, p, ctx, record, fields).Some?
    ensures var r := CoerceFields(o, p, ctx, record, fields).value;
            FieldNames(r) == FieldNames(fields) && FieldsTyped(o, p, p', ctx, ret, record, r)
    decreases fields, 0
  {
    hide CheckField, CoerceField, InferField, AnnotatedField, FieldReturns, Known, SameSignatures, IsSubsumed, DeclaredType;
    if fields != [] {
      FirstField(o, p, ctx, ret, record, fields, types);
      RestOfFields(o, p, ctx, ret, fields, types);
      RestFits(p, record, fields, types);
      hide AnnotatedFields, FieldsReturn, CheckFields, FieldsFit, FieldsTyped;
      CoercesField(o, p, p', ctx, ret, record, fields[0], types[0]);
      CoercesFields(o, p, p', ctx, ret, record, fields[1..], types[1..]);
      var f := CoerceField(o, p, ctx, record, fields[0]).value;
      var fs := CoerceFields(o, p, ctx, record, fields[1..]).value;
      ConsNames(fields, f, fs);
      ConsTyped(o, p, p', ctx, ret, record, f, fs);
    }
  }

  lemma ConsNames(fields: seq<Field>, f: Field, fs: seq<Field>)
    requires fields != [] && f.name == fields[0].name && FieldNames(fs) == FieldNames(fields[1..])
    ensures FieldNames([f] + fs) == FieldNames(fields)
  {
    var r := [f] + fs;
    forall i | 0 <= i < |r| ensures r[i].name == fields[i].name {
      if i > 0 {
        assert FieldNames(fs)[i - 1] == FieldNames(fields[1..])[i - 1];
      }
    }
  }

  lemma ConsTyped(o: Order, p: Program, p': Program, ctx: Context, ret: Type, record: string, f: Field, fs: seq<Field>)
    requires DeclaredType(p, record, f.name).Some? && InferField(p', ctx, Some(ret), f) == DeclaredType(p, record, f.name)
    requires CheckField(o, p, ctx, f) == DeclaredType(p, record, f.name)
    requires FieldsTyped(o, p, p', ctx, ret, record, fs)
    ensures FieldsTyped(o, p, p', ctx, ret, record, [f] + fs)
  {
    hide InferField, CheckField, DeclaredType;
    assert ([f] + fs)[1..] == fs;
  }

  lemma {:induction false} CoercesField(o: Order, p: Program, p': Program, ctx: Context, ret: Type, record: string,
                                        field: Field, t: Type)
    requires Known(o, p, ctx) && SameSignatures(p, p') && AnnotatedField(o, p, ctx, field) && FieldReturns(PassesVariants, ret, field)
    requires CheckField(o, p, ctx, field) == Some(t)
    requires DeclaredType(p, record, field.name).Some? && IsSubsumed(t, DeclaredType(p, record, field.name).value)
    ensures var r := CoerceField(o, p, ctx, record, field);
            && r.Some? && r.value.name == field.name && InferField(p', ctx, Some(ret), r.value) == DeclaredType(p, record, field.name)
            && CheckField(o, p, ctx, r.value) == DeclaredType(p, record, field.name)
    decreases field, 0
  {
    hide Check, CoerceTypes, CoerceTo, Extract, Infer, Annotated, TriesReturn, SameSignatures, Canonical, IsSubsumed, IsOrder, CanonicalArguments;
    match field
    case Field(name, expression) =>
      var upper := DeclaredType(p, record, name).value;
      DeclaredIsCanonical(o, p, record, name);
      ChecksCanonical(o, p, ctx, expression);
      Coerces(o, p, p', ctx, ret, expression, t);
      CoercesTo(o, p, p', ctx, ret, CoerceTypes(o, p, ctx, expression), t, upper);
  }

  /** A record whose fields have their declared types. */
  lemma ConstructIsTyped(o: Order, p: Program, p': Program, ctx: Context, ret: Type, record: string, fields: seq<Field>)
    requires CanonicalProgram(o, p) && SameSignatures(p, p') && FindRecord(p.records, record).Some? && DistinctNames(fields)
    requires FieldsTyped(o, p, p', ctx, ret, record, fields)
    requires var declared := FindRecord(p.records, record).value; forall i :: 0 <= i < |declared| ==> declared[i].name in FieldNames(fields)
    ensures Coerced(o, p, p', ctx, ret, Some(Construct(record, fields)), RecordType(record))
  {
    var declared := FindRecord(p.records, record).value;
    FindRecordIsCanonical(o, p.records, record);
    var types := InferFields(p', ctx, Some(ret), fields).value;
    hide CanonicalProgram, InferFields, CheckFields;
    FieldsGiveAll(p, record, fields, types);
    FieldsGiven(p, record, fields, types);
    hide GivesAll, DistinctFields, FieldsFit;
  }

  lemma FieldsGiven(p: Program, record: string, fields: seq<Field>, types: seq<Type>)
    requires |types| == |fields| && forall i :: 0 <= i < |fields| ==> DeclaredType(p, record, fields[i].name) == Some(types[i])
    ensures FieldsFit(p, record, FieldNames(fields), types)
  {
    hide DeclaredType;
    assert forall i :: 0 <= i < |fields| ==> FieldNames(fields)[i] == fields[i].name;
  }

  lemma FieldsGiveAll(p: Program, record: string, fields: seq<Field>, types: seq<Type>)
    requires FindRecord(p.records, record).Some? && DistinctNames(fields) && |types| == |fields|
    requires forall i :: 0 <= i < |fields| ==> DeclaredType(p, record, fields[i].name) == Some(types[i])
    requires var declared := FindRecord(p.records, record).value;
             DistinctFields(declared) && forall i :: 0 <= i < |declared| ==> declared[i].name in FieldNames(fields)
    ensures GivesAll(FindRecord(p.records, record).value, FieldNames(fields), types)
  {
    var declared, names := FindRecord(p.records, record).value, FieldNames(fields);
    assert forall i :: 0 <= i < |fields| ==> names[i] == fields[i].name;
    forall i | 0 <= i < |names|
      ensures FieldIndex(declared, names[i]).Some? && declared[FieldIndex(declared, names[i]).value].type_ == types[i]
    {
      assert DeclaredType(p, record, fields[i].name) == Some(types[i]);
    }
    SameCount(declared, names);
  }

  ghost predicate FieldsTyped(o: Order, p: Program, p': Program, ctx: Context, ret: Type, record: string, fields: seq<Field>) {
    && InferFields(p', ctx, Some(ret), fields).Some? && CheckFields(o, p, ctx, fields) == InferFields(p', ctx, Some(ret), fields)
    && forall i :: 0 <= i < |fields| ==> DeclaredType(p, record, fields[i].name) == Some(InferFields(p', ctx, Some(ret), fields).value[i])
  }

  lemma UpdateIsTyped(o: Order, p: Program, p': Program, ctx: Context, ret: Type, record: string, argument: Expression, fields: seq<Field>)
    requires SameSignatures(p, p') && FindRecord(p.records, record).Some? && FieldsTyped(o, p, p', ctx, ret, record, fields)
    requires Coerced(o, p, p', ctx, ret, Some(argument), RecordType(record))
    ensures Coerced(o, p, p', ctx, ret, Some(Update(record, argument, fields)), RecordType(record))
  {
    FieldsGiven(p, record, fields, InferFields(p', ctx, Some(ret), fields).value);
    hide InferFields, CheckFields, FieldsFit;
  }

  lemma {:induction false} CoercesRecord(o: Order, p: Program, p': Program, ctx: Context, ret: Type, e: Expression, t: Type)
    requires (e.Construct? || e.Update?) && Accepted(o, p, p', ctx, ret, e, t)
    ensures Coerced(o, p, p', ctx, ret, CoerceTypes(o, p, ctx, e), t)
    decreases e, 0
  {
    hide IsOrder, CanonicalProgram, CanonicalArguments, SameSignatures, FieldsFit, CheckFields, CoerceFields, Infer, Extract, InferFields,
         AnnotatedFields, FieldsReturn, DistinctNames, DeclaredType;
    var types := CheckFields(o, p, ctx, e.fields).value;
    CoercesFields(o, p, p', ctx, ret, e.record, e.fields, types);
    var r := CoerceFields(o, p, ctx, e.record, e.fields).value;
    SameNames(e.fields, r);
    if e.Construct? {
      ConstructIsTyped(o, p, p', ctx, ret, e.record, r);
    } else {
      FitsConcrete(Check(o, p, ctx, e.argument), RecordType(e.record));
      Coerces(o, p, p', ctx, ret, e.argument, RecordType(e.record));
      UpdateIsTyped(o, p, p', ctx, ret, e.record, CoerceTypes(o, p, ctx, e.argument).value, r);
    }
  }

  lemma SameNames(fields: seq<Field>, fields': seq<Field>)
    requires FieldNames(fields) == FieldNames(fields')
    ensures DistinctNames(fields) <==> DistinctNames(fields')
  {
    assert forall i :: 0 <= i < |fields| ==> FieldNames(fields)[i] == fields[i].name && FieldNames(fields')[i] == fields'[i].name;
  }

  function NameSet(names: seq<string>): set<string> {
    set i | 0 <= i < |names| :: names[i]
  }

  lemma {:induction false} DistinctCount(names: seq<string>)
    requires forall i, j :: 0 <= i < j < |names| ==> names[i] != names[j]
    ensures |NameSet(names)| == |names|
  {
    if names != [] {
      var n := |names| - 1;
      DistinctCount(names[..n]);
      assert NameSet(names) == NameSet(names[..n]) + {names[n]};
      assert names[n] !in NameSet(names[..n]);
    }
  }

  /** Fields that are given once each, and all of them, are as many as are declared. */
  lemma SameCount(declared: seq<FieldType>, names: seq<string>)
    requires DistinctFields(declared) && (forall i, j :: 0 <= i < j < |names| ==> names[i] != names[j])
    requires forall i :: 0 <= i < |declared| ==> declared[i].name in names
    requires forall i :: 0 <= i < |names| ==> FieldIndex(declared, names[i]).Some?
    ensures |names| == |declared|
  {
    var all := seq(|declared|, i requires 0 <= i < |declared| => declared[i].name);
    DistinctCount(all);
    DistinctCount(names);
    SameNameSets(declared, names, all);
    hide NameSet;
  }

  lemma SameNameSets(declared: seq<FieldType>, names: seq<string>, all: seq<string>)
    requires |all| == |declared| && forall i :: 0 <= i < |declared| ==> all[i] == declared[i].name && declared[i].name in names
    requires forall i :: 0 <= i < |names| ==> FieldIndex(declared, names[i]).Some?
    ensures NameSet(all) == NameSet(names)
  {
    forall x | x in NameSet(names) ensures x in NameSet(all) {
      var i :| 0 <= i < |names| && names[i] == x;
      assert all[FieldIndex(declared, names[i]).value] == x;
    }
  }

  // ----- Type tests -----

  lemma {:induction false} CoercesBranches(o: Order, p: Program, p': Program, ctx: Context, ret: Type, name: string,
                                           branches: seq<Branch>, types: seq<Type>, upper: Type)
    requires Known(o, p, ctx) && SameSignatures(p, p') && Canonical(o, upper)
    requires AnnotatedBranches(o, p, ctx, name, branches) && BranchesReturn(PassesVariants, ret, branches)
    requires forall i :: 0 <= i < |branches| ==> branches[i].annotation.Some? && IsTestable(branches[i].annotation.value)
    requires CheckBranches(o, p, ctx, name, branches) && ExtractBranches(o, p, ctx, name, branches) == Some(types)
    requires forall i :: 0 <= i < |types| ==> IsSubsumed(types[i], upper)
    ensures CoerceBranches(o, p, ctx, name, branches, upper).Some?
    ensures var r := CoerceBranches(o, p, ctx, name, branches, upper).value;
            && (forall i :: 0 <= i < |branches| ==> r[i].annotation == branches[i].annotation)
            && InferBranches(p', ctx, Some(ret), name, r).Some? && AllAre(InferBranches(p', ctx, Some(ret), name, r).value, upper)
            && ExtractBranches(o, p, ctx, name, r).Some? && AllAre(ExtractBranches(o, p, ctx, name, r).value, upper)
            && CheckBranches(o, p, ctx, name, r)
    decreases branches, 0
  {
    hide CheckBranch, CoerceBranch, InferBranch, ExtractBranch, AnnotatedBranch, BranchReturns, Known, SameSignatures, Canonical,
         IsSubsumed, IsTestable;
    if branches != [] {
      CoercesBranch(o, p, p', ctx, ret, name, branches[0], types[0], upper);
      CoercesBranches(o, p, p', ctx, ret, name, branches[1..], types[1..], upper);
      var r := CoerceBranches(o, p, ctx, name, branches, upper).value;
      assert r[1..] == CoerceBranches(o, p, ctx, name, branches[1..], upper).value;
    }
  }

  lemma {:induction false} CoercesBranch(o: Order, p: Program, p': Program, ctx: Context, ret: Type, name: string,
                                         branch: Branch, t: Type, upper: Type)
    requires Known(o, p, ctx) && SameSignatures(p, p') && Canonical(o, upper)
    requires AnnotatedBranch(o, p, ctx, name, branch) && BranchReturns(PassesVariants, ret, branch)
    requires CheckBranch(o, p, ctx, name, branch) && ExtractBranch(o, p, ctx, name, branch) == Some(t) && IsSubsumed(t, upper)
    ensures var r := CoerceBranch(o, p, ctx, name, branch, upper);
            && r.Some? && r.value.annotation == branch.annotation && branch.annotation.Some?
            && InferBranch(p', ctx, Some(ret), name, r.value) == Some(upper) && ExtractBranch(o, p, ctx, name, r.value) == Some(upper)
            && CheckBranch(o, p, ctx, name, r.value)
    decreases branch, 0
  {
    hide Check, CoerceTypes, CoerceTo, Extract, Infer, Annotated, TriesReturn, SameSignatures, Canonical, IsSubsumed, IsOrder;
    match branch
    case Branch(Some(s), body) =>
      var inner := [Argument(name, s)] + ctx;
      ChecksCanonical(o, p, inner, body);
      Coerces(o, p, p', inner, ret, body, t);
      CoercesTo(o, p, p', inner, ret, CoerceTypes(o, p, inner, body), t, upper);
  }

  lemma NoAnnotations(o: Order, branches: seq<Branch>)
    requires branches == []
    ensures Union(o, AnnotationTypes(branches)).None?
  {
    assert AnnotationTypes(branches) == [];
    NoneOfNothing(o);
  }

  /** Branches that cover a type: every member is tested for, or is of the type of the else branch. */
  lemma BranchesCover(o: Order, t: Type, branches: seq<Branch>, otherwise: Option<Branch>)
    requires IsOrder(o) && Canonical(o, t) && BranchesFit(o, t, branches, otherwise)
    requires AllCanonical(o, AnnotationTypes(branches))
    requires otherwise.Some? ==>
               && Union(o, AnnotationTypes(branches)).Some? && otherwise.value.annotation.Some?
               && otherwise.value.annotation == Difference(t, Union(o, AnnotationTypes(branches)).value)
    ensures Covers(t, branches, otherwise)
  {
    var types := AnnotationTypes(branches);
    if branches == [] {
      NoAnnotations(o, branches);
      assert false;
    }
    UnionFacts(o, types);
    var ruledOut := Union(o, types).value;
    assert AnyType !in types;
    DifferenceFacts(o, t, ruledOut);
    hide Union, Difference, Canonical;
    if t.UnionType? {
      forall i | 0 <= i < |t.members|
        ensures SelectBranch(branches, t.members[i]) < |branches| || (otherwise.Some? && AcceptsBranch(otherwise.value, t.members[i]))
      {
        var x := t.members[i];
        assert x in Members(t);
        if x in Members(ruledOut) {
          assert IsMember(x, types);
          var j :| 0 <= j < |types| && x in Members(types[j]);
          assert branches[j].annotation == Some(types[j]) && Accepts(types[j], x);
        }
      }
    }
  }

  /** Covering depends on what branches test for only. */
  lemma CoverSame(t: Type, branches: seq<Branch>, otherwise: Option<Branch>, branches': seq<Branch>, otherwise': Option<Branch>)
    requires Covers(t, branches, otherwise) && |branches'| == |branches|
    requires forall i :: 0 <= i < |branches| ==> branches'[i].annotation == branches[i].annotation
    requires if otherwise.Some? then otherwise'.Some? && otherwise'.value.annotation == otherwise.value.annotation else otherwise'.None?
    ensures Covers(t, branches', otherwise')
    ensures forall o :: BranchesFit(o, t, branches, otherwise) ==> BranchesFit(o, t, branches', otherwise')
  {
    assert AnnotationTypes(branches') == AnnotationTypes(branches);
    hide Union, IsSubsumed;
    if t.UnionType? {
      forall i | 0 <= i < |t.members| && SelectBranch(branches, t.members[i]) < |branches|
        ensures SelectBranch(branches', t.members[i]) < |branches'|
      {
        var j := SelectBranch(branches, t.members[i]);
        assert Accepts(branches'[j].annotation.value, t.members[i]);
      }
    }
  }

  lemma CanonicalIsTestable(o: Order, t: Type)
    requires Canonical(o, t)
    ensures t.AnyType? || IsTestable(t)
  {
  }

  /** An else branch, if there is one. */
  lemma {:induction false} CoercesElse(o: Order, p: Program, p': Program, ctx: Context, ret: Type, name: string,
                                       otherwise: Option<Branch>, types: seq<Type>, upper: Type)
    requires Known(o, p, ctx) && SameSignatures(p, p') && Canonical(o, upper)
    requires otherwise.Some? ==> AnnotatedBranch(o, p, ctx, name, otherwise.value) && BranchReturns(PassesVariants, ret, otherwise.value)
    requires CheckElse(o, p, ctx, name, otherwise) && ExtractElse(o, p, ctx, name, otherwise) == Some(types)
    requires forall i :: 0 <= i < |types| ==> IsSubsumed(types[i], upper)
    ensures CoerceElse(o, p, ctx, name, otherwise, upper).Some?
    ensures var r := CoerceElse(o, p, ctx, name, otherwise, upper).value;
            && (r.Some? <==> otherwise.Some?) && (r.Some? ==> r.value.annotation == otherwise.value.annotation)
            && InferElse(p', ctx, Some(ret), name, r) == ExtractElse(o, p, ctx, name, r)
            && InferElse(p', ctx, Some(ret), name, r) == Some(if r.Some? then [upper] else []) && CheckElse(o, p, ctx, name, r)
    decreases otherwise, 0
  {
    match otherwise
    case None =>
    case Some(branch) =>
      CoercesBranch(o, p, p', ctx, ret, name, branch, types[0], upper);
      CanonicalIsTestable(o, branch.annotation.value);
      hide CheckBranch, CoerceBranch, InferBranch, ExtractBranch, BranchReturns, Known, SameSignatures, Canonical, IsSubsumed, IsTestable;
  }

  /** The branches of a type test cover the tested type, and have types whose union is that of the test. */
  lemma IfTypeParts(o: Order, p: Program, p': Program, ctx: Context, ret: Type, e: Expression, t: Type)
    requires e.IfType? && Accepted(o, p, p', ctx, ret, e, t)
    ensures Canonical(o, t) && Extract(o, p, ctx, e) == Some(t) && IsUserName(e.name)
    ensures var s := Check(o, p, ctx, e.argument);
            && s.Some? && Accepted(o, p, p', ctx, ret, e.argument, s.value) && Covers(s.value, e.branches, e.otherwise)
            && BranchesFit(o, s.value, e.branches, e.otherwise)
    ensures var types, elses := ExtractBranches(o, p, ctx, e.name, e.branches), ExtractElse(o, p, ctx, e.name, e.otherwise);
            && types.Some? && elses.Some? && (e.branches != [] || e.otherwise.Some?)
            && (forall i :: 0 <= i < |types.value| ==> IsSubsumed(types.value[i], t))
            && (forall i :: 0 <= i < |elses.value| ==> IsSubsumed(elses.value[i], t))
    ensures forall i :: 0 <= i < |e.branches| ==> e.branches[i].annotation.Some? && IsTestable(e.branches[i].annotation.value)
  {
    hide CanonicalProgram, IsOrder, CanonicalArguments, SameSignatures, Union;
    var s := Check(o, p, ctx, e.argument).value;
    ChecksCanonical(o, p, ctx, e.argument);
    ChecksCanonical(o, p, ctx, e);
    var types := ExtractBranches(o, p, ctx, e.name, e.branches).value;
    var elses := ExtractElse(o, p, ctx, e.name, e.otherwise).value;
    BranchesCanonical(o, p, ctx, e.name, e.branches);
    if e.otherwise.Some? {
      BranchCanonical(o, p, ctx, e.name, e.otherwise.value);
    }
    AllUnited(o, types, elses, t);
    forall i | 0 <= i < |e.branches| ensures IsTestable(e.branches[i].annotation.value) && Canonical(o, AnnotationTypes(e.branches)[i]) {
      assert AnnotatedBranch(o, p, ctx, e.name, e.branches[i]);
      CanonicalIsTestable(o, e.branches[i].annotation.value);
    }
    hide Extract, Annotated, Check, ExtractBranches, ExtractElse;
    BranchesCover(o, s, e.branches, e.otherwise);
  }

  lemma NoneOfNeither(o: Order, types: seq<Type>, elses: seq<Type>)
    requires types == [] && elses == []
    ensures Union(o, types + elses).None?
  {
    assert types + elses == [];
    NoneOfNothing(o);
  }

  lemma AllUnited(o: Order, types: seq<Type>, elses: seq<Type>, t: Type)
    requires IsOrder(o) && AllCanonical(o, types) && AllCanonical(o, elses) && Union(o, types + elses) == Some(t)
    ensures (forall i :: 0 <= i < |types| ==> IsSubsumed(types[i], t)) && forall i :: 0 <= i < |elses| ==> IsSubsumed(elses[i], t)
    ensures types != [] || elses != []
  {
    if types == [] && elses == [] {
      NoneOfNeither(o, types, elses);
      assert false;
    } else {
      hide Union, IsSubsumed, Canonical, IsOrder;
      UnionFacts(o, types + elses);
      forall i | 0 <= i < |types| ensures IsSubsumed(types[i], t) {
        assert (types + elses)[i] == types[i];
      }
      forall i | 0 <= i < |elses| ensures IsSubsumed(elses[i], t) {
        assert (types + elses)[|types| + i] == elses[i];
      }
    }
  }

  lemma IfTypeRest(o: Order, p: Program, p': Program, ctx: Context, ret: Type, e: Expression, t: Type)
    requires e.IfType? && Accepted(o, p, p', ctx, ret, e, t)
    ensures Known(o, p, ctx) && SameSignatures(p, p')
    ensures AnnotatedBranches(o, p, ctx, e.name, e.branches) && BranchesReturn(PassesVariants, ret, e.branches)
    ensures CheckBranches(o, p, ctx, e.name, e.branches) && CheckElse(o, p, ctx, e.name, e.otherwise)
    ensures e.otherwise.Some? ==> AnnotatedBranch(o, p, ctx, e.name, e.otherwise.value) && BranchReturns(PassesVariants, ret, e.otherwise.value)
  {
    hide Known, SameSignatures, AnnotatedBranches, BranchesReturn, CheckBranches, CheckElse, Extract, BranchesFit;
  }

  lemma IfTypeCoerced(o: Order, p: Program, ctx: Context, e: Expression, t: Type, argument: Expression, branches: seq<Branch>, otherwise: Option<Branch>)
    requires e.IfType? && Extract(o, p, ctx, e) == Some(t) && CoerceTypes(o, p, ctx, e.argument) == Some(argument)
    requires CoerceBranches(o, p, ctx, e.name, e.branches, t) == Some(branches)
    requires CoerceElse(o, p, ctx, e.name, e.otherwise, t) == Some(otherwise)
    ensures CoerceTypes(o, p, ctx, e) == Some(IfType(e.name, argument, branches, otherwise))
  {
    hide Extract, CoerceBranches, CoerceElse;
  }

  lemma {:induction false} CoercesIfType(o: Order, p: Program, p': Program, ctx: Context, ret: Type, e: Expression, t: Type)
    requires e.IfType? && Accepted(o, p, p', ctx, ret, e, t)
    ensures Coerced(o, p, p', ctx, ret, CoerceTypes(o, p, ctx, e), t)
    decreases e, 0
  {
    IfTypeParts(o, p, p', ctx, ret, e, t);
    IfTypeRest(o, p, p', ctx, ret, e, t);
    assert IsOrder(o);
    hide Accepted, Infer, Extract, Known, SameSignatures, Canonical, IsSubsumed, Covers, IsTestable, CheckBranches, CheckElse, BranchesFit,
         AnnotatedBranches, AnnotatedBranch, BranchesReturn, BranchReturns, CoerceBranches, CoerceElse, ExtractBranches, ExtractElse,
         InferBranches, InferElse, IsOrder, Check, CoerceTypes;
    var s := Check(o, p, ctx, e.argument).value;
    Coerces(o, p, p', ctx, ret, e.argument, s);
    var types := ExtractBranches(o, p, ctx, e.name, e.branches).value;
    var elses := ExtractElse(o, p, ctx, e.name, e.otherwise).value;
    CoercesBranches(o, p, p', ctx, ret, e.name, e.branches, types, t);
    CoercesElse(o, p, p', ctx, ret, e.name, e.otherwise, elses, t);
    var argument := CoerceTypes(o, p, ctx, e.argument).value;
    var branches := CoerceBranches(o, p, ctx, e.name, e.branches, t).value;
    var otherwise := CoerceElse(o, p, ctx, e.name, e.otherwise, t).value;
    CoverSame(s, e.branches, e.otherwise, branches, otherwise);
    IfTypeCoerced(o, p, ctx, e, t, argument, branches, otherwise);
    IfTypeIsTyped(o, p, p', ctx, ret, e.name, argument, branches, otherwise, s, t);
  }

  lemma IfTypeIsTyped(o: Order, p: Program, p': Program, ctx: Context, ret: Type, name: string, argument: Expression,
                      branches: seq<Branch>, otherwise: Option<Branch>, s: Type, t: Type)
    requires IsOrder(o) && Canonical(o, t) && IsUserName(name) && Coerced(o, p, p', ctx, ret, Some(argument), s)
    requires BranchesFit(o, s, branches, otherwise) && CheckBranches(o, p, ctx, name, branches) && CheckElse(o, p, ctx, name, otherwise)
    requires Covers(s, branches, otherwise) && (branches != [] || otherwise.Some?)
    requires InferBranches(p', ctx, Some(ret), name, branches).Some? && AllAre(InferBranches(p', ctx, Some(ret), name, branches).value, t)
    requires ExtractBranches(o, p, ctx, name, branches).Some? && AllAre(ExtractBranches(o, p, ctx, name, branches).value, t)
    requires InferElse(p', ctx, Some(ret), name, otherwise) == ExtractElse(o, p, ctx, name, otherwise)
    requires InferElse(p', ctx, Some(ret), name, otherwise) == Some(if otherwise.Some? then [t] else [])
    ensures Coerced(o, p, p', ctx, ret, Some(IfType(name, argument, branches, otherwise)), t)
  {
    hide Covers, IsOrder, Canonical, Union, InferBranches, ExtractBranches, InferElse, ExtractElse, BranchesFit, CheckBranches, CheckElse;
    var types, elses := ExtractBranches(o, p, ctx, name, branches).value, ExtractElse(o, p, ctx, name, otherwise).value;
    UnionOfSame(o, types + elses, t);
    var all := elses + InferBranches(p', ctx, Some(ret), name, branches).value;
    assert all != [] && AllAre(all, t) && all[0] == t;
    IfTypeInfers(p', ctx, ret, name, argument, branches, otherwise, s, t);
  }

  lemma IfTypeInfers(p: Program, ctx: Context, ret: Type, name: string, argument: Expression,
                     branches: seq<Branch>, otherwise: Option<Branch>, s: Type, t: Type)
    requires IsUserName(name) && Infer(p, ctx, Some(ret), argument) == Some(s) && Covers(s, branches, otherwise)
    requires InferBranches(p, ctx, Some(ret), name, branches).Some? && InferElse(p, ctx, Some(ret), name, otherwise).Some?
    requires var all := InferElse(p, ctx, Some(ret), name, otherwise).value + InferBranches(p, ctx, Some(ret), name, branches).value;
             all != [] && AllAre(all, t) && all[0] == t
    ensures Infer(p, ctx, Some(ret), IfType(name, argument, branches, otherwise)) == Some(t)
  {
    hide Covers, InferBranches, InferElse;
  }

  lemma {:induction false} Coerces(o: Order, p: Program, p': Program, ctx: Context, ret: Type, e: Expression, t: Type)
    requires Accepted(o, p, p', ctx, ret, e, t)
    ensures Coerced(o, p, p', ctx, ret, CoerceTypes(o, p, ctx, e), t)
    decreases e, 1
  {
    match e {
      case Constant(_) =>
      case Variable(_) => VariableIsTyped(o, p, p', ctx, ret, e, t);
      case If(_, _, _) => CoercesIf(o, p, p', ctx, ret, e, t);
      case Let(_, _, _, _) => CoercesLet(o, p, p', ctx, ret, e, t);
      case Lambda(_, _, _) => CoercesLambda(o, p, p', ctx, ret, e, t);
      case Call(_, _) => CoercesCall(o, p, p', ctx, ret, e, t);
      case IfType(_, _, _, _) => CoercesIfType(o, p, p', ctx, ret, e, t);
      case Coerce(_, _, _) =>
      case Construct(_, _) => CoercesRecord(o, p, p', ctx, ret, e, t);
      case Select(_, _, _) => CoercesUnary(o, p, p', ctx, ret, e, t);
      case Update(_, _, _) => CoercesRecord(o, p, p', ctx, ret, e, t);
      case Not(_) => CoercesUnary(o, p, p', ctx, ret, e, t);
      case And(_, _) => CoercesBinary(o, p, p', ctx, ret, e, t);
      case Or(_, _) => CoercesBinary(o, p, p', ctx, ret, e, t);
      case Numeric(_, _, _) => CoercesBinary(o, p, p', ctx, ret, e, t);
      case NotEqual(_, _) => CoercesBinary(o, p, p', ctx, ret, e, t);
      case Try(_, _) => CoercesTry(o, p, p', ctx, ret, e, t);
    }
  }
}
