/** What parsing makes of a printed expression, and when that is the expression itself. */
module SyntaxTheorems {
  import opened Sums
  import opened Operators
  import opened Syntax

  // ----- The syntax of a printed expression -----

  function Single(o: Operand): Operations {
    Operations(o, [])
  }

  function Join(a: Operations, operator: Operator, b: Operations): Operations {
    Operations(a.first, a.rest + [Operation(operator, b.first)] + b.rest)
  }

  /** A prefix operator written before operations only applies to the first operand. */
  function Prefixed(s: Operations): Operations {
    Operations(Bang(s.first), s.rest)
  }

  /** A suffix operator written after an operand applies to it before its prefix operators do. */
  function Attach(o: Operand, suffix: Suffix): Operand {
    if o.Bang? then Bang(Attach(o.operand, suffix)) else Suffixed(o, suffix)
  }

  /** A suffix operator written after operations only applies to the last operand. */
  function Followed(s: Operations, suffix: Suffix): Operations {
    if s.rest == [] then Single(Attach(s.first, suffix))
    else
      var last := s.rest[|s.rest| - 1];
      Operations(s.first, s.rest[..|s.rest| - 1] + [Operation(last.operator, Attach(last.operand, suffix))])
  }

  /** What the parser reads when an expression has been printed. */
  function Arrange(e: Expression): Operations
    decreases e, 0
  {
    match e
    case Atom(name) => Single(Name(name))
    case Binary(operator, left, right) => Join(ArrangeOperand(left, operator), operator, ArrangeOperand(right, operator))
    case Not(operand) => Prefixed(ArrangeUnary(operand))
    case Try(operand) => Followed(ArrangeUnary(operand), Question)
    case Field(record, name) => Followed(Arrange(record), Dot(name))
    case Call(callee, arguments) => Followed(Arrange(callee), Arguments(ArrangeAll(arguments)))
  }

  function ArrangeUnary(operand: Expression): Operations
    decreases operand, 1
  {
    if operand.Binary? then Single(Paren(Arrange(operand))) else Arrange(operand)
  }

  function ArrangeOperand(operand: Expression, parent: Operator): Operations
    decreases operand, 1
  {
    if NeedsParens(operand, parent) then Single(Paren(Arrange(operand))) else Arrange(operand)
  }

  function ArrangeAll(es: seq<Expression>): (r: seq<Operations>)
    ensures |r| == |es| && forall i :: 0 <= i < |es| ==> r[i] == Arrange(es[i])
    decreases es, 0
  {
    if es == [] then []
    else
      assert forall i :: 0 < i < |es| ==> es[i] == es[1..][i - 1];
      [Arrange(es[0])] + ArrangeAll(es[1..])
  }

  lemma {:induction false} SpellPairsConcat(a: seq<Operation>, b: seq<Operation>)
    ensures SpellPairs(a + b) == SpellPairs(a) + SpellPairs(b)
  {
    hide SpellOperation, SpellOperand;
    if a == [] {
      assert a + b == b;
    } else {
      SpellPairsConcat(a[1..], b);
      assert (a + b)[0] == a[0] && (a + b)[1..] == a[1..] + b;
      assert SpellPairs(a + b) == SpellOperation(a[0]) + SpellPairs(a[1..] + b);
    }
  }

  lemma SpellPairsOne(o: Operation)
    ensures SpellPairs([o]) == [OperatorToken(o.operator)] + SpellOperand(o.operand)
  {
    assert [o][1..] == [];
  }

  lemma SpellJoin(a: Operations, operator: Operator, b: Operations)
    ensures Spell(Join(a, operator, b)) == Spell(a) + [OperatorToken(operator)] + Spell(b)
  {
    var o := Operation(operator, b.first);
    SpellPairsConcat(a.rest + [o], b.rest);
    SpellPairsConcat(a.rest, [o]);
    SpellPairsOne(o);
    hide SpellOperand, SpellPairs;
  }

  lemma {:induction false} SpellAttach(o: Operand, suffix: Suffix)
    ensures SpellOperand(Attach(o, suffix)) == SpellOperand(o) + SpellSuffix(suffix)
  {
    hide SpellSuffix;
    if o.Bang? {
      SpellAttach(o.operand, suffix);
    }
  }

  lemma SpellFollowed(s: Operations, suffix: Suffix)
    ensures Spell(Followed(s, suffix)) == Spell(s) + SpellSuffix(suffix)
  {
    hide SpellOperand, SpellSuffix;
    if s.rest == [] {
      SpellAttach(s.first, suffix);
    } else {
      var init, last := s.rest[..|s.rest| - 1], s.rest[|s.rest| - 1];
      var last' := Operation(last.operator, Attach(last.operand, suffix));
      assert s.rest == init + [last];
      SpellPairsConcat(init, [last]);
      SpellPairsConcat(init, [last']);
      SpellPairsOne(last);
      SpellPairsOne(last');
      SpellAttach(last.operand, suffix);
      hide SpellPairs;
    }
  }

  lemma SpellParen(s: Operations)
    ensures Spell(Single(Paren(s))) == Enclosed(Spell(s))
  {
  }

  lemma SpellPrefixed(s: Operations)
    ensures Spell(Prefixed(s)) == [BangToken] + Spell(s)
  {
    hide SpellPairs;
  }

  /** The formatter prints what is arranged. */
  lemma {:induction false} PrintsArranged(e: Expression)
    ensures Print(e) == Spell(Arrange(e)) && WellFormed(Arrange(e))
    decreases e, 0
  {
    match e
    case Atom(_) =>
    case Binary(operator, left, right) =>
      PrintsOperand(left, operator);
      PrintsOperand(right, operator);
      SpellJoin(ArrangeOperand(left, operator), operator, ArrangeOperand(right, operator));
      hide Spell;
    case Not(operand) =>
      PrintsUnary(operand);
      SpellPrefixed(ArrangeUnary(operand));
      hide Spell;
    case Try(operand) =>
      PrintsUnary(operand);
      SpellFollowed(ArrangeUnary(operand), Question);
      FollowedWellFormed(ArrangeUnary(operand), Question);
      hide Spell;
    case Field(record, name) =>
      PrintsArranged(record);
      SpellFollowed(Arrange(record), Dot(name));
      FollowedWellFormed(Arrange(record), Dot(name));
      hide Spell;
    case Call(callee, arguments) =>
      PrintsArranged(callee);
      PrintsAll(arguments);
      assert SpellSuffix(Arguments(ArrangeAll(arguments))) == Enclosed(PrintAll(arguments));
      SpellFollowed(Arrange(callee), Arguments(ArrangeAll(arguments)));
      FollowedWellFormed(Arrange(callee), Arguments(ArrangeAll(arguments)));
      hide Spell;
  }

  lemma {:induction false} PrintsUnary(operand: Expression)
    ensures PrintUnary(operand) == Spell(ArrangeUnary(operand)) && WellFormed(ArrangeUnary(operand))
    decreases operand, 1
  {
    PrintsArranged(operand);
    SpellParen(Arrange(operand));
    hide Arrange, Print, Spell;
  }

  lemma {:induction false} PrintsOperand(operand: Expression, parent: Operator)
    ensures PrintOperand(operand, parent) == Spell(ArrangeOperand(operand, parent)) && WellFormed(ArrangeOperand(operand, parent))
    decreases operand, 1
  {
    PrintsArranged(operand);
    SpellParen(Arrange(operand));
    hide Arrange, Print, Spell;
  }

  lemma {:induction false} PrintsAll(es: seq<Expression>)
    ensures PrintAll(es) == SpellAll(ArrangeAll(es))
    ensures forall i :: 0 <= i < |es| ==> WellFormed(ArrangeAll(es)[i])
    decreases es, 0
  {
    if es != [] {
      PrintsArranged(es[0]);
      PrintsAll(es[1..]);
      hide Spell, Arrange, Print, WellFormed;
      assert ArrangeAll(es)[1..] == ArrangeAll(es[1..]);
      assert forall i :: 0 < i < |es| ==> es[i] == es[1..][i - 1];
    }
  }

  lemma {:induction false} AttachWellFormed(o: Operand, suffix: Suffix)
    requires WellFormedOperand(o)
    requires suffix.Arguments? ==> forall i :: 0 <= i < |suffix.arguments| ==> WellFormed(suffix.arguments[i])
    ensures WellFormedOperand(Attach(o, suffix))
  {
    if o.Bang? {
      AttachWellFormed(o.operand, suffix);
    }
  }

  lemma FollowedWellFormed(s: Operations, suffix: Suffix)
    requires WellFormed(s)
    requires suffix.Arguments? ==> forall i :: 0 <= i < |suffix.arguments| ==> WellFormed(suffix.arguments[i])
    ensures WellFormed(Followed(s, suffix))
  {
    if s.rest == [] {
      AttachWellFormed(s.first, suffix);
    } else {
      AttachWellFormed(s.rest[|s.rest| - 1].operand, suffix);
    }
  }

  /** Every printed expression parses, to the elaboration of its arrangement. */
  lemma PrintedParses(e: Expression)
    ensures Parse(Print(e)) == Some(Elaborate(Arrange(e)))
  {
    PrintsArranged(e);
    ParsesOperations(Arrange(e), []);
    assert Spell(Arrange(e)) + [] == Spell(Arrange(e));
  }

  // ----- Sizes -----

  function Size(e: Expression): (n: nat)
    ensures n > 0
  {
    match e
    case Atom(_) => 1
    case Binary(_, left, right) => 1 + Size(left) + Size(right)
    case Not(operand) => 1 + Size(operand)
    case Try(operand) => 1 + Size(operand)
    case Field(record, _) => 1 + Size(record)
    case Call(callee, arguments) => 1 + Size(callee) + SizeAll(arguments)
  }

  function SizeAll(es: seq<Expression>): nat {
    if es == [] then 0 else Size(es[0]) + SizeAll(es[1..])
  }

  function SizePairs(pairs: seq<Pair<Expression>>): nat {
    if pairs == [] then 0 else 1 + Size(pairs[0].operand) + SizePairs(pairs[1..])
  }

  lemma {:induction false} SizePairsConcat(a: seq<Pair<Expression>>, b: seq<Pair<Expression>>)
    ensures SizePairs(a + b) == SizePairs(a) + SizePairs(b)
  {
    if a == [] {
      assert a + b == b;
    } else {
      SizePairsConcat(a[1..], b);
      assert (a + b)[1..] == a[1..] + b;
    }
  }

  lemma {:induction false} SizeEmbedded(t: Tree<Expression>)
    ensures Size(Embed(t)) == Size(First(t)) + SizePairs(Rest(t))
  {
    if t.Node? {
      SizeEmbedded(t.left);
      SizeEmbedded(t.right);
      var p := Pair(t.operator, First(t.right));
      SizePairsConcat(Rest(t.left) + [p], Rest(t.right));
      SizePairsConcat(Rest(t.left), [p]);
      assert [p][1..] == [];
      assert SizePairs([p]) == 1 + Size(p.operand);
    }
  }

  function FlatSize(s: Operations): nat {
    Size(ElaborateOperand(s.first)) + SizePairs(ElaboratePairs(s.rest))
  }

  lemma SizeElaborated(s: Operations)
    ensures Size(Elaborate(s)) == FlatSize(s)
  {
    var first, rest := ElaborateOperand(s.first), ElaboratePairs(s.rest);
    ReducedList(first, rest, 0);
    SizeEmbedded(Reduce(Leaf(first), rest));
  }

  lemma {:induction false} SizeAttached(o: Operand, suffix: Suffix)
    ensures Size(ElaborateOperand(Attach(o, suffix))) ==
            Size(ElaborateOperand(o)) + 1 + if suffix.Arguments? then SizeAll(ElaborateAll(suffix.arguments)) else 0
  {
    if o.Bang? {
      SizeAttached(o.operand, suffix);
    }
  }

  lemma ElaboratePairsConcat(a: seq<Operation>, b: seq<Operation>)
    ensures ElaboratePairs(a + b) == ElaboratePairs(a) + ElaboratePairs(b)
  {
    hide ElaborateOperation;
  }

  lemma ElaborateOne(o: Operation)
    ensures ElaboratePairs([o]) == [Pair(o.operator, ElaborateOperand(o.operand))]
  {
  }

  lemma SizeFollowed(s: Operations, suffix: Suffix)
    ensures FlatSize(Followed(s, suffix)) ==
            FlatSize(s) + 1 + if suffix.Arguments? then SizeAll(ElaborateAll(suffix.arguments)) else 0
  {
    if s.rest == [] {
      SizeAttached(s.first, suffix);
    } else {
      var init, last := s.rest[..|s.rest| - 1], s.rest[|s.rest| - 1];
      var last' := Operation(last.operator, Attach(last.operand, suffix));
      assert s.rest == init + [last];
      ElaboratePairsConcat(init, [last]);
      ElaboratePairsConcat(init, [last']);
      ElaborateOne(last);
      ElaborateOne(last');
      SizePairsConcat(ElaboratePairs(init), ElaboratePairs([last]));
      SizePairsConcat(ElaboratePairs(init), ElaboratePairs([last']));
      SizePairsOne(ElaboratePairs([last])[0]);
      SizePairsOne(ElaboratePairs([last'])[0]);
      SizeAttached(last.operand, suffix);
    }
  }

  lemma SizePairsOne(p: Pair<Expression>)
    ensures SizePairs([p]) == 1 + Size(p.operand)
  {
    assert [p][1..] == [];
  }

  lemma SizeJoined(a: Operations, operator: Operator, b: Operations)
    ensures ElaboratePairs(Join(a, operator, b).rest)
         == ElaboratePairs(a.rest) + [Pair(operator, ElaborateOperand(b.first))] + ElaboratePairs(b.rest)
    ensures FlatSize(Join(a, operator, b)) == FlatSize(a) + 1 + FlatSize(b)
  {
    hide ElaborateOperand;
    var o := Operation(operator, b.first);
    ElaboratePairsConcat(a.rest + [o], b.rest);
    ElaboratePairsConcat(a.rest, [o]);
    ElaborateOne(o);
    hide ElaboratePairs;
    SizePairsConcat(ElaboratePairs(a.rest) + ElaboratePairs([o]), ElaboratePairs(b.rest));
    SizePairsConcat(ElaboratePairs(a.rest), ElaboratePairs([o]));
    SizePairsOne(ElaboratePairs([o])[0]);
  }

  /** Parsing a printed expression may move operators, but it keeps the expression's size. */
  lemma {:induction false} SizeArranged(e: Expression)
    ensures FlatSize(Arrange(e)) == Size(e)
    decreases e, 0
  {
    match e
    case Atom(_) =>
    case Binary(operator, left, right) =>
      SizeOperand(left, operator);
      SizeOperand(right, operator);
      SizeJoined(ArrangeOperand(left, operator), operator, ArrangeOperand(right, operator));
    case Not(operand) =>
      SizeUnary(operand);
    case Try(operand) =>
      SizeUnary(operand);
      SizeFollowed(ArrangeUnary(operand), Question);
    case Field(record, name) =>
      SizeArranged(record);
      SizeFollowed(Arrange(record), Dot(name));
    case Call(callee, arguments) =>
      SizeArranged(callee);
      SizeArrangedAll(arguments);
      SizeFollowed(Arrange(callee), Arguments(ArrangeAll(arguments)));
  }

  lemma SizeParen(s: Operations)
    ensures FlatSize(Single(Paren(s))) == FlatSize(s)
  {
    SizeElaborated(s);
  }

  lemma {:induction false} SizeUnary(operand: Expression)
    ensures FlatSize(ArrangeUnary(operand)) == Size(operand)
    decreases operand, 1
  {
    SizeArranged(operand);
    SizeParen(Arrange(operand));
  }

  lemma {:induction false} SizeOperand(operand: Expression, parent: Operator)
    ensures FlatSize(ArrangeOperand(operand, parent)) == Size(operand)
    decreases operand, 1
  {
    SizeArranged(operand);
    SizeParen(Arrange(operand));
  }

  lemma {:induction false} SizeArrangedAll(es: seq<Expression>)
    ensures SizeAll(ElaborateAll(ArrangeAll(es))) == SizeAll(es)
    decreases es, 0
  {
    if es != [] {
      SizeArranged(es[0]);
      SizeElaborated(Arrange(es[0]));
      SizeArrangedAll(es[1..]);
      assert ArrangeAll(es)[1..] == ArrangeAll(es[1..]);
    }
  }
}
