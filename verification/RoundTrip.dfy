/** When parsing a printed expression gives the expression back, and when printing it again changes nothing. */
module RoundTrip {
  import opened Sums
  import opened Operators
  import opened Syntax
  import opened SyntaxTheorems

  /**
   The formatter's parentheses are enough: right operands bind differently from their parents, the
   error operator is not applied to a negation, and fields and calls are not applied to operations.
   */
  predicate WellPrinted(e: Expression) {
    match e
    case Atom(_) => true
    case Binary(operator, left, right) =>
      && WellPrinted(left) && WellPrinted(right)
      && !(right.Binary? && Priority(right.operator) == Priority(operator))
    case Not(operand) => WellPrinted(operand)
    case Try(operand) => WellPrinted(operand) && !operand.Not?
    case Field(record, _) => WellPrinted(record) && !record.Not? && !record.Binary?
    case Call(callee, arguments) =>
      && WellPrinted(callee) && !callee.Not? && !callee.Binary?
      && forall i :: 0 <= i < |arguments| ==> WellPrinted(arguments[i])
  }

  function FlatFirst(s: Operations): Expression {
    ElaborateOperand(s.first)
  }

  function FlatRest(s: Operations): seq<Pair<Expression>> {
    ElaboratePairs(s.rest)
  }

  /** The tree of operations that the parser builds. */
  function TreeOf(s: Operations): (t: Tree<Expression>)
    ensures Elaborate(s) == Embed(t)
  {
    Reduce(Leaf(FlatFirst(s)), FlatRest(s))
  }

  lemma TreeOfFacts(s: Operations)
    ensures Balanced(TreeOf(s)) && First(TreeOf(s)) == FlatFirst(s) && Rest(TreeOf(s)) == FlatRest(s)
  {
    ReducedList(FlatFirst(s), FlatRest(s), 0);
  }

  lemma TreeOfIsUnique(s: Operations, t: Tree<Expression>)
    requires Balanced(t) && First(t) == FlatFirst(s) && Rest(t) == FlatRest(s)
    ensures TreeOf(s) == t
  {
    ReduceInvertsReading(t);
  }

  // ----- Sufficiency -----

  /** Anything but an operation is printed as one operand. */
  lemma {:induction false} ArrangedOperand(e: Expression)
    requires WellPrinted(e) && !e.Binary?
    ensures Arrange(e).rest == [] && (Arrange(e).first.Bang? <==> e.Not?) && !Arrange(e).first.Paren?
    decreases e
  {
    match e
    case Atom(_) =>
    case Not(operand) => if !operand.Binary? { ArrangedOperand(operand); }
    case Try(operand) => if !operand.Binary? { ArrangedOperand(operand); }
    case Field(record, _) => ArrangedOperand(record);
    case Call(callee, _) => ArrangedOperand(callee);
  }

  lemma ElaborateSingle(o: Operand)
    ensures Elaborate(Single(o)) == ElaborateOperand(o)
  {
  }

  lemma {:induction false} Sufficient(e: Expression)
    requires WellPrinted(e)
    ensures Elaborate(Arrange(e)) == e
    decreases e, 0
  {
    match e
    case Atom(_) =>
    case Binary(operator, left, right) =>
      var l, r := ArrangeOperand(left, operator), ArrangeOperand(right, operator);
      SufficientOperand(left, operator);
      SufficientOperand(right, operator);
      TreeOfFacts(l);
      TreeOfFacts(r);
      SizeJoined(l, operator, r);
      var t := Node(operator, TreeOf(l), TreeOf(r));
      TreeOfIsUnique(Join(l, operator, r), t);
    case Not(operand) => SufficientUnary(operand);
    case Try(operand) => SufficientUnary(operand);
    case Field(record, name) =>
      Sufficient(record);
      ArrangedOperand(record);
      ElaborateSingle(Arrange(record).first);
      ElaborateSingle(Suffixed(Arrange(record).first, Dot(name)));
    case Call(callee, arguments) =>
      Sufficient(callee);
      ArrangedOperand(callee);
      ElaborateSingle(Arrange(callee).first);
      ElaborateSingle(Suffixed(Arrange(callee).first, Arguments(ArrangeAll(arguments))));
      SufficientAll(arguments);
  }

  lemma {:induction false} SufficientUnary(operand: Expression)
    requires WellPrinted(operand)
    ensures ArrangeUnary(operand).rest == [] && ElaborateOperand(ArrangeUnary(operand).first) == operand
    ensures ArrangeUnary(operand).first.Bang? <==> operand.Not?
    decreases operand, 1
  {
    Sufficient(operand);
    if !operand.Binary? {
      ArrangedOperand(operand);
      ElaborateSingle(Arrange(operand).first);
    }
  }

  lemma {:induction false} SufficientOperand(operand: Expression, parent: Operator)
    requires WellPrinted(operand)
    ensures var t := TreeOf(ArrangeOperand(operand, parent));
            && Embed(t) == operand
            && (t.Node? ==> operand.Binary? && Priority(t.operator) == Priority(operand.operator) >= Priority(parent))
    decreases operand, 1
  {
    Sufficient(operand);
    if NeedsParens(operand, parent) {
      ElaborateSingle(Paren(Arrange(operand)));
    }
  }

  lemma {:induction false} SufficientAll(es: seq<Expression>)
    requires forall i :: 0 <= i < |es| ==> WellPrinted(es[i])
    ensures ElaborateAll(ArrangeAll(es)) == es
    decreases es, 0
  {
    if es != [] {
      Sufficient(es[0]);
      SufficientAll(es[1..]);
      assert ArrangeAll(es)[1..] == ArrangeAll(es[1..]);
    }
  }

  // ----- Necessity -----

  lemma {:induction false} PrefixSizes(pairs: seq<Pair<Expression>>, i: nat, j: nat)
    requires i <= |pairs| && j <= |pairs| && SizePairs(pairs[..i]) == SizePairs(pairs[..j])
    ensures i == j
  {
    if i < j {
      PrefixGrows(pairs, i, j);
    } else if j < i {
      PrefixGrows(pairs, j, i);
    }
  }

  lemma PrefixGrows(pairs: seq<Pair<Expression>>, i: nat, j: nat)
    requires i < j <= |pairs|
    ensures SizePairs(pairs[..i]) < SizePairs(pairs[..j])
  {
    assert pairs[..j] == pairs[..i] + pairs[i..j];
    SizePairsConcat(pairs[..i], pairs[i..j]);
  }

  lemma ListParts<T>(a: seq<T>, x: T, b: seq<T>)
    ensures var s := a + [x] + b;
            s[..|a|] == a && s[|a|] == x && s[|a| + 1..] == b
  {
  }

  lemma SameParts(a: seq<Pair<Expression>>, x: Pair<Expression>, b: seq<Pair<Expression>>,
                  c: seq<Pair<Expression>>, y: Pair<Expression>, d: seq<Pair<Expression>>)
    requires a + [x] + b == c + [y] + d && SizePairs(a) == SizePairs(c)
    ensures a == c && x == y && b == d
  {
    ListParts(a, x, b);
    ListParts(c, y, d);
    PrefixSizes(a + [x] + b, |a|, |c|);
  }

  /** Balanced trees with the same reading are split at the same place if their left parts have the same size. */
  lemma SplitsBySize(t: Tree<Expression>, l: Tree<Expression>, operator: Operator, r: Tree<Expression>)
    requires Balanced(t) && Balanced(l) && Balanced(r) && t.Node?
    requires First(t) == First(l) && Rest(t) == Rest(l) + [Pair(operator, First(r))] + Rest(r)
    requires Size(Embed(t.left)) == Size(Embed(l))
    ensures t.left == l && t.operator == operator && t.right == r
  {
    hide Reduce, Size, Embed, SizePairs;
    SizeEmbedded(t.left);
    SizeEmbedded(l);
    assert First(t) == First(t.left);
    SameParts(Rest(t.left), Pair(t.operator, First(t.right)), Rest(t.right), Rest(l), Pair(operator, First(r)), Rest(r));
    hide Rest, First;
    BalancedIsUnique(t.left, l);
    BalancedIsUnique(t.right, r);
  }

  /** An operation that is read back is split where it was printed. */
  lemma SplitsWhereJoined(left: Expression, operator: Operator, right: Expression)
    requires Elaborate(Arrange(Binary(operator, left, right))) == Binary(operator, left, right)
    ensures var t := TreeOf(Arrange(Binary(operator, left, right)));
            && t.Node? && t.operator == operator && Balanced(t)
            && t.left == TreeOf(ArrangeOperand(left, operator)) && Embed(t.left) == left
            && t.right == TreeOf(ArrangeOperand(right, operator)) && Embed(t.right) == right
  {
    hide Reduce, Size;
    var l, r := ArrangeOperand(left, operator), ArrangeOperand(right, operator);
    var s := Join(l, operator, r);
    assert Arrange(Binary(operator, left, right)) == s;
    TreeOfFacts(s);
    TreeOfFacts(l);
    TreeOfFacts(r);
    SizeJoined(l, operator, r);
    SizeOperand(left, operator);
    SizeElaborated(l);
    var t := TreeOf(s);
    hide Arrange, ArrangeOperand, Elaborate, FlatSize, TreeOf;
    assert t.Node?;
    SplitsBySize(t, TreeOf(l), operator, TreeOf(r));
  }

  lemma OneOperand(s: Operations)
    requires !Elaborate(s).Binary?
    ensures s.rest == [] && Elaborate(s) == ElaborateOperand(s.first)
  {
    TreeOfFacts(s);
  }

  lemma {:induction false} Necessary(e: Expression)
    requires Elaborate(Arrange(e)) == e
    ensures WellPrinted(e)
    decreases e, 0
  {
    match e
    case Atom(_) =>
    case Binary(operator, left, right) =>
      SplitsWhereJoined(left, operator, right);
      NecessaryOperand(left, operator);
      NecessaryOperand(right, operator);
    case Not(operand) =>
      OneOperand(Arrange(e));
      NecessaryUnary(operand);
    case Try(operand) =>
      OneOperand(Arrange(e));
      NecessarySuffix(ArrangeUnary(operand), Question);
      NecessaryUnary(operand);
    case Field(record, name) =>
      OneOperand(Arrange(e));
      NecessarySuffix(Arrange(record), Dot(name));
      ElaborateSingle(Arrange(record).first);
      Necessary(record);
      ArrangedBinary(record);
    case Call(callee, arguments) =>
      var suffix := Arguments(ArrangeAll(arguments));
      OneOperand(Arrange(e));
      NecessarySuffix(Arrange(callee), suffix);
      ElaborateSingle(Arrange(callee).first);
      Necessary(callee);
      ArrangedBinary(callee);
      assert ElaborateAll(ArrangeAll(arguments)) == arguments;
      forall i | 0 <= i < |arguments| ensures WellPrinted(arguments[i]) {
        Necessary(arguments[i]);
      }
  }

  /** A suffix that is read back follows a single operand without prefix. */
  lemma NecessarySuffix(s: Operations, suffix: Suffix)
    requires Followed(s, suffix).rest == [] && !ElaborateOperand(Followed(s, suffix).first).Not?
    ensures s.rest == [] && !s.first.Bang? && Followed(s, suffix).first == Suffixed(s.first, suffix)
  {
  }

  lemma ArrangedBinary(e: Expression)
    requires Arrange(e).rest == []
    ensures !e.Binary?
  {
  }

  lemma {:induction false} NecessaryUnary(operand: Expression)
    requires ArrangeUnary(operand).rest == [] && ElaborateOperand(ArrangeUnary(operand).first) == operand
    ensures WellPrinted(operand)
    decreases operand, 1
  {
    if !operand.Binary? {
      ElaborateSingle(Arrange(operand).first);
    }
    Necessary(operand);
  }

  lemma {:induction false} NecessaryOperand(operand: Expression, parent: Operator)
    requires Embed(TreeOf(ArrangeOperand(operand, parent))) == operand
    ensures WellPrinted(operand)
    ensures operand.Binary? && !NeedsParens(operand, parent) ==>
              TreeOf(ArrangeOperand(operand, parent)).Node? && TreeOf(ArrangeOperand(operand, parent)).operator == operand.operator
    decreases operand, 1
  {
    var s := ArrangeOperand(operand, parent);
    if NeedsParens(operand, parent) {
      ElaborateSingle(s.first);
    } else {
      TreeOfFacts(s);
    }
    Necessary(operand);
  }

  /** Printing and parsing is the identity exactly on well-printed expressions. */
  lemma RoundTrips(e: Expression)
    ensures Parse(Print(e)) == Some(e) <==> WellPrinted(e)
  {
    PrintedParses(e);
    if WellPrinted(e) {
      Sufficient(e);
    } else if Elaborate(Arrange(e)) == e {
      Necessary(e);
    }
  }
}
