/** When formatting a formatted expression again changes nothing. */
module Reprint {
  import opened Sums
  import opened Operators
  import opened Syntax
  import opened SyntaxTheorems
  import opened RoundTrip

  // ----- Parentheses that are lost -----

  /** Whether the printed expression ends in a parenthesis around an operation, so that a suffix would apply to it. */
  predicate EndsInParen(e: Expression) {
    match e
    case Binary(operator, _, right) => NeedsParens(right, operator) || EndsInParen(right)
    case Not(operand) => operand.Binary? || EndsInParen(operand)
    case _ => false
  }

  /** No field or call follows a parenthesis around an operation. */
  predicate Selects(e: Expression) {
    match e
    case Atom(_) => true
    case Binary(_, left, right) => Selects(left) && Selects(right)
    case Not(operand) => Selects(operand)
    case Try(operand) => Selects(operand)
    case Field(record, _) => Selects(record) && !EndsInParen(record)
    case Call(callee, arguments) =>
      && Selects(callee) && !EndsInParen(callee)
      && forall i :: 0 <= i < |arguments| ==> Selects(arguments[i])
  }

  /** The same property of what the parser reads. */
  predicate Clean(s: Operations) {
    CleanOperand(s.first) && forall i :: 0 <= i < |s.rest| ==> CleanOperation(s.rest[i])
  }

  predicate CleanOperation(o: Operation) {
    match o
    case Operation(_, operand) => CleanOperand(operand)
  }

  predicate CleanOperand(o: Operand) {
    match o
    case Name(_) => true
    case Paren(inner) => Clean(inner)
    case Bang(operand) => CleanOperand(operand)
    case Suffixed(operand, suffix) =>
      && CleanOperand(operand) && (suffix.Question? || !operand.Paren?)
      && (suffix.Arguments? ==> forall i :: 0 <= i < |suffix.arguments| ==> Clean(suffix.arguments[i]))
  }

  /** Whether a suffix would apply to a parenthesis. */
  predicate AttachesToParen(o: Operand) {
    if o.Bang? then AttachesToParen(o.operand) else o.Paren?
  }

  function LastOperand(s: Operations): Operand {
    if s.rest == [] then s.first else s.rest[|s.rest| - 1].operand
  }

  lemma {:induction false} CleanAttached(o: Operand, suffix: Suffix)
    ensures CleanOperand(Attach(o, suffix)) <==>
              && CleanOperand(o) && (suffix.Question? || !AttachesToParen(o))
              && (suffix.Arguments? ==> forall i :: 0 <= i < |suffix.arguments| ==> Clean(suffix.arguments[i]))
    ensures !AttachesToParen(Attach(o, suffix))
  {
    if o.Bang? {
      CleanAttached(o.operand, suffix);
    }
  }

  lemma CleanFollowed(s: Operations, suffix: Suffix)
    ensures Clean(Followed(s, suffix)) <==>
              && Clean(s) && (suffix.Question? || !AttachesToParen(LastOperand(s)))
              && (suffix.Arguments? ==> forall i :: 0 <= i < |suffix.arguments| ==> Clean(suffix.arguments[i]))
    ensures !AttachesToParen(LastOperand(Followed(s, suffix)))
  {
    CleanAttached(LastOperand(s), suffix);
    hide CleanOperand;
    if s.rest != [] {
      var n := |s.rest| - 1;
      var s' := Followed(s, suffix);
      assert CleanOperation(s.rest[n]) == CleanOperand(s.rest[n].operand);
      assert CleanOperation(s'.rest[n]) == CleanOperand(s'.rest[n].operand);
      assert forall i :: 0 <= i < n ==> s'.rest[i] == s.rest[i];
      if Clean(s) {
        assert forall i :: 0 <= i < n ==> CleanOperation(s'.rest[i]);
      }
      if Clean(s') {
        assert forall i :: 0 <= i < n ==> CleanOperation(s.rest[i]);
      }
    }
  }

  lemma CleanJoined(a: Operations, operator: Operator, b: Operations)
    ensures Clean(Join(a, operator, b)) <==> Clean(a) && Clean(b)
    ensures LastOperand(Join(a, operator, b)) == LastOperand(b)
  {
    hide CleanOperand;
    var s := Join(a, operator, b);
    var o := Operation(operator, b.first);
    assert CleanOperation(o) == CleanOperand(b.first);
    assert s.rest[|a.rest|] == o;
    assert forall i :: 0 <= i < |a.rest| ==> s.rest[i] == a.rest[i];
    assert forall i :: 0 <= i < |b.rest| ==> s.rest[|a.rest| + 1 + i] == b.rest[i];
  }

  lemma CleanPrefixed(s: Operations)
    ensures Clean(Prefixed(s)) <==> Clean(s)
    ensures AttachesToParen(LastOperand(Prefixed(s))) <==> AttachesToParen(LastOperand(s))
  {
    hide CleanOperation;
    assert Prefixed(s).rest == s.rest;
    assert CleanOperand(Prefixed(s).first) == CleanOperand(s.first);
  }

  /** A printed expression is read back clean exactly if no field or call follows a parenthesis. */
  lemma {:induction false} CleanIsSelecting(e: Expression)
    ensures Clean(Arrange(e)) <==> Selects(e)
    ensures AttachesToParen(LastOperand(Arrange(e))) <==> EndsInParen(e)
    decreases e, 0
  {
    match e
    case Atom(_) =>
    case Binary(operator, left, right) =>
      CleanIsSelecting(left);
      CleanIsSelecting(right);
      CleanJoined(ArrangeOperand(left, operator), operator, ArrangeOperand(right, operator));
    case Not(operand) =>
      CleanIsSelecting(operand);
      CleanPrefixed(ArrangeUnary(operand));
    case Try(operand) =>
      CleanIsSelecting(operand);
      CleanFollowed(ArrangeUnary(operand), Question);
    case Field(record, name) =>
      CleanIsSelecting(record);
      CleanFollowed(Arrange(record), Dot(name));
    case Call(callee, arguments) =>
      CleanIsSelecting(callee);
      forall i | 0 <= i < |arguments| ensures Clean(ArrangeAll(arguments)[i]) <==> Selects(arguments[i]) {
        CleanIsSelecting(arguments[i]);
      }
      CleanFollowed(Arrange(callee), Arguments(ArrangeAll(arguments)));
  }

  // ----- Parentheses that are kept -----

  /** An operation among others is in parentheses because it binds less tightly than a neighbour. */
  predicate Fits(e: Expression, before: nat, after: nat) {
    e.Binary? ==> Priority(e.operator) < before || Priority(e.operator) < after
  }

  function OperandAt(first: Expression, rest: seq<Pair<Expression>>, k: nat): Expression
    requires k <= |rest|
  {
    if k == 0 then first else rest[k - 1].operand
  }

  function PriorityAt(rest: seq<Pair<Expression>>, k: int, outer: nat): nat
    requires k < |rest|
  {
    if k < 0 then outer else Priority(rest[k].operator)
  }

  predicate FitsAt(before: nat, first: Expression, rest: seq<Pair<Expression>>, after: nat, k: nat)
    requires k <= |rest|
  {
    Fits(OperandAt(first, rest, k), PriorityAt(rest, k - 1, before), if k == |rest| then after else PriorityAt(rest, k, 0))
  }

  ghost predicate AllFit(before: nat, first: Expression, rest: seq<Pair<Expression>>, after: nat) {
    forall k :: 0 <= k <= |rest| ==> FitsAt(before, first, rest, after, k)
  }

  lemma FitsLeft(before: nat, first: Expression, a: seq<Pair<Expression>>, p: Pair<Expression>,
                 b: seq<Pair<Expression>>, after: nat, k: nat)
    requires k <= |a|
    ensures FitsAt(before, first, a + [p] + b, after, k) == FitsAt(before, first, a, Priority(p.operator), k)
  {
    var all := a + [p] + b;
    assert all[|a|] == p;
    assert forall i :: 0 <= i < |a| ==> all[i] == a[i];
  }

  lemma FitsRight(before: nat, first: Expression, a: seq<Pair<Expression>>, p: Pair<Expression>,
                  b: seq<Pair<Expression>>, after: nat, k: nat)
    requires |a| < k <= |a| + 1 + |b|
    ensures FitsAt(before, first, a + [p] + b, after, k) == FitsAt(Priority(p.operator), p.operand, b, after, k - |a| - 1)
  {
    var all := a + [p] + b;
    assert all[|a|] == p;
    assert forall i :: 0 <= i < |b| ==> all[|a| + 1 + i] == b[i];
  }

  lemma AllFitSplit(before: nat, first: Expression, a: seq<Pair<Expression>>, p: Pair<Expression>,
                    b: seq<Pair<Expression>>, after: nat)
    ensures AllFit(before, first, a + [p] + b, after) <==>
              AllFit(before, first, a, Priority(p.operator)) && AllFit(Priority(p.operator), p.operand, b, after)
  {
    hide FitsAt;
    var all := a + [p] + b;
    if AllFit(before, first, all, after) {
      forall k | 0 <= k <= |a| ensures FitsAt(before, first, a, Priority(p.operator), k) {
        FitsLeft(before, first, a, p, b, after, k);
      }
      forall k | 0 <= k <= |b| ensures FitsAt(Priority(p.operator), p.operand, b, after, k) {
        FitsRight(before, first, a, p, b, after, |a| + 1 + k);
      }
    }
    if AllFit(before, first, a, Priority(p.operator)) && AllFit(Priority(p.operator), p.operand, b, after) {
      forall k | 0 <= k <= |all| ensures FitsAt(before, first, all, after, k) {
        if k <= |a| {
          FitsLeft(before, first, a, p, b, after, k);
        } else {
          FitsRight(before, first, a, p, b, after, k);
        }
      }
    }
  }

  /** Operations at the leaves of a tree bind less tightly than their parents. */
  predicate LeavesFit(t: Tree<Expression>) {
    t.Node? ==>
      && LeavesFit(t.left) && LeavesFit(t.right)
      && (t.left.Leaf? && t.left.operand.Binary? ==> Priority(t.left.operand.operator) < Priority(t.operator))
      && (t.right.Leaf? && t.right.operand.Binary? ==> Priority(t.right.operand.operator) < Priority(t.operator))
  }

  lemma {:induction false} FittingLeaves(t: Tree<Expression>, before: nat, after: nat)
    requires Balanced(t) && AllFit(before, First(t), Rest(t), after)
    requires t.Node? ==> before <= Priority(t.operator) && after <= Priority(t.operator)
    ensures LeavesFit(t)
    decreases t
  {
    if t.Node? {
      AllFitSplit(before, First(t), Rest(t.left), Pair(t.operator, First(t.right)), Rest(t.right), after);
      FittingLeaves(t.left, before, Priority(t.operator));
      FittingLeaves(t.right, Priority(t.operator), after);
      if t.left.Leaf? {
        assert FitsAt(before, First(t.left), Rest(t.left), Priority(t.operator), 0);
      }
      if t.right.Leaf? {
        assert FitsAt(Priority(t.operator), First(t.right), Rest(t.right), after, 0);
      }
    }
  }

  // ----- Arranging what has been read -----

  function ArrangeTree(t: Tree<Expression>): Operations {
    match t
    case Leaf(operand) => ArrangeUnary(operand)
    case Node(operator, left, right) => Join(ArrangeTree(left), operator, ArrangeTree(right))
  }

  function ArrangeList(first: Expression, rest: seq<Pair<Expression>>): Operations
    decreases |rest|
  {
    if rest == [] then ArrangeUnary(first)
    else Join(ArrangeUnary(first), rest[0].operator, ArrangeList(rest[0].operand, rest[1..]))
  }

  lemma {:induction false} ArrangesTree(t: Tree<Expression>)
    requires Balanced(t) && LeavesFit(t) && t.Node?
    ensures Arrange(Embed(t)) == ArrangeTree(t)
    decreases t, 0
  {
    ArrangesSubtree(t.left, t.operator);
    ArrangesSubtree(t.right, t.operator);
  }

  lemma {:induction false} ArrangesSubtree(t: Tree<Expression>, parent: Operator)
    requires Balanced(t) && LeavesFit(t)
    requires t.Leaf? && t.operand.Binary? ==> Priority(t.operand.operator) < Priority(parent)
    requires t.Node? ==> Priority(t.operator) >= Priority(parent)
    ensures ArrangeOperand(Embed(t), parent) == ArrangeTree(t)
    decreases t, 1
  {
    if t.Node? {
      ArrangesTree(t);
    }
  }

  lemma {:induction false} ArrangeListConcat(first: Expression, a: seq<Pair<Expression>>, p: Pair<Expression>,
                      b: seq<Pair<Expression>>)
    ensures ArrangeList(first, a + [p] + b) == Join(ArrangeList(first, a), p.operator, ArrangeList(p.operand, b))
    decreases |a|
  {
    hide ArrangeUnary;
    var all := a + [p] + b;
    if a == [] {
      assert all[0] == p && all[1..] == b;
    } else {
      assert all[0] == a[0] && all[1..] == a[1..] + [p] + b;
      ArrangeListConcat(a[0].operand, a[1..], p, b);
      var x, y, z := ArrangeUnary(first), ArrangeList(a[0].operand, a[1..]), ArrangeList(p.operand, b);
      hide ArrangeList;
      JoinAssociates(x, a[0].operator, y, p.operator, z);
    }
  }

  lemma JoinAssociates(x: Operations, o: Operator, y: Operations, p: Operator, z: Operations)
    ensures Join(x, o, Join(y, p, z)) == Join(Join(x, o, y), p, z)
  {
    var a, b := [Operation(o, y.first)], [Operation(p, z.first)];
    assert x.rest + a + (y.rest + b + z.rest) == x.rest + a + y.rest + b + z.rest;
  }

  lemma {:induction false} ArrangesList(t: Tree<Expression>)
    ensures ArrangeTree(t) == ArrangeList(First(t), Rest(t))
  {
    if t.Node? {
      ArrangesList(t.left);
      ArrangesList(t.right);
      ArrangeListConcat(First(t), Rest(t.left), Pair(t.operator, First(t.right)), Rest(t.right));
      hide ArrangeList;
    }
  }

  /** What the formatter's own output looks like when it is read. */
  ghost predicate Tidy(s: Operations) {
    && TidyOperand(s.first)
    && (forall i :: 0 <= i < |s.rest| ==> TidyOperation(s.rest[i]))
    && AllFit(0, FlatFirst(s), FlatRest(s), 0)
  }

  ghost predicate TidyOperation(o: Operation) {
    match o
    case Operation(_, operand) => TidyOperand(operand)
  }

  ghost predicate TidyOperand(o: Operand) {
    match o
    case Name(_) => true
    case Paren(inner) => Tidy(inner) && inner.rest != []
    case Bang(operand) => TidyOperand(operand)
    case Suffixed(operand, suffix) =>
      && !operand.Bang? && TidyOperand(operand)
      && (suffix.Arguments? ==> forall i :: 0 <= i < |suffix.arguments| ==> Tidy(suffix.arguments[i]))
  }

  /** Reading and arranging works operand by operand. */
  lemma ArrangesOperands(s: Operations)
    requires Tidy(s)
    ensures Arrange(Elaborate(s)) == ArrangeList(FlatFirst(s), FlatRest(s))
  {
    var t := TreeOf(s);
    TreeOfFacts(s);
    FittingLeaves(t, 0, 0);
    if t.Node? {
      ArrangesTree(t);
      ArrangesList(t);
    } else {
      assert FitsAt(0, FlatFirst(s), FlatRest(s), 0, 0);
    }
  }

  lemma OperandKinds(o: Operand)
    requires TidyOperand(o)
    ensures ElaborateOperand(o).Binary? <==> o.Paren?
  {
    if o.Paren? {
      TreeOfFacts(o.inner);
    }
  }

  lemma {:induction false} RebuiltOperand(o: Operand)
    requires TidyOperand(o)
    ensures ArrangeUnary(ElaborateOperand(o)) == Single(o) <==> CleanOperand(o)
    decreases o, 0
  {
    OperandKinds(o);
    match o
    case Name(_) =>
    case Paren(inner) =>
      Rebuilt(inner);
    case Bang(operand) =>
      RebuiltOperand(operand);
      PrefixedSingle(ArrangeUnary(ElaborateOperand(operand)), operand);
    case Suffixed(operand, suffix) =>
      OperandKinds(operand);
      RebuiltOperand(operand);
      match suffix {
        case Question =>
          FollowedSingle(ArrangeUnary(ElaborateOperand(operand)), Question, operand, Question);
        case Dot(name) =>
          FollowedSingle(Arrange(ElaborateOperand(operand)), suffix, operand, suffix);
        case Arguments(arguments) =>
          var arguments' := ArrangeAll(ElaborateAll(arguments));
          FollowedSingle(Arrange(ElaborateOperand(operand)), Arguments(arguments'), operand, suffix);
          forall i | 0 <= i < |arguments| ensures arguments'[i] == arguments[i] <==> Clean(arguments[i]) {
            Rebuilt(arguments[i]);
          }
          assert arguments' == arguments <==> forall i :: 0 <= i < |arguments| ==> arguments'[i] == arguments[i];
      }
  }

  lemma PrefixedSingle(s: Operations, o: Operand)
    ensures Prefixed(s) == Single(Bang(o)) <==> s == Single(o)
  {
  }

  lemma FollowedSingle(s: Operations, suffix: Suffix, o: Operand, suffix': Suffix)
    requires !o.Bang?
    ensures Followed(s, suffix) == Single(Suffixed(o, suffix')) <==> s == Single(o) && suffix == suffix'
  {
  }

  lemma {:induction false} ListGrows(first: Expression, rest: seq<Pair<Expression>>)
    ensures |ArrangeList(first, rest).rest| >= |rest|
    decreases |rest|
  {
    if rest != [] {
      ListGrows(rest[0].operand, rest[1..]);
    }
  }

  /** An operand is arranged as it was read exactly if it is clean. */
  predicate RebuildsClean(o: Operand) {
    ArrangeUnary(ElaborateOperand(o)) == Single(o) <==> CleanOperand(o)
  }

  lemma JoinedEquals(a: Operations, operator: Operator, b: Operations, first: Operand, rest: seq<Operation>)
    requires rest != [] && rest[0].operator == operator && |b.rest| >= |rest| - 1
    ensures Join(a, operator, b) == Operations(first, rest)
            <==> a == Single(first) && b == Operations(rest[0].operand, rest[1..])
  {
    var joined := a.rest + [Operation(operator, b.first)] + b.rest;
    if Join(a, operator, b) == Operations(first, rest) {
      assert joined == rest;
      assert |a.rest| == 0;
      assert joined[0] == Operation(operator, b.first) && joined[1..] == b.rest;
    }
    if a == Single(first) && b == Operations(rest[0].operand, rest[1..]) {
      assert joined == [rest[0]] + rest[1..];
    }
  }

  lemma {:induction false} RebuiltList(first: Operand, rest: seq<Operation>)
    requires RebuildsClean(first) && forall i :: 0 <= i < |rest| ==> RebuildsClean(rest[i].operand)
    ensures ArrangeList(ElaborateOperand(first), ElaboratePairs(rest)) == Operations(first, rest)
            <==> CleanOperand(first) && forall i :: 0 <= i < |rest| ==> CleanOperation(rest[i])
    decreases |rest|
  {
    if rest != [] {
      var operand := rest[0].operand;
      hide CleanOperand, ElaborateOperand, ArrangeUnary;
      RebuiltList(operand, rest[1..]);
      ListGrows(ElaborateOperand(operand), ElaboratePairs(rest[1..]));
      assert ElaboratePairs(rest)[1..] == ElaboratePairs(rest[1..]);
      JoinedEquals(ArrangeUnary(ElaborateOperand(first)), rest[0].operator,
                   ArrangeList(ElaborateOperand(operand), ElaboratePairs(rest[1..])), first, rest);
      assert CleanOperation(rest[0]) == CleanOperand(operand);
      assert forall i :: 0 < i < |rest| ==> rest[i] == rest[1..][i - 1];
    }
  }

  lemma {:induction false} RebuiltOperation(o: Operation)
    requires TidyOperation(o)
    ensures RebuildsClean(o.operand)
    decreases o, 1
  {
    match o
    case Operation(_, operand) => RebuiltOperand(operand);
  }

  lemma {:induction false} Rebuilt(s: Operations)
    requires Tidy(s)
    ensures Arrange(Elaborate(s)) == s <==> Clean(s)
    decreases s, 1
  {
    ArrangesOperands(s);
    RebuiltOperand(s.first);
    forall i | 0 <= i < |s.rest| ensures RebuildsClean(s.rest[i].operand) {
      RebuiltOperation(s.rest[i]);
    }
    RebuiltList(s.first, s.rest);
  }

  // ----- The formatter's output is tidy -----

  lemma {:induction false} TidyAttached(o: Operand, suffix: Suffix)
    requires TidyOperand(o)
    requires suffix.Arguments? ==> forall i :: 0 <= i < |suffix.arguments| ==> Tidy(suffix.arguments[i])
    ensures TidyOperand(Attach(o, suffix)) && !ElaborateOperand(Attach(o, suffix)).Binary?
  {
    if o.Bang? {
      TidyAttached(o.operand, suffix);
    }
  }

  lemma TidyFollowed(s: Operations, suffix: Suffix)
    requires TidyOperand(s.first) && (forall i :: 0 <= i < |s.rest| ==> TidyOperation(s.rest[i]))
    requires s.rest == [] || AllFit(0, FlatFirst(s), FlatRest(s), 0)
    requires suffix.Arguments? ==> forall i :: 0 <= i < |suffix.arguments| ==> Tidy(suffix.arguments[i])
    ensures Tidy(Followed(s, suffix))
  {
    var s' := Followed(s, suffix);
    var n := |s.rest|;
    if n == 0 {
      TidyAttached(s.first, suffix);
    } else {
      var o, o' := s.rest[n - 1], s'.rest[n - 1];
      assert TidyOperation(o) == TidyOperand(o.operand);
      TidyAttached(o.operand, suffix);
      hide TidyOperand, ElaborateOperand, Attach;
      assert TidyOperation(o') == TidyOperand(o'.operand);
      forall k | 0 <= k <= n ensures FitsAt(0, FlatFirst(s'), FlatRest(s'), 0, k) {
        assert FitsAt(0, FlatFirst(s), FlatRest(s), 0, k);
      }
    }
  }

  lemma TidyPrefixed(s: Operations)
    requires TidyOperand(s.first) && (forall i :: 0 <= i < |s.rest| ==> TidyOperation(s.rest[i]))
    requires s.rest == [] || AllFit(0, FlatFirst(s), FlatRest(s), 0)
    ensures Tidy(Prefixed(s))
  {
    var s' := Prefixed(s);
    forall k | 0 <= k <= |s.rest| ensures FitsAt(0, FlatFirst(s'), FlatRest(s'), 0, k) {
      assert s.rest != [] ==> FitsAt(0, FlatFirst(s), FlatRest(s), 0, k);
    }
  }

  /** Among operators, the operands fit. */
  ghost predicate TidyBeside(s: Operations, before: nat, after: nat) {
    && TidyOperand(s.first)
    && (forall i :: 0 <= i < |s.rest| ==> TidyOperation(s.rest[i]))
    && AllFit(before, FlatFirst(s), FlatRest(s), after)
  }

  lemma TidyJoined(a: Operations, operator: Operator, b: Operations)
    requires TidyBeside(a, 0, Priority(operator)) && TidyBeside(b, Priority(operator), 0)
    ensures Tidy(Join(a, operator, b))
  {
    hide TidyOperand, ElaborateOperand, ElaboratePairs, FitsAt, AllFit;
    var s := Join(a, operator, b);
    var o := Operation(operator, b.first);
    SizeJoined(a, operator, b);
    AllFitSplit(0, FlatFirst(a), FlatRest(a), Pair(operator, FlatFirst(b)), FlatRest(b), 0);
    assert TidyOperation(o) == TidyOperand(b.first);
    hide TidyOperation;
    forall i | 0 <= i < |s.rest| ensures TidyOperation(s.rest[i]) {
      if i < |a.rest| {
        assert s.rest[i] == a.rest[i];
      } else if i > |a.rest| {
        assert s.rest[i] == b.rest[i - |a.rest| - 1];
      }
    }
  }

  /** The operator read at the root binds no more tightly than the printed one. */
  lemma ReadRoot(e: Expression)
    requires e.Binary?
    ensures Arrange(e).rest != []
    ensures Elaborate(Arrange(e)).Binary? && Priority(Elaborate(Arrange(e)).operator) <= Priority(e.operator)
  {
    var l, r := ArrangeOperand(e.left, e.operator), ArrangeOperand(e.right, e.operator);
    var s := Join(l, e.operator, r);
    SizeJoined(l, e.operator, r);
    TreeOfFacts(s);
    hide ArrangeOperand;
    assert FlatRest(s)[|l.rest|].operator == e.operator;
    RootIsLowest(TreeOf(s), |l.rest|);
  }

  lemma {:induction false} ArrangedTidy(e: Expression)
    ensures Tidy(Arrange(e))
    decreases e, 0
  {
    match e
    case Atom(_) =>
    case Binary(operator, left, right) =>
      TidyArranged(left, operator, 0, Priority(operator));
      TidyArranged(right, operator, Priority(operator), 0);
      TidyJoined(ArrangeOperand(left, operator), operator, ArrangeOperand(right, operator));
    case Not(operand) =>
      TidyUnary(operand);
      TidyPrefixed(ArrangeUnary(operand));
    case Try(operand) =>
      TidyUnary(operand);
      TidyFollowed(ArrangeUnary(operand), Question);
    case Field(record, name) =>
      ArrangedTidy(record);
      TidyFollowed(Arrange(record), Dot(name));
    case Call(callee, arguments) =>
      ArrangedTidy(callee);
      forall i | 0 <= i < |arguments| ensures Tidy(ArrangeAll(arguments)[i]) {
        ArrangedTidy(arguments[i]);
      }
      TidyFollowed(Arrange(callee), Arguments(ArrangeAll(arguments)));
  }

  lemma {:induction false} TidyUnary(operand: Expression)
    ensures var s := ArrangeUnary(operand);
            && TidyOperand(s.first) && (forall i :: 0 <= i < |s.rest| ==> TidyOperation(s.rest[i]))
            && (s.rest == [] || AllFit(0, FlatFirst(s), FlatRest(s), 0))
    decreases operand, 1
  {
    ArrangedTidy(operand);
    if operand.Binary? {
      ReadRoot(operand);
    }
  }

  lemma {:induction false} TidyArranged(operand: Expression, parent: Operator, before: nat, after: nat)
    requires before == Priority(parent) || after == Priority(parent)
    ensures TidyBeside(ArrangeOperand(operand, parent), before, after)
    decreases operand, 1
  {
    ArrangedTidy(operand);
    var s := ArrangeOperand(operand, parent);
    if NeedsParens(operand, parent) {
      ReadRoot(operand);
    }
    forall k | 0 <= k <= |s.rest| ensures FitsAt(before, FlatFirst(s), FlatRest(s), after, k) {
      if !NeedsParens(operand, parent) {
        assert FitsAt(0, FlatFirst(s), FlatRest(s), 0, k);
      }
    }
  }

  /**
   Formatting what the parser makes of a formatted expression gives the same text exactly if no
   field or call follows a parenthesis around an operation.
   */
  lemma FormattingIsStable(e: Expression)
    ensures Parse(Print(e)).Some?
    ensures Print(Parse(Print(e)).value) == Print(e) <==> Selects(e)
  {
    var s := Arrange(e);
    PrintedParses(e);
    PrintsArranged(e);
    PrintsArranged(Elaborate(s));
    ArrangedTidy(e);
    Rebuilt(s);
    CleanIsSelecting(e);
    if Spell(Arrange(Elaborate(s))) == Spell(s) {
      SpellIsInjective(Arrange(Elaborate(s)), s);
    }
  }

  /** Well-printed expressions are among the stable ones. */
  lemma {:induction false} WellPrintedSelects(e: Expression)
    requires WellPrinted(e)
    ensures Selects(e) && (EndsInParen(e) ==> e.Binary? || e.Not?)
  {
    match e
    case Atom(_) =>
    case Binary(_, left, right) =>
      WellPrintedSelects(left);
      WellPrintedSelects(right);
    case Not(operand) => WellPrintedSelects(operand);
    case Try(operand) => WellPrintedSelects(operand);
    case Field(record, _) => WellPrintedSelects(record);
    case Call(callee, arguments) =>
      WellPrintedSelects(callee);
      forall i | 0 <= i < |arguments| ensures Selects(arguments[i]) {
        WellPrintedSelects(arguments[i]);
      }
  }

  /** Three expressions that the formatter changes: a - (b - c), (!a)? and (a + b).f. */
  lemma FormatterCounterexamples()
    ensures var a, b, c := Atom("a"), Atom("b"), Atom("c");
            && Parse(Print(Binary(Subtract, a, Binary(Subtract, b, c)))) == Some(Binary(Subtract, Binary(Subtract, a, b), c))
            && Parse(Print(Try(Not(a)))) == Some(Not(Try(a)))
            && Parse(Print(Field(Binary(Add, a, b), "f"))) == Some(Binary(Add, a, Field(b, "f")))
  {
    var a, b, c := Atom("a"), Atom("b"), Atom("c");
    RegroupsDifferences();
    SwapsNotAndTry();
    MovesField();
    hide Parse, Print;
  }

  lemma RegroupsDifferences()
    ensures var a, b, c := Atom("a"), Atom("b"), Atom("c");
            Parse(Print(Binary(Subtract, a, Binary(Subtract, b, c)))) == Some(Binary(Subtract, Binary(Subtract, a, b), c))
  {
    PrintedParses(Binary(Subtract, Atom("a"), Binary(Subtract, Atom("b"), Atom("c"))));
  }

  lemma SwapsNotAndTry()
    ensures Parse(Print(Try(Not(Atom("a"))))) == Some(Not(Try(Atom("a"))))
  {
    PrintedParses(Try(Not(Atom("a"))));
  }

  lemma MovesField()
    ensures Parse(Print(Field(Binary(Add, Atom("a"), Atom("b")), "f"))) == Some(Binary(Add, Atom("a"), Field(Atom("b"), "f")))
  {
    hide Parse, Print, Elaborate, Arrange;
    PrintedParses(Field(Binary(Add, Atom("a"), Atom("b")), "f"));
    MovedField();
  }

  lemma MovedField()
    ensures Elaborate(Arrange(Field(Binary(Add, Atom("a"), Atom("b")), "f"))) == Binary(Add, Atom("a"), Field(Atom("b"), "f"))
  {
  }

  /** Formatting (a * (b + c)).f twice gives another text than formatting it once. */
  lemma FormattingIsNotStable()
    ensures var e := Field(Binary(Multiply, Atom("a"), Binary(Add, Atom("b"), Atom("c"))), "f");
            && Print(e) == [NameToken("a"), OperatorToken(Multiply), OpenToken, NameToken("b"), OperatorToken(Add), NameToken("c"), CloseToken,
                            DotToken, NameToken("f")]
            && Parse(Print(e)).Some? && Print(Parse(Print(e)).value) != Print(e)
  {
    var sum := Binary(Add, Atom("b"), Atom("c"));
    var product := Binary(Multiply, Atom("a"), sum);
    assert EndsInParen(product);
    assert !Selects(Field(product, "f"));
    FormattingIsStable(Field(product, "f"));
    assert PrintOperand(sum, Multiply) == Enclosed(Print(sum));
    assert Print(sum) == [NameToken("b"), OperatorToken(Add), NameToken("c")];
  }
}
