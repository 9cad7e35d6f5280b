/** Reducing flat lists of binary operations to trees by priority. */
module Operators {

  datatype Operator =
    | Or | And
    | Equal | NotEqual | LessThan | LessThanOrEqual | GreaterThan | GreaterThanOrEqual
    | Add | Subtract
    | Multiply | Divide

  function Priority(operator: Operator): nat {
    match operator
    case Or => 1
    case And => 2
    case Equal | NotEqual | LessThan | LessThanOrEqual | GreaterThan | GreaterThanOrEqual => 3
    case Add | Subtract => 4
    case Multiply | Divide => 5
  }

  /** Trees of operations over opaque operands. */
  datatype Tree<A> = Leaf(operand: A) | Node(operator: Operator, left: Tree<A>, right: Tree<A>)

  datatype Pair<A> = Pair(operator: Operator, operand: A)

  /** The number of leading operations that bind tighter than the given one. */
  function HeadLength<A>(pairs: seq<Pair<A>>, operator: Operator): (n: nat)
    ensures n <= |pairs|
    ensures forall i :: 0 <= i < n ==> Priority(pairs[i].operator) > Priority(operator)
    ensures n < |pairs| ==> Priority(pairs[n].operator) <= Priority(operator)
  {
    if pairs == [] || Priority(pairs[0].operator) <= Priority(operator) then 0
    else
      assert forall i :: 0 < i < |pairs| ==> pairs[i] == pairs[1..][i - 1];
      1 + HeadLength(pairs[1..], operator)
  }

  function Reduce<A>(lhs: Tree<A>, pairs: seq<Pair<A>>): Tree<A>
    decreases |pairs|
  {
    if |pairs| == 0 then lhs
    else if |pairs| == 1 then Node(pairs[0].operator, lhs, Leaf(pairs[0].operand))
    else if Priority(pairs[0].operator) >= Priority(pairs[1].operator) then
      Reduce(Node(pairs[0].operator, lhs, Leaf(pairs[0].operand)), pairs[1..])
    else
      var rest := pairs[1..];
      var n := HeadLength(rest, pairs[0].operator);
      Reduce(Node(pairs[0].operator, lhs, Reduce(Leaf(pairs[0].operand), rest[..n])), rest[n..])
  }

  // ----- Reading trees from left to right -----

  function First<A>(t: Tree<A>): A {
    if t.Leaf? then t.operand else First(t.left)
  }

  function Rest<A>(t: Tree<A>): seq<Pair<A>> {
    if t.Leaf? then [] else Rest(t.left) + [Pair(t.operator, First(t.right))] + Rest(t.right)
  }

  /** Left operands bind at least as tightly as their parents, right ones more tightly. */
  predicate Balanced<A>(t: Tree<A>) {
    t.Node? ==>
      && Balanced(t.left) && Balanced(t.right)
      && (t.left.Node? ==> Priority(t.left.operator) >= Priority(t.operator))
      && (t.right.Node? ==> Priority(t.right.operator) > Priority(t.operator))
  }

  lemma ListSplits<T>(before: seq<T>, s: seq<T>, n: nat)
    requires 0 < |s| && n < |s|
    ensures before + [s[0]] + s[1..][..n] + s[1..][n..] == before + s
  {
    assert s == [s[0]] + s[1..];
    assert s[1..] == s[1..][..n] + s[1..][n..];
  }

  /** Reduction keeps operands and operators in order. */
  lemma {:induction false} ReduceKeepsOrder<A>(lhs: Tree<A>, pairs: seq<Pair<A>>)
    ensures First(Reduce(lhs, pairs)) == First(lhs)
    ensures Rest(Reduce(lhs, pairs)) == Rest(lhs) + pairs
    decreases |pairs|
  {
    if |pairs| == 1 {
      assert Rest(lhs) + [pairs[0]] + [] == Rest(lhs) + pairs;
    } else if |pairs| > 1 {
      var operator, rest := pairs[0].operator, pairs[1..];
      var tight := Priority(operator) < Priority(pairs[1].operator);
      var n := if tight then HeadLength(rest, operator) else 0;
      var right := if tight then Reduce(Leaf(pairs[0].operand), rest[..n]) else Leaf(pairs[0].operand);
      if tight {
        ReduceKeepsOrder(Leaf(pairs[0].operand), rest[..n]);
      }
      assert First(right) == pairs[0].operand && Rest(right) == rest[..n];
      var t := Node(operator, lhs, right);
      assert Rest(t) == Rest(lhs) + [pairs[0]] + rest[..n];
      ListSplits(Rest(lhs), pairs, n);
      assert rest[0..] == rest;
      assert Reduce(lhs, pairs) == Reduce(t, rest[n..]);
      hide Reduce, Rest, HeadLength;
      ReduceKeepsOrder(t, rest[n..]);
    }
  }

  /** The operator at the root is one of the operators of the tree. */
  lemma RootAt<A>(t: Tree<A>)
    requires t.Node?
    ensures |Rest(t.left)| < |Rest(t)| && Rest(t)[|Rest(t.left)|] == Pair(t.operator, First(t.right))
    ensures Rest(t)[..|Rest(t.left)|] == Rest(t.left) && Rest(t)[|Rest(t.left)| + 1..] == Rest(t.right)
  {
  }

  /** Reduction yields a balanced tree. */
  lemma {:induction false} ReduceBalances<A>(lhs: Tree<A>, pairs: seq<Pair<A>>)
    requires Balanced(lhs)
    requires lhs.Node? && pairs != [] ==> Priority(lhs.operator) >= Priority(pairs[0].operator)
    ensures Balanced(Reduce(lhs, pairs))
    decreases |pairs|
  {
    if |pairs| > 1 {
      var operator, rest := pairs[0].operator, pairs[1..];
      if Priority(operator) >= Priority(pairs[1].operator) {
        ReduceBalances(Node(operator, lhs, Leaf(pairs[0].operand)), rest);
      } else {
        var n := HeadLength(rest, operator);
        var right := Reduce(Leaf(pairs[0].operand), rest[..n]);
        ReduceBalances(Leaf(pairs[0].operand), rest[..n]);
        ReduceKeepsOrder(Leaf(pairs[0].operand), rest[..n]);
        if right.Node? {
          RootAt(right);
          assert Rest(right) == rest[..n];
          assert rest[..n][|Rest(right.left)|] == rest[|Rest(right.left)|];
        }
        ReduceBalances(Node(operator, lhs, right), rest[n..]);
      }
    }
  }

  /** No operator of a balanced tree binds less tightly than its root. */
  lemma {:induction false} RootIsLowest<A>(t: Tree<A>, i: nat)
    requires Balanced(t) && t.Node? && i < |Rest(t)|
    ensures Priority(Rest(t)[i].operator) >= Priority(t.operator)
    ensures i > |Rest(t.left)| ==> Priority(Rest(t)[i].operator) > Priority(t.operator)
    decreases t
  {
    var n := |Rest(t.left)|;
    RootAt(t);
    if i < n {
      assert Rest(t)[i] == Rest(t.left)[i];
      RootIsLowest(t.left, i);
    } else if i > n {
      assert Rest(t)[i] == Rest(t.right)[i - n - 1];
      RootIsLowest(t.right, i - n - 1);
    }
  }

  /** A balanced tree is determined by its operands and operators in order. */
  lemma {:induction false} BalancedIsUnique<A>(t: Tree<A>, u: Tree<A>)
    requires Balanced(t) && Balanced(u) && First(t) == First(u) && Rest(t) == Rest(u)
    ensures t == u
    decreases t
  {
    if t.Node? {
      RootAt(t);
      RootAt(u);
      RootIsLowest(t, |Rest(u.left)|);
      RootIsLowest(u, |Rest(t.left)|);
      assert |Rest(t.left)| == |Rest(u.left)|;
      BalancedIsUnique(t.left, u.left);
      BalancedIsUnique(t.right, u.right);
    }
  }

  /** Reduction is the only way to build a balanced tree, and gives every balanced tree back. */
  lemma ReduceInvertsReading<A>(t: Tree<A>)
    requires Balanced(t)
    ensures Reduce(Leaf(First(t)), Rest(t)) == t
  {
    ReduceBalances(Leaf(First(t)), Rest(t));
    ReduceKeepsOrder(Leaf(First(t)), Rest(t));
    assert [] + Rest(t) == Rest(t);
    BalancedIsUnique(Reduce(Leaf(First(t)), Rest(t)), t);
  }

  /** The last operator of the lowest priority. */
  predicate IsLastLowest<A>(pairs: seq<Pair<A>>, i: nat) {
    && i < |pairs|
    && (forall j :: 0 <= j < |pairs| ==> Priority(pairs[j].operator) >= Priority(pairs[i].operator))
    && (forall j :: i < j < |pairs| ==> Priority(pairs[j].operator) > Priority(pairs[i].operator))
  }

  /** The root of a reduced list binds no less tightly than all operators of the list. */
  lemma ReducedList<A>(first: A, pairs: seq<Pair<A>>, low: nat)
    requires forall j :: 0 <= j < |pairs| ==> Priority(pairs[j].operator) >= low
    ensures var t := Reduce(Leaf(first), pairs);
            Balanced(t) && First(t) == first && Rest(t) == pairs && (t.Node? ==> Priority(t.operator) >= low)
  {
    var t := Reduce(Leaf(first), pairs);
    ReduceBalances(Leaf(first), pairs);
    ReduceKeepsOrder(Leaf(first), pairs);
    assert Rest(t) == pairs;
    if t.Node? {
      RootAt(t);
    }
  }

  /** Reduction splits a list of operations at the last operator of the lowest priority. */
  lemma ReduceSplits<A>(first: A, pairs: seq<Pair<A>>, i: nat)
    requires IsLastLowest(pairs, i)
    ensures Reduce(Leaf(first), pairs)
         == Node(pairs[i].operator, Reduce(Leaf(first), pairs[..i]), Reduce(Leaf(pairs[i].operand), pairs[i + 1..]))
  {
    hide Reduce;
    ReducedList(first, pairs[..i], Priority(pairs[i].operator));
    ReducedList(pairs[i].operand, pairs[i + 1..], Priority(pairs[i].operator) + 1);
    var t := Node(pairs[i].operator, Reduce(Leaf(first), pairs[..i]), Reduce(Leaf(pairs[i].operand), pairs[i + 1..]));
    assert Rest(t) == pairs[..i] + [pairs[i]] + pairs[i + 1..];
    assert pairs[..i] + [pairs[i]] + pairs[i + 1..] == pairs;
    ReduceInvertsReading(t);
  }
}
