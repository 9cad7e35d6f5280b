/**
 The concrete syntax of operations: how the parser reads tokens and how the formatter prints trees.

 The parser reads flat lists of operands; elaboration reduces them to trees.  Atoms stand for all
 expressions that start and end with their own tokens.
 */
module Syntax {
  import opened Sums
  import opened Operators

  datatype Expression =
    | Atom(name: string)
    | Binary(operator: Operator, left: Expression, right: Expression)
    | Not(operand: Expression)
    | Try(operand: Expression)
    | Field(record: Expression, name: string)
    | Call(callee: Expression, arguments: seq<Expression>)

  datatype Token =
    | NameToken(name: string)
    | OperatorToken(operator: Operator)
    | BangToken
    | QuestionToken
    | DotToken
    | OpenToken
    | CloseToken
    | CommaToken

  // ----- What the parser reads -----

  datatype Operations = Operations(first: Operand, rest: seq<Operation>)

  datatype Operation = Operation(operator: Operator, operand: Operand)

  datatype Operand =
    | Name(name: string)
    | Paren(inner: Operations)
    | Bang(operand: Operand)
    | Suffixed(operand: Operand, suffix: Suffix)

  datatype Suffix = Question | Dot(name: string) | Arguments(arguments: seq<Operations>)

  type Parsed<+T> = Option<(T, seq<Token>)>

  /** An operand and the operations that follow it, as many as there are. */
  function ParseOperations(ts: seq<Token>): (r: Parsed<Operations>)
    ensures r.Some? ==> |r.value.1| < |ts|
    decreases |ts|, 2
  {
    match ParseOperand(ts)
    case None => None
    case Some((first, rest)) =>
      match ParsePairs(rest)
      case None => None
      case Some((pairs, rest)) => Some((Operations(first, pairs), rest))
  }

  function ParsePairs(ts: seq<Token>): (r: Parsed<seq<Operation>>)
    ensures r.Some? ==> |r.value.1| <= |ts|
    decreases |ts|, 1
  {
    if ts == [] || !ts[0].OperatorToken? then Some(([], ts))
    else
      match ParseOperand(ts[1..])
      case None => None
      case Some((operand, rest)) =>
        match ParsePairs(rest)
        case None => None
        case Some((pairs, rest)) => Some(([Operation(ts[0].operator, operand)] + pairs, rest))
  }

  /** Prefix operators, or an atomic expression and its suffix operators. */
  function ParseOperand(ts: seq<Token>): (r: Parsed<Operand>)
    ensures r.Some? ==> |r.value.1| < |ts|
    decreases |ts|, 1
  {
    if ts == [] then None
    else match ts[0]
      case BangToken =>
        (match ParseOperand(ts[1..])
         case None => None
         case Some((operand, rest)) => Some((Bang(operand), rest)))
      case NameToken(name) => ParseSuffixes(Name(name), ts[1..])
      case OpenToken =>
        (match ParseOperations(ts[1..])
         case None => None
         case Some((inner, rest)) =>
           if rest == [] || rest[0] != CloseToken then None else ParseSuffixes(Paren(inner), rest[1..]))
      case _ => None
  }

  function ParseSuffixes(operand: Operand, ts: seq<Token>): (r: Parsed<Operand>)
    ensures r.Some? ==> |r.value.1| <= |ts|
    decreases |ts|, 0
  {
    if ts == [] then Some((operand, ts))
    else match ts[0]
      case QuestionToken => ParseSuffixes(Suffixed(operand, Question), ts[1..])
      case DotToken =>
        if |ts| < 2 || !ts[1].NameToken? then None
        else ParseSuffixes(Suffixed(operand, Dot(ts[1].name)), ts[2..])
      case OpenToken =>
        (match ParseArguments(ts[1..])
         case None => None
         case Some((arguments, rest)) => ParseSuffixes(Suffixed(operand, Arguments(arguments)), rest))
      case _ => Some((operand, ts))
  }

  /** Arguments, separated and possibly ended by commas, up to and including the closing parenthesis. */
  function ParseArguments(ts: seq<Token>): (r: Parsed<seq<Operations>>)
    ensures r.Some? ==> |r.value.1| < |ts|
    decreases |ts|, 3
  {
    if ts == [] then None
    else if ts[0] == CloseToken then Some(([], ts[1..]))
    else
      match ParseOperations(ts)
      case None => None
      case Some((argument, rest)) =>
        if rest == [] then None
        else if rest[0] == CloseToken then Some(([argument], rest[1..]))
        else if rest[0] != CommaToken then None
        else
          match ParseArguments(rest[1..])
          case None => None
          case Some((arguments, rest)) => Some(([argument] + arguments, rest))
  }

  // ----- From what is read to trees -----

  function Embed(t: Tree<Expression>): Expression {
    match t
    case Leaf(operand) => operand
    case Node(operator, left, right) => Binary(operator, Embed(left), Embed(right))
  }

  function Elaborate(s: Operations): Expression {
    Embed(Reduce(Leaf(ElaborateOperand(s.first)), ElaboratePairs(s.rest)))
  }

  function ElaborateOperation(o: Operation): Pair<Expression> {
    match o
    case Operation(operator, operand) => Pair(operator, ElaborateOperand(operand))
  }

  function ElaboratePairs(pairs: seq<Operation>): (r: seq<Pair<Expression>>)
    ensures |r| == |pairs| && forall i :: 0 <= i < |pairs| ==> r[i] == ElaborateOperation(pairs[i])
  {
    if pairs == [] then []
    else
      assert forall i :: 0 < i < |pairs| ==> pairs[i] == pairs[1..][i - 1];
      [ElaborateOperation(pairs[0])] + ElaboratePairs(pairs[1..])
  }

  function ElaborateOperand(o: Operand): Expression {
    match o
    case Name(name) => Atom(name)
    case Paren(inner) => Elaborate(inner)
    case Bang(operand) => Not(ElaborateOperand(operand))
    case Suffixed(operand, Question) => Try(ElaborateOperand(operand))
    case Suffixed(operand, Dot(name)) => Field(ElaborateOperand(operand), name)
    case Suffixed(operand, Arguments(arguments)) => Call(ElaborateOperand(operand), ElaborateAll(arguments))
  }

  function ElaborateAll(all: seq<Operations>): (r: seq<Expression>)
    ensures |r| == |all| && forall i :: 0 <= i < |all| ==> r[i] == Elaborate(all[i])
  {
    if all == [] then []
    else
      assert forall i :: 0 < i < |all| ==> all[i] == all[1..][i - 1];
      [Elaborate(all[0])] + ElaborateAll(all[1..])
  }

  /** The parser. */
  function Parse(ts: seq<Token>): Option<Expression> {
    match ParseOperations(ts)
    case None => None
    case Some((s, rest)) => if rest == [] then Some(Elaborate(s)) else None
  }

  // ----- The formatter -----

  predicate NeedsParens(operand: Expression, parent: Operator) {
    operand.Binary? && Priority(operand.operator) < Priority(parent)
  }

  function Enclosed(ts: seq<Token>): seq<Token> {
    [OpenToken] + ts + [CloseToken]
  }

  function Print(e: Expression): seq<Token>
    decreases e, 0
  {
    match e
    case Atom(name) => [NameToken(name)]
    case Binary(operator, left, right) =>
      PrintOperand(left, operator) + [OperatorToken(operator)] + PrintOperand(right, operator)
    case Not(operand) => [BangToken] + PrintUnary(operand)
    case Try(operand) => PrintUnary(operand) + [QuestionToken]
    case Field(record, name) => Print(record) + [DotToken, NameToken(name)]
    case Call(callee, arguments) => Print(callee) + Enclosed(PrintAll(arguments))
  }

  function PrintUnary(operand: Expression): seq<Token>
    decreases operand, 1
  {
    if operand.Binary? then Enclosed(Print(operand)) else Print(operand)
  }

  function PrintOperand(operand: Expression, parent: Operator): seq<Token>
    decreases operand, 1
  {
    if NeedsParens(operand, parent) then Enclosed(Print(operand)) else Print(operand)
  }

  function PrintAll(es: seq<Expression>): seq<Token>
    decreases es, 0
  {
    if es == [] then []
    else if |es| == 1 then Print(es[0])
    else Print(es[0]) + [CommaToken] + PrintAll(es[1..])
  }

  // ----- Spelling -----

  /** Suffixes follow operands that are not prefixed. */
  predicate WellFormed(s: Operations) {
    && WellFormedOperand(s.first)
    && forall i :: 0 <= i < |s.rest| ==> WellFormedOperation(s.rest[i])
  }

  predicate WellFormedOperation(o: Operation) {
    match o
    case Operation(_, operand) => WellFormedOperand(operand)
  }

  predicate WellFormedOperand(o: Operand) {
    match o
    case Name(_) => true
    case Paren(inner) => WellFormed(inner)
    case Bang(operand) => WellFormedOperand(operand)
    case Suffixed(operand, suffix) =>
      && !operand.Bang? && WellFormedOperand(operand)
      && (suffix.Arguments? ==> forall i :: 0 <= i < |suffix.arguments| ==> WellFormed(suffix.arguments[i]))
  }

  function Spell(s: Operations): (ts: seq<Token>)
    ensures |ts| > 0 && !ts[0].CloseToken?
  {
    SpellOperand(s.first) + SpellPairs(s.rest)
  }

  function SpellPairs(pairs: seq<Operation>): seq<Token> {
    if pairs == [] then [] else SpellOperation(pairs[0]) + SpellPairs(pairs[1..])
  }

  function SpellOperation(o: Operation): (ts: seq<Token>)
    ensures |ts| > 0 && ts[0] == OperatorToken(o.operator)
  {
    match o
    case Operation(operator, operand) => [OperatorToken(operator)] + SpellOperand(operand)
  }

  function SpellOperand(o: Operand): (ts: seq<Token>)
    ensures |ts| > 0 && !ts[0].CloseToken?
  {
    match o
    case Name(name) => [NameToken(name)]
    case Paren(inner) => Enclosed(Spell(inner))
    case Bang(operand) => [BangToken] + SpellOperand(operand)
    case Suffixed(operand, suffix) => SpellOperand(operand) + SpellSuffix(suffix)
  }

  function SpellSuffix(suffix: Suffix): seq<Token> {
    match suffix
    case Question => [QuestionToken]
    case Dot(name) => [DotToken, NameToken(name)]
    case Arguments(arguments) => Enclosed(SpellAll(arguments))
  }

  function SpellAll(all: seq<Operations>): seq<Token> {
    if all == [] then []
    else if |all| == 1 then Spell(all[0])
    else Spell(all[0]) + [CommaToken] + SpellAll(all[1..])
  }

  predicate StartsSuffix(ts: seq<Token>) {
    ts != [] && (ts[0].QuestionToken? || ts[0].DotToken? || ts[0].OpenToken?)
  }

  predicate StartsMore(ts: seq<Token>) {
    StartsSuffix(ts) || (ts != [] && ts[0].OperatorToken?)
  }

  /** The parser reads back whatever is spelled. */
  lemma {:induction false} ParsesOperations(s: Operations, rest: seq<Token>)
    requires WellFormed(s) && !StartsMore(rest)
    ensures ParseOperations(Spell(s) + rest) == Some((s, rest))
    decreases s, 2
  {
    hide ParsePairs, ParseOperand, SpellPairs, SpellOperand;
    var more := SpellPairs(s.rest) + rest;
    PairsDoNotStartSuffix(s.rest, rest);
    ParsesOperand(s.first, more);
    ParsesPairs(s.rest, rest);
    assert Spell(s) + rest == SpellOperand(s.first) + more;
  }

  lemma PairsDoNotStartSuffix(pairs: seq<Operation>, rest: seq<Token>)
    requires !StartsSuffix(rest)
    ensures !StartsSuffix(SpellPairs(pairs) + rest)
  {
    if pairs == [] {
      assert SpellPairs(pairs) + rest == rest;
    } else {
      assert SpellPairs(pairs) + rest == SpellOperation(pairs[0]) + (SpellPairs(pairs[1..]) + rest);
    }
  }

  lemma {:induction false} ParsesPairs(pairs: seq<Operation>, rest: seq<Token>)
    requires forall i :: 0 <= i < |pairs| ==> WellFormedOperation(pairs[i])
    requires !StartsMore(rest)
    ensures ParsePairs(SpellPairs(pairs) + rest) == Some((pairs, rest))
    decreases pairs
  {
    hide ParseOperand, SpellOperation, WellFormedOperation;
    if pairs == [] {
      assert SpellPairs(pairs) + rest == rest;
    } else {
      var more := SpellPairs(pairs[1..]) + rest;
      var ts := SpellOperation(pairs[0]) + more;
      assert SpellPairs(pairs) + rest == ts;
      PairsDoNotStartSuffix(pairs[1..], rest);
      ParsesOperation(pairs[0], more);
      ParsesPairs(pairs[1..], rest);
      assert ts[0] == OperatorToken(pairs[0].operator);
      hide SpellPairs;
      assert ParsePairs(ts) == Some(([Operation(pairs[0].operator, pairs[0].operand)] + pairs[1..], rest));
      assert [pairs[0]] + pairs[1..] == pairs;
    }
  }

  lemma {:induction false} ParsesOperation(o: Operation, rest: seq<Token>)
    requires WellFormedOperation(o) && !StartsSuffix(rest)
    ensures ParseOperand((SpellOperation(o) + rest)[1..]) == Some((o.operand, rest))
    decreases o, 2
  {
    match o
    case Operation(operator, operand) =>
      ParsesOperand(operand, rest);
      assert (SpellOperation(o) + rest)[1..] == SpellOperand(operand) + rest;
  }

  lemma {:induction false} ParsesOperand(o: Operand, rest: seq<Token>)
    requires WellFormedOperand(o) && !StartsSuffix(rest)
    ensures ParseOperand(SpellOperand(o) + rest) == Some((o, rest))
    decreases o, 1
  {
    if o.Bang? {
      ParsesOperand(o.operand, rest);
      assert (SpellOperand(o) + rest)[1..] == SpellOperand(o.operand) + rest;
    } else {
      ParsesSuffixed(o, rest);
    }
  }

  /** Reading an operand without prefix leaves the suffixes that follow it to be read. */
  lemma {:induction false} ParsesSuffixed(o: Operand, rest: seq<Token>)
    requires WellFormedOperand(o) && !o.Bang?
    ensures ParseOperand(SpellOperand(o) + rest) == ParseSuffixes(o, rest)
    decreases o, 0
  {
    hide ParseSuffixes, ParseOperations;
    var ts := SpellOperand(o) + rest;
    match o
    case Name(name) =>
      assert ts[1..] == rest;
    case Paren(inner) =>
      ParsesOperations(inner, [CloseToken] + rest);
      assert ts[1..] == Spell(inner) + ([CloseToken] + rest);
      assert ([CloseToken] + rest)[1..] == rest;
    case Suffixed(operand, suffix) =>
      var more := SpellSuffix(suffix) + rest;
      assert ts == SpellOperand(operand) + more;
      hide ParseOperand;
      ParsesSuffixed(operand, more);
      ParsesSuffix(operand, suffix, rest);
  }

  lemma {:induction false} ParsesSuffix(o: Operand, suffix: Suffix, rest: seq<Token>)
    requires suffix.Arguments? ==> forall i :: 0 <= i < |suffix.arguments| ==> WellFormed(suffix.arguments[i])
    ensures ParseSuffixes(o, SpellSuffix(suffix) + rest) == ParseSuffixes(Suffixed(o, suffix), rest)
    decreases suffix
  {
    hide ParseArguments;
    var more := SpellSuffix(suffix) + rest;
    match suffix
    case Question =>
      assert more[1..] == rest;
    case Dot(name) =>
      assert more[1] == NameToken(name) && more[2..] == rest;
    case Arguments(arguments) =>
      ParsesArguments(arguments, rest);
      assert more[1..] == SpellAll(arguments) + [CloseToken] + rest;
  }

  lemma {:induction false} ParsesArguments(all: seq<Operations>, rest: seq<Token>)
    requires forall i :: 0 <= i < |all| ==> WellFormed(all[i])
    ensures ParseArguments(SpellAll(all) + [CloseToken] + rest) == Some((all, rest))
    decreases all, 3
  {
    var ts := SpellAll(all) + [CloseToken] + rest;
    if all == [] {
      assert ts[1..] == rest;
    } else if |all| == 1 {
      var more := [CloseToken] + rest;
      ParsesOperations(all[0], more);
      assert ts == Spell(all[0]) + more;
      assert more[1..] == rest && [all[0]] == all;
    } else {
      var more := [CommaToken] + (SpellAll(all[1..]) + [CloseToken] + rest);
      ParsesOperations(all[0], more);
      ParsesArguments(all[1..], rest);
      assert ts == Spell(all[0]) + more;
      assert more[1..] == SpellAll(all[1..]) + [CloseToken] + rest;
      assert [all[0]] + all[1..] == all;
    }
  }

  /** Spelling is unambiguous. */
  lemma SpellIsInjective(a: Operations, b: Operations)
    requires WellFormed(a) && WellFormed(b) && Spell(a) == Spell(b)
    ensures a == b
  {
    ParsesOperations(a, []);
    ParsesOperations(b, []);
  }
}
