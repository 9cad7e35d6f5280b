/** The buffer of comments that the formatter drains while it walks a module. */
module Comments {
  import opened Documents

  /** Line numbers are machine words. */
  const MAX_LINE: nat := 0xffff_ffff_ffff_ffff

  type Position = line: nat | line < MAX_LINE

  datatype Comment = Comment(line: string, lineNumber: nat)

  predicate IsSpace(c: char) {
    c == ' ' || c == '\t' || c == '\n' || c == '\r'
  }

  function TrimEnd(s: string): string {
    if s != [] && IsSpace(s[|s| - 1]) then TrimEnd(s[..|s| - 1]) else s
  }

  function Texts(comments: seq<Comment>): (r: seq<string>)
    ensures |r| == |comments|
  {
    seq(|comments|, i requires 0 <= i < |comments| => TrimEnd(comments[i].line))
  }

  // ----- Stable sorting -----

  function Insert(comment: Comment, comments: seq<Comment>): (r: seq<Comment>)
    ensures |r| == |comments| + 1
  {
    if comments == [] || comment.lineNumber <= comments[0].lineNumber then [comment] + comments
    else [comments[0]] + Insert(comment, comments[1..])
  }

  function StableSort(comments: seq<Comment>): (r: seq<Comment>)
    ensures |r| == |comments|
  {
    if comments == [] then [] else Insert(comments[0], StableSort(comments[1..]))
  }

  predicate Ordered(comments: seq<Comment>) {
    forall i, j :: 0 <= i < j < |comments| ==> comments[i].lineNumber <= comments[j].lineNumber
  }

  /** The comments of one line, in order. */
  function OnLine(comments: seq<Comment>, n: nat): seq<Comment> {
    if comments == [] then []
    else (if comments[0].lineNumber == n then [comments[0]] else []) + OnLine(comments[1..], n)
  }

  lemma OnLineCons(comment: Comment, comments: seq<Comment>, n: nat)
    ensures OnLine([comment] + comments, n) == (if comment.lineNumber == n then [comment] else []) + OnLine(comments, n)
  {
    assert ([comment] + comments)[1..] == comments;
  }

  lemma {:induction false} InsertKeepsLines(comment: Comment, comments: seq<Comment>, n: nat)
    ensures OnLine(Insert(comment, comments), n) == OnLine([comment] + comments, n)
  {
    OnLineCons(comment, comments, n);
    if comments != [] && comment.lineNumber > comments[0].lineNumber {
      InsertKeepsLines(comment, comments[1..], n);
      OnLineCons(comments[0], Insert(comment, comments[1..]), n);
      OnLineCons(comment, comments[1..], n);
      assert comments[0].lineNumber != n || comment.lineNumber != n;
      assert OnLine(comments, n) == (if comments[0].lineNumber == n then [comments[0]] else []) + OnLine(comments[1..], n);
    }
  }

  lemma {:induction false} InsertKeepsOrder(comment: Comment, comments: seq<Comment>)
    requires Ordered(comments)
    ensures Ordered(Insert(comment, comments))
    ensures forall c :: c in Insert(comment, comments) ==> c == comment || c in comments
  {
    if comments != [] && comment.lineNumber > comments[0].lineNumber {
      var rest := Insert(comment, comments[1..]);
      InsertKeepsOrder(comment, comments[1..]);
      assert forall c :: c in rest ==> c.lineNumber >= comments[0].lineNumber;
    }
  }

  /** Sorting orders comments by line and keeps the order of those on the same line. */
  lemma {:induction false} SortIsStable(comments: seq<Comment>, n: nat)
    ensures Ordered(StableSort(comments)) && OnLine(StableSort(comments), n) == OnLine(comments, n)
  {
    if comments != [] {
      hide Ordered;
      SortIsStable(comments[1..], n);
      InsertKeepsOrder(comments[0], StableSort(comments[1..]));
      InsertKeepsLines(comments[0], StableSort(comments[1..]), n);
      OnLineCons(comments[0], StableSort(comments[1..]), n);
    } else {
      assert StableSort(comments) == [];
    }
  }

  /** There is only one such order. */
  lemma {:induction false} SortIsUnique(a: seq<Comment>, b: seq<Comment>)
    requires Ordered(a) && Ordered(b) && forall n: nat :: OnLine(a, n) == OnLine(b, n)
    ensures a == b
  {
    if a == [] {
      assert b != [] ==> OnLine(b, b[0].lineNumber) != OnLine(a, b[0].lineNumber);
    } else {
      var n := a[0].lineNumber;
      assert OnLine(a, n)[0] == a[0];
      OnLineFirst(b, n);
      OnLineFirst(a, b[0].lineNumber);
      assert a[0] == b[0];
      forall n: nat ensures OnLine(a[1..], n) == OnLine(b[1..], n) {
        assert OnLine(a, n) == OnLine(b, n);
        SameTail(if a[0].lineNumber == n then [a[0]] else [], OnLine(a[1..], n), OnLine(b[1..], n));
      }
      SortIsUnique(a[1..], b[1..]);
    }
  }

  lemma SameTail<T>(x: seq<T>, a: seq<T>, b: seq<T>)
    requires x + a == x + b
    ensures a == b
  {
    assert (x + a)[|x|..] == a && (x + b)[|x|..] == b;
  }

  /** A line with comments is no earlier than the first comment. */
  lemma {:induction false} OnLineFirst(comments: seq<Comment>, n: nat)
    requires Ordered(comments) && OnLine(comments, n) != []
    ensures comments != [] && comments[0].lineNumber <= n
    ensures comments[0].lineNumber == n ==> OnLine(comments, n)[0] == comments[0]
  {
    if comments[0].lineNumber != n {
      OnLineFirst(comments[1..], n);
    }
  }

  // ----- Draining -----

  /** The number of comments before the first one on or after a line. */
  function Before(comments: seq<Comment>, line: nat): (n: nat)
    ensures n <= |comments|
    ensures forall i :: 0 <= i < n ==> comments[i].lineNumber < line
    ensures n < |comments| ==> comments[n].lineNumber >= line
  {
    if comments == [] || comments[0].lineNumber >= line then 0
    else
      assert forall i :: 0 < i < |comments| ==> comments[i] == comments[1..][i - 1];
      1 + Before(comments[1..], line)
  }

  class Context {
    var comments: seq<Comment>

    constructor (comments: seq<Comment>)
      ensures this.comments == StableSort(comments)
    {
      this.comments := StableSort(comments);
    }

    /** Removes and returns the comments before a line. */
    method DrainCommentsBefore(line: nat) returns (drained: seq<Comment>)
      modifies this
      ensures drained + comments == old(comments)
      ensures |drained| == Before(old(comments), line)
    {
      var n := 0;
      while n < |comments| && comments[n].lineNumber < line
        invariant n <= |comments| && Before(comments, line) == n + Before(comments[n..], line)
      {
        assert comments[n..][1..] == comments[n + 1..];
        n := n + 1;
      }
      drained := comments[..n];
      comments := comments[n..];
    }

    /** Removes and returns the comments up to and on a line. */
    method DrainCurrentComment(line: Position) returns (drained: seq<Comment>)
      modifies this
      ensures drained + comments == old(comments)
      ensures |drained| == Before(old(comments), line + 1)
    {
      drained := DrainCommentsBefore(line + 1);
    }

    /** The number of comments before a line, which stay in the buffer. */
    method PeekCommentsBefore(line: nat) returns (n: nat)
      ensures n == Before(comments, line)
    {
      n := 0;
      while n < |comments| && comments[n].lineNumber < line
        invariant n <= |comments| && Before(comments, line) == n + Before(comments[n..], line)
      {
        assert comments[n..][1..] == comments[n + 1..];
        n := n + 1;
      }
    }
  }
}
