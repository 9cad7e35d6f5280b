/** Building documents while comments are drained. */
module Building {
  import opened Documents
  import opened Comments

  // ----- Sequences of documents -----

  lemma AllSplit(ds: seq<Document>)
    requires ds != []
    ensures NotesOfAll(ds) == NotesOf(ds[0]) + NotesOfAll(ds[1..])
    ensures TextOfAll(ds) == TextOf(ds[0]) + TextOfAll(ds[1..])
  {
  }

  lemma {:induction false} AllSnoc(ds: seq<Document>, d: Document)
    ensures NotesOfAll(ds + [d]) == NotesOfAll(ds) + NotesOf(d)
    ensures TextOfAll(ds + [d]) == TextOfAll(ds) + TextOf(d)
    ensures CountAllLines(ds + [d]) == CountAllLines(ds) + CountLines(d)
    decreases |ds|
  {
    hide NotesOf, TextOf, CountLines;
    if ds == [] {
      assert ds + [d] == [d] && [d][1..] == [];
      assert NotesOfAll([d]) == NotesOf(d) + [] && TextOfAll([d]) == TextOf(d) + "";
    } else {
      assert (ds + [d])[0] == ds[0] && (ds + [d])[1..] == ds[1..] + [d];
      AllSnoc(ds[1..], d);
      AllSplit(ds + [d]);
    }
  }

  lemma {:induction false} WellNotedSnoc(ds: seq<Document>, d: Document)
    requires AllWellNoted(ds) && WellNoted(d)
    ensures AllWellNoted(ds + [d])
    decreases |ds|
  {
    if ds == [] {
      assert ds + [d] == [d] && [d][1..] == [];
    } else if ds[0].Note? {
      assert (ds + [d])[2..] == ds[2..] + [d];
      WellNotedSnoc(ds[2..], d);
    } else {
      assert (ds + [d])[1..] == ds[1..] + [d];
      WellNotedSnoc(ds[1..], d);
    }
  }

  lemma Units<T>(x: seq<T>)
    ensures [] + x == x && x + [] == x
  {
  }

  lemma SingleFacts(a: Document)
    ensures NotesOfAll([a]) == NotesOf(a) && TextOfAll([a]) == TextOf(a) && CountAllLines([a]) == CountLines(a)
    ensures WellNoted(a) ==> AllWellNoted([a])
  {
    hide NotesOf, TextOf, CountLines;
    assert [a][1..] == [];
    Units(NotesOf(a));
    Units(TextOf(a));
  }

  lemma AddedFacts(ds: seq<Document>, d: Document)
    ensures NotesOf(Sequence(ds + [d])) == NotesOf(Sequence(ds)) + NotesOf(d)
    ensures TextOf(Sequence(ds + [d])) == TextOf(Sequence(ds)) + TextOf(d)
    ensures CountLines(Sequence(ds + [d])) == CountLines(Sequence(ds)) + CountLines(d)
    ensures WellNoted(Sequence(ds)) && WellNoted(d) ==> WellNoted(Sequence(ds + [d]))
  {
    AllSnoc(ds, d);
    if AllWellNoted(ds) && WellNoted(d) {
      WellNotedSnoc(ds, d);
    }
  }

  lemma PairFacts(a: Document, b: Document)
    ensures NotesOf(Sequence([a, b])) == NotesOf(a) + NotesOf(b)
    ensures TextOf(Sequence([a, b])) == TextOf(a) + TextOf(b)
    ensures WellNoted(a) && WellNoted(b) ==> WellNoted(Sequence([a, b]))
  {
    SingleFacts(a);
    AddedFacts([a], b);
    assert [a] + [b] == [a, b];
  }

  function Cat2(a: Document, b: Document): (r: Document)
    ensures r == Sequence([a, b])
    ensures NotesOf(r) == NotesOf(a) + NotesOf(b)
    ensures TextOf(r) == TextOf(a) + TextOf(b)
    ensures WellNoted(a) && WellNoted(b) ==> WellNoted(r)
  {
    PairFacts(a, b);
    Sequence([a, b])
  }

  function Cat3(a: Document, b: Document, c: Document): (r: Document)
    ensures r == Sequence([a, b, c])
    ensures NotesOf(r) == NotesOf(a) + NotesOf(b) + NotesOf(c)
    ensures TextOf(r) == TextOf(a) + TextOf(b) + TextOf(c)
    ensures WellNoted(a) && WellNoted(b) && WellNoted(c) ==> WellNoted(r)
  {
    var _ := Cat2(a, b);
    AddedFacts([a, b], c);
    assert [a, b] + [c] == [a, b, c];
    Sequence([a, b, c])
  }

  function Cat4(a: Document, b: Document, c: Document, d: Document): (r: Document)
    ensures r == Sequence([a, b, c, d])
    ensures NotesOf(r) == NotesOf(a) + NotesOf(b) + NotesOf(c) + NotesOf(d)
    ensures TextOf(r) == TextOf(a) + TextOf(b) + TextOf(c) + TextOf(d)
    ensures WellNoted(a) && WellNoted(b) && WellNoted(c) && WellNoted(d) ==> WellNoted(r)
  {
    var _ := Cat3(a, b, c);
    AddedFacts([a, b, c], d);
    assert [a, b, c] + [d] == [a, b, c, d];
    Sequence([a, b, c, d])
  }

  function Cat5(a: Document, b: Document, c: Document, d: Document, e: Document): (r: Document)
    ensures r == Sequence([a, b, c, d, e])
    ensures NotesOf(r) == NotesOf(a) + NotesOf(b) + NotesOf(c) + NotesOf(d) + NotesOf(e)
    ensures TextOf(r) == TextOf(a) + TextOf(b) + TextOf(c) + TextOf(d) + TextOf(e)
    ensures WellNoted(a) && WellNoted(b) && WellNoted(c) && WellNoted(d) && WellNoted(e) ==> WellNoted(r)
  {
    var _ := Cat4(a, b, c, d);
    AddedFacts([a, b, c, d], e);
    assert [a, b, c, d] + [e] == [a, b, c, d, e];
    Sequence([a, b, c, d, e])
  }

  function Cat6(a: Document, b: Document, c: Document, d: Document, e: Document, f: Document): (r: Document)
    ensures r == Sequence([a, b, c, d, e, f])
    ensures NotesOf(r) == NotesOf(a) + NotesOf(b) + NotesOf(c) + NotesOf(d) + NotesOf(e) + NotesOf(f)
    ensures TextOf(r) == TextOf(a) + TextOf(b) + TextOf(c) + TextOf(d) + TextOf(e) + TextOf(f)
    ensures WellNoted(a) && WellNoted(b) && WellNoted(c) && WellNoted(d) && WellNoted(e) && WellNoted(f) ==> WellNoted(r)
  {
    var _ := Cat5(a, b, c, d, e);
    AddedFacts([a, b, c, d, e], f);
    assert [a, b, c, d, e] + [f] == [a, b, c, d, e, f];
    Sequence([a, b, c, d, e, f])
  }

  // ----- Documents that come with drained comments -----

  /** The document contains the comments that have been drained, which are the first ones. */
  ghost predicate Emits(before: seq<Comment>, d: Document, after: seq<Comment>) {
    && WellNoted(d)
    && |after| <= |before| && before[|before| - |after|..] == after
    && NotesOf(d) == Texts(before[..|before| - |after|])
    && forall i :: 0 <= i < |before| - |after| ==> before[i].lineNumber < MAX_LINE
  }

  /** A document without comments. */
  predicate Quiet(d: Document) {
    WellNoted(d) && NotesOf(d) == []
  }

  lemma QuietEmits(d: Document, comments: seq<Comment>)
    requires Quiet(d)
    ensures Emits(comments, d, comments)
  {
  }

  lemma EmitsThen(r0: seq<Comment>, a: Document, r1: seq<Comment>, b: Document, r2: seq<Comment>, d: Document)
    requires Emits(r0, a, r1) && Emits(r1, b, r2) && WellNoted(d) && NotesOf(d) == NotesOf(a) + NotesOf(b)
    ensures Emits(r0, d, r2)
  {
    hide NotesOf, WellNoted;
    var m, n := |r0| - |r1|, |r1| - |r2|;
    assert forall i :: 0 <= i < |r1| ==> r1[i] == r0[m + i];
    assert r0[m..][n..] == r0[m + n..];
    assert r0[..m + n] == r0[..m] + r1[..n];
    assert Texts(r0[..m + n]) == Texts(r0[..m]) + Texts(r1[..n]);
    forall i | 0 <= i < m + n ensures r0[i].lineNumber < MAX_LINE {
      if i >= m {
        assert r0[i] == r1[i - m];
      }
    }
  }

  lemma EmitsCat2(r0: seq<Comment>, a: Document, r1: seq<Comment>, b: Document, r2: seq<Comment>)
    requires Emits(r0, a, r1) && Emits(r1, b, r2)
    ensures Emits(r0, Cat2(a, b), r2)
  {
    hide NotesOf, WellNoted, TextOf;
    EmitsThen(r0, a, r1, b, r2, Cat2(a, b));
  }

  lemma EmitsCat3(r0: seq<Comment>, a: Document, r1: seq<Comment>, b: Document, r2: seq<Comment>, c: Document, r3: seq<Comment>)
    requires Emits(r0, a, r1) && Emits(r1, b, r2) && Emits(r2, c, r3)
    ensures Emits(r0, Cat3(a, b, c), r3)
  {
    hide NotesOf, WellNoted, TextOf;
    EmitsCat2(r0, a, r1, b, r2);
    EmitsThen(r0, Cat2(a, b), r2, c, r3, Cat3(a, b, c));
  }

  lemma EmitsCat4(r0: seq<Comment>, a: Document, r1: seq<Comment>, b: Document, r2: seq<Comment>, c: Document,
                  r3: seq<Comment>, d: Document, r4: seq<Comment>)
    requires Emits(r0, a, r1) && Emits(r1, b, r2) && Emits(r2, c, r3) && Emits(r3, d, r4)
    ensures Emits(r0, Cat4(a, b, c, d), r4)
  {
    hide NotesOf, WellNoted, TextOf;
    EmitsCat3(r0, a, r1, b, r2, c, r3);
    EmitsThen(r0, Cat3(a, b, c), r3, d, r4, Cat4(a, b, c, d));
  }

  lemma EmitsCat5(r0: seq<Comment>, a: Document, r1: seq<Comment>, b: Document, r2: seq<Comment>, c: Document,
                  r3: seq<Comment>, d: Document, r4: seq<Comment>, e: Document, r5: seq<Comment>)
    requires Emits(r0, a, r1) && Emits(r1, b, r2) && Emits(r2, c, r3) && Emits(r3, d, r4) && Emits(r4, e, r5)
    ensures Emits(r0, Cat5(a, b, c, d, e), r5)
  {
    hide NotesOf, WellNoted, TextOf;
    EmitsCat4(r0, a, r1, b, r2, c, r3, d, r4);
    EmitsThen(r0, Cat4(a, b, c, d), r4, e, r5, Cat5(a, b, c, d, e));
  }

  lemma EmitsCat6(r0: seq<Comment>, a: Document, r1: seq<Comment>, b: Document, r2: seq<Comment>, c: Document,
                  r3: seq<Comment>, d: Document, r4: seq<Comment>, e: Document, r5: seq<Comment>, f: Document,
                  r6: seq<Comment>)
    requires Emits(r0, a, r1) && Emits(r1, b, r2) && Emits(r2, c, r3) && Emits(r3, d, r4) && Emits(r4, e, r5) && Emits(r5, f, r6)
    ensures Emits(r0, Cat6(a, b, c, d, e, f), r6)
  {
    hide NotesOf, WellNoted, TextOf;
    EmitsCat5(r0, a, r1, b, r2, c, r3, d, r4, e, r5);
    EmitsThen(r0, Cat5(a, b, c, d, e), r5, f, r6, Cat6(a, b, c, d, e, f));
  }

  /** Adds a document to a sequence, after a separator unless it is the first one. */
  function Added(ds: seq<Document>, separator: Document, d: Document): (r: seq<Document>)
    ensures r != []
  {
    if ds == [] then [d] else ds + [separator] + [d]
  }

  lemma EmitsAdded(r0: seq<Comment>, ds: seq<Document>, r1: seq<Comment>, separator: Document, d: Document, r2: seq<Comment>)
    requires Emits(r0, Sequence(ds), r1) && Emits(r1, d, r2) && Quiet(separator)
    ensures Emits(r0, Sequence(Added(ds, separator, d)), r2)
    ensures TextOfAll(Added(ds, separator, d)) == Separated(TextOfAll(ds), ds == [], TextOf(separator), TextOf(d))
  {
    if ds == [] {
      SingleFacts(d);
      Units(NotesOf(d));
      EmitsThen(r0, Sequence(ds), r1, d, r2, Sequence([d]));
    } else {
      AddedFacts(ds, separator);
      AddedFacts(ds + [separator], d);
      Units(NotesOf(Sequence(ds)));
      EmitsThen(r0, Sequence(ds), r1, d, r2, Sequence(ds + [separator] + [d]));
    }
  }

  lemma EmitsSnoc(r0: seq<Comment>, ds: seq<Document>, r1: seq<Comment>, d: Document, r2: seq<Comment>)
    requires Emits(r0, Sequence(ds), r1) && Emits(r1, d, r2)
    ensures Emits(r0, Sequence(ds + [d]), r2)
    ensures TextOfAll(ds + [d]) == TextOfAll(ds) + TextOf(d)
    ensures CountAllLines(ds + [d]) == CountAllLines(ds) + CountLines(d)
  {
    AddedFacts(ds, d);
    EmitsThen(r0, Sequence(ds), r1, d, r2, Sequence(ds + [d]));
  }

  // ----- Comments -----

  /** A comment on its own line; an empty line follows if there is one before the next line. */
  function CommentDocument(comment: Comment, next: nat): (d: Document)
    ensures NotesOf(d) == [TrimEnd(comment.line)] && TextOf(d) == "" && WellNoted(d) && CountLines(d) > 0
  {
    var note, end := Note(TrimEnd(comment.line)), if comment.lineNumber + 1 < next then Line else Empty();
    var newLine := Break(true, Line);
    PairFacts(note, newLine);
    AddedFacts([note, newLine], end);
    assert [note, newLine] + [end] == [note, newLine, end];
    CommentFacts(note, end);
    Sequence([note, newLine, end])
  }

  lemma CommentFacts(note: Document, end: Document)
    requires note.Note? && (end == Line || end == Empty())
    ensures var d := Sequence([note, Break(true, Line), end]);
            WellNoted(d) && CountLines(d) > 0 && NotesOf(d) == [note.comment]
  {
    var ds := [note, Break(true, Line), end];
    assert ds[2..] == [end] && ds[1..] == [ds[1], end] && ds[1..][1..] == [end] && [end][1..] == [];
    SingleFacts(end);
    assert AllWellNoted([end]);
    assert CountLines(ds[1]) == 1;
    assert CountAllLines(ds[1..]) == 1 + CountAllLines([end]);
    SingleFacts(end);
    AllSplit(ds[1..]);
    AllSplit(ds);
    assert NotesOf(end) == [] && NotesOf(Line) == [] && NotesOf(ds[1]) == NotesOf(Line);
    Units(NotesOf(note));
  }

  /** Comments on their own lines, up to the line of what follows them. */
  function CompileAllComments(comments: seq<Comment>, last: nat): (d: Document)
    ensures NotesOf(d) == Texts(comments) && TextOf(d) == "" && WellNoted(d)
    ensures CountLines(d) == 0 <==> comments == []
  {
    CommentDocumentsFacts(comments, last);
    Sequence(CommentDocuments(comments, last))
  }

  function CommentDocuments(comments: seq<Comment>, last: nat): seq<Document> {
    if comments == [] then []
    else
      [CommentDocument(comments[0], if |comments| > 1 then comments[1].lineNumber else last)]
      + CommentDocuments(comments[1..], last)
  }

  lemma {:induction false} CommentDocumentsFacts(comments: seq<Comment>, last: nat)
    ensures var ds := CommentDocuments(comments, last);
            && NotesOfAll(ds) == Texts(comments) && TextOfAll(ds) == "" && AllWellNoted(ds)
            && (CountAllLines(ds) == 0 <==> comments == [])
  {
    if comments != [] {
      CommentDocumentsFacts(comments[1..], last);
      var d := CommentDocument(comments[0], if |comments| > 1 then comments[1].lineNumber else last);
      var ds := CommentDocuments(comments, last);
      assert ds == [d] + CommentDocuments(comments[1..], last);
      assert ds[0] == d && ds[1..] == CommentDocuments(comments[1..], last);
      assert !d.Note?;
      hide CommentDocument, CommentDocuments;
      assert Texts(comments) == [TrimEnd(comments[0].line)] + Texts(comments[1..]);
      assert "" + "" == "";
    }
  }

  function SuffixDocuments(comments: seq<Comment>): seq<Document> {
    if comments == [] then [] else [LineSuffix(TrimEnd(comments[0].line))] + SuffixDocuments(comments[1..])
  }

  lemma {:induction false} SuffixDocumentsFacts(comments: seq<Comment>)
    ensures var ds := SuffixDocuments(comments);
            NotesOfAll(ds) == Texts(comments) && TextOfAll(ds) == "" && AllWellNoted(ds)
  {
    if comments != [] {
      SuffixDocumentsFacts(comments[1..]);
      var d := LineSuffix(TrimEnd(comments[0].line));
      var ds := SuffixDocuments(comments);
      assert ds[0] == d && ds[1..] == SuffixDocuments(comments[1..]);
      assert Texts(comments) == [TrimEnd(comments[0].line)] + Texts(comments[1..]);
      assert "" + "" == "";
    }
  }

  /** The comments before a line, and those up to and on it. */
  function BlockComment(comments: seq<Comment>, line: nat): Document {
    CompileAllComments(comments[..Before(comments, line)], line)
  }

  function SuffixComment(comments: seq<Comment>, line: Position): Document {
    Sequence(SuffixDocuments(comments[..Before(comments, line + 1)]))
  }

  method CompileBlockComment(context: Context, line: Position) returns (d: Document)
    modifies context
    ensures Emits(old(context.comments), d, context.comments) && TextOf(d) == ""
    ensures d == BlockComment(old(context.comments), line)
    ensures context.comments == old(context.comments)[Before(old(context.comments), line)..]
  {
    var drained := context.DrainCommentsBefore(line);
    assert old(context.comments)[..|drained|] == drained;
    assert old(context.comments)[|drained|..] == context.comments;
    d := CompileAllComments(drained, line);
  }

  method CompileSuffixComment(context: Context, line: Position) returns (d: Document)
    modifies context
    ensures Emits(old(context.comments), d, context.comments) && TextOf(d) == ""
    ensures d == SuffixComment(old(context.comments), line)
    ensures context.comments == old(context.comments)[Before(old(context.comments), line + 1)..]
  {
    var drained := context.DrainCurrentComment(line);
    assert old(context.comments)[..|drained|] == drained;
    assert old(context.comments)[|drained|..] == context.comments;
    SuffixDocumentsFacts(drained);
    d := Sequence(SuffixDocuments(drained));
  }
}
