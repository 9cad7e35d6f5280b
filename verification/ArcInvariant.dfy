/** The inductive invariant of reference counts, and its preservation by every step. */
module ArcInvariant {
  import opened Sums
  import opened ArcMemory

  /** The references of threads that have not seen past write `i`. */
  function Behind(i: nat): Thread -> nat {
    (th: Thread) => if th.seen <= i then th.handles else 0
  }

  predicate Active(th: Thread) {
    th.handles > 0 || !th.pc.Ready?
  }

  predicate IsShared(s: State, i: int) {
    s.sharedFrom.Some? && s.sharedFrom.value <= i
  }

  /** Every write encodes its number of references, and is neither out of range nor static. */
  predicate WritesOk(s: State) {
    && |s.writes| > 0
    && (s.sharedFrom.Some? ==> s.sharedFrom.value < |s.writes|)
    && (forall i :: 0 <= i < |s.writes| ==>
          && s.writes[i].references < LIMIT
          && s.writes[i].count == (if IsShared(s, i) then 0 - s.writes[i].references else s.writes[i].references - 1)
          && (i < |s.writes| - 1 || s.sharedFrom.None? ==> s.writes[i].references > 0))
  }

  /** Only the last writer and whoever learned from it have seen past an old write. */
  ghost predicate BehindOk(s: State) {
    forall i :: 0 <= i < |s.writes| - 1 ==> Total(s.threads, Behind(i)) < s.writes[i].references
  }

  predicate Dying(s: State) {
    s.destroyed == 1 || exists t :: 0 <= t < |s.threads| && s.threads[t].pc.Destroying?
  }

  predicate TotalOk(s: State)
    requires WritesOk(s)
  {
    var total := Total(s.threads, Handles);
    && s.destroyed <= 1
    && (total > 0 ==> total == Last(s).references && !Dying(s))
    && (total == 0 ==> Dying(s) && Last(s).references <= 1 && (s.sharedFrom.Some? ==> Last(s).references == 0))
    && (s.destroyed == 1 ==> forall t :: 0 <= t < |s.threads| ==> s.threads[t].pc.Ready?)
  }

  predicate ThreadOk(s: State, t: nat)
    requires WritesOk(s) && t < |s.threads|
  {
    var th := s.threads[t];
    && th.seen < |s.writes|
    && (Active(th) && !th.pc.Destroying? ==> if s.sharedFrom.Some? then th.seen >= s.sharedFrom.value else th.seen == |s.writes| - 1)
    && (th.pc.Cloning? || th.pc.Dropping? || th.pc.Synchronizing? ==>
          && th.handles > 0
          && if s.sharedFrom.Some? then STATIC_COUNT < th.pc.count < 0 else th.pc.count == Last(s).count)
    && (th.pc.Destroying? ==> s.accesses <= th.view && th.handles == 0)
    && (s.sharedFrom.None? && Active(th) ==> s.accesses <= th.view)
  }

  /** A local block has a single owner, and only one thread can be destroying. */
  predicate OwnersOk(s: State) {
    forall t, u ::
      0 <= t < |s.threads| && 0 <= u < |s.threads| && Active(s.threads[t]) && Active(s.threads[u])
      && (s.sharedFrom.None? || s.threads[t].pc.Destroying?)
      ==> t == u
  }

  /** Every access has been released into the count or is still known to an owner. */
  predicate AccessesOk(s: State)
    requires WritesOk(s)
  {
    forall e :: e in s.accesses && e !in Last(s).view && !Dying(s) ==>
                exists t :: 0 <= t < |s.threads| && s.threads[t].handles > 0 && e in s.threads[t].view
  }

  ghost predicate Inv(s: State) {
    && WritesOk(s)
    && BehindOk(s)
    && TotalOk(s)
    && (forall t :: 0 <= t < |s.threads| ==> ThreadOk(s, t))
    && OwnersOk(s)
    && AccessesOk(s)
  }

  lemma {:induction false} BehindAtMost(threads: seq<Thread>, i: nat)
    ensures Total(threads, Behind(i)) <= Total(threads, Handles)
  {
    if threads != [] {
      BehindAtMost(threads[1..], i);
    }
  }

  lemma InitNewInv(s: State)
    requires InitNew(s)
    ensures Inv(s)
  {
    TotalZero(s.threads, Handles);
    forall t, u | 0 <= t < |s.threads| && 0 <= u < |s.threads| && Active(s.threads[t]) && Active(s.threads[u]) ensures t == u {
      TotalCovers(s.threads, t, u, Handles);
    }
  }

  /** A thread in the middle of an operation, or with references left, keeps the block alive. */
  lemma Alive(s: State, t: nat)
    requires Inv(s) && t < |s.threads| && s.threads[t].handles > 0
    ensures !Dying(s) && Total(s.threads, Handles) == Last(s).references > 0
    ensures forall u :: 0 <= u < |s.threads| ==> !s.threads[u].pc.Destroying?
  {
    TotalCovers(s.threads, t, t, Handles);
  }

  /** Loading the count: the thread learns about a newer write and remembers what it read. */
  predicate Loads(s: State, s': State, t: nat, k: nat) {
    && t < |s.threads| && s.threads[t].pc.Ready? && s.threads[t].handles > 0 && s.threads[t].seen <= k < |s.writes|
    && |s'.threads| == |s.threads| && s' == s.(threads := s.threads[t := s'.threads[t]])
    && var th, th' := s.threads[t], s'.threads[t];
       && th'.handles == th.handles && th'.seen == k && th.view <= th'.view
       && (th'.pc.Ready? || th'.pc == Cloning(s.writes[k].count) || th'.pc == Dropping(s.writes[k].count)
           || th'.pc == Synchronizing(s.writes[k].count))
  }

  lemma LoadKeepsTotals(s: State, s': State, t: nat, k: nat)
    requires Inv(s) && Loads(s, s', t, k)
    ensures TotalOk(s') && BehindOk(s') && !Dying(s')
  {
    Alive(s, t);
    TotalUpdate(s.threads, t, s'.threads[t], Handles);
    forall i | 0 <= i < |s.writes| - 1 ensures Total(s'.threads, Behind(i)) < s.writes[i].references {
      TotalUpdate(s.threads, t, s'.threads[t], Behind(i));
    }
  }

  lemma LoadKeepsThread(s: State, s': State, t: nat, k: nat, u: nat)
    requires Inv(s) && Loads(s, s', t, k) && u < |s.threads|
    ensures ThreadOk(s', u) && Active(s'.threads[u]) == Active(s.threads[u])
  {
    Alive(s, t);
    assert ThreadOk(s, t) && ThreadOk(s, u);
    hide Inv, Total;
  }

  /** Whoever knows an access still does. */
  lemma StillKnown(s: State, s': State)
    requires Inv(s) && WritesOk(s') && !Dying(s) && s' == s.(threads := s'.threads) && |s'.threads| == |s.threads|
    requires forall u :: 0 <= u < |s.threads| ==>
               s'.threads[u].handles == s.threads[u].handles && s.threads[u].view <= s'.threads[u].view
    ensures AccessesOk(s')
  {
    assert AccessesOk(s);
    hide Inv;
    forall e | e in s.accesses && e !in Last(s).view
      ensures exists u :: 0 <= u < |s.threads| && s'.threads[u].handles > 0 && e in s'.threads[u].view
    {
      var u :| 0 <= u < |s.threads| && s.threads[u].handles > 0 && e in s.threads[u].view;
      assert s'.threads[u].handles > 0 && e in s'.threads[u].view;
    }
  }

  lemma LoadKeeps(s: State, s': State, t: nat, k: nat)
    requires Inv(s) && Loads(s, s', t, k)
    ensures Inv(s')
  {
    Alive(s, t);
    LoadKeepsTotals(s, s', t, k);
    StillKnown(s, s');
    forall u | 0 <= u < |s.threads| ensures ThreadOk(s', u) && Active(s'.threads[u]) == Active(s.threads[u]) {
      LoadKeepsThread(s, s', t, k, u);
    }
    hide ThreadOk, Active, TotalOk, BehindOk, AccessesOk, Loads, Total;
    assert OwnersOk(s');
  }

  /** Writing the count: the thread becomes the one that knows the newest write. */
  lemma WriteKeepsBehind(s: State, s': State, t: nat)
    requires Inv(s) && t < |s.threads| && s.threads[t].handles > 0
    requires |s'.writes| == |s.writes| + 1 && s'.writes[..|s.writes|] == s.writes
    requires |s'.threads| == |s.threads| && s'.threads == s.threads[t := s'.threads[t]]
    requires s'.threads[t].seen == |s.writes|
    ensures BehindOk(s')
  {
    Alive(s, t);
    forall i | 0 <= i < |s.writes| ensures Total(s'.threads, Behind(i)) < s'.writes[i].references {
      TotalUpdate(s.threads, t, s'.threads[t], Behind(i));
      if i < |s.writes| - 1 {
        assert s'.writes[i] == s.writes[i];
      } else {
        BehindAtMost(s.threads, i);
        assert ThreadOk(s, t);
      }
    }
  }

  lemma WrapSmall(x: int)
    requires -LIMIT <= x < LIMIT
    ensures Wrap(x) == x
  {
  }

  /** A write that leaves references behind. */
  lemma WriteKeeps(s: State, s': State, t: nat, write: Write, from: Option<nat>)
    requires Inv(s) && t < |s.threads| && s.threads[t].handles > 0 && !s.threads[t].pc.Ready?
    requires |s'.threads| == |s.threads| && s'.threads == s.threads[t := s'.threads[t]]
    requires s' == s.(writes := s.writes + [write], threads := s'.threads, sharedFrom := from)
    requires var th' := s'.threads[t];
             th'.pc.Ready? && th'.seen == |s.writes| && th'.view == s.threads[t].view
             && write.references == Last(s).references + th'.handles - s.threads[t].handles
    requires 0 < write.references < LIMIT
    requires from == s.sharedFrom || (s.sharedFrom.None? && from == Some(|s.writes|))
    requires write.count == if from.Some? then 0 - write.references else write.references - 1
    requires if s.sharedFrom.None? then s'.threads[t].handles > 0
             else Last(s).view <= write.view && (s'.threads[t].handles < s.threads[t].handles ==> s.threads[t].view <= write.view)
    ensures Inv(s')
  {
    Alive(s, t);
    assert ThreadOk(s, t);
    TotalUpdate(s.threads, t, s'.threads[t], Handles);
    WriteKeepsBehind(s, s', t);
    assert forall u :: 0 <= u < |s.threads| ==> !s'.threads[u].pc.Destroying?;
    assert WritesOk(s') by {
      assert forall i :: 0 <= i < |s.writes| ==> s'.writes[i] == s.writes[i];
    }
    forall u | 0 <= u < |s.threads| ensures ThreadOk(s', u) {
      assert ThreadOk(s, u);
    }
    assert OwnersOk(s') by {
      assert forall u :: 0 <= u < |s.threads| && Active(s'.threads[u]) ==> Active(s.threads[u]);
    }
    forall e | e in s'.accesses && e !in write.view
      ensures exists u :: 0 <= u < |s'.threads| && s'.threads[u].handles > 0 && e in s'.threads[u].view
    {
      var u := t;
      if s.sharedFrom.Some? {
        u :| 0 <= u < |s.threads| && s.threads[u].handles > 0 && e in s.threads[u].view;
      }
      assert s'.threads[u].handles > 0 && e in s'.threads[u].view;
    }
  }

  lemma CloneKeeps(s: State, t: nat)
    requires Inv(s) && Enabled(s, Clone(t))
    ensures Inv(Apply(s, Clone(t)))
  {
    assert ThreadOk(s, t);
    Alive(s, t);
    WrapSmall(s.threads[t].pc.count + 1);
    WrapSmall(Last(s).count - 1);
    hide Wrap, Inv;
    var write := NewWrite(s, Clone(t));
    assert write.Some?;
    WriteKeeps(s, Apply(s, Clone(t)), t, write.value, s.sharedFrom);
  }

  lemma SynchronizeKeeps(s: State, t: nat)
    requires Inv(s) && Enabled(s, Synchronize(t))
    ensures Inv(Apply(s, Synchronize(t)))
  {
    var s' := Apply(s, Synchronize(t));
    assert ThreadOk(s, t);
    Alive(s, t);
    if s.sharedFrom.None? {
      WrapSmall(SYNCHRONIZED_UNIQUE_COUNT - s.threads[t].pc.count);
      hide Wrap, Inv;
      WriteKeeps(s, s', t, NewWrite(s, Synchronize(t)).value, Some(|s.writes|));
    } else {
      assert s' == s.(threads := s.threads[t := s.threads[t].(pc := Ready)]);
      hide Apply, NewWrite, Moved;
      PauseKeeps(s, s', t);
    }
  }

  /** A synchronization that finds the block synchronized does nothing. */
  lemma PauseKeeps(s: State, s': State, t: nat)
    requires Inv(s) && t < |s.threads| && s.threads[t].pc.Synchronizing?
    requires s' == s.(threads := s.threads[t := s.threads[t].(pc := Ready)])
    ensures Inv(s')
  {
    assert ThreadOk(s, t);
    Alive(s, t);
    TotalUpdate(s.threads, t, s'.threads[t], Handles);
    forall i | 0 <= i < |s.writes| - 1 ensures Total(s'.threads, Behind(i)) < s.writes[i].references {
      TotalUpdate(s.threads, t, s'.threads[t], Behind(i));
    }
    forall u | 0 <= u < |s.threads| ensures ThreadOk(s', u) {
      assert ThreadOk(s, u);
    }
    assert forall u :: 0 <= u < |s.threads| ==> !s'.threads[u].pc.Destroying?;
    forall e | e in s'.accesses && e !in Last(s').view
      ensures exists u :: 0 <= u < |s'.threads| && s'.threads[u].handles > 0 && e in s'.threads[u].view
    {
      var u :| 0 <= u < |s.threads| && s.threads[u].handles > 0 && e in s.threads[u].view;
      assert s'.threads[u].handles > 0 && e in s'.threads[u].view;
    }
  }

  lemma DropKeeps(s: State, t: nat)
    requires Inv(s) && Enabled(s, Drop(t))
    ensures Inv(Apply(s, Drop(t)))
  {
    assert ThreadOk(s, t);
    Alive(s, t);
    WrapSmall(s.threads[t].pc.count - 1);
    WrapSmall(Last(s).count + 1);
    hide Wrap, Inv;
    if Last(s).references == 1 {
      LastDropKeeps(s, t);
    } else {
      var write := NewWrite(s, Drop(t));
      assert write.Some?;
      if s.sharedFrom.None? {
        LocalOwner(s, t);
      }
      WriteKeeps(s, Apply(s, Drop(t)), t, write.value, s.sharedFrom);
    }
  }

  /** The owner of a local block owns all of its references. */
  lemma LocalOwner(s: State, t: nat)
    requires Inv(s) && t < |s.threads| && s.threads[t].handles > 0 && s.sharedFrom.None?
    ensures s.threads[t].handles == Last(s).references
  {
    Alive(s, t);
    var rest := s.threads[t := s.threads[t].(handles := 0)];
    TotalUpdate(s.threads, t, rest[t], Handles);
    forall u | 0 <= u < |rest| ensures Handles(rest[u]) == 0 {
      assert u != t ==> !Active(s.threads[u]);
    }
    TotalZero(rest, Handles);
  }

  /** When one reference is left, no other thread owns any. */
  lemma OnlyOwner(s: State, t: nat)
    requires Inv(s) && t < |s.threads| && s.threads[t].handles > 0 && Last(s).references == 1
    ensures s.threads[t].handles == 1
    ensures forall u :: 0 <= u < |s.threads| && u != t ==> !Active(s.threads[u])
  {
    Alive(s, t);
    TotalCovers(s.threads, t, t, Handles);
    forall u | 0 <= u < |s.threads| && u != t ensures !Active(s.threads[u]) {
      TotalCovers(s.threads, t, u, Handles);
      assert ThreadOk(s, u);
    }
  }

  /** The last drop: the thread that performs it knows every access to the payload. */
  lemma LastDropKeeps(s: State, t: nat)
    requires Inv(s) && Enabled(s, Drop(t)) && Last(s).references == 1
    ensures Inv(Apply(s, Drop(t)))
  {
    var s' := Apply(s, Drop(t));
    assert ThreadOk(s, t);
    Alive(s, t);
    OnlyOwner(s, t);
    if s.sharedFrom.None? {
      hide Wrap;
      assert s' == s.(threads := s.threads[t := s.threads[t].(pc := Destroying, handles := 0)]);
      hide Apply, NewWrite, Moved;
      LastLocalDropKeeps(s, s', t);
    } else {
      WrapSmall(Last(s).count + 1);
      hide Wrap;
      var write := Write(0, Last(s).view + s.threads[t].view, 0);
      assert NewWrite(s, Drop(t)) == Some(write);
      var th' := Thread(Destroying, 0, |s.writes|, s.threads[t].view + write.view);
      assert s' == s.(writes := s.writes + [write], threads := s.threads[t := th']);
      hide Apply, NewWrite, Moved;
      LastSharedDropKeeps(s, s', t, write, th');
    }
  }

  lemma LastLocalDropKeeps(s: State, s': State, t: nat)
    requires Inv(s) && t < |s.threads| && s.threads[t].pc.Dropping? && Last(s).references == 1
    requires s' == s.(threads := s.threads[t := s.threads[t].(pc := Destroying, handles := 0)])
    requires s.sharedFrom.None?
    ensures Inv(s')
  {
    assert ThreadOk(s, t);
    Alive(s, t);
    OnlyOwner(s, t);
    TotalUpdate(s.threads, t, s'.threads[t], Handles);
    forall i | 0 <= i < |s.writes| - 1 ensures Total(s'.threads, Behind(i)) < s.writes[i].references {
      TotalUpdate(s.threads, t, s'.threads[t], Behind(i));
    }
    forall u | 0 <= u < |s.threads| ensures ThreadOk(s', u) {
      assert ThreadOk(s, u);
    }
    assert s'.threads[t].pc.Destroying?;
  }

  lemma LastSharedDropKeeps(s: State, s': State, t: nat, write: Write, th': Thread)
    requires Inv(s) && t < |s.threads| && s.threads[t].pc.Dropping? && Last(s).references == 1
    requires write == Write(0, Last(s).view + s.threads[t].view, 0)
    requires th' == Thread(Destroying, 0, |s.writes|, s.threads[t].view + write.view)
    requires s' == s.(writes := s.writes + [write], threads := s.threads[t := th'])
    requires s.sharedFrom.Some?
    ensures Inv(s')
  {
    assert ThreadOk(s, t);
    Alive(s, t);
    OnlyOwner(s, t);
    TotalUpdate(s.threads, t, th', Handles);
    WriteKeepsBehind(s, s', t);
    assert WritesOk(s') by {
      assert forall i :: 0 <= i < |s.writes| ==> s'.writes[i] == s.writes[i];
    }
    assert s'.threads[t].pc.Destroying?;
    forall e | e in s.accesses ensures e in th'.view {
      if e !in Last(s).view {
        var u :| 0 <= u < |s.threads| && s.threads[u].handles > 0 && e in s.threads[u].view;
        assert u == t;
      }
    }
    forall u | 0 <= u < |s.threads| ensures ThreadOk(s', u) {
      assert ThreadOk(s, u);
    }
  }

  lemma DropInnerKeeps(s: State, t: nat)
    requires Inv(s) && Enabled(s, DropInner(t))
    ensures Inv(Apply(s, DropInner(t)))
  {
    var s' := Apply(s, DropInner(t));
    assert ThreadOk(s, t);
    assert Dying(s);
    TotalZero(s.threads, Handles);
    TotalUpdate(s.threads, t, s'.threads[t], Handles);
    forall i | 0 <= i < |s.writes| - 1 ensures Total(s'.threads, Behind(i)) < s.writes[i].references {
      TotalUpdate(s.threads, t, s'.threads[t], Behind(i));
    }
    forall u | 0 <= u < |s.threads| ensures ThreadOk(s', u) && s'.threads[u].pc.Ready? {
      assert ThreadOk(s, u);
    }
  }

  lemma AccessKeepsTotals(s: State, t: nat, e: nat)
    requires Inv(s) && Enabled(s, Access(t, e))
    ensures TotalOk(Apply(s, Access(t, e))) && BehindOk(Apply(s, Access(t, e)))
  {
    var s' := Apply(s, Access(t, e));
    Alive(s, t);
    TotalUpdate(s.threads, t, s'.threads[t], Handles);
    forall i | 0 <= i < |s.writes| - 1 ensures Total(s'.threads, Behind(i)) < s.writes[i].references {
      TotalUpdate(s.threads, t, s'.threads[t], Behind(i));
    }
  }

  lemma AccessKeeps(s: State, t: nat, e: nat)
    requires Inv(s) && Enabled(s, Access(t, e))
    ensures Inv(Apply(s, Access(t, e)))
  {
    var s' := Apply(s, Access(t, e));
    Alive(s, t);
    AccessKeepsTotals(s, t, e);
    forall u | 0 <= u < |s.threads| ensures ThreadOk(s', u) {
      assert ThreadOk(s, u);
      assert s.sharedFrom.None? && Active(s'.threads[u]) ==> u == t;
    }
    hide Total;
    forall f | f in s'.accesses && f !in Last(s').view
      ensures exists u :: 0 <= u < |s'.threads| && s'.threads[u].handles > 0 && f in s'.threads[u].view
    {
      if f == e {
        assert s'.threads[t].handles > 0 && f in s'.threads[t].view;
      } else {
        var u :| 0 <= u < |s.threads| && s.threads[u].handles > 0 && f in s.threads[u].view;
        assert s'.threads[u].handles > 0 && f in s'.threads[u].view;
      }
    }
  }

  lemma SendKeeps(s: State, t: nat, u: nat, n: nat)
    requires Inv(s) && Enabled(s, Send(t, u, n))
    ensures Inv(Apply(s, Send(t, u, n)))
  {
    var s' := Apply(s, Send(t, u, n));
    assert ThreadOk(s, t);
    assert s.sharedFrom.Some?;
    assert HandsOver(s, s', t, u, n);
    hide Apply, NewWrite, Moved, Enabled;
    HandOver(s, s', t, u, n);
  }

  /** References of one thread go to another one, which learns what the first one knows. */
  predicate HandsOver(s: State, s': State, t: nat, u: nat, n: nat) {
    && t < |s.threads| && u < |s.threads| && t != u && s.sharedFrom.Some?
    && s.threads[t].pc.Ready? && s.threads[u].pc.Ready? && 0 < n <= s.threads[t].handles
    && var from := s.threads[t].(handles := s.threads[t].handles - n);
       var to := s.threads[u].(handles := s.threads[u].handles + n, view := s.threads[u].view + s.threads[t].view,
                               seen := if s.threads[u].seen < from.seen then from.seen else s.threads[u].seen);
       s' == s.(threads := s.threads[t := from][u := to])
  }

  lemma HandOverTotals(s: State, s': State, t: nat, u: nat, n: nat)
    requires Inv(s) && HandsOver(s, s', t, u, n)
    ensures TotalOk(s') && BehindOk(s')
  {
    Alive(s, t);
    var from, to := s'.threads[t], s'.threads[u];
    var mid := s.threads[t := from];
    TotalUpdate(s.threads, t, from, Handles);
    TotalUpdate(mid, u, to, Handles);
    forall i | 0 <= i < |s.writes| - 1 ensures Total(s'.threads, Behind(i)) < s.writes[i].references {
      TotalUpdate(s.threads, t, from, Behind(i));
      TotalUpdate(mid, u, to, Behind(i));
    }
    assert forall v :: 0 <= v < |s.threads| ==> !s'.threads[v].pc.Destroying?;
  }

  lemma HandOverThread(s: State, s': State, t: nat, u: nat, n: nat, v: nat)
    requires Inv(s) && HandsOver(s, s', t, u, n) && v < |s.threads|
    ensures ThreadOk(s', v) && !s'.threads[v].pc.Destroying?
  {
    Alive(s, t);
    assert ThreadOk(s, v) && ThreadOk(s, t);
    hide Inv, Total;
  }

  lemma HandOverAccesses(s: State, s': State, t: nat, u: nat, n: nat)
    requires Inv(s) && HandsOver(s, s', t, u, n)
    ensures WritesOk(s') && AccessesOk(s')
  {
    Alive(s, t);
    assert WritesOk(s) && AccessesOk(s);
    hide Inv, Total;
    forall e | e in s'.accesses && e !in Last(s').view
      ensures exists v :: 0 <= v < |s'.threads| && s'.threads[v].handles > 0 && e in s'.threads[v].view
    {
      var v :| 0 <= v < |s.threads| && s.threads[v].handles > 0 && e in s.threads[v].view;
      var w := if v == t then u else v;
      assert s'.threads[w].handles > 0 && e in s'.threads[w].view;
    }
  }

  lemma HandOver(s: State, s': State, t: nat, u: nat, n: nat)
    requires Inv(s) && HandsOver(s, s', t, u, n)
    ensures Inv(s')
  {
    HandOverTotals(s, s', t, u, n);
    HandOverAccesses(s, s', t, u, n);
    forall v | 0 <= v < |s.threads| ensures ThreadOk(s', v) && !s'.threads[v].pc.Destroying? {
      HandOverThread(s, s', t, u, n, v);
    }
    hide ThreadOk, TotalOk, BehindOk, AccessesOk, Total;
    assert OwnersOk(s');
  }

  lemma StepInv(s: State, a: Action)
    requires Inv(s) && Enabled(s, a)
    ensures Inv(Apply(s, a))
  {
    match a
    case LoadForClone(t, k) => LoadKeeps(s, Apply(s, a), t, k);
    case LoadForDrop(t, k) => LoadKeeps(s, Apply(s, a), t, k);
    case LoadForSynchronize(t, k) => LoadKeeps(s, Apply(s, a), t, k);
    case GetMut(t, k) => LoadKeeps(s, Apply(s, a), t, k);
    case Clone(t) => CloneKeeps(s, t);
    case Drop(t) => DropKeeps(s, t);
    case DropInner(t) => DropInnerKeeps(s, t);
    case Synchronize(t) => SynchronizeKeeps(s, t);
    case Access(t, e) => AccessKeeps(s, t, e);
    case Send(t, u, n) => SendKeeps(s, t, u, n);
  }
}
