/** What reference counts guarantee in every run of any number of threads. */
module ArcTheorems {
  import opened Sums
  import opened ArcMemory
  import opened ArcInvariant

  predicate IsRun(run: seq<State>, actions: seq<Action>) {
    Steps(run, actions) && InitNew(run[0])
  }

  lemma {:induction false} RunInv(run: seq<State>, actions: seq<Action>, i: nat)
    requires IsRun(run, actions) && i < |run|
    ensures Inv(run[i])
  {
    hide Apply, Enabled, Inv;
    if i == 0 {
      InitNewInv(run[0]);
    } else {
      RunInv(run, actions, i - 1);
      StepInv(run[i - 1], actions[i - 1]);
    }
  }

  /** While references are left, the count encodes their exact number and is never mistaken for static. */
  lemma CountIsExact(run: seq<State>, actions: seq<Action>, i: nat)
    requires IsRun(run, actions) && i < |run| && Total(run[i].threads, Handles) > 0
    ensures |run[i].writes| > 0
    ensures Last(run[i]).count + (if run[i].sharedFrom.Some? then Total(run[i].threads, Handles) else 1 - Total(run[i].threads, Handles)) == 0
    ensures forall k :: 0 <= k < |run[i].writes| ==> STATIC_COUNT < run[i].writes[k].count < LIMIT
    ensures IsSynchronized(Last(run[i]).count) <==> run[i].sharedFrom.Some?
  {
    RunInv(run, actions, i);
  }

  /** The payload is destroyed at most once, and by the time all threads rest, exactly when no reference is left. */
  lemma DestroyedExactlyOnce(run: seq<State>, actions: seq<Action>, i: nat)
    requires IsRun(run, actions) && i < |run|
    ensures run[i].destroyed <= 1
    ensures run[i].destroyed == 1 ==> Total(run[i].threads, Handles) == 0
    ensures (forall t :: 0 <= t < |run[i].threads| ==> run[i].threads[t].pc.Ready?) ==>
              (run[i].destroyed == 1 <==> Total(run[i].threads, Handles) == 0)
  {
    RunInv(run, actions, i);
  }

  /** The last drop knows every access to the payload, so destroying it races with nothing. */
  lemma DestructionIsLast(run: seq<State>, actions: seq<Action>, i: nat, t: nat)
    requires IsRun(run, actions) && i < |run| && Enabled(run[i], DropInner(t))
    ensures run[i].accesses <= run[i].threads[t].view
    ensures run[i].destroyed == 0 && Total(run[i].threads, Handles) == 0
    ensures forall a :: Enabled(run[i], a) ==> a == DropInner(t)
  {
    var s := run[i];
    RunInv(run, actions, i);
    assert ThreadOk(s, t);
    TotalZero(s.threads, Handles);
    forall a | Enabled(s, a) ensures a == DropInner(t) {
      assert ThreadOk(s, a.t);
      assert Handles(s.threads[a.t]) == 0;
    }
  }

  /** Once the block has been freed, no step is possible, let alone one that touches the count. */
  lemma NothingAfterDestruction(run: seq<State>, actions: seq<Action>, i: nat, a: Action)
    requires IsRun(run, actions) && i < |run| && run[i].destroyed > 0
    ensures !Enabled(run[i], a)
  {
    RunInv(run, actions, i);
    TotalZero(run[i].threads, Handles);
    assert a.t < |run[i].threads| ==> Handles(run[i].threads[a.t]) == 0;
  }

  /**
   A uniqueness test that succeeds has read the newest count although its load is relaxed: the
   thread then owns the only reference and knows every earlier access.  On the newest count the
   test succeeds exactly when there is one reference.
   */
  lemma GetMutIsExclusive(run: seq<State>, actions: seq<Action>, i: nat, t: nat, k: nat)
    requires IsRun(run, actions) && i < |run| && Enabled(run[i], GetMut(t, k))
    ensures var s := run[i];
            && (IsUnique(s.writes[k].count) ==>
                  && k == |s.writes| - 1
                  && Total(s.threads, Handles) == s.threads[t].handles == 1
                  && s.accesses <= Moved(s, GetMut(t, k)).view)
            && (k == |s.writes| - 1 ==> (IsUnique(s.writes[k].count) <==> Total(s.threads, Handles) == 1))
  {
    var s := run[i];
    RunInv(run, actions, i);
    Alive(s, t);
    assert ThreadOk(s, t);
    if IsUnique(s.writes[k].count) {
      if k < |s.writes| - 1 {
        TotalCovers(s.threads, t, t, Behind(k));
        assert false;
      }
      OnlyOwner(s, t);
      forall e | e in s.accesses ensures e in Moved(s, GetMut(t, k)).view {
        if s.sharedFrom.Some? && e !in Last(s).view {
          var u :| 0 <= u < |s.threads| && s.threads[u].handles > 0 && e in s.threads[u].view;
          assert u == t;
        }
      }
    }
  }

  /** A static block is never written, never destroyed, and never lent for mutation. */
  lemma {:induction false} StaticNeverChanges(run: seq<State>, actions: seq<Action>, i: nat)
    requires Steps(run, actions) && InitStatic(run[0]) && i < |run|
    ensures run[i].writes == [Write(STATIC_COUNT, {}, 0)] && run[i].destroyed == 0
    ensures forall t :: 0 <= t < |run[i].threads| ==>
              var pc := run[i].threads[t].pc;
              && run[i].threads[t].seen == 0
              && (pc.Ready? || ((pc.Cloning? || pc.Dropping? || pc.Synchronizing?) && pc.count == STATIC_COUNT))
    ensures !IsUnique(Last(run[i]).count)
  {
    if i > 0 {
      StaticNeverChanges(run, actions, i - 1);
    }
  }
}
