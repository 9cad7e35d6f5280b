/** The inductive invariant of the thunk protocol, and its preservation by every step. */
module ThunkInvariant {
  import opened Sums
  import opened Thunk

  /** Between winning the compare-and-swap and publishing the normal entry function. */
  predicate Holding(pc: Pc) {
    pc.Won? || pc.Capturing? || pc.Running? || pc.Releasing? || pc.Storing? || pc.Switching? || pc.Publishing?
  }

  /** The three histories are prefixes of the only possible ones. */
  predicate Shape(s: State) {
    && 1 <= |s.entries| <= 3
    && s.entries[0] == Message(Initial, View(0, 0, 0))
    && (|s.entries| >= 2 ==> s.entries[1] == Message(Locked, View(1, 0, 0)))
    && (|s.entries| >= 3 ==> s.entries[2] == Message(Normal, View(2, 1, 1)))
    && 1 <= |s.payloads| <= 2
    && s.payloads[0] == Environment
    && (|s.payloads| == 2 ==> s.payloads[1].Computed?)
    && 1 <= |s.metadatas| <= 2
    && s.metadatas[0] == DropEnvironment
    && (|s.metadatas| == 2 ==> s.metadatas[1] == DropValue)
    && (|s.entries| == 1 ==> |s.payloads| == |s.metadatas| == 1)
    && (|s.entries| == 3 ==> |s.payloads| == |s.metadatas| == 2)
  }

  predicate Known(s: State, v: View) {
    v.entry < |s.entries| && v.payload < |s.payloads| && v.metadata < |s.metadatas|
  }

  function Latest(s: State): View
    requires Shape(s)
  {
    View(|s.entries| - 1, |s.payloads| - 1, |s.metadatas| - 1)
  }

  /** The value stored in the payload. */
  predicate Stored(s: State, v: Value)
    requires Shape(s)
  {
    |s.payloads| == 2 && s.payloads[1] == Computed(v)
  }

  /** What the program counter of a thread says about the shared state. */
  predicate ThreadOk(s: State, t: nat)
    requires Shape(s) && t < |s.threads|
  {
    var th := s.threads[t];
    && Known(s, th.view)
    && (Holding(th.pc) ==> s.owner == Some(t) && |s.entries| == 2 && th.view == Latest(s))
    && (th.pc.Finishing? ==> s.owner == Some(t) && th.view == Latest(s))
    && (th.pc.CasFailed? || th.pc.InLocked? || th.pc.Yielded? ==> th.view.entry >= 1)
    && (th.pc.InNormal? ==> th.view.entry == 2)
    && (th.pc.Acquired? ==> th.view == View(2, 1, 1))
    && (th.pc.Loaded? ==> |s.entries| == 3 && th.pc.payload == s.payloads[1])
    && (th.pc.Cloned? || th.pc.Finishing? ==> |s.entries| == 3 && Stored(s, th.pc.value))
    && (th.pc.Switching? || th.pc.Publishing? ==> Stored(s, th.pc.value))
    && (th.pc.Reclaiming? ==>
          s.count == 0 && !s.freed && th.view.payload == |s.payloads| - 1 && th.view.metadata == |s.metadatas| - 1)
    && (th.pc.Reclaiming? && th.pc.result.Some? ==> |s.entries| == 3 && Stored(s, th.pc.result.value))
    && (th.log != [] ==> |s.entries| == 3)
    && (forall i :: 0 <= i < |th.log| ==> Stored(s, th.log[i]))
  }

  /** The lock is held exactly while the locked entry function is the newest one. */
  predicate OwnerOk(s: State)
    requires Shape(s)
  {
    && (s.owner.Some? <==> |s.entries| >= 2)
    && (s.owner.Some? ==> s.owner.value < |s.threads|)
    && (|s.entries| == 2 ==>
          var pc := s.threads[s.owner.value].pc;
          && Holding(pc)
          && (|s.payloads| == 2 <==> pc.Switching? || pc.Publishing?)
          && (|s.metadatas| == 2 <==> pc.Publishing?)
          && s.runs == if pc.Won? || pc.Capturing? then 0 else 1)
    && (|s.entries| == 1 ==> s.runs == 0)
    && (|s.entries| == 3 ==> s.runs == 1)
  }

  /** The count is exact, and whatever it carries lets the last owner see every write. */
  predicate CountOk(s: State)
    requires Shape(s) && OwnerOk(s)
  {
    && s.count + Total(s.threads, References) == 0
    && Known(s, s.released)
    && (|s.entries| == 3 && !s.threads[s.owner.value].pc.Finishing? ==>
          s.released.payload == s.released.metadata == 1)
    && (forall t, u ::
          0 <= t < |s.threads| && 0 <= u < |s.threads| && s.threads[t].pc.Reclaiming? && s.threads[u].pc.Reclaiming?
          ==> t == u)
    && (s.freed ==> s.count == 0)
    && (s.count == 0 && !s.freed ==> exists t :: 0 <= t < |s.threads| && s.threads[t].pc.Reclaiming?)
  }

  /** How many references to captured variable `i` are outstanding in each phase. */
  function CapturedIn(s: State, i: nat): Captured
    requires Shape(s) && OwnerOk(s)
  {
    if |s.entries| == 1 then Captured(if s.freed then 0 else 1, 0)
    else if |s.entries| == 3 then Captured(0, 0)
    else match s.threads[s.owner.value].pc
      case Capturing(j) => Captured(1, if i < j then 1 else 0)
      case Running(_) => Captured(1, 1)
      case Releasing(j, _) => Captured(if i < j then 0 else 1, 0)
      case Storing(_) | Switching(_) | Publishing(_) => Captured(0, 0)
      case _ => Captured(1, 0)
  }

  predicate CapturedOk(s: State)
    requires Shape(s) && OwnerOk(s)
  {
    && (forall i :: 0 <= i < |s.captured| ==> s.captured[i] == CapturedIn(s, i))
    && (|s.entries| == 2 ==>
          var pc := s.threads[s.owner.value].pc;
          && (pc.Capturing? || pc.Releasing? ==> pc.index <= |s.captured|))
  }

  /** Value references: one per returned result, one per pending call, one in the payload. */
  predicate ValuesOk(s: State) {
    s.values == Total(s.threads, ValueReferences) + (if |s.payloads| == 2 && !s.freed then 1 else 0)
  }

  ghost predicate Inv(s: State) {
    && Shape(s)
    && OwnerOk(s)
    && (forall t :: 0 <= t < |s.threads| ==> ThreadOk(s, t))
    && CountOk(s)
    && CapturedOk(s)
    && ValuesOk(s)
    && !s.corrupted
  }

  lemma InitInv(s: State)
    requires Init(s)
    ensures Inv(s)
  {
    TotalZero(s.threads, ValueReferences);
  }

  /** A thread that still owns a reference keeps the block alive. */
  lemma Alive(s: State, t: nat)
    requires Inv(s) && t < |s.threads| && References(s.threads[t]) > 0
    ensures s.count <= -1 && !s.freed
    ensures forall u :: 0 <= u < |s.threads| ==> !s.threads[u].pc.Reclaiming?
  {
    assert ThreadOk(s, t);
    TotalCovers(s.threads, t, t, References);
    forall u | 0 <= u < |s.threads| ensures !s.threads[u].pc.Reclaiming? {
      assert ThreadOk(s, u);
    }
  }

  lemma PutTotals(s: State, t: nat, th: Thread)
    requires t < |s.threads|
    ensures Total(Put(s, t, th).threads, References) == Total(s.threads, References) - References(s.threads[t]) + References(th)
    ensures Total(Put(s, t, th).threads, ValueReferences) == Total(s.threads, ValueReferences) - ValueReferences(s.threads[t]) + ValueReferences(th)
  {
    TotalUpdate(s.threads, t, th, References);
    TotalUpdate(s.threads, t, th, ValueReferences);
  }

  /** Histories only grow. */
  predicate Grows(s: State, s': State) {
    s.entries <= s'.entries && s.payloads <= s'.payloads && s.metadatas <= s'.metadatas
  }

  /** A step of thread `t` does not disturb what the other threads rely on. */
  lemma OthersKeep(s: State, s': State, t: nat, u: nat)
    requires Inv(s) && t < |s.threads| && References(s.threads[t]) > 0
    requires Shape(s') && Grows(s, s') && |s'.threads| == |s.threads|
    requires u < |s.threads| && u != t && s'.threads[u] == s.threads[u]
    requires s.owner == s'.owner || s.owner.None?
    requires (s.entries == s'.entries && s.payloads == s'.payloads && s.metadatas == s'.metadatas) || s'.owner == Some(t)
    ensures ThreadOk(s', u)
  {
    Alive(s, t);
    assert ThreadOk(s, u);
  }

  /** A step that changes one thread, the count and the number of value references only. */
  lemma LocalStep(s: State, s': State, t: nat, th: Thread)
    requires Inv(s) && t < |s.threads| && References(s.threads[t]) > 0
    requires s' == Put(s, t, th).(count := s'.count, values := s'.values)
    requires s'.count == s.count + References(s.threads[t]) - References(th)
    requires s'.values == s.values - ValueReferences(s.threads[t]) + ValueReferences(th)
    requires th.pc == s.threads[t].pc
             || !(Holding(th.pc) || th.pc.Finishing? || th.pc.Reclaiming?
                  || Holding(s.threads[t].pc) || s.threads[t].pc.Finishing?)
    requires References(th) > 0 && ThreadOk(s', t)
    ensures Inv(s')
  {
    Alive(s, t);
    PutTotals(s, t, th);
    forall u | 0 <= u < |s.threads| ensures ThreadOk(s', u) {
      if u != t {
        OthersKeep(s, s', t, u);
      }
    }
    assert CountOk(s') by {
      assert forall u :: 0 <= u < |s.threads| && s'.threads[u].pc.Reclaiming? ==> s.threads[u].pc.Reclaiming?;
      TotalCovers(s'.threads, t, t, References);
    }
  }

  lemma CloneHandleKeeps(s: State, t: nat)
    requires Inv(s) && Enabled(s, CloneHandle(t))
    ensures Inv(Apply(s, CloneHandle(t)))
  {
    Alive(s, t);
    assert ThreadOk(s, t);
    var s' := Apply(s, CloneHandle(t));
    LocalStep(s, s', t, s'.threads[t]);
  }

  lemma CallKeeps(s: State, t: nat)
    requires Inv(s) && Enabled(s, Call(t))
    ensures Inv(Apply(s, Call(t)))
  {
    Alive(s, t);
    assert ThreadOk(s, t);
    var s' := Apply(s, Call(t));
    LocalStep(s, s', t, s'.threads[t]);
  }

  lemma LoadEntryKeeps(s: State, t: nat, k: nat)
    requires Inv(s) && Enabled(s, LoadEntry(t, k))
    ensures Inv(Apply(s, LoadEntry(t, k)))
  {
    Alive(s, t);
    assert ThreadOk(s, t);
    var s' := Apply(s, LoadEntry(t, k));
    LocalStep(s, s', t, s'.threads[t]);
  }

  lemma LoseKeeps(s: State, t: nat, k: nat)
    requires Inv(s) && Enabled(s, CompareAndSwap(t, k)) && s.entries[k].entry != Initial
    ensures Inv(Apply(s, CompareAndSwap(t, k)))
  {
    Alive(s, t);
    assert ThreadOk(s, t);
    var s' := Apply(s, CompareAndSwap(t, k));
    LocalStep(s, s', t, s'.threads[t]);
  }

  lemma YieldKeeps(s: State, t: nat)
    requires Inv(s) && Enabled(s, Yield(t))
    ensures Inv(Apply(s, Yield(t)))
  {
    Alive(s, t);
    assert ThreadOk(s, t);
    var s' := Apply(s, Yield(t));
    LocalStep(s, s', t, s'.threads[t]);
  }

  lemma AcquireEntryKeeps(s: State, t: nat, k: nat)
    requires Inv(s) && Enabled(s, AcquireEntry(t, k))
    ensures Inv(Apply(s, AcquireEntry(t, k)))
  {
    Alive(s, t);
    assert ThreadOk(s, t);
    var s' := Apply(s, AcquireEntry(t, k));
    LocalStep(s, s', t, s'.threads[t]);
  }

  lemma LoadValueKeeps(s: State, t: nat, k: nat)
    requires Inv(s) && Enabled(s, LoadValue(t, k))
    ensures Inv(Apply(s, LoadValue(t, k)))
  {
    Alive(s, t);
    assert ThreadOk(s, t);
    var s' := Apply(s, LoadValue(t, k));
    LocalStep(s, s', t, s'.threads[t]);
  }

  lemma CloneValueKeeps(s: State, t: nat)
    requires Inv(s) && Enabled(s, CloneValue(t))
    ensures Inv(Apply(s, CloneValue(t)))
  {
    Alive(s, t);
    assert ThreadOk(s, t);
    var s' := Apply(s, CloneValue(t));
    LocalStep(s, s', t, s'.threads[t]);
  }

  /** Handing a reference over, together with the view of the sender. */
  lemma HandOver(s: State, s': State, t: nat, u: nat, from: Thread, to: Thread)
    requires Inv(s) && t < |s.threads| && u < |s.threads| && t != u
    requires s' == Put(Put(s, t, from), u, to)
    requires References(s.threads[t]) == References(from) + 1
    requires from == s.threads[t].(handles := from.handles, pc := from.pc)
    requires from.pc == s.threads[t].pc || (s.threads[t].pc.Running? && from.pc.Running?)
    requires to == s.threads[u].(handles := s.threads[u].handles + 1, view := Join(s.threads[u].view, s.threads[t].view))
    requires CanReceive(to.pc)
    ensures Inv(s')
  {
    hide Apply, Memory, Moved, Enabled;
    Alive(s, t);
    assert s'.threads[t] == from && s'.threads[u] == to;
    HandOverOwner(s, s', t, u, from, to);
    forall v | 0 <= v < |s.threads| ensures ThreadOk(s', v) {
      HandOverThread(s, s', t, u, v);
    }
    HandOverTotals(s, s', t, u, from, to);
    hide ThreadOk, Total, OwnerOk, CapturedOk, ValuesOk;
    assert forall v :: 0 <= v < |s.threads| ==> !s'.threads[v].pc.Reclaiming?;
  }

  lemma HandOverTotals(s: State, s': State, t: nat, u: nat, from: Thread, to: Thread)
    requires Inv(s) && t < |s.threads| && u < |s.threads| && t != u && s' == Put(Put(s, t, from), u, to)
    requires References(s.threads[t]) == References(from) + 1 && References(to) == References(s.threads[u]) + 1
    requires ValueReferences(from) == ValueReferences(s.threads[t]) && ValueReferences(to) == ValueReferences(s.threads[u])
    ensures s'.count + Total(s'.threads, References) == 0 && ValuesOk(s')
  {
    PutTotals(s, t, from);
    PutTotals(Put(s, t, from), u, to);
  }

  lemma HandOverOwner(s: State, s': State, t: nat, u: nat, from: Thread, to: Thread)
    requires Inv(s) && t < |s.threads| && u < |s.threads| && t != u
    requires s' == Put(Put(s, t, from), u, to)
    requires from == s.threads[t].(handles := from.handles, pc := from.pc)
    requires from.pc == s.threads[t].pc || (s.threads[t].pc.Running? && from.pc.Running?)
    requires to == s.threads[u].(handles := s.threads[u].handles + 1, view := Join(s.threads[u].view, s.threads[t].view))
    ensures OwnerOk(s') && CapturedOk(s')
  {
    hide Apply, Memory, Moved, Enabled;
    assert ThreadOk(s, t) && ThreadOk(s, u);
  }

  lemma HandOverThread(s: State, s': State, t: nat, u: nat, v: nat)
    requires Inv(s) && t < |s.threads| && u < |s.threads| && t != u && v < |s.threads|
    requires References(s.threads[t]) > 0 && |s'.threads| == |s.threads| && s' == s.(threads := s'.threads)
    requires forall w :: 0 <= w < |s.threads| && w != t && w != u ==> s'.threads[w] == s.threads[w]
    requires s'.threads[t] == s.threads[t].(handles := s'.threads[t].handles, pc := s'.threads[t].pc)
    requires s'.threads[t].pc == s.threads[t].pc || (s.threads[t].pc.Running? && s'.threads[t].pc.Running?)
    requires s'.threads[u] == s.threads[u].(handles := s.threads[u].handles + 1, view := Join(s.threads[u].view, s.threads[t].view))
    requires CanReceive(s.threads[u].pc)
    ensures ThreadOk(s', v)
  {
    Alive(s, t);
    assert ThreadOk(s, t) && ThreadOk(s, u);
    if v != t && v != u {
      OthersKeep(s, s', t, v);
    }
  }

  lemma SendHandleKeeps(s: State, t: nat, u: nat)
    requires Inv(s) && Enabled(s, SendHandle(t, u))
    ensures Inv(Apply(s, SendHandle(t, u)))
  {
    var s' := Apply(s, SendHandle(t, u));
    HandOver(s, s', t, u, s'.threads[t], s'.threads[u]);
  }

  lemma BodySendsSelfKeeps(s: State, t: nat, u: nat)
    requires Inv(s) && Enabled(s, BodySendsSelf(t, u))
    ensures Inv(Apply(s, BodySendsSelf(t, u)))
  {
    var s' := Apply(s, BodySendsSelf(t, u));
    HandOver(s, s', t, u, s'.threads[t], s'.threads[u]);
  }

  /** A step of the thread that holds the lock afterwards. */
  lemma OwnerStep(s: State, s': State, t: nat)
    requires Inv(s) && t < |s.threads| && References(s.threads[t]) > 0
    requires |s'.threads| == |s.threads| && s'.threads == s.threads[t := s'.threads[t]]
    requires Shape(s') && OwnerOk(s') && CapturedOk(s') && Grows(s, s') && ThreadOk(s', t)
    requires s'.owner == Some(t) && (s.owner == s'.owner || s.owner.None?)
    requires |s'.entries| == 3 ==> s'.threads[t].pc.Finishing?
    requires !s'.threads[t].pc.Reclaiming?
    requires s'.released == s.released && s'.freed == s.freed && !s'.corrupted
    requires s'.count == s.count + References(s.threads[t]) - References(s'.threads[t])
    requires s'.values == s.values - ValueReferences(s.threads[t]) + ValueReferences(s'.threads[t]) + |s'.payloads| - |s.payloads|
    ensures Inv(s')
  {
    Alive(s, t);
    PutTotals(s, t, s'.threads[t]);
    assert s'.threads == Put(s, t, s'.threads[t]).threads;
    forall u | 0 <= u < |s.threads| ensures ThreadOk(s', u) {
      if u != t {
        OthersKeep(s, s', t, u);
      }
    }
    assert CountOk(s') by {
      assert forall v :: 0 <= v < |s.threads| && s'.threads[v].pc.Reclaiming? ==> s.threads[v].pc.Reclaiming?;
      assert ThreadOk(s, t);
      TotalCovers(s'.threads, t, t, References);
    }
  }

  lemma WinKeeps(s: State, t: nat, k: nat)
    requires Inv(s) && Enabled(s, CompareAndSwap(t, k)) && s.entries[k].entry == Initial
    ensures Inv(Apply(s, CompareAndSwap(t, k)))
  {
    Alive(s, t);
    assert ThreadOk(s, t);
    OwnerStep(s, Apply(s, CompareAndSwap(t, k)), t);
  }

  lemma CloneClosureKeeps(s: State, t: nat)
    requires Inv(s) && Enabled(s, CloneClosure(t))
    ensures Inv(Apply(s, CloneClosure(t)))
  {
    Alive(s, t);
    assert ThreadOk(s, t);
    OwnerStep(s, Apply(s, CloneClosure(t)), t);
  }

  lemma CaptureKeeps(s: State, t: nat, k: nat)
    requires Inv(s) && Enabled(s, Capture(t, k))
    ensures Inv(Apply(s, Capture(t, k)))
  {
    Alive(s, t);
    assert ThreadOk(s, t);
    OwnerStep(s, Apply(s, Capture(t, k)), t);
  }

  lemma StartBodyKeeps(s: State, t: nat)
    requires Inv(s) && Enabled(s, StartBody(t))
    ensures Inv(Apply(s, StartBody(t)))
  {
    Alive(s, t);
    assert ThreadOk(s, t);
    OwnerStep(s, Apply(s, StartBody(t)), t);
  }

  lemma BodyReturnsKeeps(s: State, t: nat, v: Value)
    requires Inv(s) && Enabled(s, BodyReturns(t, v))
    ensures Inv(Apply(s, BodyReturns(t, v)))
  {
    Alive(s, t);
    assert ThreadOk(s, t);
    OwnerStep(s, Apply(s, BodyReturns(t, v)), t);
  }

  lemma ReleaseCapturedKeeps(s: State, t: nat, k: nat)
    requires Inv(s) && Enabled(s, ReleaseCaptured(t, k))
    ensures Inv(Apply(s, ReleaseCaptured(t, k)))
  {
    Alive(s, t);
    assert ThreadOk(s, t);
    OwnerStep(s, Apply(s, ReleaseCaptured(t, k)), t);
  }

  lemma EnvironmentReleasedKeeps(s: State, t: nat)
    requires Inv(s) && Enabled(s, EnvironmentReleased(t))
    ensures Inv(Apply(s, EnvironmentReleased(t)))
  {
    Alive(s, t);
    assert ThreadOk(s, t);
    OwnerStep(s, Apply(s, EnvironmentReleased(t)), t);
  }

  lemma StoreValueKeeps(s: State, t: nat)
    requires Inv(s) && Enabled(s, StoreValue(t))
    ensures Inv(Apply(s, StoreValue(t)))
  {
    Alive(s, t);
    assert ThreadOk(s, t);
    OwnerStep(s, Apply(s, StoreValue(t)), t);
  }

  lemma StoreMetadataKeeps(s: State, t: nat)
    requires Inv(s) && Enabled(s, StoreMetadata(t))
    ensures Inv(Apply(s, StoreMetadata(t)))
  {
    Alive(s, t);
    assert ThreadOk(s, t) && Shape(s) && OwnerOk(s) && CapturedOk(s);
    hide Inv, Total;
    OwnerStep(s, Apply(s, StoreMetadata(t)), t);
  }

  lemma PublishKeeps(s: State, t: nat)
    requires Inv(s) && Enabled(s, Publish(t))
    ensures Inv(Apply(s, Publish(t)))
  {
    Alive(s, t);
    assert ThreadOk(s, t) && Shape(s) && OwnerOk(s) && CapturedOk(s);
    hide Inv, Total;
    OwnerStep(s, Apply(s, Publish(t)), t);
  }

  /** Giving up a reference when others are left. */
  lemma ReleaseOne(s: State, s': State, t: nat)
    requires Inv(s) && t < |s.threads| && |s'.threads| == |s.threads| && s.count != -1
    requires s' == Put(s, t, s'.threads[t]).(count := s.count + 1, released := Join(s.released, s.threads[t].view))
    requires var th, th' := s.threads[t], s'.threads[t];
             && References(th) == References(th') + 1
             && ValueReferences(th') == ValueReferences(th)
             && !th'.pc.Finishing? && !th'.pc.Reclaiming? && th'.view == th.view
             && Holding(th'.pc) == Holding(th.pc)
             && (Holding(th.pc) ==> th.pc.Running? && th'.pc.Running?)
             && ThreadOk(s', t)
    ensures Inv(s')
  {
    hide Apply, Memory, Moved, Enabled;
    Alive(s, t);
    assert ThreadOk(s, t);
    PutTotals(s, t, s'.threads[t]);
    TotalCovers(s.threads, t, t, References);
    forall u | 0 <= u < |s.threads| ensures ThreadOk(s', u) {
      if u != t {
        OthersKeep(s, s', t, u);
      }
    }
    assert CountOk(s') by {
      assert forall v :: 0 <= v < |s.threads| ==> !s'.threads[v].pc.Reclaiming?;
    }
  }

  /** Giving up the last reference. */
  lemma ReleaseLast(s: State, s': State, t: nat)
    requires Inv(s) && t < |s.threads| && |s'.threads| == |s.threads| && s.count == -1
    requires s' == Put(s, t, s'.threads[t]).(count := s.count + 1, released := Join(s.released, s.threads[t].view))
    requires var th, th' := s.threads[t], s'.threads[t];
             && References(th) == References(th') + 1
             && ValueReferences(th') == ValueReferences(th)
             && th'.pc.Reclaiming? && !Holding(th.pc) && th' == th.(handles := th'.handles, pc := th'.pc, view := LastView(s, th))
             && (th'.pc.result.Some? ==> |s.entries| == 3 && Stored(s, th'.pc.result.value))
    ensures Inv(s')
  {
    hide Apply, Memory, Moved, Enabled;
    Alive(s, t);
    assert ThreadOk(s, t);
    PutTotals(s, t, s'.threads[t]);
    TotalCovers(s.threads, t, t, References);
    LastReference(s, t);
    forall u | 0 <= u < |s.threads| ensures ThreadOk(s', u) {
      if u != t {
        OthersKeep(s, s', t, u);
      }
    }
    assert CountOk(s') by {
      assert forall v :: 0 <= v < |s.threads| && v != t ==> !s'.threads[v].pc.Reclaiming?;
      assert s'.threads[t].pc.Reclaiming?;
    }
  }

  /** A thread that releases a reference owns one; a body with handles owns another. */
  lemma CountCovers(s: State, t: nat)
    requires Inv(s) && t < |s.threads|
    ensures s.count + References(s.threads[t]) <= 0
  {
    TotalCovers(s.threads, t, t, References);
  }

  /** Whoever gives up the last reference finds every other thread out of its calls. */
  lemma LastReference(s: State, t: nat)
    requires Inv(s) && t < |s.threads| && s.count == -1 && References(s.threads[t]) == 1
    ensures forall u :: 0 <= u < |s.threads| && u != t ==> References(s.threads[u]) == 0 && s.threads[u].pc.Idle?
    ensures !Holding(s.threads[t].pc) ==> |s.entries| != 2
  {
    Alive(s, t);
    forall u | 0 <= u < |s.threads| && u != t ensures References(s.threads[u]) == 0 && s.threads[u].pc.Idle? {
      TotalCovers(s.threads, t, u, References);
      assert ThreadOk(s, u);
    }
  }

  lemma DropHandleKeeps(s: State, t: nat)
    requires Inv(s) && Enabled(s, DropHandle(t))
    ensures Inv(Apply(s, DropHandle(t)))
  {
    Alive(s, t);
    CountCovers(s, t);
    assert ThreadOk(s, t);
    hide Inv;
    if s.count == -1 {
      ReleaseLast(s, Apply(s, DropHandle(t)), t);
    } else {
      ReleaseOne(s, Apply(s, DropHandle(t)), t);
    }
  }

  lemma BodyDropsSelfKeeps(s: State, t: nat)
    requires Inv(s) && Enabled(s, BodyDropsSelf(t))
    ensures Inv(Apply(s, BodyDropsSelf(t)))
  {
    Alive(s, t);
    CountCovers(s, t);
    assert ThreadOk(s, t);
    hide Inv;
    ReleaseOne(s, Apply(s, BodyDropsSelf(t)), t);
  }

  lemma DropReferenceKeeps(s: State, t: nat)
    requires Inv(s) && Enabled(s, DropReference(t))
    ensures Inv(Apply(s, DropReference(t)))
  {
    Alive(s, t);
    CountCovers(s, t);
    assert ThreadOk(s, t);
    hide Inv;
    if s.count == -1 {
      ReleaseLast(s, Apply(s, DropReference(t)), t);
    } else {
      ReleaseOne(s, Apply(s, DropReference(t)), t);
    }
  }

  lemma FinishKeeps(s: State, t: nat)
    requires Inv(s) && Enabled(s, Finish(t))
    ensures Inv(Apply(s, Finish(t)))
  {
    Alive(s, t);
    CountCovers(s, t);
    assert ThreadOk(s, t);
    hide Inv;
    if s.count == -1 {
      ReleaseLast(s, Apply(s, Finish(t)), t);
    } else {
      ReleaseOne(s, Apply(s, Finish(t)), t);
    }
  }

  /** The block is freed by its last owner, while nobody is in a call. */
  lemma ReclaimingAlone(s: State, t: nat)
    requires Inv(s) && t < |s.threads| && s.threads[t].pc.Reclaiming?
    ensures |s.entries| != 2 && s.count == 0 && !s.freed
    ensures forall u :: 0 <= u < |s.threads| && u != t ==> s.threads[u].pc.Idle? && s.threads[u].handles == 0
    ensures s.threads[t].handles == 0
    ensures |s.entries| == 3 ==> s.threads[s.owner.value].pc.Idle? || s.owner == Some(t)
  {
    assert ThreadOk(s, t);
    TotalZero(s.threads, References);
    forall u | 0 <= u < |s.threads| && u != t ensures s.threads[u].pc.Idle? && s.threads[u].handles == 0 {
      assert References(s.threads[u]) == 0;
    }
    assert References(s.threads[t]) == 0;
  }

  /** What freeing the block leaves behind. */
  lemma ReclaimEffect(s: State, t: nat, m: nat, k: nat)
    requires Inv(s) && Enabled(s, Reclaim(t, m, k))
    ensures var s' := Apply(s, Reclaim(t, m, k));
            var th := s.threads[t];
            && |s'.threads| == |s.threads| && |s'.captured| == |s.captured|
            && s' == s.(freed := true, threads := s'.threads, captured := s'.captured,
                        values := if |s.entries| == 3 then s.values - 1 else s.values)
            && s'.threads == s.threads[t := if th.pc.result.Some? then Return(th, th.pc.result.value) else th.(pc := Idle)]
            && forall i :: 0 <= i < |s.captured| ==> s'.captured[i] == Captured(0, 0)
  {
    assert ThreadOk(s, t);
    ReclaimingAlone(s, t);
    assert Shape(s) && OwnerOk(s) && CapturedOk(s);
    hide Inv;
  }

  lemma ReclaimKeeps(s: State, t: nat, m: nat, k: nat)
    requires Inv(s) && Enabled(s, Reclaim(t, m, k))
    ensures Inv(Apply(s, Reclaim(t, m, k)))
  {
    var s' := Apply(s, Reclaim(t, m, k));
    ReclaimEffect(s, t, m, k);
    ReclaimedInv(s, s', t);
  }

  lemma ReclaimedInv(s: State, s': State, t: nat)
    requires Inv(s) && t < |s.threads| && s.threads[t].pc.Reclaiming?
    requires |s'.threads| == |s.threads| && |s'.captured| == |s.captured|
    requires s' == s.(freed := true, threads := s'.threads, captured := s'.captured,
                      values := if |s.entries| == 3 then s.values - 1 else s.values)
    requires var th := s.threads[t];
             s'.threads == s.threads[t := if th.pc.result.Some? then Return(th, th.pc.result.value) else th.(pc := Idle)]
    requires forall i :: 0 <= i < |s.captured| ==> s'.captured[i] == Captured(0, 0)
    ensures Inv(s')
  {
    ReclaimingAlone(s, t);
    assert s'.threads == Put(s, t, s'.threads[t]).threads;
    PutTotals(s, t, s'.threads[t]);
    forall u | 0 <= u < |s.threads| ensures ThreadOk(s', u) {
      assert ThreadOk(s, u);
      assert u != t ==> s.threads[u].pc.Idle?;
    }
    assert forall u :: 0 <= u < |s.threads| ==> s'.threads[u].pc.Idle?;
  }
}
