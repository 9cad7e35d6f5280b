/** What the thunk protocol guarantees in every run of any number of threads. */
module ThunkTheorems {
  import opened Sums
  import opened Thunk
  import opened ThunkInvariant

  lemma StepInv(s: State, a: Action)
    requires Inv(s) && Enabled(s, a)
    ensures Inv(Apply(s, a))
  {
    hide Apply, Memory, Moved, Inv;
    match a
    case CloneHandle(t) => CloneHandleKeeps(s, t);
    case DropHandle(t) => DropHandleKeeps(s, t);
    case SendHandle(t, u) => SendHandleKeeps(s, t, u);
    case Call(t) => CallKeeps(s, t);
    case LoadEntry(t, k) => LoadEntryKeeps(s, t, k);
    case CompareAndSwap(t, k) =>
      if s.entries[k].entry == Initial {
        WinKeeps(s, t, k);
      } else {
        LoseKeeps(s, t, k);
      }
    case Yield(t) => YieldKeeps(s, t);
    case AcquireEntry(t, k) => AcquireEntryKeeps(s, t, k);
    case LoadValue(t, k) => LoadValueKeeps(s, t, k);
    case CloneValue(t) => CloneValueKeeps(s, t);
    case DropReference(t) => DropReferenceKeeps(s, t);
    case CloneClosure(t) => CloneClosureKeeps(s, t);
    case Capture(t, k) => CaptureKeeps(s, t, k);
    case StartBody(t) => StartBodyKeeps(s, t);
    case BodyDropsSelf(t) => BodyDropsSelfKeeps(s, t);
    case BodySendsSelf(t, u) => BodySendsSelfKeeps(s, t, u);
    case BodyReturns(t, v) => BodyReturnsKeeps(s, t, v);
    case ReleaseCaptured(t, k) => ReleaseCapturedKeeps(s, t, k);
    case EnvironmentReleased(t) => EnvironmentReleasedKeeps(s, t);
    case StoreValue(t) => StoreValueKeeps(s, t);
    case StoreMetadata(t) => StoreMetadataKeeps(s, t);
    case Publish(t) => PublishKeeps(s, t);
    case Finish(t) => FinishKeeps(s, t);
    case Reclaim(t, m, k) => ReclaimKeeps(s, t, m, k);
  }

  lemma {:induction false} RunInv(run: seq<State>, actions: seq<Action>, i: nat)
    requires IsRun(run, actions) && i < |run|
    ensures Inv(run[i])
  {
    if i == 0 {
      InitInv(run[0]);
    } else {
      RunInv(run, actions, i - 1);
      StepInv(run[i - 1], actions[i - 1]);
    }
  }

  lemma MemoryGrows(s: State, a: Action)
    requires Enabled(s, a)
    ensures Grows(s, Memory(s, a)) && s.runs <= Memory(s, a).runs
  {
    hide Moved;
  }

  /** The memory part of a step leaves the threads alone, and histories only grow. */
  lemma MemoryFacts(s: State, a: Action)
    requires Enabled(s, a)
    ensures var m := Memory(s, a);
            && m.threads == s.threads
            && Grows(s, m) && s.runs <= m.runs && (s.freed ==> m.freed)
            && |m.captured| == |s.captured|
            && (s.owner.Some? && (a.CompareAndSwap? ==> s.entries[a.k].entry != Initial) ==> m.owner == s.owner)
  {
    MemoryGrows(s, a);
    hide Moved, Grows;
  }

  /** The acting thread keeps its results. */
  lemma MovedKeepsLog(s: State, a: Action)
    requires Enabled(s, a)
    ensures s.threads[a.t].log <= Moved(s, a).log
  {
    hide Memory;
  }

  /** Which threads a step changes. */
  lemma StepThreads(s: State, a: Action)
    requires Enabled(s, a)
    ensures a.t < |s.threads|
    ensures var s' := Apply(s, a);
            if a.SendHandle? || a.BodySendsSelf? then
              && a.u < |s.threads| && a.u != a.t
              && s'.threads == s.threads[a.t := Moved(s, a)][a.u := s'.threads[a.u]]
              && s'.threads[a.u] == s.threads[a.u].(handles := s.threads[a.u].handles + 1, view := s'.threads[a.u].view)
            else s'.threads == s.threads[a.t := Moved(s, a)]
    ensures var m, s' := Memory(s, a), Apply(s, a);
            s' == m.(threads := s'.threads)
  {
    MemoryFacts(s, a);
    hide Memory, Moved;
  }

  lemma StepGrows(s: State, a: Action)
    requires Enabled(s, a)
    ensures Grows(s, Apply(s, a)) && s.runs <= Apply(s, a).runs && (s.freed ==> Apply(s, a).freed)
  {
    MemoryFacts(s, a);
    hide Memory, Moved;
  }

  lemma StepKeepsLogs(s: State, a: Action, t: nat)
    requires Enabled(s, a) && t < |s.threads|
    ensures |Apply(s, a).threads| == |s.threads| && s.threads[t].log <= Apply(s, a).threads[t].log
  {
    hide Apply, Memory, Moved, Enabled;
    StepThreads(s, a);
    MovedKeepsLog(s, a);
  }

  lemma StepReleases(s: State, a: Action, i: nat)
    requires Enabled(s, a) && i < |s.captured|
    ensures |Apply(s, a).captured| == |s.captured|
    ensures Apply(s, a).captured[i].environment <= s.captured[i].environment
  {
    StepThreads(s, a);
    hide Apply, Moved;
  }

  lemma {:induction false} RunGrows(run: seq<State>, actions: seq<Action>, i: nat, j: nat)
    requires IsRun(run, actions) && i <= j < |run|
    ensures Grows(run[i], run[j]) && run[i].runs <= run[j].runs && (run[i].freed ==> run[j].freed)
  {
    hide Apply, Enabled;
    if i < j {
      RunGrows(run, actions, i, j - 1);
      StepGrows(run[j - 1], actions[j - 1]);
    }
  }

  // ----- Safety -----

  function Entries(s: State): seq<Entry> {
    seq(|s.entries|, i requires 0 <= i < |s.entries| => s.entries[i].entry)
  }

  /** The entry function only ever moves from initial to locked to normal. */
  lemma EntryOnlyAdvances(run: seq<State>, actions: seq<Action>, i: nat, j: nat)
    requires IsRun(run, actions) && i <= j < |run|
    ensures [Initial] <= Entries(run[i]) <= Entries(run[j]) <= [Initial, Locked, Normal]
  {
    RunInv(run, actions, i);
    RunInv(run, actions, j);
    RunGrows(run, actions, i, j);
  }

  /** The body runs at most once, and at most one thread is between winning the lock and publishing. */
  lemma EvaluatedOnce(run: seq<State>, actions: seq<Action>, i: nat)
    requires IsRun(run, actions) && i < |run|
    ensures run[i].runs <= 1
    ensures forall t, u | 0 <= t < |run[i].threads| && 0 <= u < |run[i].threads| ::
              Holding(run[i].threads[t].pc) && Holding(run[i].threads[u].pc) ==> t == u
  {
    RunInv(run, actions, i);
    forall t, u | 0 <= t < |run[i].threads| && 0 <= u < |run[i].threads|
                  && Holding(run[i].threads[t].pc) && Holding(run[i].threads[u].pc)
      ensures t == u
    {
      assert ThreadOk(run[i], t) && ThreadOk(run[i], u);
    }
  }

  /** All results, of all threads at all times, are the one value stored in the payload. */
  lemma ResultsAgree(run: seq<State>, actions: seq<Action>, i: nat, j: nat, t: nat, u: nat, a: nat, b: nat)
    requires IsRun(run, actions) && i < |run| && j < |run|
    requires t < |run[i].threads| && u < |run[j].threads|
    requires a < |run[i].threads[t].log| && b < |run[j].threads[u].log|
    ensures run[i].threads[t].log[a] == run[j].threads[u].log[b]
    ensures run[i].payloads == run[j].payloads == [Environment, Computed(run[i].threads[t].log[a])]
    ensures run[i].runs == run[j].runs == 1
  {
    RunInv(run, actions, i);
    RunInv(run, actions, j);
    assert ThreadOk(run[i], t) && ThreadOk(run[j], u);
    if i <= j {
      RunGrows(run, actions, i, j);
    } else {
      RunGrows(run, actions, j, i);
    }
  }

  /** Whether the next step of a thread accesses the payload or the metadata without atomics. */
  predicate AccessesContent(pc: Pc) {
    pc.Acquired? || pc.Capturing? || pc.Releasing? || pc.Storing? || pc.Switching? || pc.Reclaiming?
  }

  /** A plain write never races: nobody else is about to access the payload or the metadata. */
  lemma WritesDoNotRace(run: seq<State>, actions: seq<Action>, i: nat, t: nat, u: nat)
    requires IsRun(run, actions) && i < |run| && t < |run[i].threads| && u < |run[i].threads| && t != u
    requires run[i].threads[t].pc.Storing? || run[i].threads[t].pc.Switching?
    ensures !AccessesContent(run[i].threads[u].pc)
  {
    var s := run[i];
    RunInv(run, actions, i);
    Alive(s, t);
    assert ThreadOk(s, t) && ThreadOk(s, u);
  }

  /**
   A plain read only ever finds the newest write: a normal entry finds the computed value, however
   it got there, the evaluator finds the environment, and the last owner the final content.
   */
  lemma ReadsAreFresh(run: seq<State>, actions: seq<Action>, i: nat, t: nat, k: nat)
    requires IsRun(run, actions) && i < |run| && t < |run[i].threads|
    requires AccessesContent(run[i].threads[t].pc) && run[i].threads[t].view.payload <= k < |run[i].payloads|
    ensures k == |run[i].payloads| - 1
    ensures run[i].threads[t].pc.Acquired? ==> run[i].payloads[k].Computed? && |run[i].entries| == 3
    ensures run[i].threads[t].pc.Capturing? || run[i].threads[t].pc.Releasing? ==> run[i].payloads[k] == Environment
    ensures run[i].threads[t].pc.Reclaiming? ==>
              forall m :: run[i].threads[t].view.metadata <= m < |run[i].metadatas| ==>
                m == |run[i].metadatas| - 1 && (run[i].metadatas[m] == DropValue <==> run[i].payloads[k].Computed?)
  {
    var s := run[i];
    RunInv(run, actions, i);
    assert ThreadOk(s, t);
    if s.threads[t].pc.Reclaiming? {
      ReclaimingAlone(s, t);
    }
  }

  /** Results stay, and references of the environment to captured variables only ever disappear. */
  lemma {:induction false} RunReleases(run: seq<State>, actions: seq<Action>, i: nat, j: nat, t: nat, v: nat)
    requires IsRun(run, actions) && i <= j < |run|
    requires t < |run[i].threads| && v < |run[i].captured|
    ensures |run[j].threads| == |run[i].threads| && run[i].threads[t].log <= run[j].threads[t].log
    ensures |run[j].captured| == |run[i].captured|
    ensures 0 <= run[j].captured[v].environment <= run[i].captured[v].environment <= 1
  {
    hide Apply, Enabled;
    RunInv(run, actions, i);
    if i < j {
      RunReleases(run, actions, i, j - 1, t, v);
      RunInv(run, actions, j);
      StepKeepsLogs(run[j - 1], actions[j - 1], t);
      StepReleases(run[j - 1], actions[j - 1], v);
    }
  }

  /** No step touches a freed block, misreads the payload or loses the evaluator's reference. */
  lemma NeverCorrupted(run: seq<State>, actions: seq<Action>, i: nat)
    requires IsRun(run, actions) && i < |run|
    ensures !run[i].corrupted
    ensures |run[i].entries| == 2 ==> run[i].count <= -1 && !run[i].freed
    ensures |run[i].entries| == 2 ==> forall t :: 0 <= t < |run[i].threads| ==> !run[i].threads[t].pc.Reclaiming?
  {
    RunInv(run, actions, i);
    if |run[i].entries| == 2 {
      assert Holding(run[i].threads[run[i].owner.value].pc);
      Alive(run[i], run[i].owner.value);
    }
  }

  // ----- Ownership -----

  function Handles(th: Thread): nat {
    th.handles
  }

  function Results(th: Thread): nat {
    |th.log|
  }

  function InCall(th: Thread): nat {
    if th.pc.Idle? || th.pc == Reclaiming(None) then 0 else 1
  }

  /** Whether an action clones a handle, drops one, calls the thunk, or passes a body's own reference on. */
  function Clones(a: Action): nat {
    if a.CloneHandle? then 1 else 0
  }

  function Drops(a: Action): nat {
    if a.DropHandle? then 1 else 0
  }

  function Calls(a: Action): nat {
    if a.Call? then 1 else 0
  }

  function Passes(a: Action): nat {
    if a.BodySendsSelf? then 1 else 0
  }

  lemma {:induction false} TotalAppend<T>(s: seq<T>, x: T, weight: T -> nat)
    ensures Total(s + [x], weight) == Total(s, weight) + weight(x)
  {
    if s == [] {
      assert s + [x] == [x];
    } else {
      assert (s + [x])[1..] == s[1..] + [x];
      TotalAppend(s[1..], x, weight);
    }
  }

  /** The ledger entry of the acting thread. */
  lemma MovedLedger(s: State, a: Action)
    requires Shape(s) && Enabled(s, a) && ThreadOk(s, a.t)
    ensures var th, th' := s.threads[a.t], Moved(s, a);
            && Handles(th') + Drops(a) + Calls(a) + (if a.SendHandle? then 1 else 0) == Handles(th) + Clones(a)
            && Results(th') + InCall(th') == Results(th) + InCall(th) + Calls(a)
  {
    hide Memory;
  }

  lemma StepLedger(s: State, a: Action)
    requires Shape(s) && Enabled(s, a) && ThreadOk(s, a.t)
    ensures var s' := Apply(s, a);
            && Total(s'.threads, Handles) + Drops(a) + Calls(a) == Total(s.threads, Handles) + Clones(a) + Passes(a)
            && Total(s'.threads, Results) + Total(s'.threads, InCall)
                 == Total(s.threads, Results) + Total(s.threads, InCall) + Calls(a)
  {
    var s' := Apply(s, a);
    StepThreads(s, a);
    MovedLedger(s, a);
    hide Apply, Memory, Moved, Enabled;
    var th := Moved(s, a);
    TotalUpdate(s.threads, a.t, th, Handles);
    TotalUpdate(s.threads, a.t, th, Results);
    TotalUpdate(s.threads, a.t, th, InCall);
    if a.SendHandle? || a.BodySendsSelf? {
      var mid := s.threads[a.t := th];
      TotalUpdate(mid, a.u, s'.threads[a.u], Handles);
      TotalUpdate(mid, a.u, s'.threads[a.u], Results);
      TotalUpdate(mid, a.u, s'.threads[a.u], InCall);
    }
  }

  /**
   The ledger of a whole run: every call takes one handle away, gives one result back unless it
   is still pending, and the only references that outlive calls are the ones bodies pass on.
   */
  lemma {:induction false} RunLedger(run: seq<State>, actions: seq<Action>)
    requires IsRun(run, actions)
    ensures var first, last := run[0], run[|actions|];
            && Total(last.threads, Handles) + Total(actions, Drops) + Total(actions, Calls)
                 == Total(first.threads, Handles) + Total(actions, Clones) + Total(actions, Passes)
            && Total(last.threads, Results) + Total(last.threads, InCall) == Total(actions, Calls)
  {
    hide Apply, Enabled, Shape, ThreadOk, Inv;
    var n := |actions|;
    if n == 0 {
      NoResults(run[0]);
    } else {
      var before, a := actions[..n - 1], actions[n - 1];
      assert IsRun(run[..n], before);
      RunLedger(run[..n], before);
      RunInv(run, actions, n - 1);
      InvStepLedger(run[n - 1], a);
      hide IsRun, Total;
      assert actions == before + [a];
      TotalAppend(before, a, Clones);
      TotalAppend(before, a, Drops);
      TotalAppend(before, a, Calls);
      TotalAppend(before, a, Passes);
    }
  }

  lemma NoResults(s: State)
    requires Init(s)
    ensures Total(s.threads, Results) == 0 && Total(s.threads, InCall) == 0
  {
    TotalZero(s.threads, Results);
    TotalZero(s.threads, InCall);
  }

  lemma InvStepLedger(s: State, a: Action)
    requires Inv(s) && Enabled(s, a)
    ensures var s' := Apply(s, a);
            && Total(s'.threads, Handles) + Drops(a) + Calls(a) == Total(s.threads, Handles) + Clones(a) + Passes(a)
            && Total(s'.threads, Results) + Total(s'.threads, InCall)
                 == Total(s.threads, Results) + Total(s.threads, InCall) + Calls(a)
  {
    hide Apply, Enabled;
    StepThreads(s, a);
    assert Shape(s) && ThreadOk(s, a.t);
    hide Inv, Shape, ThreadOk, Total;
    StepLedger(s, a);
  }

  predicate Quiescent(s: State) {
    forall t :: 0 <= t < |s.threads| ==> s.threads[t].pc.Idle?
  }

  /**
   Once all calls have returned, the count is exactly the remaining handles, the block is freed
   exactly when there are none, captured variables and the payload's value have been released
   exactly once, and every result carries exactly one reference.
   */
  lemma QuiescentOwnership(run: seq<State>, actions: seq<Action>, i: nat)
    requires IsRun(run, actions) && i < |run| && Quiescent(run[i])
    ensures run[i].count + Total(run[i].threads, Handles) == 0
    ensures run[i].freed <==> Total(run[i].threads, Handles) == 0
    ensures forall v :: 0 <= v < |run[i].captured| ==>
              run[i].captured[v] == Captured(if run[i].freed || |run[i].payloads| == 2 then 0 else 1, 0)
    ensures run[i].values == Total(run[i].threads, Results) + if |run[i].payloads| == 2 && !run[i].freed then 1 else 0
  {
    var s := run[i];
    RunInv(run, actions, i);
    QuiescentTotals(s.threads);
    assert |s.entries| != 2;
  }

  lemma {:induction false} QuiescentTotals(threads: seq<Thread>)
    requires forall t :: 0 <= t < |threads| ==> threads[t].pc.Idle?
    ensures Total(threads, References) == Total(threads, Handles)
    ensures Total(threads, ValueReferences) == Total(threads, Results)
  {
    if threads != [] {
      QuiescentTotals(threads[1..]);
    }
  }

  // ----- Progress -----

  /** An upper bound on the steps a call still takes when it re-reads the newest entry function. */
  function Rank(pc: Pc, n: nat): nat {
    match pc
    case Idle => 0
    case Reclaiming(_) => 1
    case Cloned(_) | Finishing(_) => 2
    case Loaded(_) | Publishing(_) => 3
    case Acquired | Switching(_) => 4
    case InNormal | Storing(_) => 5
    case CasFailed | Yielded => 6
    case InLocked => 7
    case Releasing(i, _) => 6 + (if i < n then n - i else 0)
    case Running(self) => if self then 8 + n else 7 + n
    case Capturing(i) => 9 + n + (if i < n then n - i else 0)
    case Won => 10 + 2 * n
    case InInitial => 11 + 2 * n
    case Dispatch => 12 + 2 * n
  }

  /** A step of a body that only moves handles around. */
  predicate MovesHandles(a: Action) {
    a.CloneHandle? || a.DropHandle? || a.SendHandle?
  }

  /** A spinning thread that reads the locked entry function again. */
  predicate Spins(s: State, a: Action)
    requires Enabled(s, a)
  {
    a.LoadEntry? && !s.threads[a.t].pc.Dispatch? && s.entries[a.k].entry == Locked
  }

  /** Apart from spinning, every step of a pending call brings it strictly closer to returning. */
  lemma StepsDescend(run: seq<State>, actions: seq<Action>, i: nat, a: Action)
    requires IsRun(run, actions) && i < |run| && Enabled(run[i], a)
    requires !run[i].threads[a.t].pc.Idle? && !MovesHandles(a) && !Spins(run[i], a)
    ensures var s, s' := run[i], Apply(run[i], a);
            && |s'.threads| == |s.threads|
            && Rank(s'.threads[a.t].pc, |s.captured|) < Rank(s.threads[a.t].pc, |s.captured|)
            && forall u :: 0 <= u < |s.threads| && u != a.t ==> s'.threads[u].pc == s.threads[u].pc
  {
    RunInv(run, actions, i);
    hide Apply, Memory, Moved;
    assert ThreadOk(run[i], a.t);
    Descends(run[i], a);
  }

  lemma Descends(s: State, a: Action)
    requires Shape(s) && Enabled(s, a) && ThreadOk(s, a.t)
    requires !s.threads[a.t].pc.Idle? && !MovesHandles(a) && !Spins(s, a)
    ensures |Apply(s, a).threads| == |s.threads|
    ensures Rank(Apply(s, a).threads[a.t].pc, |s.captured|) < Rank(s.threads[a.t].pc, |s.captured|)
    ensures forall u :: 0 <= u < |s.threads| && u != a.t ==> Apply(s, a).threads[u].pc == s.threads[u].pc
  {
    StepThreads(s, a);
    MovedDescends(s, a);
    hide Apply, Memory, Moved, Enabled;
  }

  lemma MovedDescends(s: State, a: Action)
    requires Shape(s) && Enabled(s, a) && ThreadOk(s, a.t)
    requires !s.threads[a.t].pc.Idle? && !MovesHandles(a) && !Spins(s, a)
    ensures Rank(Moved(s, a).pc, |s.captured|) < Rank(s.threads[a.t].pc, |s.captured|)
  {
    hide Memory;
  }

  /** A thread is held up only while another one holds the lock. */
  predicate Unlocked(s: State, t: nat) {
    |s.entries| == 2 ==> s.owner == Some(t)
  }

  /** The next step of a pending call that reads the newest entry function. */
  function NextAction(s: State, t: nat): Action
    requires t < |s.threads| && |s.entries| > 0 && |s.payloads| > 0 && |s.metadatas| > 0
  {
    match s.threads[t].pc
    case Idle => Yield(t)
    case Dispatch | CasFailed | Yielded => LoadEntry(t, |s.entries| - 1)
    case InInitial => CompareAndSwap(t, |s.entries| - 1)
    case InLocked => Yield(t)
    case InNormal => AcquireEntry(t, |s.entries| - 1)
    case Acquired => LoadValue(t, |s.payloads| - 1)
    case Loaded(_) => CloneValue(t)
    case Cloned(_) => DropReference(t)
    case Won => CloneClosure(t)
    case Capturing(i) => if i < |s.captured| then Capture(t, |s.payloads| - 1) else StartBody(t)
    case Running(self) => if self then BodyDropsSelf(t) else BodyReturns(t, 0)
    case Releasing(i, _) => if i < |s.captured| then ReleaseCaptured(t, |s.payloads| - 1) else EnvironmentReleased(t)
    case Storing(_) => StoreValue(t)
    case Switching(_) => StoreMetadata(t)
    case Publishing(_) => Publish(t)
    case Finishing(_) => Finish(t)
    case Reclaiming(_) => Reclaim(t, |s.metadatas| - 1, |s.payloads| - 1)
  }

  /** The given actions are enabled one after the other and lead from one state to another. */
  predicate Leads(s: State, actions: seq<Action>, end: State)
    decreases |actions|
  {
    if actions == [] then s == end
    else Enabled(s, actions[0]) && Leads(Apply(s, actions[0]), actions[1..], end)
  }

  lemma {:induction false} LeadsConcat(s: State, one: seq<Action>, mid: State, other: seq<Action>, end: State)
    requires Leads(s, one, mid) && Leads(mid, other, end)
    ensures Leads(s, one + other, end)
    decreases |one|
  {
    hide Apply, Enabled;
    if one == [] {
      assert one + other == other;
    } else {
      LeadsConcat(Apply(s, one[0]), one[1..], mid, other, end);
      assert (one + other)[1..] == one[1..] + other;
    }
  }

  lemma StepShape(s: State, a: Action)
    requires Enabled(s, a) && (s.owner.Some? ==> |s.entries| >= 2) && Shape(s)
    ensures |Apply(s, a).threads| == |s.threads| && |Apply(s, a).captured| == |s.captured|
    ensures s.owner.Some? ==> Apply(s, a).owner == s.owner
  {
    StepThreads(s, a);
    MemoryFacts(s, a);
    hide Apply, Memory, Moved;
  }

  lemma NextEnabled(s: State, t: nat)
    requires Inv(s) && t < |s.threads| && !s.threads[t].pc.Idle? && Unlocked(s, t)
    ensures var a := NextAction(s, t);
            && Enabled(s, a) && a.t == t && !MovesHandles(a) && !Spins(s, a)
            && !a.SendHandle? && !a.BodySendsSelf?
            && (a.CompareAndSwap? ==> s.entries[a.k].entry == Initial || |s.entries| > 2)
            && (a.Publish? ==> |s.entries| == 2)
  {
    hide Apply, Memory, Moved;
    assert ThreadOk(s, t);
  }

  lemma MemoryUnlocked(s: State, a: Action)
    requires Enabled(s, a) && 1 <= |s.entries| <= 3 && Unlocked(s, a.t)
    requires a.CompareAndSwap? ==> s.entries[a.k].entry == Initial || |s.entries| > 2
    requires a.Publish? ==> |s.entries| == 2
    ensures Unlocked(Memory(s, a), a.t)
  {
    hide Moved;
  }

  lemma NextStep(s: State, t: nat)
    requires Inv(s) && t < |s.threads| && !s.threads[t].pc.Idle? && Unlocked(s, t)
    ensures var a := NextAction(s, t);
            && Enabled(s, a) && a.t == t && !MovesHandles(a) && !Spins(s, a)
            && Unlocked(Apply(s, a), t)
  {
    NextEnabled(s, t);
    var a := NextAction(s, t);
    assert Shape(s);
    hide Memory, Moved, NextAction, Inv;
    MemoryUnlocked(s, a);
  }

  lemma {:induction false} Complete(s: State, t: nat) returns (actions: seq<Action>, end: State)
    requires Inv(s) && t < |s.threads| && Unlocked(s, t)
    ensures Leads(s, actions, end) && Inv(end) && |actions| <= Rank(s.threads[t].pc, |s.captured|)
    ensures |end.threads| == |s.threads| && |end.captured| == |s.captured| && end.threads[t].pc.Idle?
    ensures forall u :: 0 <= u < |s.threads| && u != t ==> end.threads[u].pc == s.threads[u].pc
    ensures s.owner.Some? ==> end.owner == s.owner
    decreases Rank(s.threads[t].pc, |s.captured|)
  {
    if s.threads[t].pc.Idle? {
      actions, end := [], s;
    } else {
      var a := NextAction(s, t);
      NextStep(s, t);
      assert ThreadOk(s, t);
      Descends(s, a);
      StepInv(s, a);
      StepShape(s, a);
      var rest;
      rest, end := Complete(Apply(s, a), t);
      actions := [a] + rest;
      assert actions[1..] == rest;
    }
  }

  /**
   No reachable state is stuck: from each of them every pending call can be brought to its return
   by a bounded number of steps, first of the lock holder if there is one, then of the call itself.
   */
  lemma EveryCallCanReturn(run: seq<State>, actions: seq<Action>, i: nat, t: nat)
    returns (more: seq<Action>, end: State)
    requires IsRun(run, actions) && i < |run| && t < |run[i].threads|
    ensures Leads(run[i], more, end) && Inv(end)
    ensures |more| <= 24 + 4 * |run[i].captured|
    ensures t < |end.threads| && end.threads[t].pc.Idle?
  {
    var s := run[i];
    RunInv(run, actions, i);
    RankBound(s, t);
    if Unlocked(s, t) {
      more, end := Complete(s, t);
    } else {
      var holder := s.owner.value;
      RankBound(s, holder);
      var first, mid := Complete(s, holder);
      assert |mid.entries| == 3;
      var second;
      second, end := Complete(mid, t);
      LeadsConcat(s, first, mid, second, end);
      more := first + second;
    }
  }

  lemma RankBound(s: State, t: nat)
    requires t < |s.threads|
    ensures Rank(s.threads[t].pc, |s.captured|) <= 12 + 2 * |s.captured|
  {
  }
}
