/** Threads do clone and drop the value of a thunk at the same time. */
module ThunkRuns {
  import opened Sums
  import opened Thunk
  import opened ThunkInvariant
  import opened ThunkTheorems

  // ----- A run, step by step -----

  const START: View := View(0, 0, 0)
  const FIRST: Message := Message(Initial, START)
  const SECOND: Message := Message(Locked, View(1, 0, 0))
  const THIRD: Message := Message(Normal, View(2, 1, 1))
  const WAITING: Thread := Thread(Idle, START, 1, [])

  /** A thunk without captured variables, between two threads; the second one waits for the first one. */
  function Before(entries: seq<Message>, count: int, released: View, pc: Pc, view: View, handles: nat, values: int, runs: nat): State {
    State(entries, [Environment], [DropEnvironment], count, released, [Thread(pc, view, handles, []), WAITING], [],
          values, if |entries| > 1 then Some(0) else None, runs, false, false)
  }

  /** The same after the value has been stored. */
  function After(entries: seq<Message>, metadatas: seq<Metadata>, count: int, released: View, first: Thread, second: Thread, v: Value): State {
    State(entries, [Environment, Computed(v)], metadatas, count, released, [first, second], [], 2, Some(0), 1, false, false)
  }

  lemma Extend(run: seq<State>, actions: seq<Action>, a: Action)
    requires IsRun(run, actions) && Enabled(run[|actions|], a)
    ensures IsRun(run + [Apply(run[|actions|], a)], actions + [a])
  {
    hide Enabled, Apply, Init;
  }

  lemma Starts(s: State)
    requires s == Before([FIRST], -2, START, Idle, START, 1, 0, 0)
    ensures Init(s)
  {
    assert s.threads[1..] == [WAITING] && [WAITING][1..] == [];
    assert Total([WAITING], References) == 1;
    assert Total(s.threads, References) == 2;
  }

  lemma Next(run: seq<State>, actions: seq<Action>, a: Action, s: State) returns (run': seq<State>, actions': seq<Action>)
    requires IsRun(run, actions) && Enabled(run[|actions|], a) && Apply(run[|actions|], a) == s
    ensures IsRun(run', actions') && |run'| == |actions'| + 1 && run'[|actions'|] == s
  {
    hide Enabled, Apply;
    Extend(run, actions, a);
    run', actions' := run + [s], actions + [a];
  }

  /** The first thread has its result. */
  function Published(second: Thread, v: Value): State {
    After([FIRST, SECOND, THIRD], [DropEnvironment, DropValue], -1, View(2, 1, 1), Thread(Idle, View(2, 1, 1), 0, [v]), second, v)
  }

  lemma Calls() returns (run: seq<State>, actions: seq<Action>)
    ensures IsRun(run, actions) && |run| == |actions| + 1
    ensures run[|actions|] == Before([FIRST], -2, START, Dispatch, START, 0, 0, 0)
  {
    var s := Before([FIRST], -2, START, Idle, START, 1, 0, 0);
    Starts(s);
    run, actions := [s], [];
    assert IsRun(run, actions);
    hide IsRun;
    var s' := Before([FIRST], -2, START, Dispatch, START, 0, 0, 0);
    assert Enabled(run[|actions|], Call(0)) && Apply(run[|actions|], Call(0)) == s';
    hide Enabled, Apply;
    run, actions := Next(run, actions, Call(0), s');
  }

  lemma EntersInitial() returns (run: seq<State>, actions: seq<Action>)
    ensures IsRun(run, actions) && |run| == |actions| + 1
    ensures run[|actions|] == Before([FIRST], -2, START, InInitial, START, 0, 0, 0)
  {
    run, actions := Calls();
    hide IsRun;
    var s' := Before([FIRST], -2, START, InInitial, START, 0, 0, 0);
    assert Enabled(run[|actions|], LoadEntry(0, 0)) && Apply(run[|actions|], LoadEntry(0, 0)) == s';
    hide Enabled, Apply;
    run, actions := Next(run, actions, LoadEntry(0, 0), s');
  }

  lemma Wins() returns (run: seq<State>, actions: seq<Action>)
    ensures IsRun(run, actions) && |run| == |actions| + 1
    ensures run[|actions|] == Before([FIRST, SECOND], -2, START, Won, View(1, 0, 0), 0, 0, 0)
  {
    run, actions := EntersInitial();
    hide IsRun;
    var s' := Before([FIRST, SECOND], -2, START, Won, View(1, 0, 0), 0, 0, 0);
    assert Enabled(run[|actions|], CompareAndSwap(0, 0)) && Apply(run[|actions|], CompareAndSwap(0, 0)) == s';
    hide Enabled, Apply;
    run, actions := Next(run, actions, CompareAndSwap(0, 0), s');
  }

  lemma ClonesClosure() returns (run: seq<State>, actions: seq<Action>)
    ensures IsRun(run, actions) && |run| == |actions| + 1
    ensures run[|actions|] == Before([FIRST, SECOND], -3, START, Capturing(0), View(1, 0, 0), 0, 0, 0)
  {
    run, actions := Wins();
    hide IsRun;
    var s' := Before([FIRST, SECOND], -3, START, Capturing(0), View(1, 0, 0), 0, 0, 0);
    assert Enabled(run[|actions|], CloneClosure(0)) && Apply(run[|actions|], CloneClosure(0)) == s';
    hide Enabled, Apply;
    run, actions := Next(run, actions, CloneClosure(0), s');
  }

  lemma StartsBody() returns (run: seq<State>, actions: seq<Action>)
    ensures IsRun(run, actions) && |run| == |actions| + 1
    ensures run[|actions|] == Before([FIRST, SECOND], -3, START, Running(true), View(1, 0, 0), 0, 0, 1)
  {
    run, actions := ClonesClosure();
    hide IsRun;
    var s' := Before([FIRST, SECOND], -3, START, Running(true), View(1, 0, 0), 0, 0, 1);
    assert Enabled(run[|actions|], StartBody(0)) && Apply(run[|actions|], StartBody(0)) == s';
    hide Enabled, Apply;
    run, actions := Next(run, actions, StartBody(0), s');
  }

  lemma DropsItself() returns (run: seq<State>, actions: seq<Action>)
    ensures IsRun(run, actions) && |run| == |actions| + 1
    ensures run[|actions|] == Before([FIRST, SECOND], -2, View(1, 0, 0), Running(false), View(1, 0, 0), 0, 0, 1)
  {
    run, actions := StartsBody();
    hide IsRun;
    var s' := Before([FIRST, SECOND], -2, View(1, 0, 0), Running(false), View(1, 0, 0), 0, 0, 1);
    assert Enabled(run[|actions|], BodyDropsSelf(0)) && Apply(run[|actions|], BodyDropsSelf(0)) == s';
    hide Enabled, Apply;
    run, actions := Next(run, actions, BodyDropsSelf(0), s');
  }

  lemma BodyEnds(v: Value) returns (run: seq<State>, actions: seq<Action>)
    ensures IsRun(run, actions) && |run| == |actions| + 1
    ensures run[|actions|] == Before([FIRST, SECOND], -2, View(1, 0, 0), Releasing(0, v), View(1, 0, 0), 0, 1, 1)
  {
    run, actions := DropsItself();
    hide IsRun;
    var s' := Before([FIRST, SECOND], -2, View(1, 0, 0), Releasing(0, v), View(1, 0, 0), 0, 1, 1);
    assert Enabled(run[|actions|], BodyReturns(0, v)) && Apply(run[|actions|], BodyReturns(0, v)) == s';
    hide Enabled, Apply;
    run, actions := Next(run, actions, BodyReturns(0, v), s');
  }

  lemma Releases(v: Value) returns (run: seq<State>, actions: seq<Action>)
    ensures IsRun(run, actions) && |run| == |actions| + 1
    ensures run[|actions|] == Before([FIRST, SECOND], -2, View(1, 0, 0), Storing(v), View(1, 0, 0), 0, 1, 1)
  {
    run, actions := BodyEnds(v);
    hide IsRun;
    var s' := Before([FIRST, SECOND], -2, View(1, 0, 0), Storing(v), View(1, 0, 0), 0, 1, 1);
    assert Enabled(run[|actions|], EnvironmentReleased(0)) && Apply(run[|actions|], EnvironmentReleased(0)) == s';
    hide Enabled, Apply;
    run, actions := Next(run, actions, EnvironmentReleased(0), s');
  }

  lemma Stores(v: Value) returns (run: seq<State>, actions: seq<Action>)
    ensures IsRun(run, actions) && |run| == |actions| + 1
    ensures run[|actions|] == After([FIRST, SECOND], [DropEnvironment], -2, View(1, 0, 0), Thread(Switching(v), View(1, 1, 0), 0, []), WAITING, v)
  {
    run, actions := Releases(v);
    hide IsRun;
    var s' := After([FIRST, SECOND], [DropEnvironment], -2, View(1, 0, 0), Thread(Switching(v), View(1, 1, 0), 0, []), WAITING, v);
    assert Enabled(run[|actions|], StoreValue(0)) && Apply(run[|actions|], StoreValue(0)) == s';
    hide Enabled, Apply;
    run, actions := Next(run, actions, StoreValue(0), s');
  }

  lemma Switches(v: Value) returns (run: seq<State>, actions: seq<Action>)
    ensures IsRun(run, actions) && |run| == |actions| + 1
    ensures run[|actions|] == After([FIRST, SECOND], [DropEnvironment, DropValue], -2, View(1, 0, 0), Thread(Publishing(v), View(1, 1, 1), 0, []),
                                    WAITING, v)
  {
    run, actions := Stores(v);
    hide IsRun;
    var s' := After([FIRST, SECOND], [DropEnvironment, DropValue], -2, View(1, 0, 0), Thread(Publishing(v), View(1, 1, 1), 0, []),
                                    WAITING, v);
    assert Enabled(run[|actions|], StoreMetadata(0)) && Apply(run[|actions|], StoreMetadata(0)) == s';
    hide Enabled, Apply;
    run, actions := Next(run, actions, StoreMetadata(0), s');
  }

  lemma PublishesValue(v: Value) returns (run: seq<State>, actions: seq<Action>)
    ensures IsRun(run, actions) && |run| == |actions| + 1
    ensures run[|actions|] == After([FIRST, SECOND, THIRD], [DropEnvironment, DropValue], -2, View(1, 0, 0), Thread(Finishing(v), View(2, 1, 1), 0, []),
                                    WAITING, v)
  {
    run, actions := Switches(v);
    hide IsRun;
    var s' := After([FIRST, SECOND, THIRD], [DropEnvironment, DropValue], -2, View(1, 0, 0), Thread(Finishing(v), View(2, 1, 1), 0, []),
                                    WAITING, v);
    assert Enabled(run[|actions|], Publish(0)) && Apply(run[|actions|], Publish(0)) == s';
    hide Enabled, Apply;
    run, actions := Next(run, actions, Publish(0), s');
  }

  lemma Finishes(v: Value) returns (run: seq<State>, actions: seq<Action>)
    ensures IsRun(run, actions) && |run| == |actions| + 1
    ensures run[|actions|] == Published(WAITING, v)
  {
    run, actions := PublishesValue(v);
    assert [] + [v] == [v];
    hide IsRun;
    var s' := Published(WAITING, v);
    assert Enabled(run[|actions|], Finish(0)) && Apply(run[|actions|], Finish(0)) == s';
    hide Enabled, Apply;
    run, actions := Next(run, actions, Finish(0), s');
  }

  lemma CallsAgain(v: Value) returns (run: seq<State>, actions: seq<Action>)
    ensures IsRun(run, actions) && |run| == |actions| + 1
    ensures run[|actions|] == Published(Thread(Dispatch, START, 0, []), v)
  {
    run, actions := Finishes(v);
    hide IsRun;
    var s' := Published(Thread(Dispatch, START, 0, []), v);
    assert Enabled(run[|actions|], Call(1)) && Apply(run[|actions|], Call(1)) == s';
    hide Enabled, Apply;
    run, actions := Next(run, actions, Call(1), s');
  }

  lemma EntersNormal(v: Value) returns (run: seq<State>, actions: seq<Action>)
    ensures IsRun(run, actions) && |run| == |actions| + 1
    ensures run[|actions|] == Published(Thread(InNormal, View(2, 0, 0), 0, []), v)
  {
    run, actions := CallsAgain(v);
    hide IsRun;
    var s' := Published(Thread(InNormal, View(2, 0, 0), 0, []), v);
    assert Enabled(run[|actions|], LoadEntry(1, 2)) && Apply(run[|actions|], LoadEntry(1, 2)) == s';
    hide Enabled, Apply;
    run, actions := Next(run, actions, LoadEntry(1, 2), s');
  }

  lemma Acquires(v: Value) returns (run: seq<State>, actions: seq<Action>)
    ensures IsRun(run, actions) && |run| == |actions| + 1
    ensures run[|actions|] == Published(Thread(Acquired, View(2, 1, 1), 0, []), v)
  {
    run, actions := EntersNormal(v);
    hide IsRun;
    var s' := Published(Thread(Acquired, View(2, 1, 1), 0, []), v);
    assert Enabled(run[|actions|], AcquireEntry(1, 2)) && Apply(run[|actions|], AcquireEntry(1, 2)) == s';
    hide Enabled, Apply;
    run, actions := Next(run, actions, AcquireEntry(1, 2), s');
  }

  lemma Loads(v: Value) returns (run: seq<State>, actions: seq<Action>)
    ensures IsRun(run, actions) && |run| == |actions| + 1
    ensures run[|actions|] == Published(Thread(Loaded(Computed(v)), View(2, 1, 1), 0, []), v)
  {
    run, actions := Acquires(v);
    hide IsRun;
    var s' := Published(Thread(Loaded(Computed(v)), View(2, 1, 1), 0, []), v);
    assert Enabled(run[|actions|], LoadValue(1, 1)) && Apply(run[|actions|], LoadValue(1, 1)) == s';
    hide Enabled, Apply;
    run, actions := Next(run, actions, LoadValue(1, 1), s');
  }

  /** One thread owns its result, and may drop it, while another one is about to clone the stored value. */
  lemma ClonesMeetDrops(v: Value) returns (run: seq<State>, actions: seq<Action>)
    ensures IsRun(run, actions) && |run| == |actions| + 1
    ensures |run[|actions|].threads| == 2 && run[|actions|].values == 2
    ensures run[|actions|].threads[0].pc == Idle && run[|actions|].threads[0].log == [v]
    ensures run[|actions|].threads[1].pc == Loaded(Computed(v))
  {
    hide IsRun;
    run, actions := Loads(v);
  }
}
