/**
 The once-only evaluation protocol of synchronized thunks, as a step system over any number of
 threads.

 A thunk is a closure with three words: its entry function, its metadata (the drop function) and
 its payload (the captured environment, later overwritten by the computed value).  Memory is
 weak: every location keeps the history of its writes, a thread only knows a lower bound of each
 history (its view), a relaxed load may return any write at or after that bound, and only
 acquire/release pairs and the release sequence of the reference count carry views over.

 The count is the encoded word of a shared block: minus the number of references.
 */
module Thunk {
  import opened Sums

  type Value = int

  datatype Entry = Initial | Locked | Normal
  datatype Payload = Environment | Computed(value: Value)
  datatype Metadata = DropEnvironment | DropValue

  /** The newest write of every location that a thread or a message knows of. */
  datatype View = View(entry: nat, payload: nat, metadata: nat)

  datatype Message = Message(entry: Entry, view: View)

  datatype Pc =
    | Idle
    | Dispatch                    // about to load the entry function (call.rs)
    | InInitial                   // about to compare and swap
    | CasFailed                   // about to load the entry function again
    | InLocked                    // about to yield
    | Yielded                     // about to load the entry function again
    | InNormal                    // about to load the entry function with acquire ordering
    | Acquired                    // about to load the payload
    | Loaded(payload: Payload)    // about to clone the loaded value
    | Cloned(value: Value)        // about to drop the closure
    | Won                         // holds the lock, about to clone the closure pointer
    | Capturing(index: nat)       // about to load and clone a captured variable for the body
    | Running(self: bool)         // in the body, which may still own its reference to the thunk
    | Releasing(index: nat, value: Value)  // about to load and drop a captured variable
    | Storing(value: Value)       // about to overwrite the payload
    | Switching(value: Value)     // about to overwrite the metadata
    | Publishing(value: Value)    // about to release the normal entry function
    | Finishing(value: Value)     // about to drop the cloned closure pointer
    | Reclaiming(result: Option<Value>)    // dropped the last reference, about to free the block

  datatype Thread = Thread(pc: Pc, view: View, handles: nat, log: seq<Value>)

  /** References to one captured variable: the environment's own, and the running body's. */
  datatype Captured = Captured(environment: int, body: int)

  datatype State = State(
    entries: seq<Message>,
    payloads: seq<Payload>,
    metadatas: seq<Metadata>,
    count: int,               // minus the number of references to the closure
    released: View,           // what the release sequence of the count carries
    threads: seq<Thread>,
    captured: seq<Captured>,
    values: int,              // references to the computed value
    owner: Option<nat>,       // history: the thread whose compare-and-swap succeeded
    runs: nat,                // history: how often the body has been started
    freed: bool,
    corrupted: bool           // a wrongly typed payload was used, or a freed block was touched
  )

  datatype Action =
    | CloneHandle(t: nat)
    | DropHandle(t: nat)
    | SendHandle(t: nat, u: nat)
    | Call(t: nat)
    | LoadEntry(t: nat, k: nat)
    | CompareAndSwap(t: nat, k: nat)
    | Yield(t: nat)
    | AcquireEntry(t: nat, k: nat)
    | LoadValue(t: nat, k: nat)
    | CloneValue(t: nat)
    | DropReference(t: nat)
    | CloneClosure(t: nat)
    | Capture(t: nat, k: nat)
    | StartBody(t: nat)
    | BodyDropsSelf(t: nat)
    | BodySendsSelf(t: nat, u: nat)
    | BodyReturns(t: nat, v: Value)
    | ReleaseCaptured(t: nat, k: nat)
    | EnvironmentReleased(t: nat)
    | StoreValue(t: nat)
    | StoreMetadata(t: nat)
    | Publish(t: nat)
    | Finish(t: nat)
    | Reclaim(t: nat, m: nat, k: nat)

  function Max(a: nat, b: nat): nat {
    if a < b then b else a
  }

  function Join(a: View, b: View): View {
    View(Max(a.entry, b.entry), Max(a.payload, b.payload), Max(a.metadata, b.metadata))
  }

  // ----- Weights -----

  /** References to the closure owned by the frames of a call. */
  function CallReferences(pc: Pc): nat {
    match pc
    case Idle | Reclaiming(_) => 0
    case Capturing(_) => 2
    case Running(self) => if self then 2 else 1
    case _ => 1
  }

  function References(thread: Thread): nat {
    thread.handles + CallReferences(thread.pc)
  }

  /** References to the computed value owned by a call that has not returned. */
  function PendingValues(pc: Pc): nat {
    match pc
    case Cloned(_) | Releasing(_, _) | Storing(_) | Switching(_) | Publishing(_) | Finishing(_) => 1
    case Reclaiming(r) => if r.Some? then 1 else 0
    case _ => 0
  }

  function ValueReferences(thread: Thread): nat {
    |thread.log| + PendingValues(thread.pc)
  }

  // ----- Steps -----

  function EntryPc(entry: Entry): Pc {
    match entry
    case Initial => InInitial
    case Locked => InLocked
    case Normal => InNormal
  }

  function Put(s: State, t: nat, thread: Thread): State
    requires t < |s.threads|
  {
    s.(threads := s.threads[t := thread])
  }

  function Return(thread: Thread, v: Value): Thread {
    thread.(pc := Idle, log := thread.log + [v])
  }

  predicate CanReceive(pc: Pc) {
    pc.Idle? || pc.Running?
  }

  predicate Enabled(s: State, a: Action) {
    a.t < |s.threads| &&
    var th := s.threads[a.t];
    match a
    case CloneHandle(t) => CanReceive(th.pc) && (th.handles > 0 || th.pc == Running(true))
    case DropHandle(t) => CanReceive(th.pc) && th.handles > 0
    case SendHandle(t, u) => u < |s.threads| && u != t && CanReceive(th.pc) && th.handles > 0
                             && CanReceive(s.threads[u].pc)
    case Call(t) => th.pc.Idle? && th.handles > 0
    case LoadEntry(t, k) => (th.pc.Dispatch? || th.pc.CasFailed? || th.pc.Yielded?)
                            && th.view.entry <= k < |s.entries|
    case CompareAndSwap(t, k) => th.pc.InInitial? && th.view.entry <= k < |s.entries|
                                 && (s.entries[k].entry == Initial ==> k == |s.entries| - 1)
    case Yield(t) => th.pc.InLocked?
    case AcquireEntry(t, k) => th.pc.InNormal? && th.view.entry <= k < |s.entries|
    case LoadValue(t, k) => th.pc.Acquired? && th.view.payload <= k < |s.payloads|
    case CloneValue(t) => th.pc.Loaded?
    case DropReference(t) => th.pc.Cloned?
    case CloneClosure(t) => th.pc.Won?
    case Capture(t, k) => th.pc.Capturing? && th.pc.index < |s.captured| && th.view.payload <= k < |s.payloads|
    case StartBody(t) => th.pc.Capturing? && th.pc.index >= |s.captured|
    case BodyDropsSelf(t) => th.pc == Running(true)
    case BodySendsSelf(t, u) => th.pc == Running(true) && u < |s.threads| && u != t && s.threads[u].pc.Idle?
    case BodyReturns(t, v) => th.pc == Running(false)
    case ReleaseCaptured(t, k) => th.pc.Releasing? && th.pc.index < |s.captured| && th.view.payload <= k < |s.payloads|
    case EnvironmentReleased(t) => th.pc.Releasing? && th.pc.index >= |s.captured|
    case StoreValue(t) => th.pc.Storing?
    case StoreMetadata(t) => th.pc.Switching?
    case Publish(t) => th.pc.Publishing?
    case Finish(t) => th.pc.Finishing?
    case Reclaim(t, m, k) => th.pc.Reclaiming? && th.view.metadata <= m < |s.metadatas|
                             && th.view.payload <= k < |s.payloads|
  }

  /** The view of the thread that removes the last reference: it acquires the release sequence. */
  function LastView(s: State, th: Thread): View {
    Join(th.view, Join(s.released, th.view))
  }

  /** The acting thread after its step. */
  function Moved(s: State, a: Action): Thread
    requires Enabled(s, a)
  {
    var th := s.threads[a.t];
    match a
    case CloneHandle(_) => th.(handles := th.handles + 1)
    case DropHandle(_) =>
      var next := th.(handles := th.handles - 1);
      if s.count != -1 then next
      else if th.pc.Idle? then next.(pc := Reclaiming(None), view := LastView(s, th))
      else next.(view := LastView(s, th))
    case SendHandle(_, _) => th.(handles := th.handles - 1)
    case Call(_) => th.(handles := th.handles - 1, pc := Dispatch)
    case LoadEntry(_, k) => th.(pc := EntryPc(s.entries[k].entry), view := th.view.(entry := k))
    case CompareAndSwap(_, k) =>
      if s.entries[k].entry == Initial then th.(pc := Won, view := Join(th.view, s.entries[k].view).(entry := k + 1))
      else th.(pc := CasFailed, view := th.view.(entry := k))
    case Yield(_) => th.(pc := Yielded)
    case AcquireEntry(_, k) => th.(pc := Acquired, view := Join(th.view.(entry := k), s.entries[k].view))
    case LoadValue(_, k) => th.(pc := Loaded(s.payloads[k]))
    case CloneValue(_) =>
      (match th.pc.payload
       case Computed(v) => th.(pc := Cloned(v))
       case Environment => th)
    case DropReference(_) | Finish(_) =>
      if s.count == -1 then th.(pc := Reclaiming(Some(th.pc.value)), view := LastView(s, th))
      else Return(th, th.pc.value)
    case CloneClosure(_) => th.(pc := Capturing(0))
    case Capture(_, _) => th.(pc := Capturing(th.pc.index + 1))
    case StartBody(_) => th.(pc := Running(true))
    case BodyDropsSelf(_) => th.(pc := Running(false))
    case BodySendsSelf(_, _) => th.(pc := Running(false))
    case BodyReturns(_, v) => th.(pc := Releasing(0, v))
    case ReleaseCaptured(_, _) => th.(pc := Releasing(th.pc.index + 1, th.pc.value))
    case EnvironmentReleased(_) => th.(pc := Storing(th.pc.value))
    case StoreValue(_) => th.(pc := Switching(th.pc.value), view := th.view.(payload := |s.payloads|))
    case StoreMetadata(_) => th.(pc := Publishing(th.pc.value), view := th.view.(metadata := |s.metadatas|))
    case Publish(_) => th.(pc := Finishing(th.pc.value), view := th.view.(entry := |s.entries|))
    case Reclaim(_, _, _) => if th.pc.result.Some? then Return(th, th.pc.result.value) else th.(pc := Idle)
  }

  /** Whether the step reads or writes the block. */
  predicate Touches(a: Action) {
    !(a.SendHandle? || a.Call? || a.Yield? || a.CloneValue? || a.StartBody? || a.BodySendsSelf? || a.BodyReturns?
      || a.EnvironmentReleased?)
  }

  /** Whether the step cannot be carried out as compiled. */
  predicate Fails(s: State, a: Action)
    requires Enabled(s, a)
  {
    || (Touches(a) && s.freed)
    || (a.DropHandle? && s.threads[a.t].pc.Running? && s.count == -1)
    || (a.BodyDropsSelf? && s.count == -1)
    || (a.CloneValue? && s.threads[a.t].pc.payload == Environment)
    || ((a.Capture? || a.ReleaseCaptured?) && s.payloads[a.k] != Environment)
    || (a.Reclaim? && (s.metadatas[a.m] == DropEnvironment) != (s.payloads[a.k] == Environment))
  }

  /** The memory after the step; a clone decrements the count word and a drop increments it. */
  function Memory(s: State, a: Action): State
    requires Enabled(s, a)
  {
    var th := s.threads[a.t];
    var s := s.(corrupted := s.corrupted || Fails(s, a));
    match a
    case CloneHandle(_) | CloneClosure(_) => s.(count := s.count - 1)
    case DropHandle(_) | DropReference(_) | Finish(_) | BodyDropsSelf(_) =>
      s.(count := s.count + 1, released := Join(s.released, th.view))
    case CompareAndSwap(t, k) =>
      // Success continues the release sequence of the message it read.
      if s.entries[k].entry == Initial then
        s.(entries := s.entries + [Message(Locked, s.entries[k].view.(entry := k + 1))], owner := Some(t))
      else s
    case CloneValue(_) => if th.pc.payload.Computed? then s.(values := s.values + 1) else s
    case Capture(_, _) =>
      var c := s.captured[th.pc.index];
      s.(captured := s.captured[th.pc.index := c.(body := c.body + 1)])
    case StartBody(_) => s.(runs := s.runs + 1)
    case BodyReturns(_, _) =>
      // The body has consumed its clones of the captured variables and owns its result.
      s.(captured := seq(|s.captured|, i requires 0 <= i < |s.captured| => s.captured[i].(body := s.captured[i].body - 1)),
         values := s.values + 1)
    case ReleaseCaptured(_, _) =>
      var c := s.captured[th.pc.index];
      s.(captured := s.captured[th.pc.index := c.(environment := c.environment - 1)])
    case StoreValue(_) => s.(payloads := s.payloads + [Computed(th.pc.value)], values := s.values + 1)
    case StoreMetadata(_) => s.(metadatas := s.metadatas + [DropValue])
    case Publish(_) => s.(entries := s.entries + [Message(Normal, th.view.(entry := |s.entries|))])
    case Reclaim(_, m, _) =>
      if s.metadatas[m] == DropEnvironment then
        s.(freed := true,
           captured := seq(|s.captured|, i requires 0 <= i < |s.captured| =>
                             s.captured[i].(environment := s.captured[i].environment - 1)))
      else s.(freed := true, values := s.values - 1)
    case _ => s
  }

  function Apply(s: State, a: Action): State
    requires Enabled(s, a)
  {
    var s' := Put(Memory(s, a), a.t, Moved(s, a));
    if a.SendHandle? || a.BodySendsSelf? then
      var to := s.threads[a.u];
      Put(s', a.u, to.(handles := to.handles + 1, view := Join(to.view, s.threads[a.t].view)))
    else s'
  }

  /** A thunk that has just been shared: nobody has called it, and every thread may own handles. */
  predicate Init(s: State) {
    && s.entries == [Message(Initial, View(0, 0, 0))]
    && s.payloads == [Environment]
    && s.metadatas == [DropEnvironment]
    && s.count + Total(s.threads, References) == 0 && s.count < 0
    && s.released == View(0, 0, 0)
    && (forall t :: 0 <= t < |s.threads| ==> s.threads[t].pc == Idle && s.threads[t].view == View(0, 0, 0) && s.threads[t].log == [])
    && (forall i :: 0 <= i < |s.captured| ==> s.captured[i] == Captured(1, 0))
    && s.values == 0
    && s.owner == None
    && s.runs == 0
    && !s.freed
    && !s.corrupted
  }

  /** A run: the states passed through when the actions are taken in order. */
  predicate IsRun(run: seq<State>, actions: seq<Action>) {
    && |run| == |actions| + 1
    && Init(run[0])
    && forall i :: 0 <= i < |actions| ==> Enabled(run[i], actions[i]) && run[i + 1] == Apply(run[i], actions[i])
  }
}
