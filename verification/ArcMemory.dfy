/**
 The reference count of a memory block under concurrent clones, drops, synchronizations and
 uniqueness tests.

 Clone and drop first load the count with relaxed ordering and then write it with a separate
 step, so the load may be stale.  The count keeps the history of its writes; a thread only knows a
 lower bound of it.  A block is local (count is references - 1) until its owner synchronizes it
 (count is minus the references); only then may references cross threads.
 */
module ArcMemory {
  import opened Sums

  const UNIQUE_COUNT: int := 0
  const SYNCHRONIZED_UNIQUE_COUNT: int := -1
  const LIMIT: int := 0x8000_0000_0000_0000
  const STATIC_COUNT: int := -LIMIT

  /** Two's complement arithmetic of a 64-bit word. */
  function Wrap(x: int): int {
    (x + LIMIT) % (2 * LIMIT) - LIMIT
  }

  /**
   One write of the count word.  `view` is what a release sequence carries over; `references` is a
   history variable: the number of references right after the write.
   */
  datatype Write = Write(count: int, view: set<nat>, references: nat)

  datatype Pc = Ready | Cloning(count: int) | Dropping(count: int) | Synchronizing(count: int) | Destroying

  /** `seen` is the newest write known; `view` the accesses to the payload that happened before. */
  datatype Thread = Thread(pc: Pc, handles: nat, seen: nat, view: set<nat>)

  datatype State = State(
    writes: seq<Write>,
    threads: seq<Thread>,
    sharedFrom: Option<nat>,  // history: the write that synchronized the block
    accesses: set<nat>,       // history: all accesses to the payload so far
    destroyed: nat            // history: how often the payload has been dropped and freed
  )

  datatype Action =
    | LoadForClone(t: nat, k: nat)
    | Clone(t: nat)
    | LoadForDrop(t: nat, k: nat)
    | Drop(t: nat)
    | DropInner(t: nat)
    | LoadForSynchronize(t: nat, k: nat)
    | Synchronize(t: nat)
    | Access(t: nat, e: nat)
    | Send(t: nat, u: nat, n: nat)
    | GetMut(t: nat, k: nat)

  function Handles(th: Thread): nat {
    th.handles
  }

  function Last(s: State): Write
    requires |s.writes| > 0
  {
    s.writes[|s.writes| - 1]
  }

  predicate IsSynchronized(count: int) {
    count < 0
  }

  predicate IsUnique(count: int) {
    count == if IsSynchronized(count) then SYNCHRONIZED_UNIQUE_COUNT else UNIQUE_COUNT
  }

  predicate Enabled(s: State, a: Action) {
    |s.writes| > 0 && a.t < |s.threads| &&
    var th := s.threads[a.t];
    match a
    case LoadForClone(_, k) => th.pc.Ready? && th.handles > 0 && th.seen <= k < |s.writes|
    case Clone(_) => th.pc.Cloning? && (th.pc.count == STATIC_COUNT || Total(s.threads, Handles) + 1 < LIMIT)
    case LoadForDrop(_, k) => th.pc.Ready? && th.handles > 0 && th.seen <= k < |s.writes|
    case Drop(_) => th.pc.Dropping? && th.handles > 0
    case DropInner(_) => th.pc.Destroying?
    case LoadForSynchronize(_, k) => th.pc.Ready? && th.handles > 0 && th.seen <= k < |s.writes|
    case Synchronize(_) => th.pc.Synchronizing?
    case Access(_, e) => th.pc.Ready? && th.handles > 0 && e !in s.accesses
    case Send(_, u, n) =>
      // Blocks are synchronized before references to them are shared.
      && u < |s.threads| && u != a.t && th.pc.Ready? && s.threads[u].pc.Ready? && 0 < n <= th.handles
      && th.seen < |s.writes| && IsSynchronized(s.writes[th.seen].count)
    case GetMut(_, k) => th.pc.Ready? && th.handles > 0 && th.seen <= k < |s.writes|
  }

  /** The write that a clone, drop or synchronization performs, if any. */
  function NewWrite(s: State, a: Action): Option<Write>
    requires Enabled(s, a)
  {
    var th := s.threads[a.t];
    var last := Last(s);
    var total := Total(s.threads, Handles);
    match a
    case Clone(_) =>
      if !IsSynchronized(th.pc.count) then Some(Write(Wrap(th.pc.count + 1), {}, total + 1))
      else if th.pc.count != STATIC_COUNT then Some(Write(Wrap(last.count - 1), last.view, total + 1))
      else None
    case Drop(_) =>
      (TotalPositive(s.threads, a.t);
       if IsSynchronized(th.pc.count) then
         if th.pc.count != STATIC_COUNT then Some(Write(Wrap(last.count + 1), last.view + th.view, total - 1)) else None
       else if th.pc.count == UNIQUE_COUNT then None
       else Some(Write(Wrap(th.pc.count - 1), {}, total - 1)))
    case Synchronize(_) =>
      if !IsSynchronized(th.pc.count) then Some(Write(Wrap(SYNCHRONIZED_UNIQUE_COUNT - th.pc.count), {}, total)) else None
    case _ => None
  }

  lemma TotalPositive(threads: seq<Thread>, t: nat)
    requires t < |threads|
    ensures threads[t].handles <= Total(threads, Handles)
  {
    TotalCovers(threads, t, t, Handles);
  }

  /** The acting thread after its step. */
  function Moved(s: State, a: Action): Thread
    requires Enabled(s, a)
  {
    var th := s.threads[a.t];
    var write := NewWrite(s, a);
    var wrote := if write.Some? then th.(seen := |s.writes|) else th;
    match a
    case LoadForClone(_, k) => th.(pc := Cloning(s.writes[k].count), seen := k)
    case Clone(_) => wrote.(pc := Ready, handles := th.handles + 1)
    case LoadForDrop(_, k) => th.(pc := Dropping(s.writes[k].count), seen := k)
    case Drop(_) =>
      var dropped := wrote.(pc := Ready, handles := th.handles - 1);
      if IsSynchronized(th.pc.count) then
        // The read-modify-write returns the newest count; the last drop is followed by an acquire fence.
        if write.Some? && Last(s).count == SYNCHRONIZED_UNIQUE_COUNT then
          dropped.(pc := Destroying, view := th.view + write.value.view)
        else dropped
      else if th.pc.count == UNIQUE_COUNT then dropped.(pc := Destroying)
      else dropped
    case DropInner(_) => th.(pc := Ready)
    case LoadForSynchronize(_, k) => th.(pc := Synchronizing(s.writes[k].count), seen := k)
    case Synchronize(_) => wrote.(pc := Ready)
    case Access(_, e) => th.(view := th.view + {e})
    case Send(_, _, n) => th.(handles := th.handles - n)
    case GetMut(_, k) =>
      th.(seen := k, view := if IsSynchronized(s.writes[k].count) then th.view + s.writes[k].view else th.view)
  }

  function Apply(s: State, a: Action): State
    requires Enabled(s, a)
  {
    var write := NewWrite(s, a);
    var threads := s.threads[a.t := Moved(s, a)];
    State(
      if write.Some? then s.writes + [write.value] else s.writes,
      if a.Send? then
        var from, to := s.threads[a.t], s.threads[a.u];
        threads[a.u := to.(handles := to.handles + a.n,
                           seen := if to.seen < from.seen then from.seen else to.seen,
                           view := to.view + from.view)]
      else threads,
      if a.Synchronize? && write.Some? then Some(|s.writes|) else s.sharedFrom,
      if a.Access? then s.accesses + {a.e} else s.accesses,
      if a.DropInner? then s.destroyed + 1 else s.destroyed
    )
  }

  /** A new block: one thread owns the only reference. */
  predicate InitNew(s: State) {
    && s.writes == [Write(UNIQUE_COUNT, {}, 1)]
    && s.sharedFrom == None && s.accesses == {} && s.destroyed == 0
    && Total(s.threads, Handles) == 1
    && forall t :: 0 <= t < |s.threads| ==> s.threads[t].pc.Ready? && s.threads[t].seen == 0 && s.threads[t].view == {}
  }

  /** A static block: it is born shared, with any number of references. */
  predicate InitStatic(s: State) {
    && s.writes == [Write(STATIC_COUNT, {}, 0)]
    && s.sharedFrom == Some(0) && s.accesses == {} && s.destroyed == 0
    && forall t :: 0 <= t < |s.threads| ==> s.threads[t].pc.Ready? && s.threads[t].seen == 0
  }

  predicate Steps(run: seq<State>, actions: seq<Action>) {
    && |run| == |actions| + 1
    && forall i :: 0 <= i < |actions| ==> Enabled(run[i], actions[i]) && run[i + 1] == Apply(run[i], actions[i])
  }
}
