/**
 The single-threaded path of thunks: the same entry functions, without atomic operations, on a
 closure that is overwritten in place.
 */
module LocalThunk {
  import opened Sums
  import Thunk

  type Value = Thunk.Value

  /** The abstract state of a closure and of everything that its entry functions count. */
  datatype Closure = Closure(
    entry: Thunk.Entry,
    payload: Thunk.Payload,
    metadata: Thunk.Metadata,
    references: nat,
    captured: seq<int>,     // all references to every captured variable, from anywhere
    values: int,            // references to the computed value
    runs: nat,              // how often the body has run
    freed: bool
  )

  function New(captured: seq<int>): Closure {
    Closure(Thunk.Initial, Thunk.Environment, Thunk.DropEnvironment, 1, captured, 0, 0, false)
  }

  /** Every captured variable with some references more or fewer. */
  function Shift(captured: seq<int>, change: int): (r: seq<int>)
    ensures |r| == |captured|
  {
    seq(|captured|, i requires 0 <= i < |captured| => captured[i] + change)
  }

  /** The last reference releases what the metadata says, once. */
  function Dropped(c: Closure): Closure
    requires c.references > 0
  {
    if c.references > 1 then c.(references := c.references - 1)
    else if c.metadata.DropEnvironment? then c.(references := 0, captured := Shift(c.captured, -1), freed := true)
    else c.(references := 0, values := c.values - 1, freed := true)
  }

  /** A call whose body would compute `v`: it consumes one reference, and owns its result. */
  function Called(c: Closure, v: Value): Closure
    requires c.references > 0
  {
    if c.payload.Computed? then Dropped(c.(values := c.values + 1))
    else Dropped(c.(entry := Thunk.Normal, payload := Thunk.Computed(v), metadata := Thunk.DropValue,
                    captured := Shift(c.captured, -1), values := c.values + 2, runs := c.runs + 1))
  }

  function Result(c: Closure, v: Value): Value {
    if c.payload.Computed? then c.payload.value else v
  }

  /** The entry function and the metadata fit the payload. */
  predicate Fits(c: Closure) {
    && (c.entry == if c.payload.Computed? then Thunk.Normal else Thunk.Initial)
    && (c.metadata == if c.payload.Computed? then Thunk.DropValue else Thunk.DropEnvironment)
  }

  class Cell {
    var entry: Thunk.Entry
    var payload: Thunk.Payload
    var metadata: Thunk.Metadata
    var count: int           // references less one
    const captured: array<int>
    var values: int
    var runs: nat
    var freed: bool

    ghost predicate Valid()
      reads this, captured
    {
      Fits(State()) && (freed <==> count < 0) && count >= -1
    }

    ghost function State(): Closure
      reads this, captured
    {
      Closure(entry, payload, metadata, if count < 0 then 0 else count + 1, captured[..], values, runs, freed)
    }

    constructor (variables: array<int>)
      ensures Valid() && captured == variables && State() == New(variables[..])
    {
      entry, payload, metadata := Thunk.Initial, Thunk.Environment, Thunk.DropEnvironment;
      count, captured, values, runs, freed := 0, variables, 0, 0, false;
    }

    method Clone()
      requires Valid() && !freed
      modifies this`count
      ensures Valid() && State() == old(State()).(references := old(State()).references + 1)
    {
      count := count + 1;
    }

    /** Clones or drops every captured variable. */
    method ShiftCaptured(change: int)
      modifies captured
      ensures captured[..] == Shift(old(captured[..]), change)
    {
      var i := 0;
      while i < captured.Length
        invariant i <= captured.Length
        invariant forall k :: 0 <= k < i ==> captured[k] == old(captured[k]) + change
        invariant forall k :: i <= k < captured.Length ==> captured[k] == old(captured[k])
      {
        captured[i] := captured[i] + change;
        i := i + 1;
      }
    }

    method Drop()
      requires Valid() && !freed
      modifies this`count, this`values, this`freed, captured
      ensures Valid() && State() == Dropped(old(State()))
    {
      if count == 0 {
        if metadata.DropEnvironment? {
          ShiftCaptured(-1);
        } else {
          values := values - 1;
        }
        freed := true;
      }
      count := count - 1;
    }

    /** The body consumes the captured variables and the closure that it is given, and owns its result. */
    method RunBody(v: Value) returns (r: Value)
      requires !freed && count > 0
      modifies this`count, this`values, this`runs, captured
      ensures r == v && captured[..] == old(captured[..])
      ensures count == old(count) - 1 && values == old(values) + 1 && runs == old(runs) + 1
    {
      ShiftCaptured(1);
      ShiftCaptured(-1);
      assert captured[..] == old(captured[..]);
      count, values, runs := count - 1, values + 1, runs + 1;
      r := v;
    }

    method CallInitial(v: Value) returns (r: Value)
      requires Valid() && !freed && entry == Thunk.Initial
      modifies this, captured
      ensures Valid() && State() == Called(old(State()), v) && r == v
    {
      count := count + 1;
      r := RunBody(v);
      ShiftCaptured(-1);
      values := values + 1;
      payload := Thunk.Computed(r);
      metadata := Thunk.DropValue;
      entry := Thunk.Normal;
      Drop();
    }

    method CallNormal() returns (r: Value)
      requires Valid() && !freed && entry == Thunk.Normal
      modifies this, captured
      ensures Valid() && old(payload).Computed? && r == old(payload).value
      ensures State() == Called(old(State()), r)
    {
      r := payload.value;
      values := values + 1;
      Drop();
    }

    method Call(v: Value) returns (r: Value)
      requires Valid() && !freed
      modifies this, captured
      ensures Valid() && State() == Called(old(State()), v) && r == Result(old(State()), v)
    {
      if entry == Thunk.Initial {
        r := CallInitial(v);
      } else {
        r := CallNormal();
      }
    }
  }

  // ----- Whole runs -----

  datatype Operation = Clone | Drop | Call(value: Value)

  /** What a closure and the results handed out look like after operations; nothing follows the last reference. */
  function Run(c: Closure, operations: seq<Operation>): (r: Option<(Closure, seq<Value>)>) {
    if operations == [] then Some((c, []))
    else
      match Run(c, operations[..|operations| - 1])
      case None => None
      case Some((c, results)) =>
        if c.references == 0 then None
        else
          match operations[|operations| - 1]
          case Clone => Some((c.(references := c.references + 1), results))
          case Drop => Some((Dropped(c), results))
          case Call(v) => Some((Called(c, v), results + [Result(c, v)]))
  }

  function Calls(operations: seq<Operation>): (r: seq<Value>)
    ensures |r| <= |operations|
  {
    if operations == [] then []
    else
      var last := operations[|operations| - 1];
      Calls(operations[..|operations| - 1]) + if last.Call? then [last.value] else []
  }

  function Clones(operations: seq<Operation>): nat {
    if operations == [] then 0
    else Clones(operations[..|operations| - 1]) + if operations[|operations| - 1].Clone? then 1 else 0
  }

  /** What holds after some operations with some calls and some clones on a new thunk. */
  predicate Kept(captured: seq<int>, calls: seq<Value>, clones: nat, size: nat, c: Closure, results: seq<Value>) {
    && Fits(c) && c.runs == (if calls == [] then 0 else 1)
    && (c.payload == if calls == [] then Thunk.Environment else Thunk.Computed(calls[0]))
    && |results| == |calls| && (forall i :: 0 <= i < |results| ==> results[i] == calls[0])
    && c.references == 1 + 2 * clones - size && (c.freed <==> c.references == 0)
    && c.captured == (if calls == [] && !c.freed then captured else Shift(captured, -1))
    && c.values == |results| + (if calls != [] && !c.freed then 1 else 0)
  }

  lemma CallKeeps(captured: seq<int>, calls: seq<Value>, clones: nat, size: nat, c: Closure, results: seq<Value>, v: Value)
    requires Kept(captured, calls, clones, size, c, results) && c.references > 0
    ensures Kept(captured, calls + [v], clones, size + 1, Called(c, v), results + [Result(c, v)])
  {
    assert (calls + [v])[0] == if calls == [] then v else calls[0];
  }

  lemma OtherKeeps(captured: seq<int>, calls: seq<Value>, clones: nat, size: nat, c: Closure, results: seq<Value>)
    requires Kept(captured, calls, clones, size, c, results) && c.references > 0
    ensures Kept(captured, calls, clones + 1, size + 1, c.(references := c.references + 1), results)
    ensures Kept(captured, calls, clones, size + 1, Dropped(c), results)
  {
  }

  /**
   Over every run of a new thunk: the body has run at most once; all calls return what its only run
   computed; every operation but a clone consumes one reference, and the last one frees the closure;
   the captured variables are released exactly once; and exactly the results handed out, and the
   one stored in a closure that is alive, are referenced.
   */
  lemma {:induction false} RunKeeps(captured: seq<int>, operations: seq<Operation>)
    requires Run(New(captured), operations).Some?
    ensures var (c, results) := Run(New(captured), operations).value;
            Kept(captured, Calls(operations), Clones(operations), |operations|, c, results)
    decreases |operations|
  {
    if operations != [] {
      var before, last := operations[..|operations| - 1], operations[|operations| - 1];
      RunKeeps(captured, before);
      var (c, results) := Run(New(captured), before).value;
      hide Kept, Called, Dropped, Result;
      if last.Call? {
        CallKeeps(captured, Calls(before), Clones(before), |before|, c, results, last.value);
      } else {
        assert Calls(operations) == Calls(before);
        OtherKeeps(captured, Calls(before), Clones(before), |before|, c, results);
      }
    }
  }
}
