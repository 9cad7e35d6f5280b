/**
 Reference-counted records: a heap of cells, the ownership-transferring operations that compiled
 code performs on them, and what they mean.

 A memory is a sequence of slots.  Every operation consumes the references it is given and owns
 the references it returns.  Counts are the references of `ArcBlock`.
 */
module Heap {
  import opened Sums
  import opened ArcBlock

  datatype Value = Immediate(number: int) | Null | Pointer(location: nat)

  datatype Cell = Cell(references: References, fields: seq<Value>)

  datatype Slot = Free | Used(cell: Cell)

  type Memory = seq<Slot>

  predicate IsUsed(m: Memory, l: nat) {
    l < |m| && m[l].Used?
  }

  predicate IsCounted(m: Memory, l: nat) {
    IsUsed(m, l) && !m[l].cell.references.mode.Static?
  }

  /** The value of `reference_count::pointer::is_unique`. */
  predicate IsUnique(m: Memory, l: nat) {
    IsCounted(m, l) && m[l].cell.references.number == 1
  }

  function WithNumber(slot: Slot, number: nat): Slot
    requires slot.Used?
  {
    slot.(cell := slot.cell.(references := slot.cell.references.(number := number)))
  }

  // ----- Operations -----

  /** One more reference to a value. */
  function CloneValue(m: Memory, v: Value): (r: Memory)
    ensures |r| == |m|
  {
    if v.Pointer? && IsCounted(m, v.location) then
      m[v.location := WithNumber(m[v.location], m[v.location].cell.references.number + 1)]
    else m
  }

  function CloneAll(m: Memory, vs: seq<Value>): (r: Memory)
    ensures |r| == |m|
    decreases |vs|
  {
    if vs == [] then m else CloneAll(CloneValue(m, vs[0]), vs[1..])
  }

  function UsedWeight(slot: Slot): nat {
    if slot.Used? then 1 else 0
  }

  function UsedCount(m: Memory): nat {
    Total(m, UsedWeight)
  }

  /** One reference less to a value; the last one drops the fields and frees the cell. */
  function DropValue(m: Memory, v: Value): (r: Memory)
    ensures |r| == |m| && UsedCount(r) <= UsedCount(m)
    decreases UsedCount(m), 0, 1
  {
    if v.Pointer? && IsCounted(m, v.location) then
      var slot := m[v.location];
      if slot.cell.references.number == 1 then
        TotalUpdate(m, v.location, Free, UsedWeight);
        DropAll(m[v.location := Free], slot.cell.fields)
      else if slot.cell.references.number == 0 then m
      else
        TotalUpdate(m, v.location, WithNumber(slot, slot.cell.references.number - 1), UsedWeight);
        m[v.location := WithNumber(slot, slot.cell.references.number - 1)]
    else m
  }

  function DropAll(m: Memory, vs: seq<Value>): (r: Memory)
    ensures |r| == |m| && UsedCount(r) <= UsedCount(m)
    decreases UsedCount(m), |vs|
  {
    if vs == [] then m else DropAll(DropValue(m, vs[0]), vs[1..])
  }

  /** A new record that owns its fields. */
  function Allocate(m: Memory, vs: seq<Value>): (Memory, Value) {
    (m + [Used(Cell(References(Local, 1), vs))], Pointer(|m|))
  }

  /** Reads a field and consumes the record. */
  function GetField(m: Memory, l: nat, i: nat): (Memory, Value)
    requires IsUsed(m, l) && i < |m[l].cell.fields|
  {
    var field := m[l].cell.fields[i];
    (DropValue(CloneValue(m, field), Pointer(l)), field)
  }

  /** The fields of an updated record. */
  function Merged(fields: seq<Value>, updates: seq<Option<Value>>): (r: seq<Value>)
    requires |fields| == |updates|
  {
    seq(|fields|, i requires 0 <= i < |fields| => if updates[i].Some? then updates[i].value else fields[i])
  }

  /** The fields that an update replaces, in order. */
  function Replaced(fields: seq<Value>, updates: seq<Option<Value>>): seq<Value>
    requires |fields| == |updates|
  {
    if fields == [] then []
    else (if updates[0].Some? then [fields[0]] else []) + Replaced(fields[1..], updates[1..])
  }

  /** The fields that an update keeps; the replaced ones are undefined. */
  function Kept(fields: seq<Value>, updates: seq<Option<Value>>): (r: seq<Value>)
    requires |fields| == |updates|
  {
    seq(|fields|, i requires 0 <= i < |fields| => if updates[i].Some? then Null else fields[i])
  }

  /** The new values of an update, in order. */
  function NewValues(updates: seq<Option<Value>>): seq<Value> {
    if updates == [] then []
    else (if updates[0].Some? then [updates[0].value] else []) + NewValues(updates[1..])
  }

  /** Updates a record in place if its only reference is given, and a copy of it otherwise. */
  function UpdateRecord(m: Memory, l: nat, updates: seq<Option<Value>>): (Memory, Value)
    requires IsUsed(m, l) && |updates| == |m[l].cell.fields|
  {
    var cell := m[l].cell;
    var fields := Merged(cell.fields, updates);
    if IsUnique(m, l) then
      (DropAll(m, Replaced(cell.fields, updates))[l := Used(cell.(fields := fields))], Pointer(l))
    else
      var (copied, record) := Allocate(CloneAll(m, Kept(cell.fields, updates)), fields);
      (DropValue(copied, Pointer(l)), record)
  }

  /** Updates a record that is not on the heap: its replaced fields are dropped. */
  function UpdateUnboxed(m: Memory, fields: seq<Value>, updates: seq<Option<Value>>): (Memory, seq<Value>)
    requires |fields| == |updates|
  {
    (DropAll(m, Replaced(fields, updates)), Merged(fields, updates))
  }

  /** Clones a field of a record that is not on the heap, and then drops the record. */
  function GetUnboxed(m: Memory, fields: seq<Value>, i: nat): (Memory, Value)
    requires i < |fields|
  {
    (DropAll(CloneValue(m, fields[i]), fields), fields[i])
  }

  function Box(m: Memory, v: Value): (Memory, Value) {
    Allocate(m, [v])
  }

  /** Clones the content of a box and then drops the box. */
  function Unbox(m: Memory, l: nat): (Memory, Value)
    requires IsUsed(m, l) && |m[l].cell.fields| == 1
  {
    GetField(m, l, 0)
  }

  // ----- Ownership -----

  function ValuePointers(v: Value): multiset<nat> {
    if v.Pointer? then multiset{v.location} else multiset{}
  }

  /** The locations that values point to. */
  function Pointers(vs: seq<Value>): multiset<nat> {
    if vs == [] then multiset{} else ValuePointers(vs[0]) + Pointers(vs[1..])
  }

  function SlotPointers(slot: Slot): multiset<nat> {
    if slot.Used? then Pointers(slot.cell.fields) else multiset{}
  }

  /** How many pointers to a location are stored in the heap. */
  function Edges(m: Memory, l: nat): nat {
    if m == [] then 0 else SlotPointers(m[0])[l] + Edges(m[1..], l)
  }

  /** The references that are owned outside or inside the heap. */
  function Owners(m: Memory, roots: multiset<nat>, l: nat): nat {
    roots[l] + Edges(m, l)
  }

  /** The count of a cell is the number of its owners; static cells own nothing; nothing else is owned. */
  predicate ExactAt(m: Memory, roots: multiset<nat>, l: nat) {
    if IsCounted(m, l) then m[l].cell.references.number == Owners(m, roots, l) > 0
    else if IsUsed(m, l) then SlotPointers(m[l]) == multiset{}
    else Owners(m, roots, l) == 0
  }

  ghost predicate Exact(m: Memory, roots: multiset<nat>) {
    forall l: nat :: ExactAt(m, roots, l)
  }

  /** Fields point to cells of lower rank. */
  ghost predicate Ranked(m: Memory, rank: seq<nat>) {
    && |rank| == |m|
    && forall l: nat, i :: IsUsed(m, l) && 0 <= i < |m[l].cell.fields| && m[l].cell.fields[i].Pointer? ==>
                             m[l].cell.fields[i].location < |m| && rank[m[l].cell.fields[i].location] < rank[l]
  }

  ghost predicate Acyclic(m: Memory) {
    exists rank :: Ranked(m, rank)
  }

  // ----- Meaning -----

  datatype Tree = Leaf(number: int) | Empty | Node(children: seq<Tree>)

  /** A value denotes a tree. */
  predicate Represents(m: Memory, v: Value, t: Tree)
    decreases t
  {
    match t
    case Leaf(n) => v == Immediate(n)
    case Empty => v == Null
    case Node(children) =>
      && v.Pointer? && IsUsed(m, v.location)
      && |m[v.location].cell.fields| == |children|
      && forall i :: 0 <= i < |children| ==> Represents(m, m[v.location].cell.fields[i], children[i])
  }

  /** A value is owned by the given roots, or needs no owner. */
  predicate Rooted(roots: multiset<nat>, v: Value) {
    v.Pointer? ==> roots[v.location] > 0
  }
}
