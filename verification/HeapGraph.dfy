/** The graph of reference-counted records: no cycles, no garbage, and which cells threads may share. */
module HeapGraph {
  import opened Sums
  import opened ArcBlock
  import opened Heap
  import opened HeapTheorems

  // ----- Acyclicity -----

  /** Cells only disappear; the remaining ones keep their fields. */
  predicate Shrinks(m: Memory, m': Memory) {
    && |m'| == |m|
    && forall l :: 0 <= l < |m| && m'[l].Used? ==> SameCell(m[l], m'[l])
  }

  predicate SameCell(slot: Slot, slot': Slot) {
    && slot.Used? && slot'.Used?
    && slot'.cell.fields == slot.cell.fields
    && slot'.cell.references.mode == slot.cell.references.mode
  }

  lemma {:induction false} DropAllShrinks(m: Memory, vs: seq<Value>)
    ensures Shrinks(m, DropAll(m, vs))
    decreases UsedCount(m), |vs|
  {
    if vs != [] {
      var v := vs[0];
      if v.Pointer? && IsUnique(m, v.location) {
        TotalUpdate(m, v.location, Free, UsedWeight);
        DropAllShrinks(m[v.location := Free], m[v.location].cell.fields);
      }
      assert Shrinks(m, DropValue(m, v));
      DropAllShrinks(DropValue(m, v), vs[1..]);
    }
  }

  lemma DropShrinks(m: Memory, v: Value)
    ensures Shrinks(m, DropValue(m, v))
  {
    DropOne(m, v);
    DropAllShrinks(m, [v]);
  }

  lemma ShrinksAcyclic(m: Memory, m': Memory)
    requires Acyclic(m) && Shrinks(m, m')
    ensures Acyclic(m')
  {
    var rank :| Ranked(m, rank);
    assert Ranked(m', rank);
  }

  function Highest(rank: seq<nat>): (h: nat)
    ensures forall i :: 0 <= i < |rank| ==> rank[i] <= h
  {
    if rank == [] then 0
    else
      var h := Highest(rank[1..]);
      assert forall i :: 0 < i < |rank| ==> rank[i] == rank[1..][i - 1];
      if rank[0] > h then rank[0] else h
  }

  /** Storing live values in a slot that nobody refers to closes no cycle. */
  lemma StoreAcyclic(m: Memory, l: nat, slot: Slot)
    requires Acyclic(m) && l < |m| && Edges(m, l) == 0 && slot.Used?
    requires forall i :: 0 <= i < |slot.cell.fields| && slot.cell.fields[i].Pointer? ==>
                           slot.cell.fields[i].location < |m| && slot.cell.fields[i].location != l
    ensures Acyclic(m[l := slot])
  {
    var rank :| Ranked(m, rank);
    var raised := rank[l := 1 + Highest(rank)];
    var m' := m[l := slot];
    forall c: nat, i | IsUsed(m', c) && 0 <= i < |m'[c].cell.fields| && m'[c].cell.fields[i].Pointer?
      ensures m'[c].cell.fields[i].location < |m'| && raised[m'[c].cell.fields[i].location] < raised[c]
    {
      var d := m'[c].cell.fields[i].location;
      if c != l && d == l {
        PointersCover(m[c].cell.fields, i);
        EdgesCover(m, c, l);
      }
    }
    assert Ranked(m', raised);
  }

  lemma AppendAcyclic(m: Memory)
    requires Acyclic(m)
    ensures Acyclic(m + [Free])
  {
    var rank :| Ranked(m, rank);
    assert Ranked(m + [Free], rank + [0]);
  }

  lemma AppendedAcyclic(m: Memory, vs: seq<Value>)
    requires Acyclic(m) && Edges(m, |m|) == 0
    requires forall i :: 0 <= i < |vs| && vs[i].Pointer? ==> vs[i].location < |m|
    ensures Acyclic(Allocate(m, vs).0)
  {
    AppendAcyclic(m);
    EdgesAppend(m, Free, |m|);
    var slot := Used(Cell(References(Local, 1), vs));
    StoreAcyclic(m + [Free], |m|, slot);
    assert (m + [Free])[|m| := slot] == m + [slot];
  }

  /** Allocation closes no cycle. */
  lemma AllocateAcyclic(m: Memory, vs: seq<Value>, roots: multiset<nat>)
    requires Acyclic(m) && Exact(m, roots + Pointers(vs))
    ensures Acyclic(Allocate(m, vs).0)
  {
    EdgesAtNew(m, roots + Pointers(vs));
    forall i | 0 <= i < |vs| && vs[i].Pointer? ensures vs[i].location < |m| {
      PointersCover(vs, i);
      assert ExactAt(m, roots + Pointers(vs), vs[i].location);
    }
    AppendedAcyclic(m, vs);
  }

  /** Every pointer that an update stores or leaves in place refers to a cell other than the record. */
  lemma UpdateTargets(m: Memory, l: nat, updates: seq<Option<Value>>, roots: multiset<nat>, i: nat)
    requires IsUsed(m, l) && |updates| == |m[l].cell.fields| && i < |updates|
    requires Exact(m, roots + Pointers(NewValues(updates)) + multiset{l})
    requires Merged(m[l].cell.fields, updates)[i].Pointer?
    ensures Merged(m[l].cell.fields, updates)[i].location < |m|
    ensures IsUnique(m, l) ==> Merged(m[l].cell.fields, updates)[i] != Pointer(l)
  {
    var all := roots + Pointers(NewValues(updates)) + multiset{l};
    assert ExactAt(m, all, l);
    if updates[i].Some? {
      NewValuesCover(updates, i);
      assert ExactAt(m, all, updates[i].value.location);
    } else {
      FieldIsLive(m, all, l, i);
      if IsUnique(m, l) {
        NotItself(m, l, i);
      }
    }
  }

  lemma InPlaceAcyclic(m: Memory, l: nat, updates: seq<Option<Value>>, roots: multiset<nat>)
    requires Acyclic(m) && IsUnique(m, l) && |updates| == |m[l].cell.fields|
    requires Exact(m, roots + Pointers(NewValues(updates)) + multiset{l})
    ensures Acyclic(UpdateRecord(m, l, updates).0)
  {
    var fields := m[l].cell.fields;
    InPlaceSteps(m, l, updates, roots + Pointers(NewValues(updates)));
    var hollow, dropped := m[l := Hollow(m, l, updates)], Dropped(m, l, updates);
    forall i | 0 <= i < |fields| && Merged(fields, updates)[i].Pointer?
      ensures Merged(fields, updates)[i].location < |m| && Merged(fields, updates)[i].location != l
    {
      UpdateTargets(m, l, updates, roots, i);
    }
    assert forall i :: 0 <= i < |fields| && Kept(fields, updates)[i].Pointer? ==> Kept(fields, updates)[i] == Merged(fields, updates)[i];
    StoreAcyclic(m, l, Hollow(m, l, updates));
    DropAllShrinks(hollow, Replaced(fields, updates));
    ShrinksAcyclic(hollow, dropped);
    StoreAcyclic(dropped, l, Full(m, l, updates));
  }

  lemma CopyAcyclic(m: Memory, l: nat, updates: seq<Option<Value>>, roots: multiset<nat>)
    requires Acyclic(m) && IsUsed(m, l) && !IsUnique(m, l) && |updates| == |m[l].cell.fields|
    requires Exact(m, roots + Pointers(NewValues(updates)) + multiset{l})
    ensures Acyclic(UpdateRecord(m, l, updates).0)
  {
    var merged := Merged(m[l].cell.fields, updates);
    CopySteps(m, l, updates, roots);
    var cloned := CloneAll(m, Kept(m[l].cell.fields, updates));
    var copied := Allocate(cloned, merged).0;
    ShrinksAcyclic(m, cloned);
    forall i | 0 <= i < |merged| && merged[i].Pointer? ensures merged[i].location < |cloned| {
      UpdateTargets(m, l, updates, roots, i);
    }
    assert ExactAt(copied, roots + multiset{|m|} + multiset{l}, |m|);
    EdgesAppend(cloned, copied[|m|], |m|);
    AppendedAcyclic(cloned, merged);
    DropShrinks(copied, Pointer(l));
    ShrinksAcyclic(copied, DropValue(copied, Pointer(l)));
  }

  /** Record update closes no cycle. */
  lemma UpdateRecordAcyclic(m: Memory, l: nat, updates: seq<Option<Value>>, roots: multiset<nat>)
    requires Acyclic(m) && IsUsed(m, l) && |updates| == |m[l].cell.fields|
    requires Exact(m, roots + Pointers(NewValues(updates)) + multiset{l})
    ensures Acyclic(UpdateRecord(m, l, updates).0)
  {
    if IsUnique(m, l) {
      InPlaceAcyclic(m, l, updates, roots);
    } else {
      CopyAcyclic(m, l, updates, roots);
    }
  }

  // ----- Garbage freedom -----

  /** A chain of fields, starting at an owned record. */
  predicate IsPath(m: Memory, path: seq<nat>) {
    && |path| > 0
    && forall i :: 0 <= i < |path| - 1 ==> IsUsed(m, path[i]) && Pointer(path[i + 1]) in m[path[i]].cell.fields
  }

  /** A cell that is not owned outside the heap is a field of a counted cell of higher rank. */
  lemma ParentOf(m: Memory, roots: multiset<nat>, rank: seq<nat>, l: nat) returns (parent: nat)
    requires Exact(m, roots) && Ranked(m, rank) && IsCounted(m, l) && roots[l] == 0
    ensures IsCounted(m, parent) && Pointer(l) in m[parent].cell.fields && rank[l] < rank[parent] <= Highest(rank)
  {
    assert ExactAt(m, roots, l);
    parent := EdgesFind(m, l);
    var i := PointersFind(m[parent].cell.fields, l);
    assert m[parent].cell.fields[i] == Pointer(l);
    assert ExactAt(m, roots, parent);
  }

  /** Every counted cell is reachable from an owned one: there is no garbage. */
  lemma {:induction false} LiveIsReachable(m: Memory, roots: multiset<nat>, rank: seq<nat>, l: nat) returns (path: seq<nat>)
    requires Exact(m, roots) && Ranked(m, rank) && IsCounted(m, l)
    ensures IsPath(m, path) && roots[path[0]] > 0 && path[|path| - 1] == l
    decreases Highest(rank) - rank[l]
  {
    hide Edges, Pointers;
    assert ExactAt(m, roots, l);
    if roots[l] > 0 {
      path := [l];
    } else {
      var parent := ParentOf(m, roots, rank, l);
      var before := LiveIsReachable(m, roots, rank, parent);
      path := before + [l];
      assert path[|path| - 2] == parent;
    }
  }

  /** Whatever is reachable from an owned cell is live: nothing is freed too early. */
  lemma {:induction false} ReachableIsLive(m: Memory, roots: multiset<nat>, path: seq<nat>)
    requires Exact(m, roots) && IsPath(m, path) && roots[path[0]] > 0
    ensures IsUsed(m, path[|path| - 1])
  {
    assert ExactAt(m, roots, path[0]);
    if |path| > 1 {
      var parent, l := path[|path| - 2], path[|path| - 1];
      var i :| 0 <= i < |m[parent].cell.fields| && m[parent].cell.fields[i] == Pointer(l);
      FieldIsLive(m, roots, parent, i);
    }
  }

  /** Without owners outside the heap, only static cells are left. */
  lemma NoLeaks(m: Memory, l: nat)
    requires Exact(m, multiset{}) && Acyclic(m)
    ensures !IsCounted(m, l)
  {
    if IsCounted(m, l) {
      var rank :| Ranked(m, rank);
      var path := LiveIsReachable(m, multiset{}, rank, l);
    }
  }

  // ----- Synchronization -----

  predicate IsLocal(m: Memory, v: Value) {
    v.Pointer? && IsUsed(m, v.location) && m[v.location].cell.references.mode.Local?
  }

  /** A field of a shared block refers to a block that is counted locally. */
  predicate Escapes(m: Memory, l: nat, i: nat) {
    && IsUsed(m, l) && !m[l].cell.references.mode.Local?
    && i < |m[l].cell.fields| && IsLocal(m, m[l].cell.fields[i])
  }

  /** Blocks that are shared refer to shared blocks only, apart from the given pending ones. */
  ghost predicate SharedExcept(m: Memory, pending: seq<Value>) {
    forall l: nat, i: nat :: Escapes(m, l, i) ==> m[l].cell.fields[i] in pending
  }

  /** No thread can reach a block that another thread counts locally. */
  ghost predicate SharedClosed(m: Memory) {
    forall l: nat, i: nat :: !Escapes(m, l, i)
  }

  function LocalWeight(slot: Slot): nat {
    if slot.Used? && slot.cell.references.mode.Local? then 1 else 0
  }

  function LocalCount(m: Memory): nat {
    Total(m, LocalWeight)
  }

  function Shareable(slot: Slot): Slot
    requires slot.Used?
  {
    slot.(cell := slot.cell.(references := slot.cell.references.(mode := Shared)))
  }

  /** Synchronizes a block and, unless it was synchronized already, its content. */
  function SynchronizeValue(m: Memory, v: Value): (r: Memory)
    ensures |r| == |m| && LocalCount(r) <= LocalCount(m)
    decreases LocalCount(m), 0, 1
  {
    if IsLocal(m, v) then
      TotalUpdate(m, v.location, Shareable(m[v.location]), LocalWeight);
      SynchronizeAll(m[v.location := Shareable(m[v.location])], m[v.location].cell.fields)
    else m
  }

  function SynchronizeAll(m: Memory, vs: seq<Value>): (r: Memory)
    ensures |r| == |m| && LocalCount(r) <= LocalCount(m)
    decreases LocalCount(m), |vs|
  {
    if vs == [] then m else SynchronizeAll(SynchronizeValue(m, vs[0]), vs[1..])
  }

  /** The memories differ in that some local blocks have become shared. */
  predicate Synchronized(m: Memory, m': Memory) {
    && |m| == |m'|
    && forall l :: 0 <= l < |m| ==>
                     m'[l] == m[l] || (m[l].Used? && m[l].cell.references.mode.Local? && m'[l] == Shareable(m[l]))
  }

  /** Synchronization closes sharing: afterwards the values and all they reach are shared. */
  lemma {:induction false} SynchronizeAllCloses(m: Memory, vs: seq<Value>, rest: seq<Value>)
    requires SharedExcept(m, vs + rest)
    ensures var m' := SynchronizeAll(m, vs);
            && SharedExcept(m', rest) && Synchronized(m, m')
            && forall i :: 0 <= i < |vs| ==> !IsLocal(m', vs[i])
    decreases LocalCount(m), |vs|
  {
    if vs == [] {
      assert vs + rest == rest;
    } else {
      var v := vs[0];
      var others := vs[1..] + rest;
      assert vs + rest == [v] + others;
      var m1 := SynchronizeValue(m, v);
      if IsLocal(m, v) {
        var marked := m[v.location := Shareable(m[v.location])];
        TotalUpdate(m, v.location, Shareable(m[v.location]), LocalWeight);
        var fields := m[v.location].cell.fields;
        MarkExcept(m, v.location, others);
        SynchronizeAllCloses(marked, fields, others);
        assert Synchronized(m, m1);
      } else {
        NotPending(m, v, others);
      }
      SynchronizeAllCloses(m1, vs[1..], rest);
    }
  }

  lemma MarkExcept(m: Memory, l: nat, others: seq<Value>)
    requires IsLocal(m, Pointer(l)) && SharedExcept(m, [Pointer(l)] + others)
    ensures SharedExcept(m[l := Shareable(m[l])], m[l].cell.fields + others)
  {
    var m' := m[l := Shareable(m[l])];
    forall c: nat, i: nat | Escapes(m', c, i) ensures m'[c].cell.fields[i] in m[l].cell.fields + others {
      if c != l {
        assert Escapes(m, c, i);
        assert m[c].cell.fields[i] in [Pointer(l)] + others;
      }
    }
  }

  lemma NotPending(m: Memory, v: Value, others: seq<Value>)
    requires !IsLocal(m, v) && SharedExcept(m, [v] + others)
    ensures SharedExcept(m, others)
  {
    forall l: nat, i: nat | Escapes(m, l, i) ensures m[l].cell.fields[i] in others {
      assert m[l].cell.fields[i] in [v] + others;
    }
  }

  /** A synchronized value reaches shared blocks only, and means and is owned as before. */
  lemma SynchronizeCorrect(m: Memory, v: Value, roots: multiset<nat>)
    requires SharedClosed(m) && Exact(m, roots)
    ensures var m' := SynchronizeValue(m, v);
            && SharedClosed(m') && !IsLocal(m', v) && Exact(m', roots)
            && forall w, t :: Represents(m, w, t) ==> Represents(m', w, t)
  {
    var m' := SynchronizeValue(m, v);
    assert SynchronizeAll(m', []) == m' && [v][1..] == [];
    assert SynchronizeAll(m, [v]) == m';
    SynchronizeAllCloses(m, [v], []);
    forall l: nat ensures ExactAt(m', roots, l) {
      assert ExactAt(m, roots, l);
      SynchronizedEdges(m, m', l);
    }
    forall w, t | Represents(m, w, t) ensures Represents(m', w, t) {
      SynchronizedMeaning(m, m', w, t);
    }
    assert [v][0] == v;
  }

  lemma {:induction false} SynchronizedEdges(m: Memory, m': Memory, l: nat)
    requires Synchronized(m, m')
    ensures Edges(m, l) == Edges(m', l)
  {
    if m != [] {
      assert Synchronized(m[1..], m'[1..]);
      SynchronizedEdges(m[1..], m'[1..], l);
    }
  }

  lemma {:induction false} SynchronizedMeaning(m: Memory, m': Memory, v: Value, t: Tree)
    requires Synchronized(m, m') && Represents(m, v, t)
    ensures Represents(m', v, t)
    decreases t
  {
    if t.Node? {
      var fields := m[v.location].cell.fields;
      forall i | 0 <= i < |t.children| ensures Represents(m', fields[i], t.children[i]) {
        SynchronizedMeaning(m, m', fields[i], t.children[i]);
      }
    }
  }

  /** Whatever is reachable from a shared block is shared. */
  lemma {:induction false} SharedReachesShared(m: Memory, path: seq<nat>)
    requires SharedClosed(m) && IsPath(m, path) && !IsLocal(m, Pointer(path[0]))
    ensures !IsLocal(m, Pointer(path[|path| - 1]))
  {
    if |path| > 1 {
      assert IsPath(m, path[..|path| - 1]);
      SharedReachesShared(m, path[..|path| - 1]);
      var parent, l := path[|path| - 2], path[|path| - 1];
      var i :| 0 <= i < |m[parent].cell.fields| && m[parent].cell.fields[i] == Pointer(l);
      assert !Escapes(m, parent, i);
    }
  }

  /** The guard under which record update keeps sharing closed. */
  predicate StoresShared(m: Memory, l: nat, updates: seq<Option<Value>>)
    requires IsUsed(m, l)
  {
    IsUnique(m, l) && m[l].cell.references.mode.Shared? ==>
      forall i :: 0 <= i < |updates| && updates[i].Some? ==> !IsLocal(m, updates[i].value)
  }

  /**
   Record update stores field values as they are.  It keeps sharing closed exactly when it does not
   store a local value into a shared record in place.
   */
  lemma UpdateKeepsSharedClosed(m: Memory, l: nat, updates: seq<Option<Value>>, roots: multiset<nat>)
    requires SharedClosed(m) && IsUsed(m, l) && |updates| == |m[l].cell.fields|
    requires Exact(m, roots + Pointers(NewValues(updates)) + multiset{l})
    ensures SharedClosed(UpdateRecord(m, l, updates).0) <==> StoresShared(m, l, updates)
  {
    if IsUnique(m, l) {
      if StoresShared(m, l, updates) {
        InPlaceKeepsShared(m, l, updates, roots);
      } else {
        InPlaceEscapes(m, l, updates, roots);
      }
    } else {
      var fields := m[l].cell.fields;
      CopySteps(m, l, updates, roots);
      var cloned := CloneAll(m, Kept(fields, updates));
      var copied := Allocate(cloned, Merged(fields, updates)).0;
      DropShrinks(copied, Pointer(l));
      var m' := UpdateRecord(m, l, updates).0;
      forall c: nat, i: nat ensures !Escapes(m', c, i) {
        if Escapes(m', c, i) {
          ShrinksShared(copied, m', c, i);
          CopyShares(m, cloned, copied, c, i, roots + Pointers(NewValues(updates)) + multiset{l});
        }
      }
    }
  }

  lemma ShrinksShared(m: Memory, m': Memory, l: nat, i: nat)
    requires Shrinks(m, m') && Escapes(m', l, i)
    ensures Escapes(m, l, i)
  {
  }

  lemma CopyShares(m: Memory, cloned: Memory, copied: Memory, l: nat, i: nat, roots: multiset<nat>)
    requires SameShape(m, cloned) && Exact(m, roots)
    requires |copied| == |m| + 1 && copied[..|m|] == cloned && copied[|m|].Used? && copied[|m|].cell.references.mode.Local?
    requires Escapes(copied, l, i)
    ensures Escapes(m, l, i)
  {
    assert copied[l] == cloned[l];
    FieldIsLive(m, roots, l, i);
    assert copied[m[l].cell.fields[i].location] == cloned[m[l].cell.fields[i].location];
  }

  /** Outside of the updated record, an update in place only frees cells. */
  lemma InPlaceShrinks(m: Memory, l: nat, updates: seq<Option<Value>>, roots: multiset<nat>)
    requires IsUnique(m, l) && |updates| == |m[l].cell.fields|
    requires Exact(m, roots + Pointers(NewValues(updates)) + multiset{l})
    ensures var m' := UpdateRecord(m, l, updates).0;
            && m'[l] == Full(m, l, updates) && Edges(m', l) == 0 && Exact(m', roots + multiset{l})
            && |m'| == |m| && forall c :: 0 <= c < |m| && c != l && m'[c].Used? ==> SameCell(m[c], m'[c])
  {
    InPlaceSteps(m, l, updates, roots + Pointers(NewValues(updates)));
    InPlaceExact(m, l, updates, roots);
    DropAllShrinks(m[l := Hollow(m, l, updates)], Replaced(m[l].cell.fields, updates));
    assert ExactAt(UpdateRecord(m, l, updates).0, roots + multiset{l}, l);
  }

  lemma InPlaceKeepsShared(m: Memory, l: nat, updates: seq<Option<Value>>, roots: multiset<nat>)
    requires SharedClosed(m) && IsUnique(m, l) && |updates| == |m[l].cell.fields| && StoresShared(m, l, updates)
    requires Exact(m, roots + Pointers(NewValues(updates)) + multiset{l})
    ensures SharedClosed(UpdateRecord(m, l, updates).0)
  {
    var m' := UpdateRecord(m, l, updates).0;
    InPlaceShrinks(m, l, updates, roots);
    forall c: nat, i: nat ensures !Escapes(m', c, i) {
      if Escapes(m', c, i) {
        OldEscape(m, m', l, c, i, updates);
      }
    }
  }

  /** An escape after an update in place is an old one, or it is a stored local value. */
  lemma OldEscape(m: Memory, m': Memory, l: nat, c: nat, i: nat, updates: seq<Option<Value>>)
    requires IsUsed(m, l) && |updates| == |m[l].cell.fields| && Escapes(m', c, i)
    requires |m'| == |m| && m'[l] == Full(m, l, updates) && Edges(m', l) == 0
    requires forall c :: 0 <= c < |m| && c != l && m'[c].Used? ==> SameCell(m[c], m'[c])
    ensures c == l && updates[i].Some? ==> IsLocal(m, updates[i].value)
    ensures c != l || updates[i].None? ==> Escapes(m, c, i)
  {
    if m'[c].cell.fields[i] == Pointer(l) {
      PointersCover(m'[c].cell.fields, i);
      EdgesCover(m', c, l);
    }
    assert IsLocal(m, m'[c].cell.fields[i]);
  }

  lemma InPlaceEscapes(m: Memory, l: nat, updates: seq<Option<Value>>, roots: multiset<nat>)
    requires IsUnique(m, l) && |updates| == |m[l].cell.fields| && !StoresShared(m, l, updates)
    requires Exact(m, roots + Pointers(NewValues(updates)) + multiset{l})
    ensures !SharedClosed(UpdateRecord(m, l, updates).0)
  {
    var m' := UpdateRecord(m, l, updates).0;
    InPlaceShrinks(m, l, updates, roots);
    var i :| 0 <= i < |updates| && updates[i].Some? && IsLocal(m, updates[i].value);
    assert m'[l].cell.fields[i] == updates[i].value;
    FieldIsLive(m', roots + multiset{l}, l, i);
    assert Escapes(m', l, i);
  }

  /** A shared record that holds a number, and a fresh local record. */
  const SHARED_AND_LOCAL: Memory :=
    [Used(Cell(References(Shared, 1), [Immediate(0)])), Used(Cell(References(Local, 1), [Immediate(1)]))]

  lemma SharedAndLocal()
    ensures Exact(SHARED_AND_LOCAL, multiset{0, 1}) && Acyclic(SHARED_AND_LOCAL) && SharedClosed(SHARED_AND_LOCAL)
  {
    var m := SHARED_AND_LOCAL;
    PointersOne(Immediate(0));
    PointersOne(Immediate(1));
    assert SlotPointers(m[0]) == multiset{} && SlotPointers(m[1]) == multiset{};
    forall l: nat ensures ExactAt(m, multiset{0, 1}, l) {
      assert m[1..] == [m[1]] && m[1..][1..] == [];
      assert Edges(m[1..], l) == SlotPointers(m[1])[l] + Edges([], l);
    }
    assert Ranked(m, [0, 0]);
  }

  /** A shared record, updated with a fresh local record, refers to a block that is counted locally. */
  lemma UpdateCanShareLocal()
    ensures var m, updates := SHARED_AND_LOCAL, [Some(Pointer(1))];
            && Exact(m, multiset{0, 1}) && Acyclic(m) && SharedClosed(m)
            && !SharedClosed(UpdateRecord(m, 0, updates).0)
  {
    hide Exact, Edges, UpdateRecord, SharedClosed, Acyclic;
    var m, updates: seq<Option<Value>> := SHARED_AND_LOCAL, [Some(Pointer(1))];
    SharedAndLocal();
    assert NewValues(updates[1..]) == [] && NewValues(updates) == [Pointer(1)];
    PointersOne(Pointer(1));
    assert multiset{} + Pointers(NewValues(updates)) + multiset{0} == multiset{0, 1};
    UpdateKeepsSharedClosed(m, 0, updates, multiset{});
    assert updates[0].Some? && IsLocal(m, updates[0].value);
  }
}
