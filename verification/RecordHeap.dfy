/**
 The record operations as compiled code performs them: step by step, on a heap that is changed in
 place.  Contents are dropped before their block is freed, and a record that is updated in place
 keeps its old fields until all of the new ones are collected.
 */
module RecordHeap {
  import opened Sums
  import opened ArcBlock
  import opened Heap
  import opened HeapTheorems
  import opened HeapGraph

  // ----- Blocks out of reach -----

  /** All the values point below the given rank. */
  predicate Below(rank: seq<nat>, vs: seq<Value>, bound: nat) {
    forall i :: 0 <= i < |vs| && vs[i].Pointer? ==> vs[i].location < |rank| && rank[vs[i].location] < bound
  }

  lemma FieldsBelow(m: Memory, rank: seq<nat>, l: nat)
    requires Ranked(m, rank) && IsUsed(m, l)
    ensures Below(rank, m[l].cell.fields, rank[l])
  {
  }

  lemma ShrinksRanked(m: Memory, m': Memory, rank: seq<nat>)
    requires Ranked(m, rank) && Shrinks(m, m')
    ensures Ranked(m', rank)
  {
  }

  /** Dropping values of lower rank neither reads nor changes a block. */
  lemma {:induction false} DropSkips(m: Memory, v: Value, l: nat, slot: Slot, rank: seq<nat>)
    requires Ranked(m, rank) && l < |m| && Below(rank, [v], rank[l])
    ensures DropValue(m[l := slot], v) == DropValue(m, v)[l := slot] && DropValue(m, v)[l] == m[l]
    decreases UsedCount(m), 0, 1
  {
    hide DropValue, DropAll;
    assert [v][0] == v;
    DropCases(m, v);
    DropCases(m[l := slot], v);
    if v.Pointer? && IsUnique(m, v.location) {
      var c := v.location;
      TotalUpdate(m, c, Free, UsedWeight);
      FieldsBelow(m, rank, c);
      DropAllSkips(m[c := Free], m[c].cell.fields, l, slot, rank);
      assert m[l := slot][c := Free] == m[c := Free][l := slot];
    }
  }

  lemma {:induction false} DropAllSkips(m: Memory, vs: seq<Value>, l: nat, slot: Slot, rank: seq<nat>)
    requires Ranked(m, rank) && l < |m| && Below(rank, vs, rank[l])
    ensures DropAll(m[l := slot], vs) == DropAll(m, vs)[l := slot] && DropAll(m, vs)[l] == m[l]
    decreases UsedCount(m), |vs|
  {
    hide DropValue;
    if vs != [] {
      var v := vs[0];
      DropShrinks(m, v);
      ShrinksRanked(m, DropValue(m, v), rank);
      DropSkips(m, v, l, slot, rank);
      DropAllSkips(DropValue(m, v), vs[1..], l, slot, rank);
    }
  }

  lemma {:induction false} DropAllSnoc(m: Memory, vs: seq<Value>, v: Value)
    ensures DropAll(m, vs + [v]) == DropValue(DropAll(m, vs), v)
    decreases |vs|
  {
    if vs == [] {
      DropOne(m, v);
      assert vs + [v] == [v];
    } else {
      assert (vs + [v])[1..] == vs[1..] + [v];
      DropAllSnoc(DropValue(m, vs[0]), vs[1..], v);
    }
  }

  lemma {:induction false} CloneAllSnoc(m: Memory, vs: seq<Value>, v: Value)
    ensures CloneAll(m, vs + [v]) == CloneValue(CloneAll(m, vs), v)
    decreases |vs|
  {
    if vs == [] {
      assert vs + [v] == [v] && [v][1..] == [];
    } else {
      assert (vs + [v])[1..] == vs[1..] + [v];
      CloneAllSnoc(CloneValue(m, vs[0]), vs[1..], v);
    }
  }

  lemma {:induction false} SynchronizeAllSnoc(m: Memory, vs: seq<Value>, v: Value)
    ensures SynchronizeAll(m, vs + [v]) == SynchronizeValue(SynchronizeAll(m, vs), v)
    decreases |vs|
  {
    if vs == [] {
      assert vs + [v] == [v] && [v][1..] == [];
    } else {
      assert (vs + [v])[1..] == vs[1..] + [v];
      SynchronizeAllSnoc(SynchronizeValue(m, vs[0]), vs[1..], v);
    }
  }

  lemma {:induction false} ReplacedSnoc(fields: seq<Value>, updates: seq<Option<Value>>, i: nat)
    requires |fields| == |updates| && i < |fields|
    ensures Replaced(fields[..i + 1], updates[..i + 1])
         == Replaced(fields[..i], updates[..i]) + (if updates[i].Some? then [fields[i]] else [])
  {
    if i == 0 {
      assert fields[..1] == [fields[0]] && fields[..1][1..] == [] && updates[..1][1..] == [];
    } else {
      assert fields[..i + 1][1..] == fields[1..][..i] && updates[..i + 1][1..] == updates[1..][..i];
      assert fields[..i][1..] == fields[1..][..i - 1] && updates[..i][1..] == updates[1..][..i - 1];
      ReplacedSnoc(fields[1..], updates[1..], i - 1);
    }
  }

  class RecordHeap {
    var cells: Memory

    constructor ()
      ensures cells == []
    {
      cells := [];
    }

    method Clone(v: Value)
      modifies this
      ensures cells == CloneValue(old(cells), v)
    {
      if v.Pointer? && IsCounted(cells, v.location) {
        cells := cells[v.location := WithNumber(cells[v.location], cells[v.location].cell.references.number + 1)];
      }
    }

    /** Gives a reference up.  A shared count is decremented before it is compared, a local one after. */
    method Drop(v: Value, ghost rank: seq<nat>)
      requires Ranked(cells, rank)
      modifies this
      ensures cells == DropValue(old(cells), v) && Ranked(cells, rank)
      decreases if v.Pointer? && v.location < |rank| then rank[v.location] + 1 else 0, 1
    {
      DropShrinks(cells, v);
      ShrinksRanked(cells, DropValue(cells, v), rank);
      if v.Pointer? && IsCounted(cells, v.location) {
        var l := v.location;
        var slot := cells[l];
        var references := slot.cell.references;
        if references.mode.Shared? {
          if references.number > 0 {
            cells := cells[l := WithNumber(slot, references.number - 1)];
          }
          if references.number == 1 {
            DropContent(l, old(cells), rank);
          }
        } else if references.number == 1 {
          DropContent(l, old(cells), rank);
        } else if references.number > 0 {
          cells := cells[l := WithNumber(slot, references.number - 1)];
        }
      }
    }

    /** Drops the fields of a block in order and then frees it. */
    method DropContent(l: nat, ghost before: Memory, ghost rank: seq<nat>)
      requires Ranked(before, rank) && IsUsed(before, l)
      requires |cells| == |before| && cells == before[l := cells[l]]
      requires cells[l].Used? && cells[l].cell.fields == before[l].cell.fields
      modifies this
      ensures cells == DropAll(before[l := Free], before[l].cell.fields)
      decreases rank[l] + 1, 0
    {
      var fields := cells[l].cell.fields;
      ghost var slot := cells[l];
      FieldsBelow(before, rank, l);
      for i := 0 to |fields|
        invariant cells == DropAll(before, fields[..i])[l := slot] && Ranked(cells, rank)
      {
        DropAllSnoc(before, fields[..i], fields[i]);
        assert fields[..i + 1] == fields[..i] + [fields[i]];
        DropAllShrinks(before, fields[..i]);
        ShrinksRanked(before, DropAll(before, fields[..i]), rank);
        DropAllSkips(DropAll(before, fields[..i]), [fields[i]], l, slot, rank);
        DropOne(DropAll(before, fields[..i]), fields[i]);
        DropOne(cells, fields[i]);
        Drop(fields[i], rank);
      }
      assert fields[..|fields|] == fields;
      cells := cells[l := Free];
      DropAllSkips(before, fields, l, Free, rank);
    }

    method Allocate(fields: seq<Value>) returns (record: Value)
      modifies this
      ensures (cells, record) == Heap.Allocate(old(cells), fields)
    {
      record := Pointer(|cells|);
      cells := cells + [Used(Cell(References(Local, 1), fields))];
    }

    method GetField(l: nat, i: nat, ghost rank: seq<nat>) returns (field: Value)
      requires Ranked(cells, rank) && IsUsed(cells, l) && i < |cells[l].cell.fields|
      modifies this
      ensures (cells, field) == Heap.GetField(old(cells), l, i)
    {
      field := cells[l].cell.fields[i];
      Clone(field);
      CloneKeepsShape(old(cells), field, 0);
      assert Ranked(cells, rank);
      Drop(Pointer(l), rank);
    }

    method Box(v: Value) returns (box: Value)
      modifies this
      ensures (cells, box) == Heap.Box(old(cells), v)
    {
      box := Allocate([v]);
    }

    method Unbox(l: nat, ghost rank: seq<nat>) returns (v: Value)
      requires Ranked(cells, rank) && IsUsed(cells, l) && |cells[l].cell.fields| == 1
      modifies this
      ensures (cells, v) == Heap.Unbox(old(cells), l)
    {
      v := cells[l].cell.fields[0];
      Clone(v);
      CloneKeepsShape(old(cells), v, 0);
      assert Ranked(cells, rank);
      Drop(Pointer(l), rank);
    }

    /** Marks a block as shared and then synchronizes its fields in order. */
    method Synchronize(v: Value)
      modifies this
      ensures cells == SynchronizeValue(old(cells), v)
      decreases LocalCount(cells)
    {
      if v.Pointer? && IsUsed(cells, v.location) && cells[v.location].cell.references.mode.Local? {
        var l := v.location;
        TotalUpdate(cells, l, Shareable(cells[l]), LocalWeight);
        cells := cells[l := Shareable(cells[l])];
        ghost var marked := cells;
        var fields := cells[l].cell.fields;
        for i := 0 to |fields|
          invariant cells == SynchronizeAll(marked, fields[..i])
        {
          SynchronizeAllSnoc(marked, fields[..i], fields[i]);
          assert fields[..i + 1] == fields[..i] + [fields[i]];
          Synchronize(fields[i]);
        }
        assert fields[..|fields|] == fields;
      }
    }

    /** Drops the replaced fields of a record that is not on the heap. */
    method UpdateUnboxed(fields: seq<Value>, updates: seq<Option<Value>>, ghost rank: seq<nat>) returns (unboxed: seq<Value>)
      requires Ranked(cells, rank) && |updates| == |fields|
      modifies this
      ensures (cells, unboxed) == Heap.UpdateUnboxed(old(cells), fields, updates) && Ranked(cells, rank)
    {
      ghost var before := cells;
      unboxed := fields;
      for i := 0 to |updates|
        invariant cells == DropAll(before, Replaced(fields[..i], updates[..i])) && Ranked(cells, rank)
        invariant |unboxed| == |fields|
        invariant forall j :: 0 <= j < |fields| ==> unboxed[j] == if j < i then Merged(fields, updates)[j] else fields[j]
      {
        ReplacedSnoc(fields, updates, i);
        if updates[i].Some? {
          DropAllSnoc(before, Replaced(fields[..i], updates[..i]), fields[i]);
          Drop(fields[i], rank);
          unboxed := unboxed[i := updates[i].value];
        } else {
          assert Replaced(fields[..i], updates[..i]) + [] == Replaced(fields[..i], updates[..i]);
        }
      }
      assert fields[..|fields|] == fields && updates[..|updates|] == updates;
      assert unboxed == Merged(fields, updates);
    }

    /** Clones a field and then drops all fields of a record that is not on the heap. */
    method GetUnboxed(fields: seq<Value>, i: nat, ghost rank: seq<nat>) returns (field: Value)
      requires Ranked(cells, rank) && i < |fields|
      modifies this
      ensures (cells, field) == Heap.GetUnboxed(old(cells), fields, i) && Ranked(cells, rank)
    {
      field := fields[i];
      Clone(field);
      CloneKeepsShape(old(cells), field, 0);
      assert Ranked(cells, rank);
      ghost var before := cells;
      for j := 0 to |fields|
        invariant cells == DropAll(before, fields[..j]) && Ranked(cells, rank)
      {
        assert fields[..j + 1] == fields[..j] + [fields[j]];
        DropAllSnoc(before, fields[..j], fields[j]);
        Drop(fields[j], rank);
      }
      assert fields[..|fields|] == fields;
    }

    /** Replaces fields of a record: in place if this is the only reference to it, otherwise of a copy. */
    method UpdateRecord(l: nat, updates: seq<Option<Value>>, ghost rank: seq<nat>) returns (record: Value)
      requires Ranked(cells, rank) && IsUsed(cells, l) && |updates| == |cells[l].cell.fields|
      requires forall i :: 0 <= i < |updates| && updates[i].Some? && updates[i].value.Pointer? ==> updates[i].value.location < |cells|
      modifies this
      ensures (cells, record) == Heap.UpdateRecord(old(cells), l, updates)
    {
      if IsUnique(cells, l) {
        var unboxed := DropReplaced(l, updates, rank);
        cells := cells[l := Used(cells[l].cell.(fields := unboxed))];
        record := Pointer(l);
      } else {
        var unboxed := CloneKept(l, updates, rank);
        record := Pointer(|cells|);
        cells := cells + [Used(Cell(References(Local, 1), unboxed))];
        ghost var rank' := rank + [1 + Highest(rank)];
        assert Ranked(cells, rank');
        Drop(Pointer(l), rank');
      }
    }

    /** Drops the fields that are to be replaced and collects the new ones. */
    method DropReplaced(l: nat, updates: seq<Option<Value>>, ghost rank: seq<nat>) returns (unboxed: seq<Value>)
      requires Ranked(cells, rank) && IsUsed(cells, l) && |updates| == |cells[l].cell.fields|
      modifies this
      ensures cells == DropAll(old(cells), Replaced(old(cells)[l].cell.fields, updates)) && cells[l] == old(cells)[l]
      ensures unboxed == Merged(old(cells)[l].cell.fields, updates)
    {
      ghost var before := cells;
      var fields := cells[l].cell.fields;
      unboxed := fields;
      FieldsBelow(before, rank, l);
      for i := 0 to |updates|
        invariant cells == DropAll(before, Replaced(fields[..i], updates[..i])) && Ranked(cells, rank) && cells[l] == before[l]
        invariant |unboxed| == |fields|
        invariant forall j :: 0 <= j < |fields| ==> unboxed[j] == if j < i then Merged(fields, updates)[j] else fields[j]
      {
        ReplacedSnoc(fields, updates, i);
        if updates[i].Some? {
          DropAllSnoc(before, Replaced(fields[..i], updates[..i]), fields[i]);
          DropAllSkips(cells, [fields[i]], l, before[l], rank);
          DropOne(cells, fields[i]);
          Drop(cells[l].cell.fields[i], rank);
          unboxed := unboxed[i := updates[i].value];
        } else {
          assert Replaced(fields[..i], updates[..i]) + [] == Replaced(fields[..i], updates[..i]);
        }
      }
      assert fields[..|fields|] == fields && updates[..|updates|] == updates;
    }

    /** Clones the fields that are to be kept and merges them with the new ones. */
    method CloneKept(l: nat, updates: seq<Option<Value>>, ghost rank: seq<nat>) returns (unboxed: seq<Value>)
      requires Ranked(cells, rank) && IsUsed(cells, l) && |updates| == |cells[l].cell.fields|
      modifies this
      ensures cells == CloneAll(old(cells), Kept(old(cells)[l].cell.fields, updates)) && Ranked(cells, rank)
      ensures unboxed == Merged(old(cells)[l].cell.fields, updates)
    {
      ghost var before := cells;
      var fields := cells[l].cell.fields;
      unboxed := fields;
      for i := 0 to |updates|
        invariant |unboxed| == |fields|
        invariant forall j :: 0 <= j < |fields| ==> unboxed[j] == if j < i then Kept(fields, updates)[j] else fields[j]
      {
        if updates[i].Some? {
          unboxed := unboxed[i := Null];
        }
      }
      ghost var kept := Kept(fields, updates);
      assert unboxed == kept;
      for i := 0 to |unboxed|
        invariant cells == CloneAll(before, kept[..i]) && Ranked(cells, rank)
      {
        CloneAllSnoc(before, kept[..i], kept[i]);
        assert kept[..i + 1] == kept[..i] + [kept[i]];
        CloneKeepsShape(cells, kept[i], 0);
        Clone(unboxed[i]);
      }
      assert kept[..|kept|] == kept;
      for i := 0 to |updates|
        invariant |unboxed| == |fields|
        invariant forall j :: 0 <= j < |fields| ==> unboxed[j] == if j < i then Merged(fields, updates)[j] else kept[j]
      {
        if updates[i].Some? {
          unboxed := unboxed[i := updates[i].value];
        }
      }
    }
  }
}
