/** Operations on reference-counted records keep counts exact and mean what their pure versions do. */
module HeapTheorems {
  import opened Sums
  import opened ArcBlock
  import opened Heap

  // ----- Pointers and edges -----

  lemma {:induction false} PointersConcat(a: seq<Value>, b: seq<Value>)
    ensures Pointers(a + b) == Pointers(a) + Pointers(b)
  {
    hide ValuePointers;
    if a == [] {
      assert a + b == b;
    } else {
      PointersConcat(a[1..], b);
      assert (a + b)[1..] == a[1..] + b;
      assert Pointers(a + b) == ValuePointers(a[0]) + Pointers(a[1..] + b);
    }
  }

  lemma {:induction false} PointersCover(vs: seq<Value>, i: nat)
    requires i < |vs| && vs[i].Pointer?
    ensures Pointers(vs)[vs[i].location] > 0
  {
    if i > 0 {
      PointersCover(vs[1..], i - 1);
    }
  }

  lemma {:induction false} PointersFind(vs: seq<Value>, l: nat) returns (i: nat)
    requires Pointers(vs)[l] > 0
    ensures i < |vs| && vs[i] == Pointer(l)
  {
    if vs[0] == Pointer(l) {
      i := 0;
    } else {
      i := PointersFind(vs[1..], l);
      i := i + 1;
    }
  }

  lemma {:induction false} EdgesUpdate(m: Memory, l: nat, slot: Slot, c: nat)
    requires l < |m|
    ensures Edges(m[l := slot], c) + SlotPointers(m[l])[c] == Edges(m, c) + SlotPointers(slot)[c]
  {
    if l == 0 {
      assert m[l := slot][1..] == m[1..];
    } else {
      EdgesUpdate(m[1..], l - 1, slot, c);
      assert m[l := slot][1..] == m[1..][l - 1 := slot];
    }
  }

  lemma {:induction false} EdgesAppend(m: Memory, slot: Slot, c: nat)
    ensures Edges(m + [slot], c) == Edges(m, c) + SlotPointers(slot)[c]
  {
    if m == [] {
      assert m + [slot] == [slot];
    } else {
      EdgesAppend(m[1..], slot, c);
      assert (m + [slot])[1..] == m[1..] + [slot];
    }
  }

  lemma {:induction false} EdgesCover(m: Memory, l: nat, c: nat)
    requires l < |m|
    ensures SlotPointers(m[l])[c] <= Edges(m, c)
  {
    if l > 0 {
      EdgesCover(m[1..], l - 1, c);
    }
  }

  lemma {:induction false} EdgesFind(m: Memory, c: nat) returns (l: nat)
    requires Edges(m, c) > 0
    ensures l < |m| && SlotPointers(m[l])[c] > 0
  {
    if SlotPointers(m[0])[c] > 0 {
      l := 0;
    } else {
      l := EdgesFind(m[1..], c);
      l := l + 1;
    }
  }

  // ----- Meaning -----

  /** The memories differ in counts only. */
  predicate SameShape(m: Memory, m': Memory) {
    && |m| == |m'|
    && forall l :: 0 <= l < |m| ==>
                     && (m[l].Used? <==> m'[l].Used?)
                     && (m[l].Used? ==> m[l].cell.fields == m'[l].cell.fields && m[l].cell.references.mode == m'[l].cell.references.mode)
  }

  lemma {:induction false} SameMeaning(m: Memory, m': Memory, v: Value, t: Tree)
    requires SameShape(m, m') && Represents(m, v, t)
    ensures Represents(m', v, t)
    decreases t
  {
    if t.Node? {
      var fields := m[v.location].cell.fields;
      forall i | 0 <= i < |t.children| ensures Represents(m', fields[i], t.children[i]) {
        SameMeaning(m, m', fields[i], t.children[i]);
      }
    }
  }

  /** Changing a slot that nobody refers to changes no other meaning. */
  lemma {:induction false} UnreferencedMeaning(m: Memory, l: nat, slot: Slot, v: Value, t: Tree)
    requires l < |m| && Edges(m, l) == 0 && v != Pointer(l) && Represents(m, v, t)
    ensures Represents(m[l := slot], v, t)
    decreases t
  {
    if t.Node? {
      var fields := m[v.location].cell.fields;
      forall i | 0 <= i < |t.children| ensures Represents(m[l := slot], fields[i], t.children[i]) {
        if fields[i] == Pointer(l) {
          PointersCover(fields, i);
          EdgesCover(m, v.location, l);
        }
        UnreferencedMeaning(m, l, slot, fields[i], t.children[i]);
      }
    }
  }

  /** Allocation changes no meaning. */
  lemma {:induction false} AppendMeaning(m: Memory, slot: Slot, v: Value, t: Tree)
    requires Represents(m, v, t)
    ensures Represents(m + [slot], v, t)
    decreases t
  {
    if t.Node? {
      var fields := m[v.location].cell.fields;
      forall i | 0 <= i < |t.children| ensures Represents(m + [slot], fields[i], t.children[i]) {
        AppendMeaning(m, slot, fields[i], t.children[i]);
      }
    }
  }

  /** A value denotes at most one tree. */
  lemma {:induction false} MeaningIsUnique(m: Memory, v: Value, t: Tree, u: Tree)
    requires Represents(m, v, t) && Represents(m, v, u)
    ensures t == u
    decreases t
  {
    if t.Node? {
      var fields := m[v.location].cell.fields;
      forall i | 0 <= i < |t.children| ensures t.children[i] == u.children[i] {
        MeaningIsUnique(m, fields[i], t.children[i], u.children[i]);
      }
    }
  }

  // ----- Clone -----

  lemma CloneKeepsShape(m: Memory, v: Value, c: nat)
    ensures SameShape(m, CloneValue(m, v)) && Edges(CloneValue(m, v), c) == Edges(m, c)
  {
    if v.Pointer? && IsCounted(m, v.location) {
      EdgesUpdate(m, v.location, CloneValue(m, v)[v.location], c);
    }
  }

  lemma PointersOne(v: Value)
    ensures Pointers([v]) == if v.Pointer? then multiset{v.location} else multiset{}
  {
    assert [v][1..] == [];
  }

  /** Cloning a live value owns one more reference to it. */
  lemma CloneKeepsExact(m: Memory, v: Value, roots: multiset<nat>)
    requires Exact(m, roots) && (v.Pointer? ==> IsUsed(m, v.location))
    ensures Exact(CloneValue(m, v), roots + Pointers([v]))
  {
    PointersOne(v);
    forall l: nat ensures ExactAt(CloneValue(m, v), roots + Pointers([v]), l) {
      assert ExactAt(m, roots, l);
      CloneKeepsShape(m, v, l);
    }
  }

  lemma {:induction false} CloneAllKeeps(m: Memory, vs: seq<Value>, roots: multiset<nat>)
    requires Exact(m, roots) && (forall i :: 0 <= i < |vs| && vs[i].Pointer? ==> IsUsed(m, vs[i].location))
    ensures Exact(CloneAll(m, vs), roots + Pointers(vs)) && SameShape(m, CloneAll(m, vs))
    decreases |vs|
  {
    if vs == [] {
      assert roots + Pointers(vs) == roots;
    } else {
      CloneKeepsExact(m, vs[0], roots);
      CloneKeepsShape(m, vs[0], 0);
      CloneAllKeeps(CloneValue(m, vs[0]), vs[1..], roots + Pointers([vs[0]]));
      assert roots + Pointers([vs[0]]) + Pointers(vs[1..]) == roots + Pointers(vs);
    }
  }

  // ----- Drop -----

  /** Freeing a cell whose only owner is given makes its fields owned. */
  lemma FreeKeepsExact(m: Memory, l: nat, roots: multiset<nat>)
    requires Exact(m, roots + multiset{l}) && IsUnique(m, l)
    ensures Exact(m[l := Free], roots + Pointers(m[l].cell.fields))
    ensures Edges(m, l) == 0 && roots[l] == 0
  {
    assert ExactAt(m, roots + multiset{l}, l);
    EdgesCover(m, l, l);
    var m', roots' := m[l := Free], roots + Pointers(m[l].cell.fields);
    forall c: nat ensures ExactAt(m', roots', c) {
      assert ExactAt(m, roots + multiset{l}, c);
      EdgesUpdate(m, l, Free, c);
    }
  }

  /** The cases of a drop. */
  lemma DropCases(m: Memory, v: Value)
    ensures v.Pointer? && IsUnique(m, v.location) ==> DropValue(m, v) == DropAll(m[v.location := Free], m[v.location].cell.fields)
    ensures v.Pointer? && IsCounted(m, v.location) && m[v.location].cell.references.number > 1 ==>
              DropValue(m, v) == m[v.location := WithNumber(m[v.location], m[v.location].cell.references.number - 1)]
    ensures v.Pointer? && IsCounted(m, v.location) && m[v.location].cell.references.number == 0 ==> DropValue(m, v) == m
    ensures (v.Pointer? && IsCounted(m, v.location)) || DropValue(m, v) == m
  {
    hide DropAll;
  }

  /** Giving up one of several references. */
  lemma DecrementKeepsExact(m: Memory, l: nat, roots: multiset<nat>)
    requires Exact(m, roots + multiset{l}) && !IsUnique(m, l)
    ensures Exact(DropValue(m, Pointer(l)), roots) && SameShape(m, DropValue(m, Pointer(l)))
  {
    hide DropValue, DropAll, Edges;
    var m' := DropValue(m, Pointer(l));
    DropCases(m, Pointer(l));
    assert ExactAt(m, roots + multiset{l}, l);
    forall c: nat ensures ExactAt(m', roots, c) {
      assert ExactAt(m, roots + multiset{l}, c);
      if IsCounted(m, l) {
        EdgesUpdate(m, l, m'[l], c);
        assert Edges(m', c) == Edges(m, c);
      }
    }
  }

  /** Dropping owned values leaves exactly the other owners, whose values are unchanged. */
  lemma {:induction false} DropAllKeepsExact(m: Memory, vs: seq<Value>, roots: multiset<nat>)
    requires Exact(m, roots + Pointers(vs))
    ensures Exact(DropAll(m, vs), roots)
    decreases UsedCount(m), |vs|
  {
    if vs == [] {
      assert roots + Pointers(vs) == roots;
    } else {
      var rest := roots + Pointers(vs[1..]);
      if vs[0].Pointer? {
        var l := vs[0].location;
        assert roots + Pointers(vs) == rest + multiset{l};
        assert Owners(m, rest + multiset{l}, l) > 0;
        if IsUnique(m, l) {
          FreeKeepsExact(m, l, rest);
          TotalUpdate(m, l, Free, UsedWeight);
          DropAllKeepsExact(m[l := Free], m[l].cell.fields, rest);
        } else {
          DecrementKeepsExact(m, l, rest);
        }
      } else {
        assert roots + Pointers(vs) == rest;
      }
      DropAllKeepsExact(DropValue(m, vs[0]), vs[1..], roots);
    }
  }

  lemma {:induction false} DropAllKeepsMeaning(m: Memory, vs: seq<Value>, roots: multiset<nat>, v: Value, t: Tree)
    requires Exact(m, roots + Pointers(vs)) && Rooted(roots, v) && Represents(m, v, t)
    ensures Represents(DropAll(m, vs), v, t)
    decreases UsedCount(m), |vs|
  {
    if vs != [] {
      var rest := roots + Pointers(vs[1..]);
      if vs[0].Pointer? {
        var l := vs[0].location;
        assert roots + Pointers(vs) == rest + multiset{l};
        assert Owners(m, rest + multiset{l}, l) > 0;
        if IsUnique(m, l) {
          FreeKeepsExact(m, l, rest);
          TotalUpdate(m, l, Free, UsedWeight);
          UnreferencedMeaning(m, l, Free, v, t);
          DropAllKeepsMeaning(m[l := Free], m[l].cell.fields, rest, v, t);
          DropAllKeepsExact(m[l := Free], m[l].cell.fields, rest);
        } else {
          DecrementKeepsExact(m, l, rest);
          SameMeaning(m, DropValue(m, vs[0]), v, t);
        }
      } else {
        assert roots + Pointers(vs) == rest;
      }
      DropAllKeepsMeaning(DropValue(m, vs[0]), vs[1..], roots, v, t);
    }
  }

  lemma DropOne(m: Memory, v: Value)
    ensures DropAll(m, [v]) == DropValue(m, v)
  {
    assert [v][1..] == [];
    assert DropAll(DropValue(m, v), []) == DropValue(m, v);
  }

  /** Dropping one owned value. */
  lemma DropKeeps(m: Memory, l: nat, roots: multiset<nat>)
    requires Exact(m, roots + multiset{l})
    ensures Exact(DropValue(m, Pointer(l)), roots)
    ensures forall v, t :: Rooted(roots, v) && Represents(m, v, t) ==> Represents(DropValue(m, Pointer(l)), v, t)
  {
    PointersOne(Pointer(l));
    DropOne(m, Pointer(l));
    DropAllKeepsExact(m, [Pointer(l)], roots);
    forall v, t | Rooted(roots, v) && Represents(m, v, t) ensures Represents(DropValue(m, Pointer(l)), v, t) {
      DropAllKeepsMeaning(m, [Pointer(l)], roots, v, t);
    }
  }

  // ----- Allocation, field access and boxes -----

  lemma AllocateKeeps(m: Memory, vs: seq<Value>, roots: multiset<nat>)
    requires Exact(m, roots + Pointers(vs))
    ensures Exact(Allocate(m, vs).0, roots + multiset{|m|})
  {
    var m', roots' := Allocate(m, vs).0, roots + multiset{|m|};
    forall c: nat ensures ExactAt(m', roots', c) {
      assert ExactAt(m, roots + Pointers(vs), c);
      EdgesAppend(m, m'[|m|], c);
      EdgesAtNew(m, roots + Pointers(vs));
    }
  }

  lemma EdgesAtNew(m: Memory, roots: multiset<nat>)
    requires Exact(m, roots)
    ensures Edges(m, |m|) == 0 && roots[|m|] == 0
  {
    assert ExactAt(m, roots, |m|);
  }

  /** A new record means its fields. */
  lemma AllocateMeans(m: Memory, vs: seq<Value>, children: seq<Tree>)
    requires |vs| == |children| && forall i :: 0 <= i < |vs| ==> Represents(m, vs[i], children[i])
    ensures Represents(Allocate(m, vs).0, Allocate(m, vs).1, Node(children))
  {
    var slot := Used(Cell(References(Local, 1), vs));
    forall i | 0 <= i < |vs| ensures Represents(m + [slot], vs[i], children[i]) {
      AppendMeaning(m, slot, vs[i], children[i]);
    }
  }

  /** A field of a live record is live. */
  lemma FieldIsLive(m: Memory, roots: multiset<nat>, l: nat, i: nat)
    requires Exact(m, roots) && IsUsed(m, l) && i < |m[l].cell.fields| && m[l].cell.fields[i].Pointer?
    ensures IsUsed(m, m[l].cell.fields[i].location)
  {
    var c := m[l].cell.fields[i].location;
    PointersCover(m[l].cell.fields, i);
    EdgesCover(m, l, c);
    assert ExactAt(m, roots, c);
  }

  /** Field access yields an owned field with its meaning, and gives the record up. */
  lemma GetFieldCorrect(m: Memory, l: nat, i: nat, roots: multiset<nat>)
    requires Exact(m, roots + multiset{l}) && IsUsed(m, l) && i < |m[l].cell.fields|
    ensures var (m', field) := GetField(m, l, i);
            && Exact(m', roots + Pointers([field]))
            && (forall v, t :: Rooted(roots, v) && Represents(m, v, t) ==> Represents(m', v, t))
            && (forall children :: Represents(m, Pointer(l), Node(children)) ==> Represents(m', field, children[i]))
  {
    var field := m[l].cell.fields[i];
    var m1 := CloneValue(m, field);
    var roots' := roots + Pointers([field]);
    if field.Pointer? {
      FieldIsLive(m, roots + multiset{l}, l, i);
    }
    CloneKeepsExact(m, field, roots + multiset{l});
    CloneKeepsShape(m, field, 0);
    assert roots + multiset{l} + Pointers([field]) == roots' + multiset{l};
    DropKeeps(m1, l, roots');
    PointersOne(field);
    forall v, t | Rooted(roots', v) && Represents(m, v, t) ensures Represents(DropValue(m1, Pointer(l)), v, t) {
      SameMeaning(m, m1, v, t);
    }
  }

  /** Unboxing a fresh box gives the value and the memory back. */
  lemma BoxRoundTrip(m: Memory, v: Value)
    requires v.Pointer? ==> IsUsed(m, v.location) && m[v.location].cell.references.number > 0
    ensures var (boxed, box) := Box(m, v);
            box == Pointer(|m|) && Unbox(boxed, |m|) == (m + [Free], v)
  {
    var boxed := Box(m, v).0;
    var cloned := CloneValue(boxed, v);
    assert cloned[|m|] == boxed[|m|];
    DropOne(cloned[|m| := Free], v);
    assert cloned[|m|].cell.fields == [v];
    if v.Pointer? && IsCounted(m, v.location) {
      assert cloned[|m| := Free][v.location] == WithNumber(m[v.location], m[v.location].cell.references.number + 1);
    }
    assert DropValue(cloned[|m| := Free], v) == m + [Free];
  }

  // ----- Record update -----

  lemma PointersCons(v: Value, vs: seq<Value>, c: nat)
    ensures Pointers([v] + vs)[c] == ValuePointers(v)[c] + Pointers(vs)[c]
  {
    hide ValuePointers;
    assert ([v] + vs)[1..] == vs;
  }

  lemma {:induction false} MergedPointers(fields: seq<Value>, updates: seq<Option<Value>>, c: nat)
    requires |fields| == |updates|
    ensures Pointers(Merged(fields, updates))[c] == Pointers(Kept(fields, updates))[c] + Pointers(NewValues(updates))[c]
  {
    hide Pointers;
    if fields == [] {
      NoPointers(c);
      assert Merged(fields, updates) == [] && Kept(fields, updates) == [];
    } else {
      var merged, kept := Merged(fields[1..], updates[1..]), Kept(fields[1..], updates[1..]);
      MergedPointers(fields[1..], updates[1..], c);
      var first, rest := Merged(fields, updates)[0], Kept(fields, updates)[0];
      assert Merged(fields, updates) == [first] + merged && Kept(fields, updates) == [rest] + kept;
      PointersCons(first, merged, c);
      PointersCons(rest, kept, c);
      if updates[0].Some? {
        PointersCons(updates[0].value, NewValues(updates[1..]), c);
      } else {
        assert NewValues(updates) == NewValues(updates[1..]);
      }
    }
  }

  lemma NoPointers(c: nat)
    ensures Pointers([])[c] == 0
  {
  }

  lemma {:induction false} ReplacedPointers(fields: seq<Value>, updates: seq<Option<Value>>, c: nat)
    requires |fields| == |updates|
    ensures Pointers(fields)[c] == Pointers(Kept(fields, updates))[c] + Pointers(Replaced(fields, updates))[c]
  {
    hide Pointers;
    if fields == [] {
      NoPointers(c);
      assert Kept(fields, updates) == [];
    } else {
      ReplacedPointers(fields[1..], updates[1..], c);
      assert fields == [fields[0]] + fields[1..];
      assert Kept(fields, updates) == [Kept(fields, updates)[0]] + Kept(fields[1..], updates[1..]);
      PointersCons(fields[0], fields[1..], c);
      PointersCons(Kept(fields, updates)[0], Kept(fields[1..], updates[1..]), c);
      if updates[0].Some? {
        PointersCons(fields[0], Replaced(fields[1..], updates[1..]), c);
      } else {
        assert Replaced(fields, updates) == Replaced(fields[1..], updates[1..]);
      }
    }
  }

  lemma {:induction false} NewValuesCover(updates: seq<Option<Value>>, i: nat)
    requires i < |updates| && updates[i].Some? && updates[i].value.Pointer?
    ensures Pointers(NewValues(updates))[updates[i].value.location] > 0
  {
    var c := updates[i].value.location;
    if i > 0 {
      NewValuesCover(updates[1..], i - 1);
      assert updates[i] == updates[1..][i - 1];
    }
    if updates[0].Some? {
      PointersCons(updates[0].value, NewValues(updates[1..]), c);
    } else {
      assert NewValues(updates) == NewValues(updates[1..]);
    }
  }

  /** Drops never visit a cell whose only owner is kept. */
  lemma {:induction false} DropValueAway(m: Memory, v: Value, l: nat, roots: multiset<nat>, slot: Slot)
    requires Exact(m, roots + multiset{l} + Pointers([v])) && IsUnique(m, l)
    ensures DropValue(m[l := slot], v) == DropValue(m, v)[l := slot]
    ensures DropValue(m, v)[l] == m[l] && Exact(DropValue(m, v), roots + multiset{l})
    decreases UsedCount(m), 0, 1
  {
    hide DropValue, DropAll, Edges;
    PointersOne(v);
    assert ExactAt(m, roots + multiset{l} + Pointers([v]), l);
    DropCases(m, v);
    DropCases(m[l := slot], v);
    if v.Pointer? {
      var c := v.location;
      assert c != l;
      assert ExactAt(m, roots + multiset{l} + Pointers([v]), c);
      DropKeeps(m, c, roots + multiset{l});
      if IsUnique(m, c) {
        var fields := m[c].cell.fields;
        FreeKeepsExact(m, c, roots + multiset{l});
        TotalUpdate(m, c, Free, UsedWeight);
        DropAllAway(m[c := Free], fields, l, roots, slot);
        assert m[l := slot][c := Free] == m[c := Free][l := slot];
      }
    } else {
      assert roots + multiset{l} + Pointers([v]) == roots + multiset{l};
    }
  }

  lemma {:induction false} DropAllAway(m: Memory, vs: seq<Value>, l: nat, roots: multiset<nat>, slot: Slot)
    requires Exact(m, roots + multiset{l} + Pointers(vs)) && IsUnique(m, l)
    ensures DropAll(m[l := slot], vs) == DropAll(m, vs)[l := slot]
    ensures DropAll(m, vs)[l] == m[l]
    decreases UsedCount(m), |vs|
  {
    if vs != [] {
      var rest := roots + Pointers(vs[1..]);
      PointersConcat([vs[0]], vs[1..]);
      assert [vs[0]] + vs[1..] == vs;
      assert roots + multiset{l} + Pointers(vs) == rest + multiset{l} + Pointers([vs[0]]);
      DropValueAway(m, vs[0], l, rest, slot);
      assert rest + multiset{l} == roots + multiset{l} + Pointers(vs[1..]);
      DropAllAway(DropValue(m, vs[0]), vs[1..], l, roots, slot);
    }
  }

  /** What the new fields of an updated record denote. */
  ghost predicate Denotes(m: Memory, fields: seq<Value>, updates: seq<Option<Value>>, children: seq<Tree>)
    requires |fields| == |updates|
  {
    && |children| == |fields|
    && forall i :: 0 <= i < |fields| ==> Represents(m, Merged(fields, updates)[i], children[i])
  }

  /** Taking the replaced fields out of a record makes them owned. */
  lemma HollowExact(m: Memory, l: nat, updates: seq<Option<Value>>, roots: multiset<nat>)
    requires IsCounted(m, l) && |updates| == |m[l].cell.fields| && Exact(m, roots)
    ensures Exact(m[l := Used(m[l].cell.(fields := Kept(m[l].cell.fields, updates)))],
                  roots + Pointers(Replaced(m[l].cell.fields, updates)))
  {
    hide Edges, Pointers, Kept, Replaced;
    var fields := m[l].cell.fields;
    var hollow := Used(m[l].cell.(fields := Kept(fields, updates)));
    var m', roots' := m[l := hollow], roots + Pointers(Replaced(fields, updates));
    forall c: nat ensures ExactAt(m', roots', c) {
      assert ExactAt(m, roots, c);
      EdgesUpdate(m, l, hollow, c);
      ReplacedPointers(fields, updates, c);
    }
  }

  function Hollow(m: Memory, l: nat, updates: seq<Option<Value>>): Slot
    requires IsUsed(m, l) && |updates| == |m[l].cell.fields|
  {
    Used(m[l].cell.(fields := Kept(m[l].cell.fields, updates)))
  }

  function Full(m: Memory, l: nat, updates: seq<Option<Value>>): Slot
    requires IsUsed(m, l) && |updates| == |m[l].cell.fields|
  {
    Used(m[l].cell.(fields := Merged(m[l].cell.fields, updates)))
  }

  /** The memory between dropping the replaced fields and storing the new ones. */
  function Dropped(m: Memory, l: nat, updates: seq<Option<Value>>): Memory
    requires IsUsed(m, l) && |updates| == |m[l].cell.fields|
  {
    DropAll(m[l := Hollow(m, l, updates)], Replaced(m[l].cell.fields, updates))
  }

  /** An update in place, in three steps: take the replaced fields out, drop them, store the new ones. */
  lemma InPlaceSteps(m: Memory, l: nat, updates: seq<Option<Value>>, roots: multiset<nat>)
    requires IsUnique(m, l) && |updates| == |m[l].cell.fields| && Exact(m, roots + multiset{l})
    ensures var m0 := m[l := Hollow(m, l, updates)];
            var dropped := Dropped(m, l, updates);
            && Exact(m0, roots + multiset{l} + Pointers(Replaced(m[l].cell.fields, updates)))
            && Exact(dropped, roots + multiset{l})
            && |dropped| == |m| && dropped[l] == Hollow(m, l, updates)
            && UpdateRecord(m, l, updates) == (dropped[l := Full(m, l, updates)], Pointer(l))
    ensures roots[l] == 0 && Edges(m, l) == 0 && Edges(Dropped(m, l, updates), l) == 0
  {
    hide UpdateRecord, DropAll, Edges, Pointers, Replaced, Kept, Merged;
    var all := roots + multiset{l};
    var replaced := Replaced(m[l].cell.fields, updates);
    var m0 := m[l := Hollow(m, l, updates)];
    assert ExactAt(m, all, l);
    HollowExact(m, l, updates, all);
    DropAllAway(m0, replaced, l, roots, m[l]);
    assert m0[l := m[l]] == m;
    DropAllKeepsExact(m0, replaced, all);
    assert ExactAt(Dropped(m, l, updates), all, l);
    UpdatesInPlace(m, l, updates);
  }

  lemma UpdatesInPlace(m: Memory, l: nat, updates: seq<Option<Value>>)
    requires IsUnique(m, l) && |updates| == |m[l].cell.fields| && |DropAll(m, Replaced(m[l].cell.fields, updates))| == |m|
    requires |Dropped(m, l, updates)| == |m|
    requires DropAll(m, Replaced(m[l].cell.fields, updates)) == Dropped(m, l, updates)[l := m[l]]
    ensures UpdateRecord(m, l, updates) == (Dropped(m, l, updates)[l := Full(m, l, updates)], Pointer(l))
  {
    hide DropAll, Replaced, Dropped, Merged;
    assert Dropped(m, l, updates)[l := m[l]][l := Full(m, l, updates)] == Dropped(m, l, updates)[l := Full(m, l, updates)];
  }

  lemma InPlaceExact(m: Memory, l: nat, updates: seq<Option<Value>>, roots: multiset<nat>)
    requires IsUnique(m, l) && |updates| == |m[l].cell.fields|
    requires Exact(m, roots + Pointers(NewValues(updates)) + multiset{l})
    ensures Exact(UpdateRecord(m, l, updates).0, roots + multiset{l})
  {
    hide UpdateRecord, Dropped, DropAll, Edges, Pointers, Merged, Kept;
    var base := roots + Pointers(NewValues(updates));
    InPlaceSteps(m, l, updates, base);
    var dropped, full := Dropped(m, l, updates), Full(m, l, updates);
    var m', roots' := dropped[l := full], roots + multiset{l};
    forall c: nat ensures ExactAt(m', roots', c) {
      assert ExactAt(dropped, base + multiset{l}, c);
      EdgesUpdate(dropped, l, full, c);
      MergedPointers(m[l].cell.fields, updates, c);
    }
  }

  /** An update in place changes no other value that is owned. */
  lemma InPlaceFrame(m: Memory, l: nat, updates: seq<Option<Value>>, roots: multiset<nat>, v: Value, t: Tree)
    requires IsUnique(m, l) && |updates| == |m[l].cell.fields| && Exact(m, roots + multiset{l})
    requires Rooted(roots, v) && Represents(m, v, t)
    ensures Represents(UpdateRecord(m, l, updates).0, v, t)
  {
    InPlaceSteps(m, l, updates, roots);
    UnreferencedMeaning(m, l, Hollow(m, l, updates), v, t);
    DropAllKeepsMeaning(m[l := Hollow(m, l, updates)], Replaced(m[l].cell.fields, updates), roots + multiset{l}, v, t);
    UnreferencedMeaning(Dropped(m, l, updates), l, Full(m, l, updates), v, t);
  }

  lemma InPlaceKept(m: Memory, l: nat, updates: seq<Option<Value>>, roots: multiset<nat>, children: seq<Tree>)
    requires IsUnique(m, l) && |updates| == |m[l].cell.fields| && Exact(m, roots + multiset{l})
    requires Denotes(m, m[l].cell.fields, updates, children)
    ensures forall i :: 0 <= i < |updates| && updates[i].None? ==>
                          Represents(UpdateRecord(m, l, updates).0, m[l].cell.fields[i], children[i])
  {
    hide UpdateRecord, DropAll, Edges, Pointers;
    var fields := m[l].cell.fields;
    InPlaceSteps(m, l, updates, roots);
    var hollow := Hollow(m, l, updates);
    var trees := seq(|fields|, i requires 0 <= i < |fields| => if updates[i].Some? then Empty else children[i]);
    forall i | 0 <= i < |fields| ensures Represents(m[l := hollow], hollow.cell.fields[i], trees[i]) {
      if updates[i].None? {
        NotItself(m, l, i);
        assert Merged(fields, updates)[i] == fields[i];
        UnreferencedMeaning(m, l, hollow, fields[i], children[i]);
      }
    }
    assert Represents(m[l := hollow], Pointer(l), Node(trees));
    DropAllKeepsMeaning(m[l := hollow], Replaced(fields, updates), roots + multiset{l}, Pointer(l), Node(trees));
    forall i | 0 <= i < |updates| && updates[i].None?
      ensures Represents(UpdateRecord(m, l, updates).0, fields[i], children[i])
    {
      NotItself(m, l, i);
      assert Represents(Dropped(m, l, updates), hollow.cell.fields[i], trees[i]);
      UnreferencedMeaning(Dropped(m, l, updates), l, Full(m, l, updates), fields[i], children[i]);
    }
  }

  lemma NotItself(m: Memory, l: nat, i: nat)
    requires IsUsed(m, l) && Edges(m, l) == 0 && i < |m[l].cell.fields|
    ensures m[l].cell.fields[i] != Pointer(l)
  {
    if m[l].cell.fields[i] == Pointer(l) {
      PointersCover(m[l].cell.fields, i);
      EdgesCover(m, l, l);
    }
  }

  lemma InPlaceMeans(m: Memory, l: nat, updates: seq<Option<Value>>, roots: multiset<nat>, children: seq<Tree>)
    requires IsUnique(m, l) && |updates| == |m[l].cell.fields|
    requires Exact(m, roots + Pointers(NewValues(updates)) + multiset{l})
    requires Denotes(m, m[l].cell.fields, updates, children)
    ensures Represents(UpdateRecord(m, l, updates).0, Pointer(l), Node(children))
  {
    var base := roots + Pointers(NewValues(updates));
    var fields := m[l].cell.fields;
    var m' := UpdateRecord(m, l, updates).0;
    InPlaceSteps(m, l, updates, base);
    InPlaceKept(m, l, updates, base, children);
    assert m'[l] == Full(m, l, updates);
    forall i | 0 <= i < |fields| ensures Represents(m', m'[l].cell.fields[i], children[i]) {
      if updates[i].Some? {
        if updates[i].value.Pointer? {
          NewValuesCover(updates, i);
        }
        assert Merged(fields, updates)[i] == updates[i].value;
        InPlaceFrame(m, l, updates, base, updates[i].value, children[i]);
      }
    }
  }

  /** The memory of a copying update before it gives the old record up. */
  lemma CopySteps(m: Memory, l: nat, updates: seq<Option<Value>>, roots: multiset<nat>)
    requires IsUsed(m, l) && !IsUnique(m, l) && |updates| == |m[l].cell.fields|
    requires Exact(m, roots + Pointers(NewValues(updates)) + multiset{l})
    ensures var cloned := CloneAll(m, Kept(m[l].cell.fields, updates));
            var copied := Allocate(cloned, Merged(m[l].cell.fields, updates)).0;
            && SameShape(m, cloned)
            && Exact(copied, roots + multiset{|m|} + multiset{l})
            && UpdateRecord(m, l, updates) == (DropValue(copied, Pointer(l)), Pointer(|m|))
  {
    var fields := m[l].cell.fields;
    var kept, merged := Kept(fields, updates), Merged(fields, updates);
    var all := roots + Pointers(NewValues(updates)) + multiset{l};
    forall i | 0 <= i < |kept| && kept[i].Pointer? ensures IsUsed(m, kept[i].location) {
      FieldIsLive(m, all, l, i);
    }
    CloneAllKeeps(m, kept, all);
    var cloned := CloneAll(m, kept);
    forall c: nat ensures ExactAt(cloned, roots + multiset{l} + Pointers(merged), c) {
      assert ExactAt(cloned, all + Pointers(kept), c);
      MergedPointers(fields, updates, c);
    }
    AllocateKeeps(cloned, merged, roots + multiset{l});
    assert roots + multiset{l} + multiset{|m|} == roots + multiset{|m|} + multiset{l};
  }

  lemma CopyFrame(m: Memory, l: nat, updates: seq<Option<Value>>, roots: multiset<nat>, v: Value, t: Tree)
    requires IsUsed(m, l) && !IsUnique(m, l) && |updates| == |m[l].cell.fields|
    requires Exact(m, roots + Pointers(NewValues(updates)) + multiset{l})
    requires Rooted(roots, v) && Represents(m, v, t)
    ensures Represents(UpdateRecord(m, l, updates).0, v, t)
  {
    CopySteps(m, l, updates, roots);
    var cloned := CloneAll(m, Kept(m[l].cell.fields, updates));
    var copied := Allocate(cloned, Merged(m[l].cell.fields, updates)).0;
    SameMeaning(m, cloned, v, t);
    AppendMeaning(cloned, copied[|m|], v, t);
    DropKeeps(copied, l, roots + multiset{|m|});
  }

  lemma CopyMeans(m: Memory, l: nat, updates: seq<Option<Value>>, roots: multiset<nat>, children: seq<Tree>)
    requires IsUsed(m, l) && !IsUnique(m, l) && |updates| == |m[l].cell.fields|
    requires Exact(m, roots + Pointers(NewValues(updates)) + multiset{l})
    requires Denotes(m, m[l].cell.fields, updates, children)
    ensures Represents(UpdateRecord(m, l, updates).0, Pointer(|m|), Node(children))
  {
    CopySteps(m, l, updates, roots);
    var merged := Merged(m[l].cell.fields, updates);
    var cloned := CloneAll(m, Kept(m[l].cell.fields, updates));
    var copied := Allocate(cloned, merged).0;
    forall i | 0 <= i < |merged| ensures Represents(cloned, merged[i], children[i]) {
      SameMeaning(m, cloned, merged[i], children[i]);
    }
    AllocateMeans(cloned, merged, children);
    DropKeeps(copied, l, roots + multiset{|m|});
  }

  /**
   Record update is functional update: whether it works in place or on a copy, the result denotes
   the record with the replaced fields, every other owned value denotes what it did before, and the
   counts stay exact with the result owned instead of the old record and the new field values.
   */
  lemma UpdateRecordCorrect(m: Memory, l: nat, updates: seq<Option<Value>>, roots: multiset<nat>)
    requires IsUsed(m, l) && |updates| == |m[l].cell.fields|
    requires Exact(m, roots + Pointers(NewValues(updates)) + multiset{l})
    ensures var (m', record) := UpdateRecord(m, l, updates);
            && Exact(m', roots + Pointers([record]))
            && (forall v, t :: Rooted(roots, v) && Represents(m, v, t) ==> Represents(m', v, t))
            && (forall children :: Denotes(m, m[l].cell.fields, updates, children) ==> Represents(m', record, Node(children)))
  {
    var base := roots + Pointers(NewValues(updates));
    var (m', record) := UpdateRecord(m, l, updates);
    PointersOne(record);
    if IsUnique(m, l) {
      InPlaceExact(m, l, updates, roots);
    } else {
      CopySteps(m, l, updates, roots);
      var copied := Allocate(CloneAll(m, Kept(m[l].cell.fields, updates)), Merged(m[l].cell.fields, updates)).0;
      DropKeeps(copied, l, roots + multiset{|m|});
    }
    forall v, t | Rooted(roots, v) && Represents(m, v, t) ensures Represents(m', v, t) {
      if IsUnique(m, l) {
        InPlaceFrame(m, l, updates, base, v, t);
      } else {
        CopyFrame(m, l, updates, roots, v, t);
      }
    }
    forall children | Denotes(m, m[l].cell.fields, updates, children) ensures Represents(m', record, Node(children)) {
      if IsUnique(m, l) {
        InPlaceMeans(m, l, updates, roots, children);
      } else {
        CopyMeans(m, l, updates, roots, children);
      }
    }
  }

  // ----- Records that are not on the heap -----

  lemma UnboxedPointers(fields: seq<Value>, updates: seq<Option<Value>>, roots: multiset<nat>)
    requires |fields| == |updates|
    ensures roots + Pointers(fields) + Pointers(NewValues(updates))
         == roots + Pointers(Merged(fields, updates)) + Pointers(Replaced(fields, updates))
  {
    var before := roots + Pointers(fields) + Pointers(NewValues(updates));
    var after := roots + Pointers(Merged(fields, updates)) + Pointers(Replaced(fields, updates));
    hide Pointers;
    forall c: nat ensures before[c] == after[c] {
      MergedPointers(fields, updates, c);
      ReplacedPointers(fields, updates, c);
    }
    assert before == after;
  }

  /**
   The update of a record that is not on the heap is functional update, too: the new fields denote what
   the kept and the given ones did, other owned values denote what they did, and counts stay exact.
   */
  lemma UpdateUnboxedCorrect(m: Memory, fields: seq<Value>, updates: seq<Option<Value>>, roots: multiset<nat>)
    requires |fields| == |updates| && Exact(m, roots + Pointers(fields) + Pointers(NewValues(updates)))
    ensures var (m', merged) := UpdateUnboxed(m, fields, updates);
            && Exact(m', roots + Pointers(merged))
            && (forall v, t :: Rooted(roots, v) && Represents(m, v, t) ==> Represents(m', v, t))
            && (forall i, t :: 0 <= i < |merged| && Represents(m, merged[i], t) ==> Represents(m', merged[i], t))
  {
    var merged, replaced := Merged(fields, updates), Replaced(fields, updates);
    var roots' := roots + Pointers(merged);
    UnboxedPointers(fields, updates, roots);
    hide Pointers, Merged, Replaced, NewValues, Exact, Represents, DropAll;
    DropAllKeepsExact(m, replaced, roots');
    forall v, t | Rooted(roots', v) && Represents(m, v, t) ensures Represents(DropAll(m, replaced), v, t) {
      DropAllKeepsMeaning(m, replaced, roots', v, t);
    }
    forall i | 0 <= i < |merged| ensures Rooted(roots', merged[i]) {
      if merged[i].Pointer? {
        PointersCover(merged, i);
      }
    }
  }

  /** Field access to a record that is not on the heap yields an owned field, and gives the record up. */
  lemma GetUnboxedCorrect(m: Memory, fields: seq<Value>, i: nat, roots: multiset<nat>)
    requires i < |fields| && Exact(m, roots + Pointers(fields))
    ensures var (m', field) := GetUnboxed(m, fields, i);
            && Exact(m', roots + Pointers([field]))
            && (forall v, t :: Rooted(roots, v) && Represents(m, v, t) ==> Represents(m', v, t))
            && (forall t :: Represents(m, field, t) ==> Represents(m', field, t))
  {
    var field := fields[i];
    var cloned := CloneValue(m, field);
    var roots' := roots + Pointers([field]);
    if field.Pointer? {
      PointersCover(fields, i);
      assert ExactAt(m, roots + Pointers(fields), field.location);
    }
    PointersOne(field);
    CloneKeepsExact(m, field, roots + Pointers(fields));
    CloneKeepsShape(m, field, 0);
    assert roots + Pointers(fields) + Pointers([field]) == roots' + Pointers(fields);
    hide Pointers, Exact, Represents, DropAll, CloneValue;
    DropAllKeepsExact(cloned, fields, roots');
    forall v, t | Rooted(roots', v) && Represents(m, v, t) ensures Represents(DropAll(cloned, fields), v, t) {
      SameMeaning(m, cloned, v, t);
      DropAllKeepsMeaning(cloned, fields, roots', v, t);
    }
  }
}
