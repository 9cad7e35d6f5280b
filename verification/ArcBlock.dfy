/** The operations of a reference-counted block as a single thread sees them, on 64-bit words. */
module ArcBlock {

  newtype isize = x: int | -0x8000_0000_0000_0000 <= x < 0x8000_0000_0000_0000

  const UNIQUE_COUNT: isize := 0
  const SYNCHRONIZED_UNIQUE_COUNT: isize := -1
  const STATIC_COUNT: isize := -0x8000_0000_0000_0000
  const LIMIT: nat := 0x8000_0000_0000_0000

  /** What a count stands for: the block's mode and its number of references. */
  datatype Mode = Local | Shared | Static

  datatype References = References(mode: Mode, number: nat)

  /** The counts that stand for the given references. */
  ghost predicate Encodes(count: isize, references: References) {
    match references.mode
    case Local => 0 < references.number <= LIMIT && count as int == references.number - 1
    case Shared => 0 < references.number < LIMIT && count as int + references.number == 0
    case Static => count == STATIC_COUNT
  }

  predicate IsCountSynchronized(count: isize) {
    count < 0
  }

  function UniqueCount(count: isize): isize {
    if IsCountSynchronized(count) then SYNCHRONIZED_UNIQUE_COUNT else UNIQUE_COUNT
  }

  /** The tests on a count decide the mode and the uniqueness of what it stands for. */
  lemma CountsAreDecoded(count: isize, references: References)
    requires Encodes(count, references)
    ensures IsCountSynchronized(count) <==> !references.mode.Local?
    ensures count == STATIC_COUNT <==> references.mode.Static?
    ensures count == UniqueCount(count) <==> !references.mode.Static? && references.number == 1
  {
  }

  /** No count stands for two different numbers of references of a block that is not static. */
  lemma CountsAreUnambiguous(count: isize, a: References, b: References)
    requires Encodes(count, a) && Encodes(count, b) && !a.mode.Static?
    ensures a == b
  {
  }

  /** The allocation shared by all references to a block. */
  class ArcInner {
    var count: isize
    var freed: bool
    ghost var references: References

    ghost predicate Valid()
      reads this
    {
      if freed then references.number == 0 && !references.mode.Static? else Encodes(count, references)
    }

    constructor ()
      ensures Valid() && !freed && references == References(Local, 1)
    {
      count := UNIQUE_COUNT;
      freed := false;
      references := References(Local, 1);
    }
  }

  /** One reference to a block; blocks without payload are null. */
  class ArcBlock {
    var pointer: ArcInner?

    ghost predicate Valid()
      reads this, pointer
    {
      pointer != null ==> pointer.Valid() && !pointer.freed
    }

    constructor (size: nat)
      ensures Valid()
      ensures pointer == null <==> size == 0
      ensures pointer != null ==> fresh(pointer) && pointer.references == References(Local, 1)
    {
      if size == 0 {
        pointer := null;
      } else {
        pointer := new ArcInner();
      }
    }

    constructor Alias(inner: ArcInner?)
      ensures pointer == inner
    {
      pointer := inner;
    }

    predicate IsNull()
      reads this
    {
      pointer == null
    }

    method IsUnique() returns (unique: bool)
      requires Valid()
      ensures unique <==> pointer != null && !pointer.references.mode.Static? && pointer.references.number == 1
    {
      if IsNull() {
        return false;
      }
      var count := pointer.count;
      return count == UniqueCount(count);
    }

    /** Lends the payload for mutation exactly to the only reference of a block that is not static. */
    method GetMut() returns (payload: ArcInner?)
      requires Valid()
      ensures payload == if pointer != null && !pointer.references.mode.Static? && pointer.references.number == 1 then pointer else null
    {
      var unique := IsUnique();
      payload := if unique then pointer else null;
    }

    /** One more reference, unless the block is static; the caller keeps their number below the limit. */
    method Clone() returns (block: ArcBlock)
      requires Valid()
      requires pointer != null && !pointer.references.mode.Static? ==> pointer.references.number + 1 < LIMIT
      modifies if pointer == null then {} else {pointer}
      ensures fresh(block) && block.pointer == pointer && pointer == old(pointer)
      ensures Valid() && block.Valid()
      ensures pointer != null && !old(pointer.references.mode.Static?) ==>
                pointer.references == References(old(pointer.references.mode), old(pointer.references.number) + 1)
      ensures pointer != null && old(pointer.references.mode.Static?) ==> unchanged(pointer)
    {
      if !IsNull() {
        var count := pointer.count;
        if !IsCountSynchronized(count) {
          pointer.count := count + 1;
          pointer.references := References(Local, pointer.references.number + 1);
        } else if count != STATIC_COUNT {
          pointer.count := pointer.count - 1;
          pointer.references := References(Shared, pointer.references.number + 1);
        }
      }
      block := new ArcBlock.Alias(pointer);
    }

    /** One reference less; the last one destroys the payload and frees the block. */
    method Drop()
      requires Valid()
      modifies if pointer == null then {} else {pointer}
      ensures pointer == old(pointer)
      ensures pointer != null ==> pointer.Valid()
      ensures pointer != null && !old(pointer.references.mode.Static?) ==>
                && pointer.references == References(old(pointer.references.mode), old(pointer.references.number) - 1)
                && (pointer.freed <==> old(pointer.references.number) == 1)
      ensures pointer != null && old(pointer.references.mode.Static?) ==> unchanged(pointer)
    {
      if IsNull() {
        return;
      }
      var count := pointer.count;
      if IsCountSynchronized(count) {
        if count != STATIC_COUNT {
          var previous := pointer.count;
          pointer.count := previous + 1;
          pointer.references := References(Shared, pointer.references.number - 1);
          if previous == SYNCHRONIZED_UNIQUE_COUNT {
            pointer.freed := true;
          }
        }
      } else if count == UNIQUE_COUNT {
        pointer.references := References(Local, 0);
        pointer.freed := true;
      } else {
        pointer.count := count - 1;
        pointer.references := References(Local, pointer.references.number - 1);
      }
    }

    /** Switches a local block to shared counting, keeping its number of references. */
    method Synchronize()
      requires Valid()
      requires pointer != null && !pointer.references.mode.Static? ==> pointer.references.number < LIMIT
      modifies if pointer == null then {} else {pointer}
      ensures pointer == old(pointer) && Valid()
      ensures pointer != null ==>
                pointer.references == References(if old(pointer.references.mode.Static?) then Static else Shared, old(pointer.references.number))
    {
      if IsNull() {
        return;
      }
      var count := pointer.count;
      if !IsCountSynchronized(count) {
        pointer.count := SYNCHRONIZED_UNIQUE_COUNT - count;
        pointer.references := References(Shared, pointer.references.number);
      }
    }
  }

  datatype Operation = Clone | Drop | Synchronize

  /** The references after a sequence of operations on a block that is not static. */
  function After(references: References, operations: seq<Operation>): References
    requires Allowed(references, operations)
    decreases |operations|
  {
    if operations == [] then references else After(Next(references, operations[0]), operations[1..])
  }

  function Next(references: References, operation: Operation): References
    requires references.number > 0
  {
    match operation
    case Clone => references.(number := references.number + 1)
    case Drop => references.(number := references.number - 1)
    case Synchronize => references.(mode := Shared)
  }

  /** There is a reference to operate on, and never as many as the limit. */
  predicate Allowed(references: References, operations: seq<Operation>)
    decreases |operations|
  {
    references.number < LIMIT &&
    (operations == [] || (references.number > 0 && Allowed(Next(references, operations[0]), operations[1..])))
  }

  /** The mode only changes by synchronization, and the number is the balance of clones and drops. */
  lemma {:induction false} AfterBalance(references: References, operations: seq<Operation>)
    requires Allowed(references, operations)
    ensures var after := After(references, operations);
            && after.number == references.number + multiset(operations)[Clone] - multiset(operations)[Drop]
            && after.mode == if Synchronize in operations then Shared else references.mode
    decreases |operations|
  {
    if operations != [] {
      AfterBalance(Next(references, operations[0]), operations[1..]);
      assert operations == [operations[0]] + operations[1..];
    }
  }

  /** Any allowed sequence of operations keeps the count exact and frees the block with its last reference. */
  method Perform(block: ArcBlock, operations: seq<Operation>)
    requires block.Valid() && block.pointer != null && !block.pointer.references.mode.Static?
    requires Allowed(block.pointer.references, operations)
    modifies block.pointer
    ensures block.pointer == old(block.pointer) && block.pointer.Valid()
    ensures block.pointer.references == After(old(block.pointer.references), operations)
    ensures block.pointer.freed <==> block.pointer.references.number == 0
  {
    ghost var before := block.pointer.references;
    for i := 0 to |operations|
      invariant block.pointer == old(block.pointer) && block.pointer.Valid()
      invariant Allowed(block.pointer.references, operations[i..]) && !block.pointer.references.mode.Static?
      invariant After(before, operations) == After(block.pointer.references, operations[i..])
      invariant block.pointer.freed <==> block.pointer.references.number == 0
    {
      assert operations[i..][1..] == operations[i + 1..];
      match operations[i]
      case Clone => var _ := block.Clone();
      case Drop => block.Drop();
      case Synchronize => block.Synchronize();
    }
  }
}
