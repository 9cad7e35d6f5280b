/**
 The count of the value that a synchronized thunk stores.  Once the winner has published it, the
 winner's result and the payload refer to the value, and any thread may clone the payload's
 reference and drop its results.  Nothing synchronizes the value, so its count stays as it is:
 synchronized counts are changed atomically, local ones by a load and a separate store.

 Memory is weak as in `ArcMemory`: the word keeps the history of its writes, and a load returns any
 write that is not older than what a thread knows.
 */
module ThunkValues {
  import opened Sums
  import opened ArcMemory

  datatype Kind = Uncounted | StaticBlock | SharedBlock | LocalBlock

  datatype Counting = Rest | ForClone(word: int) | ForDrop(word: int)

  datatype Holder = Holder(counting: Counting, references: nat, known: nat)

  datatype Counts = Counts(
    kind: Kind,
    words: seq<int>,          // all writes of the count
    holders: seq<Holder>,
    stored: bool,             // whether the payload still owns a reference
    freed: nat                // history: how often the value has been dropped and freed
  )

  datatype Step =
    | LoadToClone(t: nat, k: nat)
    | FinishClone(t: nat)
    | LoadToDrop(t: nat, k: nat)
    | FinishDrop(t: nat)
    | TakeStored(t: nat)      // the last owner of the thunk releases what it stores

  function Held(h: Holder): nat {
    h.references
  }

  function References(s: Counts): nat {
    Total(s.holders, Held) + if s.stored then 1 else 0
  }

  function Word(s: Counts): int
    requires s.words != []
  {
    s.words[|s.words| - 1]
  }

  predicate Can(s: Counts, a: Step) {
    s.words != [] && a.t < |s.holders| &&
    var h := s.holders[a.t];
    match a
    case LoadToClone(_, k) =>
      h.counting.Rest? && (s.stored || h.references > 0) && h.known <= k < |s.words|
    case FinishClone(_) => h.counting.ForClone? && References(s) + 1 < LIMIT
    case LoadToDrop(_, k) => h.counting.Rest? && h.references > 0 && h.known <= k < |s.words|
    case FinishDrop(_) => h.counting.ForDrop?
    case TakeStored(_) =>
      // Calls own references to the thunk, so none of them is under way.
      s.stored && forall u :: 0 <= u < |s.holders| ==> s.holders[u].counting.Rest?
  }

  predicate IsCounted(s: Counts, word: int) {
    !s.kind.Uncounted? && word != STATIC_COUNT
  }

  /** Appends a write, which the writer knows. */
  function Wrote(s: Counts, t: nat, h: Holder, word: int): Counts
    requires t < |s.holders|
  {
    s.(words := s.words + [word], holders := s.holders[t := h.(known := |s.words|)])
  }

  function Do(s: Counts, a: Step): Counts
    requires Can(s, a)
  {
    var h := s.holders[a.t];
    match a
    case LoadToClone(t, k) => s.(holders := s.holders[t := h.(counting := ForClone(s.words[k]), known := k)])
    case LoadToDrop(t, k) => s.(holders := s.holders[t := h.(counting := ForDrop(s.words[k]), known := k)])
    case FinishClone(t) =>
      var word, h' := h.counting.word, h.(counting := Rest, references := h.references + 1);
      if !IsCounted(s, word) then s.(holders := s.holders[t := h'])
      else if word < 0 then Wrote(s, t, h', Word(s) - 1)
      else Wrote(s, t, h', word + 1)
    case FinishDrop(t) =>
      var word, h' := h.counting.word, h.(counting := Rest, references := if h.references > 0 then h.references - 1 else 0);
      if !IsCounted(s, word) then s.(holders := s.holders[t := h'])
      else if word < 0 then
        Wrote(s, t, h', Word(s) + 1).(freed := s.freed + if Word(s) == SYNCHRONIZED_UNIQUE_COUNT then 1 else 0)
      else if word == UNIQUE_COUNT then s.(holders := s.holders[t := h'], freed := s.freed + 1)
      else Wrote(s, t, h', word - 1)
    case TakeStored(t) => s.(stored := false, holders := s.holders[t := h.(references := h.references + 1)])
  }

  /** The word for a number of references. */
  function Encoded(kind: Kind, references: nat): int {
    match kind
    case Uncounted => 0
    case StaticBlock => STATIC_COUNT
    case SharedBlock => 0 - references
    case LocalBlock => references - 1
  }

  /** The value has been published: its references are the payload and the winner's result. */
  predicate Published(s: Counts, kind: Kind, n: nat, winner: nat) {
    && winner < n && |s.holders| == n && s.kind == kind && s.words == [Encoded(kind, 2)] && s.stored && s.freed == 0
    && forall t :: 0 <= t < n ==> s.holders[t] == Holder(Rest, if t == winner then 1 else 0, 0)
  }

  predicate IsCounting(run: seq<Counts>, steps: seq<Step>) {
    |run| == |steps| + 1 && forall i :: 0 <= i < |steps| ==> Can(run[i], steps[i]) && run[i + 1] == Do(run[i], steps[i])
  }

  predicate Resting(s: Counts) {
    forall t :: 0 <= t < |s.holders| ==> s.holders[t].counting.Rest?
  }

  /** The word is the number of references, and the value is freed exactly when there are none. */
  predicate IsExact(s: Counts) {
    match s.kind
    case Uncounted => s.freed == 0
    case StaticBlock => s.words != [] && Word(s) == STATIC_COUNT && s.freed == 0
    case SharedBlock => s.words != [] && Word(s) == Encoded(SharedBlock, References(s)) && s.freed == if References(s) == 0 then 1 else 0
    case LocalBlock =>
      if References(s) == 0 then s.freed == 1
      else s.words != [] && Word(s) == Encoded(LocalBlock, References(s)) && s.freed == 0
  }

  // ----- Atomic counts -----

  predicate HolderOk(s: Counts, t: nat)
    requires t < |s.holders| && s.words != []
  {
    var h := s.holders[t];
    && h.known < |s.words|
    && (h.counting.ForClone? ==> h.counting.word in s.words && (s.stored || h.references > 0))
    && (h.counting.ForDrop? ==> h.counting.word in s.words && h.references > 0)
  }

  predicate HoldersOk(s: Counts) {
    s.words != [] && forall t :: 0 <= t < |s.holders| ==> HolderOk(s, t)
  }

  /** Which words there are. */
  predicate WordsOk(s: Counts)
    requires s.words != []
  {
    match s.kind
    case Uncounted => |s.words| == 1 && s.freed == 0
    case StaticBlock => s.words == [STATIC_COUNT] && s.freed == 0
    case SharedBlock =>
      && Word(s) + References(s) == 0 && (s.freed == if References(s) == 0 then 1 else 0)
      && (References(s) > 0 ==> forall k :: 0 <= k < |s.words| ==> STATIC_COUNT < s.words[k] < 0)
      && References(s) < LIMIT
    case LocalBlock => true
  }

  predicate Atomic(s: Counts) {
    HoldersOk(s) && !s.kind.LocalBlock? && WordsOk(s)
  }

  /** References before and after a step of a holder. */
  lemma ReferencesAfter(s: Counts, t: nat, h: Holder)
    requires t < |s.holders|
    ensures var s' := s.(holders := s.holders[t := h]);
            References(s') == References(s) - s.holders[t].references + h.references
    ensures s.holders[t].references <= Total(s.holders, Held)
  {
    TotalUpdate(s.holders, t, h, Held);
    TotalCovers(s.holders, t, t, Held);
  }

  lemma StepKeepsHolders(s: Counts, a: Step)
    requires HoldersOk(s) && Can(s, a)
    ensures HoldersOk(Do(s, a))
  {
    hide References;
    var s' := Do(s, a);
    assert s.words <= s'.words;
    assert HolderOk(s, a.t);
    forall t | 0 <= t < |s'.holders| ensures HolderOk(s', t) {
      assert HolderOk(s, t);
    }
  }

  lemma StepKeepsWords(s: Counts, a: Step)
    requires Atomic(s) && Can(s, a)
    ensures WordsOk(Do(s, a)) && Do(s, a).kind == s.kind && Do(s, a).words != []
  {
    var h := s.holders[a.t];
    assert HolderOk(s, a.t);
    ReferencesAfter(s, a.t, Do(s, a).holders[a.t]);
    hide Total;
  }

  /** Whether only one thread has counted since the value was published. */
  predicate Solo(s: Counts, t: nat) {
    && s.kind.LocalBlock? && t < |s.holders| && s.words != []
    && (forall u :: 0 <= u < |s.holders| && u != t ==> s.holders[u].counting.Rest?)
    && var h := s.holders[t];
       && h.known == |s.words| - 1
       && (h.counting.ForClone? ==> h.counting.word == Word(s) && (s.stored || h.references > 0))
       && (h.counting.ForDrop? ==> h.counting.word == Word(s) && h.references > 0)
       && IsExact(s)
  }

  lemma StepKeepsSolo(s: Counts, a: Step)
    requires Solo(s, a.t) && Can(s, a)
    ensures Solo(Do(s, a), a.t)
  {
    ReferencesAfter(s, a.t, Do(s, a).holders[a.t]);
    hide Total;
  }

  // ----- Published values -----

  lemma {:induction false} PublishedReferences(holders: seq<Holder>, winner: nat)
    requires winner < |holders|
    requires forall t :: 0 <= t < |holders| ==> holders[t].references == if t == winner then 1 else 0
    ensures Total(holders, Held) == 1
  {
    var none := holders[winner := holders[winner].(references := 0)];
    TotalZero(none, Held);
    TotalUpdate(none, winner, holders[winner], Held);
    assert none[winner := holders[winner]] == holders;
  }

  lemma PublishedIsExact(s: Counts, kind: Kind, n: nat, winner: nat)
    requires Published(s, kind, n, winner)
    ensures References(s) == 2 && IsExact(s) && HoldersOk(s) && (kind.LocalBlock? || Atomic(s))
    ensures kind.LocalBlock? ==> forall t :: 0 <= t < n ==> Solo(s, t)
  {
    PublishedReferences(s.holders, winner);
    hide Total;
  }

  lemma {:induction false} AtomicIsExact(run: seq<Counts>, steps: seq<Step>, kind: Kind, n: nat, winner: nat, i: nat)
    requires IsCounting(run, steps) && Published(run[0], kind, n, winner) && i < |run| && !kind.LocalBlock?
    ensures Atomic(run[i]) && run[i].kind == kind
    decreases i
  {
    if i == 0 {
      PublishedIsExact(run[0], kind, n, winner);
    } else {
      AtomicIsExact(run, steps, kind, n, winner, i - 1);
      StepKeepsHolders(run[i - 1], steps[i - 1]);
      StepKeepsWords(run[i - 1], steps[i - 1]);
    }
  }

  lemma {:induction false} SoloIsExact(run: seq<Counts>, steps: seq<Step>, n: nat, winner: nat, t: nat, i: nat)
    requires IsCounting(run, steps) && Published(run[0], LocalBlock, n, winner) && i < |run| && t < n
    requires forall j :: 0 <= j < i ==> steps[j].t == t
    ensures Solo(run[i], t)
    decreases i
  {
    if i == 0 {
      PublishedIsExact(run[0], LocalBlock, n, winner);
    } else {
      SoloIsExact(run, steps, n, winner, t, i - 1);
      StepKeepsSolo(run[i - 1], steps[i - 1]);
    }
  }

  /**
   The count is exact, in every state, if the value is shared or static or has no count, or if only
   one thread clones and drops it.
   */
  lemma CountIsExact(run: seq<Counts>, steps: seq<Step>, kind: Kind, n: nat, winner: nat, t: nat, i: nat)
    requires IsCounting(run, steps) && Published(run[0], kind, n, winner) && i < |run| && t < n
    requires kind.LocalBlock? ==> forall j :: 0 <= j < i ==> steps[j].t == t
    ensures IsExact(run[i])
  {
    if kind.LocalBlock? {
      SoloIsExact(run, steps, n, winner, t, i);
    } else {
      AtomicIsExact(run, steps, kind, n, winner, i);
    }
  }

  // ----- Lost updates -----

  /** The winner drops its result while another thread clones the stored value, and drops its clone afterwards. */
  const LOST_UPDATE: seq<Step> :=
    [LoadToDrop(0, 0), LoadToClone(1, 0), FinishClone(1), FinishDrop(0), LoadToDrop(1, 2), FinishDrop(1)]

  function TwoHolders(a: Holder, b: Holder, others: seq<Holder>): seq<Holder> {
    [a, b] + others
  }

  lemma LostUpdate(n: nat) returns (run: seq<Counts>)
    requires n > 1
    ensures IsCounting(run, LOST_UPDATE) && Published(run[0], LocalBlock, n, 0)
    ensures Resting(run[4]) && References(run[4]) == 2 && Word(run[4]) == 0 && !IsExact(run[4])
    ensures Resting(run[6]) && References(run[6]) == 1 && run[6].freed == 1
  {
    var others := seq(n - 2, _ => Holder(Rest, 0, 0));
    run := seq(7, (i: nat) => LostUpdateState(others, i));
    StepsToLoss(others);
    StepsAfterLoss(others);
    TwoReferences(run[4], others);
    TwoReferences(run[6], others);
    hide Total, References, Can, Do;
    forall i | 0 <= i < 6 ensures Can(run[i], LOST_UPDATE[i]) && run[i + 1] == Do(run[i], LOST_UPDATE[i]) {
      assert i == 0 || i == 1 || i == 2 || i == 3 || i == 4 || i == 5;
    }
  }

  /** Both threads load the same word; the clone is stored first, and the drop over it. */
  function LostUpdateState(others: seq<Holder>, i: nat): Counts {
    var (words, a, b) :=
      match i
      case 0 => ([1], Holder(Rest, 1, 0), Holder(Rest, 0, 0))
      case 1 => ([1], Holder(ForDrop(1), 1, 0), Holder(Rest, 0, 0))
      case 2 => ([1], Holder(ForDrop(1), 1, 0), Holder(ForClone(1), 0, 0))
      case 3 => ([1, 2], Holder(ForDrop(1), 1, 0), Holder(Rest, 1, 1))
      case 4 => ([1, 2, 0], Holder(Rest, 0, 2), Holder(Rest, 1, 1))
      case 5 => ([1, 2, 0], Holder(Rest, 0, 2), Holder(ForDrop(0), 1, 2))
      case _ => ([1, 2, 0], Holder(Rest, 0, 2), Holder(Rest, 0, 2));
    Counts(LocalBlock, words, TwoHolders(a, b, others), true, if i < 6 then 0 else 1)
  }

  lemma TwoUpdated(a: Holder, b: Holder, others: seq<Holder>, h: Holder)
    ensures |TwoHolders(a, b, others)| > 1 && TwoHolders(a, b, others)[0] == a && TwoHolders(a, b, others)[1] == b
    ensures TwoHolders(a, b, others)[0 := h] == TwoHolders(h, b, others)
    ensures TwoHolders(a, b, others)[1 := h] == TwoHolders(a, h, others)
  {
  }

  ghost predicate Steps(s: Counts, a: Step, s': Counts) {
    Can(s, a) && s' == Do(s, a)
  }

  lemma StepsToLoss(others: seq<Holder>)
    requires forall i :: 0 <= i < |others| ==> others[i].references == 0
    ensures Steps(LostUpdateState(others, 0), LoadToDrop(0, 0), LostUpdateState(others, 1))
    ensures Steps(LostUpdateState(others, 1), LoadToClone(1, 0), LostUpdateState(others, 2))
    ensures Steps(LostUpdateState(others, 2), FinishClone(1), LostUpdateState(others, 3))
  {
    TwoReferences(LostUpdateState(others, 2), others);
    hide Total, References, TwoHolders;
    TwoUpdated(Holder(Rest, 1, 0), Holder(Rest, 0, 0), others, Holder(ForDrop(1), 1, 0));
    TwoUpdated(Holder(ForDrop(1), 1, 0), Holder(Rest, 0, 0), others, Holder(ForClone(1), 0, 0));
    TwoUpdated(Holder(ForDrop(1), 1, 0), Holder(ForClone(1), 0, 0), others, Holder(Rest, 1, 1));
  }

  lemma StepsAfterLoss(others: seq<Holder>)
    ensures Steps(LostUpdateState(others, 3), FinishDrop(0), LostUpdateState(others, 4))
    ensures Steps(LostUpdateState(others, 4), LoadToDrop(1, 2), LostUpdateState(others, 5))
    ensures Steps(LostUpdateState(others, 5), FinishDrop(1), LostUpdateState(others, 6))
  {
    hide Total, References, TwoHolders;
    assert [1, 2] + [0] == [1, 2, 0];
    TwoUpdated(Holder(ForDrop(1), 1, 0), Holder(Rest, 1, 1), others, Holder(Rest, 0, 2));
    TwoUpdated(Holder(Rest, 0, 2), Holder(Rest, 1, 1), others, Holder(ForDrop(0), 1, 2));
    TwoUpdated(Holder(Rest, 0, 2), Holder(ForDrop(0), 1, 2), others, Holder(Rest, 0, 2));
  }

  lemma TwoReferences(s: Counts, others: seq<Holder>)
    requires |s.holders| > 1 && s.holders == TwoHolders(s.holders[0], s.holders[1], others)
    requires forall i :: 0 <= i < |others| ==> others[i].references == 0
    ensures References(s) == s.holders[0].references + s.holders[1].references + if s.stored then 1 else 0
  {
    TotalZero(others, Held);
    assert s.holders[1..] == [s.holders[1]] + others && s.holders[1..][1..] == others;
    assert Total(others, Held) == 0;
    assert Total(s.holders[1..], Held) == s.holders[1].references;
  }

  /** Whether the count stays exact in every run with a number of threads. */
  ghost predicate IsAlwaysExact(kind: Kind, n: nat) {
    forall run: seq<Counts>, steps: seq<Step>, winner: nat, i: nat ::
      IsCounting(run, steps) && Published(run[0], kind, n, winner) && i < |run| ==> IsExact(run[i])
  }

  /** It does exactly if the value does not have a local count, or if there is one thread. */
  lemma ExactUnlessLocal(kind: Kind, n: nat)
    requires n > 0
    ensures IsAlwaysExact(kind, n) <==> !kind.LocalBlock? || n == 1
  {
    if kind.LocalBlock? && n > 1 {
      var run := LostUpdate(n);
      assert IsCounting(run, LOST_UPDATE) && Published(run[0], kind, n, 0) && !IsExact(run[4]);
    } else {
      forall run: seq<Counts>, steps: seq<Step>, winner: nat, i: nat
        | IsCounting(run, steps) && Published(run[0], kind, n, winner) && i < |run|
        ensures IsExact(run[i])
      {
        if kind.LocalBlock? {
          OneHolder(run, steps, winner, i);
        }
        CountIsExact(run, steps, kind, n, winner, 0, i);
      }
    }
  }

  lemma {:induction false} OneHolder(run: seq<Counts>, steps: seq<Step>, winner: nat, i: nat)
    requires IsCounting(run, steps) && Published(run[0], LocalBlock, 1, winner) && i < |run|
    ensures forall j :: 0 <= j < i ==> steps[j].t == 0
    ensures |run[i].holders| == 1
    decreases i
  {
    if i > 0 {
      OneHolder(run, steps, winner, i - 1);
    }
  }
}
