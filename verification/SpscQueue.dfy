/**
 * The ring buffer under every interleaving of one producer and one consumer. A push is three steps:
 * the slot is being written, the slot is written, the index is published. A pop is two: the indices
 * are compared and a pointer is taken, then the read index advances; the pointer is used after that.
 */
module SpscQueue {
  import Ring = RingArithmetic

  datatype Slot<T> = Torn | Whole(item: T)

  datatype Producer<T> = Idle | Writing(item: T) | Written(item: T)

  datatype Consumer = Free | Tested(slot: nat) | Using(slot: nat)

  datatype State<T> = State(
    slots: seq<Slot<T>>, writeIndex: nat, readIndex: nat,
    producer: Producer<T>, consumer: Consumer,
    pushed: seq<T>,            // items whose index has been published
    delivered: seq<Slot<T>>)   // what lay in the slot of each successful pop when it advanced

  datatype Action<T> = StartWrite(item: T) | FinishWrite | Publish | Test | Advance

  /** The producer keeps at most n - 1 items outstanding; everything else is up to the scheduler. */
  predicate Enabled<T>(s: State<T>, a: Action<T>) {
    match a
    case StartWrite(_) => s.producer.Idle? && |s.pushed| + 1 - |s.delivered| <= |s.slots| - 1
    case FinishWrite => s.producer.Writing?
    case Publish => s.producer.Written?
    case Test => !s.consumer.Tested?
    case Advance => s.consumer.Tested? && s.consumer.slot < |s.slots|
  }

  predicate InBounds<T>(s: State<T>) {
    s.writeIndex < |s.slots| && s.readIndex < |s.slots|
  }

  function Do<T>(s: State<T>, a: Action<T>): State<T>
    requires Enabled(s, a) && InBounds(s)
  {
    match a
    case StartWrite(item) => s.(slots := s.slots[s.writeIndex := Torn], producer := Writing(item))
    case FinishWrite =>
      s.(slots := s.slots[s.writeIndex := Whole(s.producer.item)], producer := Written(s.producer.item))
    case Publish =>
      s.(writeIndex := (s.writeIndex + 1) % |s.slots|, pushed := s.pushed + [s.producer.item], producer := Idle)
    case Test => s.(consumer := if s.readIndex == s.writeIndex then Free else Tested(s.readIndex))
    case Advance =>
      s.(readIndex := (s.readIndex + 1) % |s.slots|,
         delivered := s.delivered + [s.slots[s.consumer.slot]],
         consumer := Using(s.consumer.slot))
  }

  function Initial<T>(slots: seq<Slot<T>>): State<T> {
    State(slots, 0, 0, Idle, Free, [], [])
  }

  // ----- the invariant

  ghost predicate Counted<T>(s: State<T>) {
    var n, taken := |s.slots|, |s.delivered|;
    && n > 0 && taken <= |s.pushed|
    && s.writeIndex == |s.pushed| % n && s.readIndex == taken % n
    && |s.pushed| - taken <= n - 1
    && (!s.producer.Idle? ==> |s.pushed| + 1 - taken <= n - 1)
  }

  /** Item `k` lies whole in its slot. */
  ghost predicate Intact<T>(s: State<T>, k: nat)
    requires |s.slots| > 0 && k < |s.pushed|
  {
    Ring.Decompose(k, |s.slots|);
    s.slots[k % |s.slots|] == Whole(s.pushed[k])
  }

  ghost predicate Invariant<T>(s: State<T>) {
    && Counted(s)
    && (forall k {:trigger Intact(s, k)} :: |s.delivered| <= k < |s.pushed| ==> Intact(s, k))
    && (forall i {:trigger s.delivered[i]} :: 0 <= i < |s.delivered| ==> s.delivered[i] == Whole(s.pushed[i]))
    && (s.producer.Written? ==> s.writeIndex < |s.slots| && s.slots[s.writeIndex] == Whole(s.producer.item))
    && (s.consumer.Tested? ==> s.consumer.slot == s.readIndex && |s.delivered| < |s.pushed|)
    && (|s.delivered| > 0 ==> Intact(s, |s.delivered| - 1))
    && (s.consumer.Using? ==> |s.delivered| > 0 && s.consumer.slot == (|s.delivered| - 1) % |s.slots|)
  }

  /** Writing at the write index leaves the unread items and the item in use alone. */
  lemma {:induction false} WriteMissesReaders<T>(s: State<T>, k: nat, slot: Slot<T>)
    requires Counted(s) && |s.pushed| + 1 - |s.delivered| <= |s.slots| - 1
    requires |s.delivered| - 1 <= k < |s.pushed| && Intact(s, k) && s.writeIndex < |s.slots|
    ensures Intact(s.(slots := s.slots[s.writeIndex := slot]), k)
  {
    Ring.Decompose(k, |s.slots|);
    Ring.DistinctSlots(k, |s.pushed|, |s.slots|);
  }

  lemma {:induction false} WriteKeepsInvariant<T>(s: State<T>, slot: Slot<T>, producer: Producer<T>)
    requires Invariant(s) && |s.pushed| + 1 - |s.delivered| <= |s.slots| - 1 && s.writeIndex < |s.slots|
    requires producer.Writing? || (producer.Written? && slot == Whole(producer.item))
    ensures Invariant(s.(slots := s.slots[s.writeIndex := slot], producer := producer))
  {
    var s' := s.(slots := s.slots[s.writeIndex := slot]);
    var s'' := s.(slots := s.slots[s.writeIndex := slot], producer := producer);
    forall k | |s.delivered| <= k < |s.pushed| ensures Intact(s'', k) {
      assert Intact(s, k);
      WriteMissesReaders(s, k, slot);
      assert Intact(s', k);
    }
    if |s.delivered| > 0 {
      WriteMissesReaders(s, |s.delivered| - 1, slot);
      assert Intact(s', |s.delivered| - 1);
    }
  }

  lemma {:induction false} PublishKeepsInvariant<T>(s: State<T>)
    requires Invariant(s) && Enabled(s, Publish) && InBounds(s)
    ensures Invariant(Do(s, Publish))
  {
    var s' := Do(s, Publish);
    Ring.Advance(|s.pushed|, |s.slots|);
    forall k | |s.delivered| <= k < |s'.pushed| ensures Intact(s', k) {
      if k < |s.pushed| {
        assert Intact(s, k);
      }
    }
    if |s.delivered| > 0 {
      assert Intact(s, |s.delivered| - 1);
    }
  }

  /** The test is exact: it finds nothing precisely when everything pushed has been taken. */
  lemma {:induction false} TestIsExact<T>(s: State<T>)
    requires Invariant(s)
    ensures s.readIndex == s.writeIndex <==> |s.delivered| == |s.pushed|
  {
    if |s.delivered| < |s.pushed| {
      Ring.DistinctSlots(|s.delivered|, |s.pushed|, |s.slots|);
    }
  }

  lemma {:induction false} PopKeepsInvariant<T>(s: State<T>, a: Action<T>)
    requires Invariant(s) && Enabled(s, a) && InBounds(s) && (a.Test? || a.Advance?)
    ensures Invariant(Do(s, a))
  {
    var s' := Do(s, a);
    TestIsExact(s);
    forall k | |s'.delivered| <= k < |s.pushed| ensures Intact(s', k) {
      assert Intact(s, k);
    }
    if a.Advance? {
      Ring.Advance(|s.delivered|, |s.slots|);
      assert Intact(s, |s.delivered|);
      assert Intact(s', |s.delivered|);
    } else if |s.delivered| > 0 {
      assert Intact(s, |s.delivered| - 1);
    }
  }

  lemma {:induction false} StepKeepsInvariant<T>(s: State<T>, a: Action<T>)
    requires Invariant(s) && Enabled(s, a)
    ensures InBounds(s) && Invariant(Do(s, a))
  {
    Ring.Decompose(|s.pushed|, |s.slots|);
    Ring.Decompose(|s.delivered|, |s.slots|);
    match a
    case StartWrite(item) => WriteKeepsInvariant(s, Torn, Writing(item));
    case FinishWrite => WriteKeepsInvariant(s, Whole(s.producer.item), Written(s.producer.item));
    case Publish => PublishKeepsInvariant(s);
    case Test => PopKeepsInvariant(s, a);
    case Advance => PopKeepsInvariant(s, a);
  }

  // ----- every interleaving

  /** Each action of the schedule is possible when its turn comes. */
  predicate Possible<T>(s: State<T>, schedule: seq<Action<T>>)
    decreases |schedule|
  {
    schedule == [] ||
    (InBounds(s) && Enabled(s, schedule[0]) && Possible(Do(s, schedule[0]), schedule[1..]))
  }

  function After<T>(s: State<T>, schedule: seq<Action<T>>): State<T>
    requires Possible(s, schedule)
    decreases |schedule|
  {
    if schedule == [] then s else After(Do(s, schedule[0]), schedule[1..])
  }

  lemma {:induction false} ScheduleKeepsInvariant<T>(s: State<T>, schedule: seq<Action<T>>)
    requires Invariant(s) && Possible(s, schedule)
    ensures Invariant(After(s, schedule))
    decreases |schedule|
  {
    if schedule != [] {
      StepKeepsInvariant(s, schedule[0]);
      ScheduleKeepsInvariant(Do(s, schedule[0]), schedule[1..]);
    }
  }

  /**
   * After every interleaving the consumer has been handed exactly the first items pushed, in order,
   * each whole; the item it was handed last stays whole in its slot until its next successful pop,
   * whether it goes on using it or tests in vain; and nothing pushed is lost, because the test fails
   * only when all of it has been handed out.
   */
  lemma {:induction false} ConsumerSeesThePushes<T>(slots: seq<Slot<T>>, schedule: seq<Action<T>>)
    requires |slots| > 0 && Possible(Initial(slots), schedule)
    ensures var s := After(Initial(slots), schedule);
      && |s.delivered| <= |s.pushed|
      && (forall i :: 0 <= i < |s.delivered| ==> s.delivered[i] == Whole(s.pushed[i]))
      && |s.slots| > 0
      && (|s.delivered| > 0 ==>
            && (|s.delivered| - 1) % |s.slots| < |s.slots|
            && s.slots[(|s.delivered| - 1) % |s.slots|] == Whole(s.pushed[|s.delivered| - 1]))
      && (s.consumer.Using? ==>
            && |s.delivered| > 0 && s.consumer.slot < |s.slots|
            && s.slots[s.consumer.slot] == Whole(s.pushed[|s.delivered| - 1]))
      && (s.readIndex == s.writeIndex <==> |s.delivered| == |s.pushed|)
  {
    var s0 := Initial(slots);
    Ring.Unique(0, |slots|, 0, 0);
    if |slots| == 1 {
      assert Counted(s0);
    }
    ScheduleKeepsInvariant(s0, schedule);
    var s := After(s0, schedule);
    TestIsExact(s);
    Ring.Decompose(|s.delivered| - 1, |s.slots|);
  }

  /**
   * The bound is tight: with n - 1 items outstanding, one more write lands on the item handed out
   * last, and publishing it would make the queue look empty with n items in it.
   */
  lemma {:induction false} BoundIsTight<T>(s: State<T>, slot: Slot<T>)
    requires Invariant(s) && s.producer.Idle? && |s.delivered| > 0
    requires |s.pushed| - |s.delivered| == |s.slots| - 1
    requires slot != Whole(s.pushed[|s.delivered| - 1])
    ensures InBounds(s) && !Intact(s.(slots := s.slots[s.writeIndex := slot]), |s.delivered| - 1)
    ensures (s.writeIndex + 1) % |s.slots| == s.readIndex
  {
    var n := |s.slots|;
    Ring.Decompose(|s.pushed|, n);
    Ring.Decompose(|s.delivered|, n);
    Ring.Unique(n, n, 1, 0);
    Ring.SameSlot(|s.delivered| - 1, |s.pushed|, n);
    Ring.SameSlot(|s.delivered|, |s.pushed| + 1, n);
    Ring.Advance(|s.pushed|, n);
  }

  // ----- one thread after the other

  /** A push without interruption: the item in the slot, then the index. */
  lemma {:induction false} PushInThreeSteps<T>(s: State<T>, item: T)
    requires Invariant(s) && Enabled(s, StartWrite(item))
    ensures Possible(s, [StartWrite(item), FinishWrite, Publish]) && InBounds(s)
    ensures After(s, [StartWrite(item), FinishWrite, Publish])
         == s.(slots := s.slots[s.writeIndex := Whole(item)], writeIndex := (s.writeIndex + 1) % |s.slots|,
               pushed := s.pushed + [item])
  {
    StepKeepsInvariant(s, StartWrite(item));
    var s1 := Do(s, StartWrite(item));
    StepKeepsInvariant(s1, FinishWrite);
    var s2 := Do(s1, FinishWrite);
    StepKeepsInvariant(s2, Publish);
    var schedule := [StartWrite(item), FinishWrite, Publish];
    assert schedule[1..] == [FinishWrite, Publish] && schedule[1..][1..] == [Publish] && schedule[1..][1..][1..] == [];
    assert s1.slots[s.writeIndex := Whole(item)] == s.slots[s.writeIndex := Whole(item)];
    var s3 := Do(s2, Publish);
    assert After(s3, []) == s3 && After(s2, [Publish]) == s3 && After(s1, [FinishWrite, Publish]) == s3;
  }

  /** A pop without interruption: the slot at the read index, then the index; nothing when the indices meet. */
  lemma {:induction false} PopInTwoSteps<T>(s: State<T>)
    requires Invariant(s) && !s.consumer.Tested?
    ensures InBounds(s) && Enabled(s, Test)
    ensures var tested := Do(s, Test);
      if s.readIndex == s.writeIndex then tested == s.(consumer := Free)
      else
        && Enabled(tested, Advance)
        && Do(tested, Advance)
           == s.(readIndex := (s.readIndex + 1) % |s.slots|, delivered := s.delivered + [s.slots[s.readIndex]],
                 consumer := Using(s.readIndex))
  {
    StepKeepsInvariant(s, Test);
  }
}
