/**
  The two byte FIFOs of the serial bridge (USBtoSerial.c, USBtoUSART_Buffer and
  USARTtoUSB_Buffer, each over 128 bytes of storage).

  The circular-buffer library behind them is not part of this model; a buffer is
  represented by its contents, oldest byte first. Insertion appends at the tail
  and is only allowed when the buffer is not full; Peek and Remove act on the
  head and are only allowed when it is not empty. These are the library's own
  preconditions, which every caller in the bridge checks first.
*/
module RingBuffer {
  import opened Wrappers

  /** Size of each buffer's backing array. */
  const CAPACITY: nat := 128

  predicate Bounded(s: seq<bv8>)
  {
    |s| <= CAPACITY
  }

  predicate IsFull(s: seq<bv8>)
  {
    |s| == CAPACITY
  }

  predicate IsEmpty(s: seq<bv8>)
  {
    |s| == 0
  }

  /** RingBuffer_Insert: the byte becomes the newest element. */
  function Insert(s: seq<bv8>, x: bv8): (r: seq<bv8>)
    requires Bounded(s) && !IsFull(s)
    ensures Bounded(r)
    ensures |r| == |s| + 1
    ensures r[..|s|] == s && r[|s|] == x
  {
    s + [x]
  }

  /** RingBuffer_Peek: the oldest byte. */
  function Peek(s: seq<bv8>): (x: bv8)
    requires !IsEmpty(s)
    ensures x in s
    ensures s == [x] + s[1..]
  {
    s[0]
  }

  /** RingBuffer_Remove: drops the oldest byte (the one Peek shows). */
  function Remove(s: seq<bv8>): (r: seq<bv8>)
    requires !IsEmpty(s)
    ensures |r| == |s| - 1
    ensures [Peek(s)] + r == s
  {
    s[1..]
  }

  /** An insertion never disturbs the consumer's end: the head is unchanged unless the buffer
      was empty, and removing before or after the insertion gives the same buffer. */
  lemma InsertKeepsHead(s: seq<bv8>, x: bv8)
    requires Bounded(s) && !IsFull(s)
    ensures Peek(Insert(s, x)) == (if IsEmpty(s) then x else Peek(s))
    ensures !IsEmpty(s) ==> Remove(Insert(s, x)) == Insert(Remove(s), x)
    ensures IsEmpty(s) ==> Remove(Insert(s, x)) == s
  {
    if !IsEmpty(s) {
      assert Remove(Insert(s, x)) == (s + [x])[1..] == s[1..] + [x];
    }
  }

  /** One buffer call made by a producer or a consumer. */
  datatype Op = Put(x: bv8) | Take

  /** What a run of operations produced: the bytes taken, in order, and what is left. */
  datatype Outcome = Outcome(taken: seq<bv8>, rest: seq<bv8>)

  /** The bytes a run of operations inserts, in order. */
  function Inserted(ops: seq<Op>): seq<bv8>
  {
    if ops == [] then []
    else (if ops[0].Put? then [ops[0].x] else []) + Inserted(ops[1..])
  }

  function CountTakes(ops: seq<Op>): nat
  {
    if ops == [] then 0 else (if ops[0].Take? then 1 else 0) + CountTakes(ops[1..])
  }

  /** Runs the operations from buffer `s`; None when one of them breaks its precondition
      (an insertion into a full buffer or a removal from an empty one). */
  function Replay(s: seq<bv8>, ops: seq<Op>): Option<Outcome>
    requires Bounded(s)
    decreases |ops|
  {
    if ops == [] then Some(Outcome([], s))
    else if ops[0].Put? then
      if IsFull(s) then None else Replay(Insert(s, ops[0].x), ops[1..])
    else if IsEmpty(s) then None
    else
      var o := Replay(Remove(s), ops[1..]);
      if o.None? then None else Some(Outcome([Peek(s)] + o.value.taken, o.value.rest))
  }

  /** FIFO order: for any run that respects the preconditions, the bytes taken followed by
      the bytes left are the original contents followed by the bytes inserted, and the
      count is the original count plus insertions minus removals. */
  lemma {:induction false} FifoOrder(s: seq<bv8>, ops: seq<Op>)
    requires Bounded(s)
    requires Replay(s, ops).Some?
    ensures Replay(s, ops).value.taken + Replay(s, ops).value.rest == s + Inserted(ops)
    ensures |Replay(s, ops).value.rest| == |s| + |Inserted(ops)| - CountTakes(ops)
    ensures Bounded(Replay(s, ops).value.rest)
    decreases |ops|
  {
    if ops == [] {
    } else if ops[0].Put? {
      FifoOrder(Insert(s, ops[0].x), ops[1..]);
      FifoPutStep(s, ops);
    } else {
      FifoOrder(Remove(s), ops[1..]);
      FifoTakeStep(s, ops, Replay(Remove(s), ops[1..]).value);
    }
  }

  /** Inductive step of FifoOrder for an insertion. */
  lemma FifoPutStep(s: seq<bv8>, ops: seq<Op>)
    requires Bounded(s) && ops != [] && ops[0].Put? && !IsFull(s)
    requires Replay(Insert(s, ops[0].x), ops[1..]).Some?
    requires var o := Replay(Insert(s, ops[0].x), ops[1..]).value;
      o.taken + o.rest == Insert(s, ops[0].x) + Inserted(ops[1..])
      && |o.rest| == |Insert(s, ops[0].x)| + |Inserted(ops[1..])| - CountTakes(ops[1..])
    ensures Replay(s, ops) == Replay(Insert(s, ops[0].x), ops[1..])
    ensures var o := Replay(s, ops).value;
      o.taken + o.rest == s + Inserted(ops)
      && |o.rest| == |s| + |Inserted(ops)| - CountTakes(ops)
  {
    assert Inserted(ops) == [ops[0].x] + Inserted(ops[1..]);
    assert s + Inserted(ops) == Insert(s, ops[0].x) + Inserted(ops[1..]);
  }

  /** Inductive step of FifoOrder for a removal. */
  lemma FifoTakeStep(s: seq<bv8>, ops: seq<Op>, o: Outcome)
    requires Bounded(s) && ops != [] && ops[0].Take? && !IsEmpty(s)
    requires Replay(Remove(s), ops[1..]) == Some(o)
    requires o.taken + o.rest == Remove(s) + Inserted(ops[1..])
    requires |o.rest| == |Remove(s)| + |Inserted(ops[1..])| - CountTakes(ops[1..])
    ensures Replay(s, ops) == Some(Outcome([Peek(s)] + o.taken, o.rest))
    ensures ([Peek(s)] + o.taken) + o.rest == s + Inserted(ops)
    ensures |o.rest| == |s| + |Inserted(ops)| - CountTakes(ops)
  {
    assert Inserted(ops) == Inserted(ops[1..]);
    PrependBoth([Peek(s)], Remove(s), o.taken, o.rest, Inserted(ops[1..]));
  }

  lemma PrependBoth(h: seq<bv8>, t: seq<bv8>, a: seq<bv8>, b: seq<bv8>, i: seq<bv8>)
    requires a + b == t + i
    ensures (h + a) + b == (h + t) + i
  {
    assert (h + a) + b == h + (a + b);
    assert (h + t) + i == h + (t + i);
  }

  /** Replay refuses a run only when some operation in it finds the buffer full (an
      insertion) or empty (a removal). */
  lemma {:induction false} ReplayRefusesOnlyMisuse(s: seq<bv8>, ops: seq<Op>)
    requires Bounded(s)
    requires Replay(s, ops).None?
    ensures exists k :: 0 <= k < |ops| && Misused(s, ops, k)
    decreases |ops|
  {
    if ops[0].Put? {
      var x := ops[0].x;
      if IsFull(s) {
        assert Misused(s, ops, 0);
      } else {
        ReplayRefusesOnlyMisuse(Insert(s, x), ops[1..]);
        var k :| 0 <= k < |ops[1..]| && Misused(Insert(s, x), ops[1..], k);
        MisusedShift(s, ops, k);
      }
    } else {
      if IsEmpty(s) {
        assert Misused(s, ops, 0);
      } else {
        ReplayRefusesOnlyMisuse(Remove(s), ops[1..]);
        var k :| 0 <= k < |ops[1..]| && Misused(Remove(s), ops[1..], k);
        MisusedShift(s, ops, k);
      }
    }
  }

  /** Conversely, a run in which some operation finds the buffer full (an insertion) or empty
      (a removal), counting levels from the start, is refused: a full buffer never takes
      another byte and an empty one never gives one. */
  lemma {:induction false} MisuseRefused(s: seq<bv8>, ops: seq<Op>, k: nat)
    requires Bounded(s) && k < |ops| && Misused(s, ops, k)
    ensures Replay(s, ops).None?
    decreases |ops|
  {
    if k == 0 {
      assert ops[..0] == [];
    } else if ops[0].Put? && !IsFull(s) {
      MisusedUnshift(s, ops, k);
      MisuseRefused(Insert(s, ops[0].x), ops[1..], k - 1);
    } else if ops[0].Take? && !IsEmpty(s) {
      MisusedUnshift(s, ops, k);
      MisuseRefused(Remove(s), ops[1..], k - 1);
    }
  }

  /** A run is refused exactly when one of its operations misuses the buffer. */
  lemma ReplayRefusedIffMisused(s: seq<bv8>, ops: seq<Op>)
    requires Bounded(s)
    ensures Replay(s, ops).None? <==> exists k :: 0 <= k < |ops| && Misused(s, ops, k)
  {
    if Replay(s, ops).None? {
      ReplayRefusesOnlyMisuse(s, ops);
    }
    if k :| 0 <= k < |ops| && Misused(s, ops, k) {
      MisuseRefused(s, ops, k);
    }
  }

  /** Level of a buffer after the first `k` operations, ignoring capacity. */
  function LevelAfter(s: seq<bv8>, ops: seq<Op>, k: nat): int
    requires k <= |ops|
  {
    |s| + |Inserted(ops[..k])| - CountTakes(ops[..k])
  }

  /** Operation `k` breaks its precondition given the level it finds. */
  predicate Misused(s: seq<bv8>, ops: seq<Op>, k: nat)
    requires k < |ops|
  {
    (ops[k].Put? && LevelAfter(s, ops, k) >= CAPACITY as int)
    || (ops[k].Take? && LevelAfter(s, ops, k) <= 0)
  }

  lemma MisusedShift(s: seq<bv8>, ops: seq<Op>, k: nat)
    requires Bounded(s) && ops != [] && k < |ops| - 1
    requires ops[0].Put? ==> !IsFull(s) && Misused(Insert(s, ops[0].x), ops[1..], k)
    requires ops[0].Take? ==> !IsEmpty(s) && Misused(Remove(s), ops[1..], k)
    ensures Misused(s, ops, k + 1)
  {
    assert ops[..k + 1] == [ops[0]] + ops[1..][..k];
    assert ops[..k + 1][1..] == ops[1..][..k];
  }

  lemma MisusedUnshift(s: seq<bv8>, ops: seq<Op>, k: nat)
    requires Bounded(s) && 0 < k < |ops| && Misused(s, ops, k)
    requires ops[0].Put? ==> !IsFull(s)
    requires ops[0].Take? ==> !IsEmpty(s)
    ensures ops[0].Put? ==> Misused(Insert(s, ops[0].x), ops[1..], k - 1)
    ensures ops[0].Take? ==> Misused(Remove(s), ops[1..], k - 1)
  {
    assert ops[..k] == [ops[0]] + ops[1..][..k - 1];
    assert ops[..k][1..] == ops[1..][..k - 1];
  }
}
