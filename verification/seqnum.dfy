/** 16-bit RTP sequence numbers: wrap-around steps, ring distance and the
    "ahead of" order, with the ring-index arithmetic of a power-of-two buffer. */
module SeqNums {

  type SeqNum = x: nat | x < 65536

  function Next(s: SeqNum): SeqNum { if s == 65535 then 0 else s + 1 }

  function Prev(s: SeqNum): SeqNum { if s == 0 then 65535 else s - 1 }

  /** Steps forward from a to b around the ring of 2^16 numbers. */
  function ForwardDiff(a: SeqNum, b: SeqNum): nat { if b >= a then b - a else b - a + 65536 }

  /** a is newer than b: less than half the ring ahead; at exactly half, the larger number wins. */
  predicate AheadOf(a: SeqNum, b: SeqNum) {
    a != b && (ForwardDiff(b, a) < 32768 || (ForwardDiff(b, a) == 32768 && a > b))
  }

  /** A number reduced to 16 bits. */
  function Wrap(x: nat): SeqNum {
    if x < 65536 then x else if x < 131072 then x - 65536 else Wrap(x - 65536)
  }

  function Plus(s: SeqNum, k: nat): SeqNum { Wrap(s + k) }

  function Minus(s: SeqNum, k: nat): SeqNum
    requires k <= 65536
  { if s >= k then s - k else s - k + 65536 }

  lemma {:induction false} PlusNext(s: SeqNum, k: nat)
    ensures Plus(s, k + 1) == Next(Plus(s, k))
    decreases k
  {
    if k >= 65536 { PlusNext(s, k - 65536); }
  }

  lemma {:induction false} PlusShift(s: SeqNum, k: nat)
    ensures Plus(Next(s), k) == Plus(s, k + 1)
  {
    PlusNext(s, k);
    if k > 0 {
      PlusShift(s, k - 1);
      PlusNext(Next(s), k - 1);
    }
  }

  /** Ring index of a sequence number in a buffer of n slots: s modulo n, by repeated
      subtraction so that a variable modulus stays linear. */
  function Slot(s: nat, n: nat): (i: nat)
    requires n > 0
    ensures i < n
    decreases s
  { if s < n then s else Slot(s - n, n) }

  predicate PowerOfTwo(n: nat) {
    n == 1 || (n > 1 && n % 2 == 0 && PowerOfTwo(n / 2))
  }

  /** A ring size: its slots tile the whole sequence-number space. */
  ghost predicate RingSize(n: nat) { n > 0 && Slot(65536, n) == 0 }

  lemma {:induction false} PowerOfTwoBound(n: nat, m: nat)
    requires PowerOfTwo(n) && PowerOfTwo(m) && n < m
    ensures 2 * n <= m && PowerOfTwo(2 * n)
  {
    if n > 1 { PowerOfTwoBound(n / 2, m / 2); }
  }

  lemma {:induction false} SlotDouble(k: nat, n: nat)
    requires n > 0
    ensures Slot(2 * k, 2 * n) == 2 * Slot(k, n)
    decreases k
  {
    if k >= n { SlotDouble(k - n, n); }
  }

  lemma {:induction false} PowerOfTwoTiles(n: nat, k: nat)
    requires PowerOfTwo(n) && PowerOfTwo(k) && n <= k
    ensures Slot(k, n) == 0
    decreases k
  {
    if n == 1 {
      SlotOne(k);
    } else {
      PowerOfTwoTiles(n / 2, k / 2);
      SlotDouble(k / 2, n / 2);
    }
  }

  lemma {:induction false} SlotOne(k: nat)
    ensures Slot(k, 1) == 0
  {
    if k > 0 { SlotOne(k - 1); }
  }

  lemma PowerOfTwoIsRingSize(n: nat)
    requires PowerOfTwo(n) && n <= 65536
    ensures RingSize(n)
  {
    assert PowerOfTwo(65536) by {
      assert PowerOfTwo(256) by { assert PowerOfTwo(16); assert PowerOfTwo(64); }
      assert PowerOfTwo(1024); assert PowerOfTwo(4096); assert PowerOfTwo(16384);
    }
    PowerOfTwoTiles(n, 65536);
  }

  lemma {:induction false} SlotSucc(x: nat, n: nat)
    requires n > 0
    ensures Slot(x + 1, n) == if Slot(x, n) + 1 == n then 0 else Slot(x, n) + 1
    decreases x
  {
    if x >= n {
      SlotSucc(x - n, n);
      assert Slot(x + 1, n) == Slot(x - n + 1, n);
    } else if x + 1 == n {
      assert Slot(n, n) == Slot(0, n);
    }
  }

  /** Stepping a sequence number steps its ring index, also across both wraps. */
  lemma SlotNext(s: SeqNum, n: nat)
    requires RingSize(n)
    ensures Slot(Next(s), n) == if Slot(s, n) + 1 == n then 0 else Slot(s, n) + 1
  {
    SlotSucc(s, n);
  }

  lemma SlotPrev(s: SeqNum, n: nat)
    requires RingSize(n)
    ensures Slot(Prev(s), n) == if Slot(s, n) == 0 then n - 1 else Slot(s, n) - 1
  {
    SlotNext(Prev(s), n);
  }

  lemma {:induction false} SlotPlus(s: SeqNum, k: nat, n: nat)
    requires RingSize(n) && k <= n
    ensures Slot(Plus(s, k), n) == if Slot(s, n) + k < n then Slot(s, n) + k else Slot(s, n) + k - n
    decreases k
  {
    if k > 0 {
      SlotPlus(s, k - 1, n);
      SlotNext(Plus(s, k - 1), n);
      PlusNext(s, k - 1);
    }
  }

  lemma {:induction false} SlotInDoubledRing(s: nat, n: nat)
    requires n > 0
    ensures Slot(s, 2 * n) == Slot(s, n) || Slot(s, 2 * n) == Slot(s, n) + n
    decreases s
  {
    if s >= 2 * n {
      SlotInDoubledRing(s - 2 * n, n);
      assert Slot(s, n) == Slot(s - n, n) == Slot(s - n - n, n);
    }
  }

  /** Numbers that share a slot of a large ring share one of every smaller ring. */
  lemma {:induction false} SlotCoarser(a: nat, b: nat, n: nat, m: nat)
    requires PowerOfTwo(n) && PowerOfTwo(m) && n <= m && Slot(a, m) == Slot(b, m)
    ensures Slot(a, n) == Slot(b, n)
    decreases m
  {
    if n < m {
      SlotInDoubledRing(a, m / 2);
      SlotInDoubledRing(b, m / 2);
      PowerOfTwoBound(n, m);
      SlotCoarser(a, b, n, m / 2);
    }
  }

  /** Fewer than n consecutive numbers never share a slot. */
  lemma SlotsDistinct(s: SeqNum, a: nat, b: nat, n: nat)
    requires RingSize(n) && a < n && b < n && a != b
    ensures Slot(Plus(s, a), n) != Slot(Plus(s, b), n)
  {
    SlotPlus(s, a, n);
    SlotPlus(s, b, n);
  }
}
