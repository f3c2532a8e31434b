/** What becomes of every packet inserted into a packet buffer over a run of operations. */
module PacketFates {
  import opened SeqNums
  import opened PacketRing
  import opened FrameRuns

  datatype Op = Insert(packet: Packet) | Padding(seqNum: SeqNum) | DropTo(seqNum: SeqNum) | DropAll

  /** The operation inserted no packet; or its packet was ignored, because operation `cause` had cleared past it;
      was a duplicate of the one that operation `of` had inserted; or collided, even in the largest ring, with the
      one that operation `other` had inserted, and made the buffer forget everything; or it was stored, and is
      still, or was returned at a position of the output, or was dropped, by operation `cause`. */
  datatype Fate =
    | NoPacket | Ignored(cause: nat) | Duplicate(of: nat) | Collided(other: nat)
    | Stored | Returned(at: nat, cause: nat) | Cleared(cause: nat)

  function Number(op: Op): SeqNum { if op.Insert? then op.packet.seqNum else 0 }

  /** The packet was in the buffer at operation i. */
  ghost predicate HeldAt(f: Fate, i: nat) {
    f == Stored || (f.Returned? && f.cause > i) || (f.Cleared? && f.cause > i)
  }

  /** Operation k has reason to drop a stored packet with number s. */
  ghost predicate DropsAt(ops: seq<Op>, fate: seq<Fate>, k: nat, s: SeqNum) {
    && k < |ops| && k < |fate|
    && (|| ops[k].DropAll?
        || (ops[k].DropTo? && AheadOf(Next(ops[k].seqNum), s))
        || (ops[k].Insert? && fate[k].Collided?))
  }

  /** Nothing between operations i and k empties the buffer. */
  ghost predicate Unbroken(ops: seq<Op>, fate: seq<Fate>, i: nat, k: nat)
    requires |fate| <= |ops|
  {
    forall c :: i < c < k && c < |fate| ==> !ops[c].DropAll? && !fate[c].Collided?
  }

  ghost predicate FateOk(ops: seq<Op>, size: nat, out: seq<Packet>, left: Slots, fate: seq<Fate>, i: nat)
    requires i < |fate| <= |ops| && |left| > 0 && size > 0
  {
    var s := Number(ops[i]);
    (fate[i] == NoPacket <==> !ops[i].Insert?) &&
    match fate[i]
    case NoPacket => true
    case Ignored(k) => k < i && ops[k].DropTo? && AheadOf(Next(ops[k].seqNum), s)
    case Duplicate(j) => j < i && ops[j].Insert? && Number(ops[j]) == s && HeldAt(fate[j], i)
    case Collided(j) => j < i && ops[j].Insert? && Number(ops[j]) != s && Slot(Number(ops[j]), size) == Slot(s, size) &&
                        fate[j] == Cleared(i)
    case Stored =>
      At(left, s).Some? && Body(At(left, s).value) == Body(ops[i].packet) && Unbroken(ops, fate, i, |fate|)
    case Returned(p, k) =>
      && i <= k < |fate| && p < |out| && Body(out[p]) == Body(ops[i].packet)
      && (ops[k].Insert? || ops[k].Padding?) && Unbroken(ops, fate, i, k + 1)
    case Cleared(k) => i < k < |fate| && DropsAt(ops, fate, k, s) && Unbroken(ops, fate, i, k)
  }

  ghost predicate OwnedBy(ops: seq<Op>, fate: seq<Fate>, s: SeqNum, i: nat) {
    i < |fate| <= |ops| && fate[i] == Stored && ops[i].Insert? && Number(ops[i]) == s
  }

  ghost predicate SourceOf(fate: seq<Fate>, p: nat, i: nat) { i < |fate| && fate[i].Returned? && fate[i].at == p }

  ghost predicate HasOwner(ops: seq<Op>, fate: seq<Fate>, s: SeqNum) { exists i: nat :: OwnedBy(ops, fate, s, i) }

  ghost predicate HasSource(fate: seq<Fate>, p: nat) { exists i: nat :: SourceOf(fate, p, i) }

  /** Every packet inserted by the operations so far has exactly one fate: those still stored are the buffer's
      packets, and those returned are the output, each at its own position. */
  ghost predicate Accounts(ops: seq<Op>, size: nat, out: seq<Packet>, left: Slots, fate: seq<Fate>) {
    && |fate| <= |ops| && |left| > 0 && size > 0
    && (forall i :: 0 <= i < |fate| ==> FateOk(ops, size, out, left, fate, i))
    && (forall i: nat, j: nat, s: SeqNum :: OwnedBy(ops, fate, s, i) && OwnedBy(ops, fate, s, j) ==> i == j)
    && (forall i: nat, j: nat, p: nat :: SourceOf(fate, p, i) && SourceOf(fate, p, j) ==> i == j)
    && (forall s: SeqNum :: At(left, s).Some? ==> HasOwner(ops, fate, s))
    && (forall p: nat :: p < |out| ==> HasSource(fate, p))
  }

  // ---- Nothing happens to stored packets ------------------------------------------

  /** One more operation, which stores nothing and drops nothing. */
  lemma PassOver(ops: seq<Op>, size: nat, out: seq<Packet>, left: Slots, fate: seq<Fate>, f: Fate)
    requires Accounts(ops, size, out, left, fate) && |fate| < |ops|
    requires (f.NoPacket? || f.Ignored? || f.Duplicate?) && !ops[|fate|].DropAll?
    requires FateOk(ops, size, out, left, fate + [f], |fate|)
    ensures Accounts(ops, size, out, left, fate + [f])
  {
    var more := fate + [f];
    forall i | 0 <= i < |more| ensures FateOk(ops, size, out, left, more, i) {
      if i < |fate| { assert FateOk(ops, size, out, left, fate, i); }
    }
    Extended(ops, size, out, left, fate, f);
  }

  lemma Extended(ops: seq<Op>, size: nat, out: seq<Packet>, left: Slots, fate: seq<Fate>, f: Fate)
    requires Accounts(ops, size, out, left, fate) && |fate| < |ops|
    ensures forall s: SeqNum, i: nat :: i < |fate| ==> OwnedBy(ops, fate + [f], s, i) == OwnedBy(ops, fate, s, i)
    ensures forall p: nat, i: nat :: i < |fate| ==> SourceOf(fate + [f], p, i) == SourceOf(fate, p, i)
    ensures forall s: SeqNum :: At(left, s).Some? ==> HasOwner(ops, fate + [f], s)
    ensures forall p: nat :: p < |out| ==> HasSource(fate + [f], p)
  {
    forall s: SeqNum | At(left, s).Some? ensures HasOwner(ops, fate + [f], s) {
      assert HasOwner(ops, fate, s);
      var i: nat :| OwnedBy(ops, fate, s, i);
      assert OwnedBy(ops, fate + [f], s, i);
    }
    forall p: nat | p < |out| ensures HasSource(fate + [f], p) {
      assert HasSource(fate, p);
      var i: nat :| SourceOf(fate, p, i);
      assert SourceOf(fate + [f], p, i);
    }
  }

  // ---- A packet is stored ----------------------------------------------------------

  lemma StoreNext(ops: seq<Op>, size: nat, out: seq<Packet>, left: Slots, fate: seq<Fate>, full: Slots)
    requires Accounts(ops, size, out, left, fate) && |fate| < |ops| && ops[|fate|].Insert?
    requires FullWith(left, full, ops[|fate|].packet) && At(left, Number(ops[|fate|])).None?
    ensures Accounts(ops, size, out, full, fate + [Stored])
  {
    var n := |fate|;
    var more := fate + [Stored];
    Extended(ops, size, out, left, fate, Stored);
    forall i | 0 <= i < |more| ensures FateOk(ops, size, out, full, more, i) {
      if i < n { StoreKeeps(ops, size, out, left, fate, full, i); }
    }
    assert OwnedBy(ops, more, Number(ops[n]), n);
    forall i: nat, s: SeqNum | OwnedBy(ops, more, s, i) && i < n ensures s != Number(ops[n]) {
      assert FateOk(ops, size, out, left, fate, i);
    }
    forall s: SeqNum | At(full, s).Some? ensures HasOwner(ops, more, s) {
      if s != Number(ops[n]) { assert At(left, s).Some?; }
    }
  }

  lemma StoreKeeps(ops: seq<Op>, size: nat, out: seq<Packet>, left: Slots, fate: seq<Fate>, full: Slots, i: nat)
    requires Accounts(ops, size, out, left, fate) && |fate| < |ops| && ops[|fate|].Insert? && i < |fate|
    requires FullWith(left, full, ops[|fate|].packet) && At(left, Number(ops[|fate|])).None?
    ensures FateOk(ops, size, out, full, fate + [Stored], i)
  {
    assert FateOk(ops, size, out, left, fate, i);
  }

  // ---- Packets are returned ---------------------------------------------------------

  function IndexOf(found: seq<Packet>, s: SeqNum): (k: nat)
    ensures k <= |found| && (k < |found| ==> found[k].seqNum == s)
    ensures forall j :: 0 <= j < k ==> found[j].seqNum != s
  {
    if found == [] then 0 else if found[0].seqNum == s then 0 else 1 + IndexOf(found[1..], s)
  }

  /** The packets no longer stored have got the fate f. */
  ghost predicate Moves(ops: seq<Op>, fate: seq<Fate>, left: Slots, more: seq<Fate>, f: SeqNum -> Fate) {
    && |more| == |fate| <= |ops| && |left| > 0
    && forall i :: 0 <= i < |fate| ==>
                     more[i] == if fate[i] == Stored && At(left, Number(ops[i])).None? then f(Number(ops[i]))
                                else fate[i]
  }

  ghost function Taken(found: seq<Packet>, first: nat, cause: nat): SeqNum -> Fate {
    (s: SeqNum) => Returned(first + IndexOf(found, s), cause)
  }

  /** Collisions are final, so that nothing that was unbroken becomes broken. */
  lemma UnbrokenStays(ops: seq<Op>, fate: seq<Fate>, left: Slots, more: seq<Fate>, f: SeqNum -> Fate, i: nat, k: nat)
    requires Moves(ops, fate, left, more, f) && Unbroken(ops, fate, i, k) && forall s: SeqNum :: !f(s).Collided?
    ensures Unbroken(ops, more, i, k)
  {
  }

  lemma TakeKeeps(ops: seq<Op>, size: nat, out: seq<Packet>, full: Slots, fate: seq<Fate>, left: Slots,
                  found: seq<Packet>, more: seq<Fate>, i: nat)
    requires Accounts(ops, size, out, full, fate) && Conserved(full, left, found) && i < |fate|
    requires !fate[|fate| - 1].Duplicate? && (ops[|fate| - 1].Insert? || ops[|fate| - 1].Padding?)
    requires Moves(ops, fate, left, more, Taken(found, |out|, |fate| - 1))
    ensures FateOk(ops, size, out + found, left, more, i)
  {
    assert FateOk(ops, size, out, full, fate, i);
    var f := Taken(found, |out|, |fate| - 1);
    match fate[i] {
      case Stored =>
        UnbrokenStays(ops, fate, left, more, f, i, |fate|);
        StoredTaken(ops, size, out, full, fate, left, found, more, i);
      case Returned(p, k) => UnbrokenStays(ops, fate, left, more, f, i, k + 1);
      case Duplicate(j) => assert more[j] == fate[j] || more[j].cause == |fate| - 1;
      case Collided(j) => assert more[j] == fate[j];
      case Cleared(k) =>
        UnbrokenStays(ops, fate, left, more, f, i, k);
        assert more[k] == fate[k] || fate[k] == Stored;
      case _ =>
    }
  }

  lemma StoredTaken(ops: seq<Op>, size: nat, out: seq<Packet>, full: Slots, fate: seq<Fate>, left: Slots,
                    found: seq<Packet>, more: seq<Fate>, i: nat)
    requires Conserved(full, left, found) && i < |fate| <= |ops| && |more| == |fate| && size > 0 && fate[i] == Stored
    requires FateOk(ops, size, out, full, fate, i) && Unbroken(ops, more, i, |fate|)
    requires ops[|fate| - 1].Insert? || ops[|fate| - 1].Padding?
    requires Moves(ops, fate, left, more, Taken(found, |out|, |fate| - 1))
    ensures FateOk(ops, size, out + found, left, more, i)
  {
    var s := Number(ops[i]);
    if At(left, s).None? {
      assert Listed(found, s);
      var k := IndexOf(found, s);
      assert k < |found| && Moved(full, left, found[k]);
      assert (out + found)[|out| + k] == found[k];
    }
  }

  lemma TakeSources(ops: seq<Op>, size: nat, out: seq<Packet>, full: Slots, fate: seq<Fate>, left: Slots,
                    found: seq<Packet>, more: seq<Fate>)
    requires Accounts(ops, size, out, full, fate) && Conserved(full, left, found) && fate != []
    requires Moves(ops, fate, left, more, Taken(found, |out|, |fate| - 1))
    ensures forall p: nat :: p < |out + found| ==> HasSource(more, p)
    ensures forall i: nat, j: nat, p: nat :: SourceOf(more, p, i) && SourceOf(more, p, j) ==> i == j
  {
    forall p: nat | p < |out + found| ensures HasSource(more, p) {
      if p < |out| {
        assert HasSource(fate, p);
        var i: nat :| SourceOf(fate, p, i);
        assert SourceOf(more, p, i);
      } else {
        var k := p - |out|;
        var s := found[k].seqNum;
        assert Moved(full, left, found[k]);
        assert HasOwner(ops, fate, s);
        var i: nat :| OwnedBy(ops, fate, s, i);
        var l := IndexOf(found, s);
        assert l == k;
        assert SourceOf(more, p, i);
      }
    }
    forall i: nat, j: nat, p: nat | SourceOf(more, p, i) && SourceOf(more, p, j) ensures i == j {
      TakenOnce(ops, size, out, full, fate, left, found, more, i, p);
      TakenOnce(ops, size, out, full, fate, left, found, more, j, p);
    }
  }

  /** Where a position of the output comes from: it was there before, or its packet was stored till now. */
  lemma TakenOnce(ops: seq<Op>, size: nat, out: seq<Packet>, full: Slots, fate: seq<Fate>, left: Slots,
                  found: seq<Packet>, more: seq<Fate>, i: nat, p: nat)
    requires Accounts(ops, size, out, full, fate) && Conserved(full, left, found) && fate != []
    requires Moves(ops, fate, left, more, Taken(found, |out|, |fate| - 1)) && SourceOf(more, p, i)
    ensures if p < |out| then SourceOf(fate, p, i)
            else p < |out| + |found| && OwnedBy(ops, fate, found[p - |out|].seqNum, i)
  {
    assert FateOk(ops, size, out, full, fate, i);
    if fate[i] == Stored { assert Listed(found, Number(ops[i])); }
  }

  lemma MovesOwners(ops: seq<Op>, size: nat, out: seq<Packet>, full: Slots, fate: seq<Fate>, left: Slots,
                    more: seq<Fate>, f: SeqNum -> Fate)
    requires Accounts(ops, size, out, full, fate) && Moves(ops, fate, left, more, f) &&
             forall s: SeqNum :: f(s) != Stored
    requires forall s: SeqNum :: At(left, s).Some? ==> At(full, s).Some?
    ensures forall i: nat, j: nat, s: SeqNum :: OwnedBy(ops, more, s, i) && OwnedBy(ops, more, s, j) ==> i == j
    ensures forall s: SeqNum :: At(left, s).Some? ==> HasOwner(ops, more, s)
  {
    forall i: nat, s: SeqNum | OwnedBy(ops, more, s, i) ensures OwnedBy(ops, fate, s, i) { }
    forall s: SeqNum | At(left, s).Some? ensures HasOwner(ops, more, s) {
      assert HasOwner(ops, fate, s);
      var i: nat :| OwnedBy(ops, fate, s, i);
      assert OwnedBy(ops, more, s, i);
    }
  }

  /** The last operation returned packets. */
  lemma TakeNext(ops: seq<Op>, size: nat, out: seq<Packet>, full: Slots, fate: seq<Fate>, left: Slots,
                 found: seq<Packet>) returns (more: seq<Fate>)
    requires Accounts(ops, size, out, full, fate) && Conserved(full, left, found)
    requires fate != [] && (fate[|fate| - 1].Stored? || fate[|fate| - 1].NoPacket?)
    requires ops[|fate| - 1].Insert? || ops[|fate| - 1].Padding?
    ensures Accounts(ops, size, out + found, left, more) && |more| == |fate| && SameReason(fate, more)
  {
    var f := Taken(found, |out|, |fate| - 1);
    more := seq(|fate|, i requires 0 <= i < |fate| =>
                  if fate[i] == Stored && At(left, Number(ops[i])).None? then f(Number(ops[i])) else fate[i]);
    forall i | 0 <= i < |more| ensures FateOk(ops, size, out + found, left, more, i) {
      TakeKeeps(ops, size, out, full, fate, left, found, more, i);
    }
    TakeSources(ops, size, out, full, fate, left, found, more);
    MovesOwners(ops, size, out, full, fate, left, more, f);
  }

  /** Fates that say why a packet was not stored are final; the others stay among themselves. */
  ghost predicate SameReason(fate: seq<Fate>, more: seq<Fate>) {
    && |fate| <= |more|
    && forall i :: 0 <= i < |fate| ==>
                     if fate[i].NoPacket? || fate[i].Ignored? || fate[i].Duplicate? || fate[i].Collided?
                     then more[i] == fate[i] else WasStored(more[i])
  }

  predicate WasStored(f: Fate) { f.Stored? || f.Returned? || f.Cleared? }

  // ---- Packets are dropped ----------------------------------------------------------

  lemma DropKeeps(ops: seq<Op>, size: nat, out: seq<Packet>, full: Slots, fate: seq<Fate>, left: Slots,
                  more: seq<Fate>, last: Fate, i: nat)
    requires Accounts(ops, size, out, full, fate) && i < |fate| < |ops| && |left| > 0 && !last.Stored?
    requires Moves(ops, fate, left, more, (s: SeqNum) => Cleared(|fate|))
    requires forall s: SeqNum :: At(left, s).Some? ==> At(left, s) == At(full, s)
    requires forall s: SeqNum :: At(full, s).Some? && At(left, s).None? ==> DropsAt(ops, more + [last], |fate|, s)
    requires ops[|fate|].DropAll? || last.Collided? ==> forall s: SeqNum :: At(left, s).None?
    ensures FateOk(ops, size, out, left, more + [last], i)
  {
    assert FateOk(ops, size, out, full, fate, i);
    var all := more + [last];
    match fate[i] {
      case Duplicate(j) => assert all[j] == more[j];
      case Collided(j) => assert all[j] == fate[j];
      case Cleared(k) => assert all[k] == fate[k] || fate[k] == Stored;
      case _ =>
    }
  }

  /** The packet of operation j is stored where, in the largest ring, the packet of the next operation belongs,
      and it is dropped. */
  ghost predicate Collides(ops: seq<Op>, size: nat, left: Slots, fate: seq<Fate>, j: nat)
    requires |fate| < |ops| && size > 0 && |left| > 0
  {
    j < |fate| &&
    var s, t := Number(ops[|fate|]), Number(ops[j]);
    OwnedBy(ops, fate, t, j) && s != t && Slot(t, size) == Slot(s, size) && At(left, t).None?
  }

  /** One more operation, which drops packets; `last` is the fate of its own packet. */
  lemma DropNext(ops: seq<Op>, size: nat, out: seq<Packet>, full: Slots, fate: seq<Fate>, left: Slots, last: Fate)
    returns (more: seq<Fate>)
    requires Accounts(ops, size, out, full, fate) && |fate| < |ops| && |left| > 0
    requires forall s: SeqNum :: At(left, s).Some? ==> At(left, s) == At(full, s)
    requires forall s: SeqNum :: At(full, s).Some? && At(left, s).None? ==> DropsAt(ops, fate + [last], |fate|, s)
    requires if ops[|fate|].Insert? then last.Collided? && Collides(ops, size, left, fate, last.other)
             else last == NoPacket
    requires ops[|fate|].DropAll? || last.Collided? ==> forall s: SeqNum :: At(left, s).None?
    ensures Accounts(ops, size, out, left, more) && |more| == |fate| + 1 && more[|fate|] == last &&
            SameReason(fate, more)
  {
    var n := |fate|;
    var moved := seq(n, i requires 0 <= i < n =>
                       if fate[i] == Stored && At(left, Number(ops[i])).None? then Cleared(n) else fate[i]);
    more := moved + [last];
    forall i | 0 <= i < n ensures FateOk(ops, size, out, left, more, i) {
      DropKeeps(ops, size, out, full, fate, left, moved, last, i);
    }
    assert FateOk(ops, size, out, left, more, n);
    MovesOwners(ops, size, out, full, fate, left, moved, (s: SeqNum) => Cleared(n));
    forall i: nat, s: SeqNum ensures OwnedBy(ops, more, s, i) == OwnedBy(ops, moved, s, i) { }
    forall p: nat, i: nat ensures SourceOf(more, p, i) == SourceOf(fate, p, i) { }
    forall s: SeqNum | At(left, s).Some? ensures HasOwner(ops, more, s) {
      var i: nat :| OwnedBy(ops, moved, s, i);
      assert OwnedBy(ops, more, s, i);
    }
    forall p: nat | p < |out| ensures HasSource(more, p) {
      assert HasSource(fate, p);
      var i: nat :| SourceOf(fate, p, i);
      assert SourceOf(more, p, i);
    }
  }
}
