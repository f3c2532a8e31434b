/** Delay differences between groups of packets that were sent together. Times are in microseconds. */
module InterArrival {
  import opened Options
  import opened Bytes

  const BURST_DELTA: int := 5000
  const MAX_BURST: int := 100000
  const OFFSET_LIMIT: int := 3000000
  const REORDER_LIMIT: nat := 3

  datatype Packet = Packet(send: int, arrival: int, system: int, size: nat)

  datatype Group = Group(size: nat, firstSend: int, send: int, firstArrival: int, complete: int, system: int)

  datatype Delta = Delta(send: int, arrival: int, size: int)

  // ---- Groups as lists of packets ---------------------------------------------------

  ghost function SizeOf(ms: seq<Packet>): nat {
    if ms == [] then 0 else SizeOf(ms[..|ms| - 1]) + ms[|ms| - 1].size
  }

  ghost function LastSend(ms: seq<Packet>): int
    requires ms != []
  {
    if |ms| == 1 || LastSend(ms[..|ms| - 1]) < ms[|ms| - 1].send then ms[|ms| - 1].send else LastSend(ms[..|ms| - 1])
  }

  /** The record of a group: sizes added up, the first packet's times, the latest send time, and the arrival
      and system time of the packet that came last. */
  ghost function GroupOf(ms: seq<Packet>): Group
    requires ms != []
  {
    Group(SizeOf(ms), ms[0].send, LastSend(ms), ms[0].arrival, ms[|ms| - 1].arrival, ms[|ms| - 1].system)
  }

  lemma {:induction false} LastSendIs(ms: seq<Packet>)
    requires ms != []
    ensures forall i :: 0 <= i < |ms| ==> ms[i].send <= LastSend(ms)
    ensures exists i :: 0 <= i < |ms| && ms[i].send == LastSend(ms)
  {
    if |ms| > 1 {
      var b := ms[..|ms| - 1];
      LastSendIs(b);
      var i :| 0 <= i < |b| && b[i].send == LastSend(b);
      assert ms[i] == b[i];
      assert forall j :: 0 <= j < |b| ==> ms[j] == b[j];
      if LastSend(ms) != ms[|ms| - 1].send { assert ms[i].send == LastSend(ms); }
    } else {
      assert ms[0].send == LastSend(ms);
    }
  }

  predicate BelongsToBurst(g: Group, arrival: int, send: int) {
    var arrivalDelta := arrival - g.complete;
    var sendDelta := send - g.send;
    || sendDelta == 0
    || (arrivalDelta - sendDelta < 0 && arrivalDelta <= BURST_DELTA && arrival - g.firstArrival < MAX_BURST)
  }

  /** The packet starts a new group. */
  predicate Starts(g: Group, p: Packet, length: int) {
    !BelongsToBurst(g, p.arrival, p.send) && p.send - g.firstSend > length
  }

  /** Every packet but the first was sent no earlier than the first and does not start a group of its own. */
  ghost predicate GroupOk(ms: seq<Packet>, length: int) {
    ms != [] && forall k :: 0 < k < |ms| ==> ms[k].send >= ms[0].send && !Starts(GroupOf(ms[..k]), ms[k], length)
  }

  function Between(a: Group, b: Group): Delta {
    Delta(b.send - a.send, b.complete - a.complete, Int32(b.size) - Int32(a.size))
  }

  /** A difference that may be reported. */
  predicate Plausible(a: Group, b: Group) {
    var d := Between(a, b);
    d.arrival >= 0 && d.arrival - (b.system - a.system) < OFFSET_LIMIT
  }

  /** Differences after which all is forgotten: the clocks moved apart, or this is the third group in a row
      that arrived before the one sent earlier. */
  predicate Upsets(a: Group, b: Group, reordered: nat) {
    var d := Between(a, b);
    d.arrival - (b.system - a.system) >= OFFSET_LIMIT || (d.arrival < 0 && reordered >= REORDER_LIMIT)
  }

  // ---- Chains of completed groups ----------------------------------------------------

  ghost predicate Linked(a: seq<Packet>, b: seq<Packet>, length: int) {
    GroupOk(a, length) && GroupOk(b, length) && Starts(GroupOf(a), b[0], length)
  }

  /** The differences reported between two resets are those of the completed groups, each with the next. */
  ghost predicate Chain(groups: seq<seq<Packet>>, deltas: seq<Delta>, length: int) {
    && |deltas| == (if groups == [] then 0 else |groups| - 1)
    && (forall i :: 0 <= i < |groups| ==> GroupOk(groups[i], length))
    && (forall i :: 0 <= i < |deltas| ==>
          && Linked(groups[i], groups[i + 1], length)
          && deltas[i] == Between(GroupOf(groups[i]), GroupOf(groups[i + 1]))
          && Plausible(GroupOf(groups[i]), GroupOf(groups[i + 1])))
  }

  ghost function Total(ds: seq<Delta>): Delta {
    if ds == [] then Delta(0, 0, 0)
    else
      var t, d := Total(ds[..|ds| - 1]), ds[|ds| - 1];
      Delta(t.send + d.send, t.arrival + d.arrival, t.size + d.size)
  }

  /** The differences add up to that between the first and the latest completed group. */
  lemma {:induction false} Telescopes(groups: seq<seq<Packet>>, deltas: seq<Delta>, length: int)
    requires Chain(groups, deltas, length) && groups != []
    ensures Total(deltas) == Between(GroupOf(groups[0]), GroupOf(groups[|groups| - 1]))
  {
    if deltas != [] {
      var n := |deltas| - 1;
      Telescopes(groups[..n + 1], deltas[..n], length);
      assert deltas[n] == Between(GroupOf(groups[n]), GroupOf(groups[n + 1]));
    }
  }

  /** Groups start more than the group length apart, however many lie between. */
  lemma {:induction false} StartsApart(groups: seq<seq<Packet>>, deltas: seq<Delta>, length: int, i: nat, j: nat)
    requires Chain(groups, deltas, length) && i < j < |groups|
    ensures groups[j][0].send - groups[i][0].send > (j - i) * length
  {
    var n := j - 1 - i;
    var d := deltas[j - 1];
    assert d == Between(GroupOf(groups[j - 1]), GroupOf(groups[j])) && Linked(groups[j - 1], groups[j], length);
    assert groups[j][0].send - groups[j - 1][0].send > length;
    assert (n + 1) * length == n * length + length;
    if n > 0 { StartsApart(groups, deltas, length, i, j - 1); } else { assert n * length == 0; }
  }

  /** Sizes are exact while they fit. */
  lemma ExactSizes(a: Group, b: Group)
    requires a.size < 0x8000_0000 && b.size < 0x8000_0000
    ensures Between(a, b).size == b.size - a.size
  {
  }

  lemma JoinGroup(ms: seq<Packet>, p: Packet, length: int)
    requires GroupOk(ms, length) && p.send >= ms[0].send && !Starts(GroupOf(ms), p, length)
    ensures GroupOk(ms + [p], length)
    ensures GroupOf(ms + [p]) == Joined(GroupOf(ms), p)
  {
    var all := ms + [p];
    assert all[..|ms|] == ms;
    forall k | 0 < k < |all| ensures all[k].send >= all[0].send && !Starts(GroupOf(all[..k]), all[k], length) {
      if k < |ms| { assert all[..k] == ms[..k] && all[k] == ms[k]; }
    }
  }

  lemma SingleGroup(p: Packet, length: int)
    ensures GroupOk([p], length) && GroupOf([p]) == Group(p.size, p.send, p.send, p.arrival, p.arrival, p.system)
  {
    var ms := [p];
    assert ms[..|ms| - 1] == [] && SizeOf(ms) == p.size;
  }

  lemma ChainGrows(groups: seq<seq<Packet>>, deltas: seq<Delta>, ms: seq<Packet>, length: int)
    requires Chain(groups, deltas, length) && GroupOk(ms, length)
    requires groups != [] ==> && Linked(groups[|groups| - 1], ms, length)
                              && Plausible(GroupOf(groups[|groups| - 1]), GroupOf(ms))
    ensures groups == [] ==> Chain([ms], deltas, length)
    ensures groups != [] ==>
              Chain(groups + [ms], deltas + [Between(GroupOf(groups[|groups| - 1]), GroupOf(ms))], length)
  {
    if groups != [] {
      var all := groups + [ms];
      var ds := deltas + [Between(GroupOf(groups[|groups| - 1]), GroupOf(ms))];
      forall i | 0 <= i < |ds|
        ensures && Linked(all[i], all[i + 1], length)
                && ds[i] == Between(GroupOf(all[i]), GroupOf(all[i + 1]))
                && Plausible(GroupOf(all[i]), GroupOf(all[i + 1]))
      {
        if i < |deltas| { assert ds[i] == deltas[i] && all[i] == groups[i] && all[i + 1] == groups[i + 1]; }
      }
    }
  }

  // ---- The machine ----------------------------------------------------------------------

  datatype Machine = Machine(current: Option<Group>, prev: Option<Group>, reordered: nat)

  /** What a packet leads to: nothing, a difference, or a reset. */
  datatype Report = Silent | Reported(delta: Delta) | Forgot

  const START := Machine(None, None, 0)

  function First(p: Packet): Group { Group(p.size, p.send, p.send, p.arrival, p.arrival, p.system) }

  function Joined(g: Group, p: Packet): Group {
    g.(size := g.size + p.size, send := if g.send < p.send then p.send else g.send, complete := p.arrival,
    system := p.system)
  }

  function Step(m: Machine, p: Packet, length: int): (Machine, Report) {
    if m.current.None? then (m.(current := Some(First(p))), Silent)
    else
      var g := m.current.value;
      if p.send < g.firstSend then (m, Silent)
      else if !Starts(g, p, length) then
        (m.(current := Some(Joined(g, p))), Silent)
      else if m.prev.None? then (m.(current := Some(First(p)), prev := Some(g)), Silent)
      else if Upsets(m.prev.value, g, m.reordered + 1) then (START, Forgot)
      else if !Plausible(m.prev.value, g) then (m.(reordered := m.reordered + 1), Silent)
      else (Machine(Some(First(p)), Some(g), 0), Reported(Between(m.prev.value, g)))
  }

  /** Whether a packet joins the current group: it was sent at the same time as the latest one, or within the group
      length of the first, or belongs to a burst: it arrived closer behind the latest one than it was sent, not more
      than 5 ms behind it, and less than 100 ms after the first one. */
  lemma JoinsIff(m: Machine, p: Packet, length: int)
    requires m.current.Some? && p.send >= m.current.value.firstSend
    ensures var g := m.current.value;
            Step(m, p, length) == (m.(current := Some(Joined(g, p))), Silent) <==>
            (|| p.send == g.send || p.send - g.firstSend <= length
             || (&& p.arrival - g.complete < p.send - g.send && p.arrival - g.complete <= 5000
                 && p.arrival - g.firstArrival < 100000))
  {
  }

  /** What a packet that starts a group after a completed one leads to. All is forgotten exactly if the arrival times
      of the two groups have moved 3 s or more further apart than the system's clock, or this is the third group in a
      row that is not plausible and arrived before the one sent earlier; a difference is reported exactly if it is not
      negative in arrival and all is not forgotten. */
  lemma ReportsIff(m: Machine, p: Packet, length: int)
    requires m.current.Some? && m.prev.Some? && p.send >= m.current.value.firstSend &&
             Starts(m.current.value, p, length)
    ensures var g, a := m.current.value, m.prev.value;
            var arrival, drift := g.complete - a.complete, g.complete - a.complete - (g.system - a.system);
            && (Step(m, p, length).1 == Forgot <==> drift >= 3000000 || (arrival < 0 && m.reordered >= 2))
            && (Step(m, p, length).1.Reported? <==> drift < 3000000 && arrival >= 0)
            && (Step(m, p, length).1.Reported? ==>
                  Step(m, p, length).1.delta == Delta(g.send - a.send, arrival, Int32(g.size) - Int32(a.size)))
  {
  }

  /** A packet of a group that was sent more than the group length after the first one, at another time than any
      before it, arrived in a burst. */
  lemma BurstMembers(ms: seq<Packet>, length: int, k: nat)
    requires GroupOk(ms, length) && 0 < k < |ms| && ms[k].send - ms[0].send > length
    requires forall j :: 0 <= j < k ==> ms[j].send != ms[k].send
    ensures ms[k].arrival - ms[k - 1].arrival <= 5000 && ms[k].arrival - ms[0].arrival < 100000
    ensures exists j :: 0 <= j < k && ms[k].arrival - ms[k - 1].arrival < ms[k].send - ms[j].send
  {
    var before := ms[..k];
    LastSendIs(before);
    var j :| 0 <= j < |before| && before[j].send == LastSend(before);
    assert ms[j] == before[j] && before[|before| - 1] == ms[k - 1] && before[0] == ms[0];
  }

  function After(packets: seq<Packet>, length: int): Machine {
    if packets == [] then START else Step(After(packets[..|packets| - 1], length), packets[|packets| - 1], length).0
  }

  /** One report for each packet. */
  ghost predicate Answers(reports: seq<Report>, packets: seq<Packet>, length: int) {
    && |reports| == |packets|
    && forall i :: 0 <= i < |reports| ==> reports[i] == Step(After(packets[..i], length), packets[i], length).1
  }

  /** The differences reported, split at the resets. */
  function Split(reports: seq<Report>): (runs: seq<seq<Delta>>)
    ensures runs != []
  {
    if reports == [] then [[]]
    else
      var runs := Split(reports[..|reports| - 1]);
      match reports[|reports| - 1]
      case Silent => runs
      case Reported(d) => runs[..|runs| - 1] + [runs[|runs| - 1] + [d]]
      case Forgot => runs + [[]]
  }

  class InterArrivalDelta {
    const length: int
    var current: Option<Group>
    var prev: Option<Group>
    var reordered: nat
    ghost var done: seq<seq<Packet>>
    ghost var members: seq<Packet>
    ghost var deltas: seq<Delta>

    /** The records are those of the packets taken since the last reset. */
    ghost predicate Valid()
      reads this
    {
      && reordered < REORDER_LIMIT
      && Chain(done, deltas, length)
      && current == (if members == [] then None else Some(GroupOf(members)))
      && prev == (if done == [] then None else Some(GroupOf(done[|done| - 1])))
      && (members != [] ==> GroupOk(members, length))
      && (done != [] ==> members != [] && Linked(done[|done| - 1], members, length))
    }

    function View(): Machine
      reads this
    { Machine(current, prev, reordered) }

    ghost predicate Follows(reports: seq<Report>, runs: seq<seq<Delta>>, groups: seq<seq<seq<Packet>>>,
                            packets: seq<Packet>)
      reads this
    {
      Tracks(View(), Flat(done) + members, deltas, reports, runs, groups, packets, length)
    }

    ghost predicate IsReset()
      reads this
    { done == [] && members == [] && deltas == [] && reordered == 0 }

    constructor (length: int)
      ensures Valid() && IsReset() && this.length == length && View() == START
    {
      this.length := length;
      current, prev, reordered := None, None, 0;
      done, members, deltas := [], [], [];
    }

    method Reset()
      modifies this
      ensures Valid() && IsReset() && View() == START
    {
      reordered, current, prev := 0, None, None;
      done, members, deltas := [], [], [];
    }

    /** The packet is the first one of a later group than the current one. */
    ghost predicate Completes(p: Packet)
      reads this
    {
      current.Some? && p.send >= current.value.firstSend && Starts(current.value, p, length)
    }

    /** Takes a packet; the difference between the last two groups when it completes one.
        The four outcomes: the packet joins the current group; it completes one; it is dropped; or all is reset. */
    method ComputeDeltas(p: Packet) returns (r: Option<Delta>)
      requires Valid()
      modifies this
      ensures Valid() && (View(), Answer(r)) == Step(old(View()), p, length)
      ensures r.Some? <==> old(Completes(p) && prev.Some? && Plausible(prev.value, current.value))
      ensures r.Some? ==> && r.value == old(Between(prev.value, current.value)) && deltas == old(deltas) + [r.value]
                          && done == old(done) + [old(members)] && members == [p] && reordered == 0
      ensures IsReset() <==> old(Completes(p) && prev.Some? && Upsets(prev.value, current.value, reordered + 1))
      ensures r.None? && !IsReset() && old(Completes(p)) ==> reordered == old(reordered + if prev.Some? then 1 else 0)
      ensures r.None? && !IsReset() ==>
                && deltas == old(deltas)
                && (if old(Completes(p) && prev.None?) then done == [old(members)] && members == [p]
                    else && done == old(done)
                         && members == (if old(current.None? || (p.send >= current.value.firstSend && !Completes(p)))
                                        then old(members) + [p] else old(members)))
    {
      r := None;
      if current.None? {
        Begin(p);
        return;
      }
      if current.value.firstSend > p.send { return; }
      if Starts(current.value, p, length) {
        r := StartGroup(p);
      } else {
        Join(p);
      }
    }

    /** The packet completes the current group and starts the next, unless the difference upsets the machine
        or is not plausible. */
    method StartGroup(p: Packet) returns (r: Option<Delta>)
      requires Valid() && Completes(p)
      modifies this
      ensures Valid() && (View(), Answer(r)) == Step(old(View()), p, length)
      ensures r.Some? ==> deltas == old(deltas) + [r.value]
      ensures old(prev.None? || Plausible(prev.value, current.value)) ==>
                done == old(done) + [old(members)] && members == [p] && (r.None? ==> deltas == old(deltas))
      ensures old(prev.Some? && !Plausible(prev.value, current.value)) ==>
                if old(Upsets(prev.value, current.value, reordered + 1)) then IsReset()
                else done == old(done) && members == old(members) && deltas == old(deltas)
    {
      r := None;
      if prev.Some? {
        var d := Between(prev.value, current.value);
        if d.arrival - (current.value.system - prev.value.system) >= OFFSET_LIMIT {
          Reset();
          return;
        }
        if d.arrival < 0 {
          reordered := reordered + 1;
          if reordered >= REORDER_LIMIT { Reset(); }
          return;
        }
        reordered := 0;
        r := Some(d);
      }
      Complete(p);
    }

    /** The outcome of a call, seen from its result and the state it left. */
    function Answer(r: Option<Delta>): Report
      reads this
    { if r.Some? then Reported(r.value) else if current.None? then Forgot else Silent }

    method Begin(p: Packet)
      requires Valid() && current.None?
      modifies this`current, this`members
      ensures Valid() && members == [p] && current == Some(First(p))
    {
      SingleGroup(p, length);
      current := Some(First(p));
      members := [p];
    }

    method Join(p: Packet)
      requires Valid() && current.Some? && p.send >= current.value.firstSend && !Starts(current.value, p, length)
      modifies this`current, this`members
      ensures Valid() && members == old(members) + [p] && current == Some(Joined(old(current).value, p))
    {
      JoinGroup(members, p, length);
      var g := current.value;
      var latest := if g.send < p.send then p.send else g.send;
      current := Some(g.(send := latest, size := g.size + p.size, complete := p.arrival, system := p.system));
      members := members + [p];
      assert members[0] == old(members)[0];
    }

    method Complete(p: Packet)
      requires Valid() && current.Some? && p.send >= current.value.firstSend && Starts(current.value, p, length)
      requires prev.Some? ==> Plausible(prev.value, current.value)
      modifies this`current, this`prev, this`members, this`done, this`deltas
      ensures Valid() && members == [p] && current == Some(First(p)) && prev == old(current)
      ensures done == old(done) + [old(members)]
      ensures deltas == old(deltas) + if old(prev.Some?) then [old(Between(prev.value, current.value))] else []
    {
      SingleGroup(p, length);
      ChainGrows(done, deltas, members, length);
      deltas := deltas + if prev.Some? then [Between(prev.value, current.value)] else [];
      done := done + [members];
      prev := current;
      current := Some(First(p));
      members := [p];
    }
  }

  // ---- Runs --------------------------------------------------------------------------------

  ghost function Flat(groups: seq<seq<Packet>>): seq<Packet> {
    if groups == [] then [] else Flat(groups[..|groups| - 1]) + groups[|groups| - 1]
  }

  /** The elements of a occur in b, in this order. */
  ghost predicate Within(a: seq<Packet>, b: seq<Packet>)
    decreases |b|
  {
    || a == []
    || (b != [] && (|| (a[|a| - 1] == b[|b| - 1] && Within(a[..|a| - 1], b[..|b| - 1]))
                    || Within(a, b[..|b| - 1])))
  }

  lemma WithinMore(a: seq<Packet>, b: seq<Packet>, p: Packet)
    requires Within(a, b)
    ensures Within(a, b + [p]) && Within(a + [p], b + [p])
  {
    assert (b + [p])[..|b|] == b && (a + [p])[..|a|] == a;
  }

  lemma {:induction false} WithinPrefix(a: seq<Packet>, c: seq<Packet>, b: seq<Packet>)
    requires Within(a + c, b)
    ensures Within(a, b)
    decreases |b|
  {
    if c == [] {
      assert a + c == a;
    } else if b != [] && a != [] {
      var s := a + c;
      if Within(s, b[..|b| - 1]) {
        WithinPrefix(a, c, b[..|b| - 1]);
      } else {
        assert s[..|s| - 1] == a + c[..|c| - 1];
        WithinPrefix(a, c[..|c| - 1], b[..|b| - 1]);
      }
    }
  }

  lemma FlatNext(groups: seq<seq<Packet>>, ms: seq<Packet>)
    ensures Flat(groups + [ms]) == Flat(groups) + ms
  {
    assert (groups + [ms])[..|groups|] == groups;
  }

  /** The differences are those of consecutive groups of the packets, taken in order; they add up to the
      difference between the first and the last of these groups. */
  ghost predicate Explained(deltas: seq<Delta>, groups: seq<seq<Packet>>, length: int, packets: seq<Packet>) {
    && Chain(groups, deltas, length) && Within(Flat(groups), packets)
    && (groups != [] ==> Total(deltas) == Between(GroupOf(groups[0]), GroupOf(groups[|groups| - 1])))
  }

  ghost predicate HasGroups(deltas: seq<Delta>, length: int, packets: seq<Packet>) {
    exists groups :: Explained(deltas, groups, length, packets)
  }

  /** What is reported between two resets are the differences of groups of the packets. */
  ghost predicate AllGrouped(reports: seq<Report>, length: int, packets: seq<Packet>) {
    forall e :: 0 <= e < |Split(reports)| ==> HasGroups(Split(reports)[e], length, packets)
  }

  lemma Explain(deltas: seq<Delta>, groups: seq<seq<Packet>>, ms: seq<Packet>, length: int, packets: seq<Packet>)
    requires Chain(groups, deltas, length) && Within(Flat(groups) + ms, packets)
    ensures Explained(deltas, groups, length, packets)
  {
    WithinPrefix(Flat(groups), ms, packets);
    if groups != [] { Telescopes(groups, deltas, length); }
  }

  lemma ExplainedLater(deltas: seq<Delta>, groups: seq<seq<Packet>>, length: int, packets: seq<Packet>, p: Packet)
    requires Explained(deltas, groups, length, packets)
    ensures Explained(deltas, groups, length, packets + [p])
  {
    WithinMore(Flat(groups), packets, p);
  }

  ghost predicate AllExplained(runs: seq<seq<Delta>>, groups: seq<seq<seq<Packet>>>, length: int, packets: seq<Packet>)
  {
    |groups| == |runs| && forall e :: 0 <= e < |runs| ==> Explained(runs[e], groups[e], length, packets)
  }

  lemma AllExplainedLater(runs: seq<seq<Delta>>, groups: seq<seq<seq<Packet>>>, length: int, packets: seq<Packet>,
                          p: Packet)
    requires AllExplained(runs, groups, length, packets)
    ensures AllExplained(runs, groups, length, packets + [p])
  {
    forall e | 0 <= e < |runs| ensures Explained(runs[e], groups[e], length, packets + [p]) {
      ExplainedLater(runs[e], groups[e], length, packets, p);
    }
  }

  /** One packet: what the machine has taken stays a part of the packets, in order. */
  method Feed(machine: InterArrivalDelta, ghost before: seq<Packet>, p: Packet) returns (r: Report)
    requires machine.Valid() && Within(Flat(machine.done) + machine.members, before)
    modifies machine
    ensures machine.Valid() && Within(Flat(machine.done) + machine.members, before + [p])
    ensures (machine.View(), r) == Step(old(machine.View()), p, machine.length)
    ensures machine.deltas == match r case Silent => old(machine.deltas)
                                      case Reported(d) => old(machine.deltas) + [d]
                                      case Forgot => []
  {
    ghost var done, members := machine.done, machine.members;
    WithinMore(Flat(done) + members, before, p);
    FlatNext(done, members);
    var d := machine.ComputeDeltas(p);
    r := machine.Answer(d);
    assert Flat(done) + members + [p] == Flat(done) + (members + [p]);
    if machine.done != done && machine.done != [] {
      assert machine.done == done + [members];
      assert Flat(machine.done) + machine.members == Flat(done) + members + [p];
    }
  }

  lemma AnswersNext(reports: seq<Report>, packets: seq<Packet>, length: int, p: Packet)
    requires Answers(reports, packets, length)
    ensures var (m, r) := Step(After(packets, length), p, length);
            After(packets + [p], length) == m && Answers(reports + [r], packets + [p], length)
  {
    var all := packets + [p];
    assert all[..|packets|] == packets;
    forall i | 0 <= i < |reports| ensures all[..i] == packets[..i] { }
  }

  lemma SplitNext(reports: seq<Report>, r: Report, runs: seq<seq<Delta>>, latest: seq<Delta>)
    requires Split(reports) == runs + [latest]
    ensures Split(reports + [r]) == match r case Silent => runs + [latest]
                                            case Reported(d) => runs + [latest + [d]]
                                            case Forgot => runs + [latest] + [[]]
  {
    assert (reports + [r])[..|reports|] == reports;
    assert (runs + [latest])[..|runs|] == runs;
  }

  /** A machine after the packets: its state, its reports, and the packets it has taken, as of now and up to
      each reset. */
  ghost predicate Tracks(m: Machine, taken: seq<Packet>, latest: seq<Delta>, reports: seq<Report>,
                         runs: seq<seq<Delta>>, groups: seq<seq<seq<Packet>>>, packets: seq<Packet>, length: int)
  {
    && m == After(packets, length) && Answers(reports, packets, length) && Split(reports) == runs + [latest]
    && Within(taken, packets) && AllExplained(runs, groups, length, packets)
  }

  lemma TracksNext(m: Machine, done: seq<seq<Packet>>, members: seq<Packet>, latest: seq<Delta>, reports: seq<Report>,
                   runs: seq<seq<Delta>>, groups: seq<seq<seq<Packet>>>, packets: seq<Packet>, length: int,
                   p: Packet, m': Machine, r: Report, taken: seq<Packet>, latest': seq<Delta>)
    requires Tracks(m, Flat(done) + members, latest, reports, runs, groups, packets, length) &&
             Chain(done, latest, length)
    requires (m', r) == Step(m, p, length) && Within(taken, packets + [p])
    requires latest' == match r case Silent => latest case Reported(d) => latest + [d] case Forgot => []
    ensures Tracks(m', taken, latest', reports + [r], if r.Forgot? then runs + [latest] else runs,
                   if r.Forgot? then groups + [done] else groups, packets + [p], length)
  {
    AnswersNext(reports, packets, length, p);
    SplitNext(reports, r, runs, latest);
    if r.Forgot? {
      Explain(latest, done, members, length, packets);
      AllExplainedLater(runs + [latest], groups + [done], length, packets, p);
    } else {
      AllExplainedLater(runs, groups, length, packets, p);
    }
  }

  /** Whole runs: one report for each packet; the differences reported between two resets are those of
      consecutive groups of the packets. */
  method Run(length: int, packets: seq<Packet>) returns (reports: seq<Report>)
    ensures Answers(reports, packets, length) && AllGrouped(reports, length, packets)
  {
    var machine := new InterArrivalDelta(length);
    reports := [];
    ghost var runs: seq<seq<Delta>> := [];
    ghost var groups: seq<seq<seq<Packet>>> := [];
    ghost var seen: seq<Packet> := [];
    TracksNothing(length);
    for i := 0 to |packets|
      invariant machine.Valid() && machine.length == length
      invariant machine.Follows(reports, runs, groups, seen) && seen == packets[..i]
    {
      var r;
      r, runs, groups := FeedNext(machine, reports, runs, groups, seen, packets[i]);
      reports, seen := reports + [r], seen + [packets[i]];
    }
    assert seen == packets;
    TracksAll(machine.View(), machine.done, machine.members, machine.deltas, reports, runs, groups, packets, length);
  }

  lemma TracksNothing(length: int)
    ensures Tracks(START, Flat([]) + [], [], [], [], [], [], length)
  {
  }

  method FeedNext(machine: InterArrivalDelta, ghost reports: seq<Report>, ghost runs: seq<seq<Delta>>,
                  ghost groups: seq<seq<seq<Packet>>>, ghost before: seq<Packet>, p: Packet)
    returns (r: Report, ghost runs': seq<seq<Delta>>, ghost groups': seq<seq<seq<Packet>>>)
    requires machine.Valid() && machine.Follows(reports, runs, groups, before)
    modifies machine
    ensures machine.Valid() && machine.Follows(reports + [r], runs', groups', before + [p])
  {
    ghost var m, done, members, latest := machine.View(), machine.done, machine.members, machine.deltas;
    r := Feed(machine, before, p);
    TracksNext(m, done, members, latest, reports, runs, groups, before, machine.length, p, machine.View(), r,
               Flat(machine.done) + machine.members, machine.deltas);
    runs', groups' := if r.Forgot? then runs + [latest] else runs, if r.Forgot? then groups + [done] else groups;
  }

  lemma TracksAll(m: Machine, done: seq<seq<Packet>>, members: seq<Packet>, latest: seq<Delta>, reports: seq<Report>,
                  runs: seq<seq<Delta>>, groups: seq<seq<seq<Packet>>>, packets: seq<Packet>, length: int)
    requires Tracks(m, Flat(done) + members, latest, reports, runs, groups, packets, length) &&
             Chain(done, latest, length)
    ensures Answers(reports, packets, length) && AllGrouped(reports, length, packets)
  {
    Explain(latest, done, members, length, packets);
    AllHaveGroups(runs + [latest], groups + [done], length, packets);
  }

  lemma AllHaveGroups(runs: seq<seq<Delta>>, groups: seq<seq<seq<Packet>>>, length: int, packets: seq<Packet>)
    requires AllExplained(runs, groups, length, packets)
    ensures forall e :: 0 <= e < |runs| ==> HasGroups(runs[e], length, packets)
  {
  }
}
