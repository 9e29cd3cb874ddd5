/**
 The logger object as its methods change it, each call running alone: the
 interleavings between them are the subject of `LoggerProtocol`.
 */
module Logging {
  import opened Words
  import opened Sums
  import opened SpscRing

  type Text = string

  datatype KeyValue = None | Integer(key: Text, value: int) | Real(key: Text, bits: int)

  datatype Record = Record(tsMonoNs: nat, seqNo: u64, level: nat, component: Text, msg: Text, kv: seq<KeyValue>)

  datatype Line = RecordLine(r: Record) | DropLine(dropped: u64)

  const COMPONENT_SIZE := 16
  const MSG_SIZE := 96
  const MAX_KEY_VALUES := 4
  const CAPACITY := 1024
  const RING_BITS := 10
  const REPORT_PERIOD_NS := 1_000_000_000

  /** What fits before the terminating zero. */
  function Truncated(s: Text, size: nat): (t: Text)
    requires size > 0
    ensures t <= s && |t| < size && (|s| < size ==> t == s) && (|s| >= size ==> |t| == size - 1)
  {
    if |s| < size then s else s[..size - 1]
  }

  function MakeRecord(ts: nat, stamp: u64, level: nat, component: Text, msg: Text, kv: seq<KeyValue>): (r: Record)
    ensures r.tsMonoNs == ts && r.seqNo == stamp && r.level == level
    ensures r.component == if |component| < 16 then component else component[..15]
    ensures r.msg == if |msg| < 96 then msg else msg[..95]
    ensures r.kv == if |kv| <= 4 then kv else kv[..4]
  {
    Record(ts, stamp, level, Truncated(component, COMPONENT_SIZE), Truncated(msg, MSG_SIZE),
           if |kv| <= MAX_KEY_VALUES then kv else kv[..MAX_KEY_VALUES])
  }

  function Lines(q: seq<Record>): (ls: seq<Line>)
    ensures |ls| == |q| && forall i :: 0 <= i < |q| ==> ls[i] == RecordLine(q[i])
  {
    seq(|q|, i requires 0 <= i < |q| => RecordLine(q[i]))
  }

  /** The output after these records have been written to it. */
  function Printed(out: seq<Line>, q: seq<Record>): (now: seq<Line>) {
    out + Lines(q)
  }

  lemma PrintedTwice(out: seq<Line>, q: seq<Record>, r: seq<Record>)
    ensures Printed(out, []) == out && Printed(Printed(out, q), r) == Printed(out, q + r)
  {
  }

  /** The output after a drop report that finds `total` where `before` had been reported. */
  function WithReport(out: seq<Line>, before: u64, total: u64): (now: seq<Line>)
    ensures |now| == |out| + (if total == before then 0 else 1) && now[..|out|] == out
    ensures total != before ==>
              && now[|out|].DropLine? && now[|out|].dropped > 0
              && (before + now[|out|].dropped) % TWO64 == total
  {
    if total == before then out else out + [DropLine(Sub64(total, before))]
  }

  /** A 64-bit counter after `n` increments. */
  function Plus(w: u64, n: nat): u64 {
    (w + n) % TWO64
  }

  lemma PlusTwice(w: u64, m: nat, n: nat)
    ensures Plus(Plus(w, m), n) == Plus(w, m + n) && Plus(w, 0) == w
  {
  }

  class Producer {
    const ring: Ring<Record>
    var dropped: u64

    constructor ()
      ensures dropped == 0
      ensures fresh(ring) && fresh(ring.slots) && ring.Valid() && ring.k == RING_BITS && ring.Contents() == []
    {
      ring := new Ring(RING_BITS);
      dropped := 0;
    }
  }

  // What is said about the registered producers, as a list.

  ghost function Owned(ps: seq<Producer>): set<object> {
    (set p: Producer | p in ps :: p) + (set p: Producer | p in ps :: p.ring)
        + (set p: Producer | p in ps :: p.ring.slots)
  }

  lemma OwnedHas(ps: seq<Producer>, i: nat)
    requires i < |ps|
    ensures ps[i] in Owned(ps) && ps[i].ring in Owned(ps) && ps[i].ring.slots in Owned(ps)
  {
    assert ps[i] in ps;
  }

  ghost predicate Separate(ps: seq<Producer>) {
    forall i, j :: 0 <= i < j < |ps|
        ==> ps[i] != ps[j] && ps[i].ring != ps[j].ring && ps[i].ring.slots != ps[j].ring.slots
  }

  lemma CapacityIsPower()
    ensures Pow2(RING_BITS) == CAPACITY
  {
    assert Pow2(5) == 32;
    Pow2Add(5, 5);
  }

  lemma RingsApart(ps: seq<Producer>, i: nat)
    requires Separate(ps) && i < |ps|
    ensures forall j :: 0 <= j < |ps| && j != i ==>
              ps[j] != ps[i] && ps[j].ring != ps[i].ring && ps[j].ring.slots != ps[i].ring.slots
  {
  }

  ghost predicate RingsValid(ps: seq<Producer>)
    reads Owned(ps)
  {
    forall i :: 0 <= i < |ps| ==> ps[i].ring.Valid() && ps[i].ring.k == RING_BITS
  }

  /** The unread records of every ring, in registration order. */
  ghost function Pending(ps: seq<Producer>): (q: seq<seq<Record>>)
    requires RingsValid(ps)
    reads Owned(ps)
    ensures |q| == |ps| && forall i :: 0 <= i < |ps| ==> q[i] == ps[i].ring.Contents()
  {
    seq(|ps|, i requires 0 <= i < |ps| && RingsValid(ps) reads Owned(ps) => assert ps[i] in ps; ps[i].ring.Contents())
  }

  ghost function Drops(ps: seq<Producer>): (d: seq<u64>)
    reads Owned(ps)
    ensures |d| == |ps| && forall i :: 0 <= i < |ps| ==> d[i] == ps[i].dropped
  {
    seq(|ps|, i requires 0 <= i < |ps| reads Owned(ps) => assert ps[i] in ps; ps[i].dropped)
  }

  function Flatten(qs: seq<seq<Record>>): (q: seq<Record>) {
    if qs == [] then [] else Flatten(qs[..|qs| - 1]) + qs[|qs| - 1]
  }

  lemma FlattenEnds(qs: seq<seq<Record>>)
    ensures Flatten(qs[..0]) == [] && qs[..|qs|] == qs
  {
  }

  lemma FlattenTake(qs: seq<seq<Record>>, i: nat)
    requires i < |qs|
    ensures Flatten(qs[..i + 1]) == Flatten(qs[..i]) + qs[i]
  {
    assert qs[..i + 1][..i] == qs[..i];
  }

  function Lengths(qs: seq<seq<Record>>): (ns: seq<nat>)
    ensures |ns| == |qs| && forall i :: 0 <= i < |qs| ==> ns[i] == |qs[i]|
  {
    seq(|qs|, i requires 0 <= i < |qs| => |qs[i]|)
  }

  lemma {:induction false} FlattenLength(qs: seq<seq<Record>>)
    ensures |Flatten(qs)| == Sum(Lengths(qs))
  {
    if qs == [] {
    } else {
      var n := |qs| - 1;
      FlattenLength(qs[..n]);
      assert Lengths(qs)[..n] == Lengths(qs[..n]);
    }
  }

  /** Where record `j` of list `k` comes: after all earlier lists and the `j` records before it. */
  function Place(qs: seq<seq<Record>>, k: nat, j: nat): (p: int)
    requires k < |qs| && j < |qs[k]|
    ensures p == Sum(Lengths(qs)[..k]) + j
  {
    Sum(Lengths(qs)[..k]) + j
  }

  lemma {:induction false} FlattenAt(qs: seq<seq<Record>>, k: nat, j: nat)
    requires k < |qs| && j < |qs[k]|
    ensures 0 <= Place(qs, k, j) < |Flatten(qs)| && Flatten(qs)[Place(qs, k, j)] == qs[k][j]
    decreases |qs|
  {
    var n := |qs| - 1;
    assert Lengths(qs)[..n] == Lengths(qs[..n]);
    if k == n {
      FlattenLength(qs[..n]);
    } else {
      FlattenAt(qs[..n], k, j);
      assert Lengths(qs)[..k] == Lengths(qs[..n])[..k];
    }
  }

  /** The output has grown by these lists of records, one line each, every list in order and the lists in order. */
  ghost predicate Grown(before: seq<Line>, qs: seq<seq<Record>>, now: seq<Line>) {
    && |now| == |before| + Sum(Lengths(qs)) && before <= now
    && forall k, j :: 0 <= k < |qs| && 0 <= j < |qs[k]| ==>
         0 <= Place(qs, k, j) < Sum(Lengths(qs)) && now[|before| + Place(qs, k, j)] == RecordLine(qs[k][j])
  }

  /** The same, followed by a drop report exactly when the number reported has changed, which names the increase. */
  ghost predicate GrownAndReported(before: seq<Line>, qs: seq<seq<Record>>, was: u64, total: u64, now: seq<Line>) {
    if total == was then Grown(before, qs, now)
    else
      && now != [] && Grown(before, qs, now[..|now| - 1])
      && now[|now| - 1].DropLine? && now[|now| - 1].dropped > 0
      && (was + now[|now| - 1].dropped) % TWO64 == total
  }

  /** What printing several lists of records adds to the output. */
  lemma PrintedLines(before: seq<Line>, qs: seq<seq<Record>>)
    ensures Grown(before, qs, Printed(before, Flatten(qs)))
  {
    hide Sum; hide Flatten; hide Place;
    FlattenLength(qs);
    forall k, j | 0 <= k < |qs| && 0 <= j < |qs[k]|
      ensures 0 <= Place(qs, k, j) < |Flatten(qs)| && Flatten(qs)[Place(qs, k, j)] == qs[k][j]
    {
      FlattenAt(qs, k, j);
    }
  }

  lemma ReportedLines(before: seq<Line>, qs: seq<seq<Record>>, was: u64, total: u64)
    ensures GrownAndReported(before, qs, was, total, WithReport(Printed(before, Flatten(qs)), was, total))
  {
    hide Grown; hide Printed; hide Flatten;
    PrintedLines(before, qs);
    var mid, now := Printed(before, Flatten(qs)), WithReport(Printed(before, Flatten(qs)), was, total);
    assert total != was ==> now[..|now| - 1] == mid;
  }

  lemma FlattenNothing(qs: seq<seq<Record>>)
    requires forall i :: 0 <= i < |qs| ==> qs[i] == []
    ensures Flatten(qs) == []
  {
    FlattenLength(qs);
    SumZero(Lengths(qs));
  }

  /** Log calls written, dropped or waiting, as far as 64-bit counters can tell. */
  function Balance(written: u64, drops: seq<u64>, pending: seq<seq<Record>>): u64 {
    (written + Sum(drops) + |Flatten(pending)|) % TWO64
  }

  /** A ring nobody has used yet weighs nothing. */
  lemma NewRingBalance(w: u64, drops: seq<u64>, pending: seq<seq<Record>>)
    ensures Balance(w, drops + [0], pending + [[]]) == Balance(w, drops, pending)
  {
    SumAppend(drops, 0);
    assert (pending + [[]])[..|pending|] == pending;
  }

  /** A record taken by a ring, or one counted as dropped, weighs one. */
  lemma LoggedBalance(w: u64, drops: seq<u64>, pending: seq<seq<Record>>, i: nat, r: Record)
    requires i < |drops| == |pending|
    ensures Balance(w, drops, pending[i := pending[i] + [r]]) == Add64(Balance(w, drops, pending), 1)
    ensures Balance(w, drops[i := Add64(drops[i], 1)], pending) == Add64(Balance(w, drops, pending), 1)
  {
    hide Flatten; hide Sum;
    var more := pending[i := pending[i] + [r]];
    FlattenLength(pending);
    FlattenLength(more);
    SumUpdate(Lengths(pending), i, |pending[i]| + 1);
    assert Lengths(more) == Lengths(pending)[i := |pending[i]| + 1];
    SumUpdate(drops, i, Add64(drops[i], 1));
  }

  lemma WrapTwice(a: int, b: int)
    ensures (a % TWO64 + b) % TWO64 == (a + b) % TWO64
  {
  }

  /** Writing out everything that waits moves it from one count to the other. */
  lemma DrainedBalance(w: u64, drops: seq<u64>, pending: seq<seq<Record>>, empty: seq<seq<Record>>)
    requires forall i :: 0 <= i < |empty| ==> empty[i] == []
    ensures Balance(Plus(w, |Flatten(pending)|), drops, empty) == Balance(w, drops, pending)
    ensures Balance(w, drops, empty) == (w + Sum(drops)) % TWO64
  {
    hide Sum; hide Flatten;
    FlattenNothing(empty);
    var n := |Flatten(pending)|;
    WrapTwice(w + n, Sum(drops));
  }

  /** What offering a record to ring `i` does to what waits and to what was dropped. */
  function Offered(pending: seq<seq<Record>>, drops: seq<u64>, i: nat, r: Record): (seq<seq<Record>>, seq<u64>)
    requires i < |pending| == |drops|
  {
    if |pending[i]| < CAPACITY then (pending[i := pending[i] + [r]], drops)
    else (pending, drops[i := Add64(drops[i], 1)])
  }

  class Logger {
    var level: nat
    var written: u64
    var nextSeq: u64
    var reported: u64
    var lastDropReport: int
    var running: bool
    var producers: seq<Producer>
    /** The thread-local pointers whose owner id is this logger's. */
    var cached: map<nat, nat>
    var out: seq<Line>

    ghost predicate Valid()
      reads this, Owned(producers)
    {
      && Separate(producers)
      && this !in Owned(producers)
      && RingsValid(producers)
      && (forall t :: t in cached ==> cached[t] < |producers|)
    }

    constructor ()
      ensures Valid() && producers == [] && out == [] && written == nextSeq == reported == 0 && !running
    {
      level := 2;
      written, nextSeq, reported, lastDropReport := 0, 0, 0, 0;
      running := false;
      producers, cached, out := [], map[], [];
    }

    /** The count that only an accepted log call changes. */
    ghost function Accounted(): u64
      requires Valid()
      reads this, Owned(producers)
    {
      Balance(written, Drops(producers), Pending(producers))
    }

    /** Where the calling thread's records go, and what the rings hold once that ring exists. */
    ghost function RingOf(thread: nat): nat
      reads this
    {
      if thread in cached then cached[thread] else |producers|
    }

    ghost function PendingWith(thread: nat): (q: seq<seq<Record>>)
      requires Valid()
      reads this, Owned(producers)
      ensures RingOf(thread) < |q|
    {
      if thread in cached then Pending(producers) else Pending(producers) + [[]]
    }

    ghost function DropsWith(thread: nat): (d: seq<u64>)
      requires Valid()
      reads this, Owned(producers)
      ensures |d| == |PendingWith(thread)|
    {
      if thread in cached then Drops(producers) else Drops(producers) + [0]
    }

    /** The calling thread's ring, registered on its first call here and whenever it has logged elsewhere since. */
    method ProducerFor(thread: nat) returns (i: nat)
      requires Valid()
      modifies this`producers, this`cached
      ensures Valid() && i == old(RingOf(thread)) < |producers|
      ensures old(thread in cached) ==> producers == old(producers)
      ensures old(thread !in cached) ==>
                && producers[..i] == old(producers) && |producers| == i + 1
                && fresh(producers[i]) && fresh(producers[i].ring) && fresh(producers[i].ring.slots)
      ensures cached == old(cached)[thread := i]
      ensures Pending(producers) == old(PendingWith(thread)) && Drops(producers) == old(DropsWith(thread))
      ensures Accounted() == old(Accounted())
    {
      hide Balance; hide Window; hide Pow2; hide Sub64; hide Pending; hide Drops;
      if thread in cached {
        i := cached[thread];
        return;
      }
      NewRingBalance(written, Drops(producers), Pending(producers));
      var p := new Producer();
      i := |producers|;
      producers := producers + [p];
      cached := cached[thread := i];
      assert Drops(producers) == old(Drops(producers)) + [0];
      assert Pending(producers) == old(Pending(producers)) + [[]];
    }

    /** The thread logs to another logger: its pointer here is gone, its old ring and what waits in it stay. */
    method UseOtherLogger(thread: nat)
      requires Valid()
      modifies this`cached
      ensures Valid() && cached == old(cached) - {thread}
      ensures Pending(producers) == old(Pending(producers)) && Accounted() == old(Accounted())
    {
      hide Balance; hide Pending; hide Drops; hide Separate;
      cached := cached - {thread};
      assert Drops(producers) == old(Drops(producers));
    }

    /** Push, or count a drop when the ring is full. */
    method Offer(p: Producer, ghost i: nat, r: Record)
      requires Valid() && i < |producers| && p == producers[i]
      modifies p`dropped, p.ring`write, p.ring.slots
      ensures Valid()
      ensures (Pending(producers), Drops(producers)) == Offered(old(Pending(producers)), old(Drops(producers)), i, r)
      ensures Accounted() == Add64(old(Accounted()), 1)
    {
      hide Balance; hide Window; hide Pow2; hide Sub64; hide Separate; hide Pending; hide Drops;
      ghost var q, d := Pending(producers), Drops(producers);
      LoggedBalance(written, d, q, i, r);
      CapacityIsPower();
      RingsApart(producers, i);
      var ok := p.ring.TryPush(r);
      if !ok {
        p.dropped := Add64(p.dropped, 1);
      }
      assert Pending(producers) == if ok then q[i := q[i] + [r]] else q;
      assert Drops(producers) == if ok then d else d[i := Add64(d[i], 1)];
    }

    method Log(thread: nat, ts: nat, lvl: nat, component: Text, msg: Text, kv: seq<KeyValue>)
      requires Valid()
      modifies this`producers, this`cached, this`nextSeq, Owned(producers)
      ensures Valid()
      ensures lvl < level ==>
                && unchanged(this)
                && Pending(producers) == old(Pending(producers)) && Drops(producers) == old(Drops(producers))
      ensures lvl >= level ==>
                && nextSeq == Add64(old(nextSeq), 1)
                && cached == old(cached)[thread := old(RingOf(thread))]
                && (Pending(producers), Drops(producers)) ==
                     Offered(old(PendingWith(thread)), old(DropsWith(thread)), old(RingOf(thread)),
                             MakeRecord(ts, old(nextSeq), lvl, component, msg, kv))
      ensures Accounted() == if lvl < level then old(Accounted()) else Add64(old(Accounted()), 1)
    {
      hide Balance; hide Owned; hide Separate; hide MakeRecord; hide Offered; hide Pending; hide Drops;
      if lvl < level {
        return;
      }
      var i := ProducerFor(thread);
      OwnedHas(producers, i);
      var r := MakeRecord(ts, nextSeq, lvl, component, msg, kv);
      nextSeq := Add64(nextSeq, 1);
      Offer(producers[i], i, r);
    }

    method WriteRecord(r: Record)
      modifies this`out, this`written
      ensures |out| == |old(out)| + 1 && out[..|old(out)|] == old(out) && out[|old(out)|] == RecordLine(r)
      ensures out == Printed(old(out), [r]) && written == Plus(old(written), 1)
    {
      out := out + [RecordLine(r)];
      written := Add64(written, 1);
    }

    /** The inner loop of a drain: one ring, oldest record first, until it is empty. */
    method DrainRing(ring: Ring<Record>) returns (n: nat)
      requires ring.Valid()
      modifies this`out, this`written, ring`read
      ensures ring.Valid() && ring.Contents() == []
      ensures out == Printed(old(out), old(ring.Contents()))
      ensures n == |old(ring.Contents())| && written == Plus(old(written), n)
    {
      hide Window; hide Pow2; hide Sub64; hide Plus; hide Printed;
      n := 0;
      ghost var q := ring.Contents();
      PlusTwice(written, 0, 0);
      PrintedTwice(out, [], []);
      var ok, r := ring.TryPop();
      while ok
        invariant ring.Valid() && n <= |q|
        invariant ok ==> n < |q| && r == q[n] && ring.Contents() == q[n + 1..]
        invariant !ok ==> n == |q| && ring.Contents() == []
        invariant out == Printed(old(out), q[..n]) && written == Plus(old(written), n)
        decreases |q| - n
      {
        PlusTwice(old(written), n, 1);
        PrintedTwice(old(out), q[..n], [r]);
        assert q[..n] + [r] == q[..n + 1];
        WriteRecord(r);
        n := n + 1;
        ok, r := ring.TryPop();
      }
      assert q[..n] == q;
    }

    /** The outer loop of a drain: every ring in registration order. */
    method DrainRings() returns (n: nat)
      requires Valid()
      modifies this`out, this`written, set p: Producer | p in producers :: p.ring
      ensures Valid()
      ensures forall i :: 0 <= i < |producers| ==> Pending(producers)[i] == []
      ensures out == Printed(old(out), Flatten(old(Pending(producers))))
      ensures n == |Flatten(old(Pending(producers)))| && written == Plus(old(written), n)
    {
      hide Window; hide Pow2; hide Sub64; hide Plus; hide Printed; hide Flatten; hide Pending; hide Separate;
      hide Owned;
      n := 0;
      ghost var q := Pending(producers);
      FlattenEnds(q);
      PlusTwice(written, 0, 0);
      PrintedTwice(out, [], []);
      var i := 0;
      while i < |producers|
        invariant 0 <= i <= |producers| && RingsValid(producers)
        invariant forall j :: 0 <= j < |producers| ==> producers[j].ring.Contents() == if j < i then [] else q[j]
        invariant out == Printed(old(out), Flatten(q[..i]))
        invariant n == |Flatten(q[..i])| && written == Plus(old(written), n)
      {
        RingsApart(producers, i);
        var m := DrainRing(producers[i].ring);
        PlusTwice(old(written), n, m);
        PrintedTwice(old(out), Flatten(q[..i]), q[i]);
        n := n + m;
        FlattenTake(q, i);
        i := i + 1;
      }
    }

    method DrainNow() returns (n: nat)
      requires Valid()
      modifies this`out, this`written, set p: Producer | p in producers :: p.ring
      ensures Valid()
      ensures forall i :: 0 <= i < |producers| ==> Pending(producers)[i] == []
      ensures out == Printed(old(out), Flatten(old(Pending(producers))))
      ensures n == |Flatten(old(Pending(producers)))| && written == Plus(old(written), n)
      ensures Drops(producers) == old(Drops(producers)) && Accounted() == old(Accounted())
      ensures n == Sum(Lengths(old(Pending(producers)))) && Grown(old(out), old(Pending(producers)), out)
    {
      hide Grown;
      hide Plus; hide Printed; hide Flatten; hide Pending; hide Drops; hide Separate; hide Balance; hide Sum;
      ghost var w, d, q := written, Drops(producers), Pending(producers);
      PrintedLines(out, q);
      FlattenLength(q);
      n := DrainRings();
      assert Drops(producers) == d;
      DrainedBalance(w, d, q, Pending(producers));
    }

    /** The sum of the drop counters, as 64-bit addition gives it. */
    method TotalDrops() returns (total: u64)
      requires Valid()
      ensures total == Sum(Drops(producers)) % TWO64
    {
      hide Sum;
      total := 0;
      SumNone(Drops(producers));
      var i := 0;
      while i < |producers|
        invariant 0 <= i <= |producers| && total == Sum(Drops(producers)[..i]) % TWO64
      {
        SumTake(Drops(producers), i);
        total := Add64(total, producers[i].dropped);
        i := i + 1;
      }
      assert Drops(producers)[..i] == Drops(producers);
    }

    method ReportDrops()
      requires Valid()
      modifies this`out, this`reported
      ensures Valid() && reported == Sum(Drops(producers)) % TWO64
      ensures Pending(producers) == old(Pending(producers)) && Accounted() == old(Accounted())
      ensures out == WithReport(old(out), old(reported), reported)
      ensures out[..|old(out)|] == old(out)
      ensures Sum(Drops(producers)) % TWO64 == old(reported) ==> out == old(out)
      ensures Sum(Drops(producers)) % TWO64 != old(reported) ==>
                && |out| == |old(out)| + 1 && out[|old(out)|].DropLine? && out[|old(out)|].dropped > 0
                && (old(reported) + out[|old(out)|].dropped) % TWO64 == Sum(Drops(producers)) % TWO64
    {
      hide Sum; hide Sub64; hide Balance; hide Pending; hide Drops; hide Separate; hide Owned;
      var total := TotalDrops();
      assert Drops(producers) == old(Drops(producers));
      if total == reported {
        return;
      }
      out := out + [DropLine(Sub64(total, reported))];
      reported := total;
    }

    method Stats() returns (written: u64, dropped: u64, count: nat)
      requires Valid()
      ensures written == this.written && count == |producers| && dropped == Sum(Drops(producers)) % TWO64
    {
      dropped := TotalDrops();
      written, count := this.written, |producers|;
    }

    /** One turn of the sink loop; an idle turn is one that drained nothing. */
    method SinkTurn(now: int) returns (idle: bool)
      requires Valid()
      modifies this`out, this`written, this`reported, this`lastDropReport, set p: Producer | p in producers :: p.ring
      ensures Valid() && Accounted() == old(Accounted())
      ensures forall i :: 0 <= i < |producers| ==> Pending(producers)[i] == []
      ensures idle <==> Flatten(old(Pending(producers))) == []
      ensures lastDropReport == if now - old(lastDropReport) >= REPORT_PERIOD_NS then now else old(lastDropReport)
      ensures Drops(producers) == old(Drops(producers))
      ensures reported == if now - old(lastDropReport) >= REPORT_PERIOD_NS then Sum(Drops(producers)) % TWO64
          else old(reported)
      ensures out == WithReport(Printed(old(out), Flatten(old(Pending(producers)))), old(reported), reported)
      ensures GrownAndReported(old(out), old(Pending(producers)), old(reported), reported, out)
    {
      hide WithReport;
      hide GrownAndReported;
      hide Flatten; hide Printed; hide Plus; hide Balance; hide Sum; hide Pending; hide Drops; hide Separate;
      hide Owned;
      var n := DrainNow();
      if now - lastDropReport >= REPORT_PERIOD_NS {
        ReportDrops();
        lastDropReport := now;
      }
      idle := n == 0;
      ReportedLines(old(out), old(Pending(producers)), old(reported), reported);
    }

    method Start(now: int)
      modifies this`running, this`lastDropReport
      ensures running && lastDropReport == if old(running) then old(lastDropReport) else now
    {
      if running {
        return;
      }
      lastDropReport := now;
      running := true;
    }

    /** What a started logger does on `stop()`: the sink's last drain and report, then the join. */
    method Stop()
      requires Valid()
      modifies this`out, this`written, this`reported, this`running, set p: Producer | p in producers :: p.ring
      ensures Valid() && !running && Accounted() == old(Accounted())
      ensures Drops(producers) == old(Drops(producers))
      ensures !old(running) ==> unchanged(this) && Pending(producers) == old(Pending(producers))
      ensures old(running) ==>
                && (forall i :: 0 <= i < |producers| ==> Pending(producers)[i] == [])
                && reported == Sum(Drops(producers)) % TWO64 && Add64(written, reported) == Accounted()
                && out == WithReport(Printed(old(out), Flatten(old(Pending(producers)))), old(reported), reported)
      ensures old(running) ==> GrownAndReported(old(out), old(Pending(producers)), old(reported), reported, out)
    {
      hide GrownAndReported;
      hide WithReport; hide Flatten; hide Printed; hide Plus; hide Sum; hide Pending; hide Drops; hide Separate;
      hide Owned; hide Balance;
      if !running {
        return;
      }
      var n := DrainNow();
      ReportDrops();
      DrainedBalance(written, Drops(producers), Pending(producers), Pending(producers));
      WrapTwice(Sum(Drops(producers)), written);
      running := false;
      ReportedLines(old(out), old(Pending(producers)), old(reported), reported);
    }

    /** Destruction stops and drains once more, but does not report again. */
    method Close()
      requires Valid()
      modifies this`out, this`written, this`reported, this`running, set p: Producer | p in producers :: p.ring
      ensures Valid() && !running && Accounted() == old(Accounted())
      ensures forall i :: 0 <= i < |producers| ==> Pending(producers)[i] == []
      ensures out == WithReport(Printed(old(out), Flatten(old(Pending(producers)))), old(reported), reported)
      ensures reported == if old(running) then Sum(Drops(producers)) % TWO64 else old(reported)
      ensures GrownAndReported(old(out), old(Pending(producers)), old(reported), reported, out)
    {
      hide WithReport;
      hide GrownAndReported;
      hide Flatten; hide Printed; hide Plus; hide Sum; hide Pending; hide Drops; hide Separate; hide Owned;
      hide Balance;
      Stop();
      if old(running) {
        FlattenNothing(Pending(producers));
        PrintedTwice(out, [], []);
      }
      assert Drops(producers) == old(Drops(producers));
      var n := DrainNow();
      ReportedLines(old(out), old(Pending(producers)), old(reported), reported);
    }
  }
}
