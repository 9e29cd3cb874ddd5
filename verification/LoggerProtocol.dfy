/**
 The whole logger as one interleaved system: any number of producing threads,
 the rings they register, callers of `drain_now`, `stats` readers and the sink
 thread through repeated start and stop.

 A ring is the ring protocol's state, so every shared access of a push or pop is
 a step of its own here too. Registration, a drain, a drop report and a stats
 scan exclude each other through the mutex. A relaxed load of a drop counter may
 return any value it has had since the last one this reader saw.
 */
module LoggerProtocol {
  import opened Wrappers
  import RP = RingProtocol

  /** A record word: the sequence stamp, or anything else. */
  datatype Word = Stamp(ticket: nat) | Payload(v: int)

  type Record = seq<Word>

  /** The word of a record that holds its `seq`. */
  const SEQ_WORD := 1

  datatype Producer = Producer(owner: nat, ring: RP.State<Word>, dropped: nat)

  /** Where a thread is in its current `log` call, once the level check has let it through. */
  datatype Call =
    | Idle
    | Called(payload: Record)
    | Ready(ring: nat, payload: Record)
    | Stamped(ring: nat, rec: Record)
    | Pushing(ring: nat, rec: Record)
    | Refused(ring: nat)

  /** `cached` is the thread-local ring pointer while its owner id is this logger's. */
  datatype Thread = Thread(cached: Option<nat>, call: Call)

  datatype Who = SinkThread | OtherCaller

  /** Who holds `producers_mutex_`, and how far through `producers_` the holder is. */
  datatype Mutex =
    | Free
    | Draining(who: Who, at: nat)
    | Reporting(at: nat, sum: nat)
    | Counting(at: nat, sum: nat, written: nat)

  /** Where the sink thread is; `Off` is not joinable, `Done` is finished but not yet joined. */
  datatype Sink =
    | Off
    | Top
    | LoopDrain
    | MayReport
    | FinalDrain
    | FinalReport
    | Compare(total: nat, final: bool)
    | Done

  /** One popped record: its ring, its position among that ring's pushes, its words. */
  datatype Entry = Entry(ring: nat, pos: nat, rec: Record)

  datatype State = State(
    producers: seq<Producer>,
    threads: seq<Thread>,
    mutex: Mutex,
    nextTicket: nat,
    accepted: nat,       // log calls that passed the level check
    log: seq<Entry>,     // popped records, in pop order
    written: nat,        // how many of them have been written out
    sink: Sink,
    stopRequested: bool,
    quiet: bool,         // the stop request came after every call had finished, and none began since
    seenDrops: seq<nat>, // the drop counts the sink can no longer read below
    lastScan: seq<nat>,  // the drop counts of the last finished report scan
    reported: nat,
    printed: seq<int>)   // the N of each printed `dropped=N`

  datatype Step =
    | Call(t: nat, payload: Record)
    | UseCached(t: nat)
    | Register(t: nat)
    | TakeTicket(t: nat)
    | Push(t: nat, step: RP.Step<Word>)
    | CountDrop(t: nat)
    | UseOtherLogger(t: nat)
    | BeginDrain(who: Who)
    | Pop(step: RP.Step<Word>)
    | WriteRecord
    | EndDrain
    | BeginStats(written: nat)
    | BeginReport
    | ReadDrops(v: nat)
    | EndStats
    | EndReport
    | PrintReport
    | Start
    | SinkGoOn
    | SinkSkipReport
    | SinkFinish
    | RequestStop(synced: bool)
    | Join

  /** A producing thread's own steps, outside the ring and the mutex. */
  predicate ThreadStep(step: Step) {
    step.Call? || step.UseCached? || step.TakeTicket? || step.CountDrop? || step.UseOtherLogger?
  }

  /** Taking, using and releasing the mutex, outside the rings. */
  predicate MutexStep(step: Step) {
    || step.BeginDrain? || step.WriteRecord? || step.EndDrain?
    || step.BeginStats? || step.BeginReport? || step.ReadDrops? || step.EndStats? || step.EndReport?
  }

  /** The sink thread's own steps and its owner's. */
  predicate SinkStep(step: Step) {
    || step.PrintReport? || step.Start? || step.SinkGoOn? || step.SinkSkipReport? || step.SinkFinish?
    || step.RequestStop? || step.Join?
  }

  ghost predicate GeometryOk(g: RP.Geometry) {
    g.Ok() && g.words > SEQ_WORD
  }

  ghost predicate Shape(g: RP.Geometry, s: State) {
    && GeometryOk(g)
    && (forall r :: 0 <= r < |s.producers| ==> RP.Shape(g, s.producers[r].ring))
    && |s.seenDrops| == |s.producers|
  }

  function TicketOf(rec: Record): nat {
    if |rec| > SEQ_WORD && rec[SEQ_WORD].Stamp? then rec[SEQ_WORD].ticket else 0
  }

  function EmptyRing(g: RP.Geometry): RP.State<Word> {
    RP.State(0, 0, seq(g.Capacity(), _ => seq(g.words, _ => Payload(0))), RP.PIdle, RP.CIdle, [], [], 0, 0)
  }

  ghost predicate AllIdle(threads: seq<Thread>) {
    forall t :: 0 <= t < |threads| ==> threads[t].call.Idle?
  }

  function SetCall(s: State, t: nat, call: Call): State
    requires t < |s.threads|
  {
    s.(threads := s.threads[t := s.threads[t].(call := call)])
  }

  ghost function RingStep(g: RP.Geometry, p: Producer, step: RP.Step<Word>): Producer
    requires RP.Shape(g, p.ring)
  {
    p.(ring := RP.Apply(g, p.ring, step))
  }

  /** Every publish so far becomes visible to whoever drains next. */
  ghost function Synced(g: RP.Geometry, p: Producer): (q: Producer)
    requires RP.Shape(g, p.ring)
    ensures RP.Shape(g, q.ring)
  {
    RingStep(g, p, RP.SyncConsumer(|p.ring.pushed|))
  }

  /** Unlocking after registering makes all of the thread's own earlier publishes visible. */
  ghost function SyncOwner(g: RP.Geometry, ps: seq<Producer>, t: nat): (qs: seq<Producer>)
    requires forall r :: 0 <= r < |ps| ==> RP.Shape(g, ps[r].ring)
    ensures |qs| == |ps|
    ensures forall r :: 0 <= r < |ps| ==> qs[r] == if ps[r].owner == t then Synced(g, ps[r]) else ps[r]
  {
    seq(|ps|, r requires 0 <= r < |ps| => if ps[r].owner == t then Synced(g, ps[r]) else ps[r])
  }

  ghost function SyncAll(g: RP.Geometry, ps: seq<Producer>): (qs: seq<Producer>)
    requires forall r :: 0 <= r < |ps| ==> RP.Shape(g, ps[r].ring)
    ensures |qs| == |ps|
    ensures forall r :: 0 <= r < |ps| ==> qs[r] == Synced(g, ps[r])
  {
    seq(|ps|, r requires 0 <= r < |ps| => Synced(g, ps[r]))
  }

  function Dropped(ps: seq<Producer>): (d: seq<nat>)
    ensures |d| == |ps| && forall r :: 0 <= r < |ps| ==> d[r] == ps[r].dropped
  {
    seq(|ps|, r requires 0 <= r < |ps| => ps[r].dropped)
  }

  // The steps of a producing thread.

  ghost function DoRegister(g: RP.Geometry, s: State, t: nat): (s': State)
    requires Shape(g, s)
    ensures Shape(g, s')
  {
    if t < |s.threads| && s.threads[t].call.Called? && s.threads[t].cached.None? && s.mutex.Free? then
      var r := |s.producers|;
      s.(producers := SyncOwner(g, s.producers, t) + [Producer(t, EmptyRing(g), 0)],
         threads := s.threads[t := Thread(Some(r), Ready(r, s.threads[t].call.payload))],
         seenDrops := s.seenDrops + [0])
    else s
  }

  ghost function DoPush(g: RP.Geometry, s: State, t: nat, step: RP.Step<Word>): (s': State)
    requires Shape(g, s)
    ensures Shape(g, s')
  {
    if t >= |s.threads| then s else
    var call := s.threads[t].call;
    if !(call.Stamped? || call.Pushing?) || call.ring >= |s.producers| then s else
    var p := s.producers[call.ring];
    var q := RingStep(g, p, step);
    var s1 := s.(producers := s.producers[call.ring := q]);
    if call.Stamped? then
      if step == RP.BeginPush(call.rec) && |call.rec| == g.words then SetCall(s1, t, Pushing(call.ring, call.rec))
          else s
    else
      match step
      case LoadRead(_) => s1
      case CopyWordIn => s1
      case CheckFull => if q.ring.prod.PIdle? then SetCall(s1, t, Refused(call.ring)) else s1
      case Publish => if q.ring.prod.PIdle? then SetCall(s1, t, Idle) else s1
      case _ => s
  }

  ghost function DoThread(g: RP.Geometry, s: State, step: Step): (s': State)
    requires Shape(g, s)
    requires ThreadStep(step)
    ensures Shape(g, s')
  {
    if step.t >= |s.threads| then s else
    var th := s.threads[step.t];
    match step
    case Call(t, payload) =>
      if th.call.Idle? && |payload| == g.words then
        SetCall(s, t, Called(payload)).(accepted := s.accepted + 1, quiet := false)
      else s
    case UseCached(t) =>
      if th.call.Called? && th.cached.Some? then SetCall(s, t, Ready(th.cached.value, th.call.payload)) else s
    case TakeTicket(t) =>
      if th.call.Ready? && |th.call.payload| == g.words then
        SetCall(s, t, Stamped(th.call.ring,
            th.call.payload[SEQ_WORD := Stamp(s.nextTicket)])).(nextTicket := s.nextTicket + 1)
      else s
    case CountDrop(t) =>
      if th.call.Refused? && th.call.ring < |s.producers| then
        var p := s.producers[th.call.ring];
        SetCall(s, t, Idle).(producers := s.producers[th.call.ring := p.(dropped := p.dropped + 1)])
      else s
    case UseOtherLogger(t) =>
      if th.call.Idle? then s.(threads := s.threads[t := Thread(None, Idle)]) else s
  }

  // The steps of whoever holds the mutex.

  ghost function DoPop(g: RP.Geometry, s: State, step: RP.Step<Word>): (s': State)
    requires Shape(g, s)
    ensures Shape(g, s')
  {
    if !s.mutex.Draining? || s.mutex.at >= |s.producers| || |s.log| != s.written then s else
    var at := s.mutex.at;
    var p := s.producers[at];
    var s1 := s.(producers := s.producers[at := RingStep(g, p, step)]);
    match step
    case BeginPop => s1
    case LoadWrite(_) => s1
    case CopyWordOut => s1
    case CheckEmpty =>
      if p.ring.cons.CSeen? && s1.producers[at].ring.cons.CIdle? then s1.(mutex := Draining(s.mutex.who, at + 1))
          else s1
    case Release =>
      if p.ring.cons.CCopying? && |p.ring.cons.out| == g.words then
        s1.(log := s.log + [Entry(at, |p.ring.popped|, p.ring.cons.out)])
      else s
    case _ => s
  }

  ghost function DoMutex(g: RP.Geometry, s: State, step: Step): (s': State)
    requires Shape(g, s)
    requires MutexStep(step)
    ensures Shape(g, s')
  {
    match step
    case BeginDrain(who) =>
      if s.mutex.Free? && (who == SinkThread ==> s.sink.LoopDrain? || s.sink.FinalDrain?) then
        s.(mutex := Draining(who, 0),
           producers := if who == SinkThread && s.sink.FinalDrain? && s.quiet then SyncAll(g, s.producers)
               else s.producers)
      else s
    case WriteRecord =>
      if s.mutex.Draining? && |s.log| == s.written + 1 then s.(written := s.written + 1) else s
    case EndDrain =>
      if s.mutex.Draining? && s.mutex.at == |s.producers| && |s.log| == s.written then
        s.(mutex := Free,
           sink := if s.mutex.who.OtherCaller? then s.sink else if s.sink.LoopDrain? then MayReport else FinalReport)
      else s
    case BeginStats(written) =>
      if s.mutex.Free? && written <= s.written then s.(mutex := Counting(0, 0, written)) else s
    case BeginReport =>
      if s.mutex.Free? && (s.sink.MayReport? || s.sink.FinalReport?) then s.(mutex := Reporting(0, 0)) else s
    case ReadDrops(v) =>
      if s.mutex.Counting? && s.mutex.at < |s.producers| && v <= s.producers[s.mutex.at].dropped then
        s.(mutex := Counting(s.mutex.at + 1, s.mutex.sum + v, s.mutex.written))
      else if s.mutex.Reporting? && s.mutex.at < |s.producers|
          && s.seenDrops[s.mutex.at] <= v <= s.producers[s.mutex.at].dropped then
        s.(mutex := Reporting(s.mutex.at + 1, s.mutex.sum + v), seenDrops := s.seenDrops[s.mutex.at := v])
      else s
    case EndStats =>
      if s.mutex.Counting? && s.mutex.at == |s.producers| then s.(mutex := Free) else s
    case EndReport =>
      if s.mutex.Reporting? && s.mutex.at == |s.producers| then
        s.(mutex := Free, sink := Compare(s.mutex.sum, s.sink.FinalReport?), lastScan := s.seenDrops)
      else s
  }

  // The steps of the sink thread and of its owner.

  ghost function DoSink(g: RP.Geometry, s: State, step: Step): (s': State)
    requires Shape(g, s)
    requires SinkStep(step)
    ensures Shape(g, s')
  {
    match step
    case PrintReport =>
      if !s.sink.Compare? then s else
      var next := if s.sink.final then Done else Top;
      if s.sink.total == s.reported then s.(sink := next)
      else s.(sink := next, printed := s.printed + [s.sink.total - s.reported], reported := s.sink.total)
    case Start =>
      if s.sink.Off? then s.(sink := Top, stopRequested := false, quiet := false) else s
    case SinkGoOn => if s.sink.Top? then s.(sink := LoopDrain) else s
    case SinkSkipReport => if s.sink.MayReport? && !s.mutex.Reporting? then s.(sink := Top) else s
    case SinkFinish =>
      if s.sink.Top? && s.stopRequested then
        s.(sink := FinalDrain, seenDrops := if s.quiet then Dropped(s.producers) else s.seenDrops)
      else s
    case RequestStop(synced) =>
      if !s.sink.Off? && !s.stopRequested then
        s.(stopRequested := true, quiet := synced && AllIdle(s.threads))
      else s
    case Join => if s.sink.Done? then s.(sink := Off) else s
  }

  ghost function Apply(g: RP.Geometry, s: State, step: Step): (s': State)
    requires Shape(g, s)
    ensures Shape(g, s')
  {
    if step.Register? then DoRegister(g, s, step.t)
    else if step.Push? then DoPush(g, s, step.t, step.step)
    else if step.Pop? then DoPop(g, s, step.step)
    else if ThreadStep(step) then DoThread(g, s, step)
    else if MutexStep(step) then DoMutex(g, s, step)
    else DoSink(g, s, step)
  }

  ghost function After(g: RP.Geometry, s: State, steps: seq<Step>): (s': State)
    requires Shape(g, s)
    ensures Shape(g, s')
    decreases |steps|
  {
    if steps == [] then s else After(g, Apply(g, s, steps[0]), steps[1..])
  }

  /** A new logger seen by any number of threads, none of which has used it. */
  ghost predicate Initial(g: RP.Geometry, s: State) {
    && GeometryOk(g)
    && s == State([], s.threads, Free, 0, 0, [], 0, Off, false, false, [], [], 0, [])
    && (forall t :: 0 <= t < |s.threads| ==> s.threads[t] == Thread(None, Idle))
  }
}
