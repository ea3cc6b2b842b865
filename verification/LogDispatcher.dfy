/** The log dispatcher (cmd/loghandler.go) as a protocol of atomic steps.

    Any number of producer goroutines call Handle/enqueue while one drain goroutine moves
    records from the bootstrap ring and the bounded queue to the subscribed extensions.
    Each load of a flag, each lock, unlock, send and receive is a step of its own.

    A record gets its number in admission order when enqueue commits it: at the append to
    the ring, or at the non-blocking send (which may find the queue full and drop it). */
module LogDispatcher {
  import opened Options

  const RING_SIZE := 256
  const QUEUE_SIZE := 4096

  type Record = string
  type Pid = nat

  /** A producer that never logged is idle. */
  function Lookup(producers: map<Pid, ProducerPc>, p: Pid): ProducerPc {
    if p in producers then producers[p] else Idle
  }

  lemma LookupAfter(producers: map<Pid, ProducerPc>, p: Pid, pc: ProducerPc)
    ensures forall q: Pid :: Lookup(producers[p := pc], q) == if q == p then pc else Lookup(producers, q)
  {
    var after := producers[p := pc];
    forall q: Pid
      ensures Lookup(after, q) == if q == p then pc else Lookup(producers, q)
    {
      if q == p {
        assert q in after && after[q] == pc;
      } else {
        assert q in after <==> q in producers;
      }
    }
  }

  /** A record with its place in admission order. */
  datatype Entry = Entry(index: nat, record: Record)

  /** Where a producer is: the label names the next step it takes. */
  datatype ProducerPc =
    | Idle
    | Guard(rec: Record)        // load inDispatch
    | Check(rec: Record)        // load flushed, without the lock
    | Lock(rec: Record)         // lock ringMu
    | Recheck(rec: Record)      // load flushed, holding the lock
    | Append(rec: Record)       // put the record into the ring, holding the lock
    | Unlock                    // unlock after the append
    | UnlockToSend(rec: Record) // unlock, the ring having been flushed meanwhile
    | Send(rec: Record)         // non-blocking send to the queue

  datatype Phase = Enter | Deliver | Leave

  /** Where the drain goroutine is. */
  datatype DrainPc =
    | Select
    | FlushCheck                                // load flushed
    | FlushLock                                 // lock ringMu
    | FlushTake                                 // pending := ring; ring := nil
    | FlushMark                                 // flushed := true
    | FlushUnlock                               // unlock
    | RingDispatch(phase: Phase)                // dispatch(pending)
    | BatchCheck(stopping: bool)                // is the batch empty?
    | BatchDispatch(phase: Phase, stopping: bool) // dispatch(batch)
    | Stopped

  datatype Holder = Drain | Producer(pid: Pid)

  datatype State = State(
    ring: seq<Entry>,
    pending: seq<Entry>,
    batch: seq<Entry>,
    queue: seq<Entry>,
    flushed: bool,
    inDispatch: bool,
    holder: Option<Holder>,
    stop: bool,
    subscribed: bool,
    drain: DrainPc,
    producers: map<Pid, ProducerPc>,
    // history
    admitted: seq<Record>,
    dropped: set<nat>,
    taken: seq<Entry>,      // what the flush took from the ring
    dispatched: seq<Entry>, // what an extension was handed
    unheard: set<nat>)      // what was handed over while no extension listened
  {
    function Pc(p: Pid): ProducerPc {
      Lookup(producers, p)
    }

    function At(p: Pid, pc: ProducerPc): State {
      this.(producers := producers[p := pc])
    }

    /** Everything still held or delivered, in the order it leaves the pipeline. */
    function Line(): seq<Entry> {
      dispatched + pending + batch + queue + ring
    }
  }

  datatype Action =
    | Log(pid: Pid, rec: Record)   // a goroutine calls Handle
    | ProducerStep(pid: Pid)
    | Subscription(present: bool)  // extensions come to listen for logs, or no longer do
    | Close                        // the stop function closes the stop channel
    | SelectStop                   // the drain loop's select picks one ready case
    | SelectReceive
    | SelectTick
    | DrainStep

  const INITIAL := State([], [], [], [], false, false, None, false, false, Select, map[], [], {}, [], [], {})

  // ---------- Producer steps ----------

  function AppendToRing(s: State, rec: Record): State {
    var entry := Entry(|s.admitted|, rec);
    if |s.ring| >= RING_SIZE
    then s.(ring := s.ring[1..] + [entry], dropped := s.dropped + {s.ring[0].index}, admitted := s.admitted + [rec])
    else s.(ring := s.ring + [entry], admitted := s.admitted + [rec])
  }

  function SendToQueue(s: State, rec: Record): State {
    if |s.queue| < QUEUE_SIZE
    then s.(queue := s.queue + [Entry(|s.admitted|, rec)], admitted := s.admitted + [rec])
    else s.(dropped := s.dropped + {|s.admitted|}, admitted := s.admitted + [rec])
  }

  function StepProducer(s: State, p: Pid): Option<State> {
    match s.Pc(p)
    case Idle => None
    case Guard(rec) => Some(s.At(p, if s.inDispatch then Idle else Check(rec)))
    case Check(rec) => Some(s.At(p, if s.flushed then Send(rec) else Lock(rec)))
    case Lock(rec) => if s.holder == None then Some(s.At(p, Recheck(rec)).(holder := Some(Producer(p)))) else None
    case Recheck(rec) => Some(s.At(p, if s.flushed then UnlockToSend(rec) else Append(rec)))
    case Append(rec) => Some(AppendToRing(s, rec).At(p, Unlock))
    case Unlock => Some(s.At(p, Idle).(holder := None))
    case UnlockToSend(rec) => Some(s.At(p, Send(rec)).(holder := None))
    case Send(rec) => Some(SendToQueue(s, rec).At(p, Idle))
  }

  // ---------- Drain steps ----------

  function Indices(es: seq<Entry>): set<nat> {
    set e | e in es :: e.index
  }

  /** DispatchEvent hands the batch to the extensions that are subscribed at that moment;
      when there are none, nobody ever sees it. */
  function HandOver(s: State, es: seq<Entry>): State {
    if s.subscribed then s.(dispatched := s.dispatched + es) else s.(unheard := s.unheard + Indices(es))
  }

  function StepDrain(s: State): Option<State> {
    match s.drain
    case Select => None
    case FlushCheck => Some(s.(drain := if s.flushed then BatchCheck(false) else FlushLock))
    case FlushLock => if s.holder == None then Some(s.(drain := FlushTake, holder := Some(Drain))) else None
    case FlushTake => Some(s.(drain := FlushMark, pending := s.ring, taken := s.ring, ring := []))
    case FlushMark => Some(s.(drain := FlushUnlock, flushed := true))
    case FlushUnlock =>
      Some(s.(drain := if s.pending == [] then BatchCheck(false) else RingDispatch(Enter), holder := None))
    case RingDispatch(Enter) => Some(s.(drain := RingDispatch(Deliver), inDispatch := true))
    case RingDispatch(Deliver) =>
      Some(HandOver(s, s.pending).(drain := RingDispatch(Leave), pending := []))
    case RingDispatch(Leave) => Some(s.(drain := BatchCheck(false), inDispatch := false))
    case BatchCheck(stopping) =>
      Some(s.(drain := if s.batch != [] then BatchDispatch(Enter, stopping) else if stopping then Stopped else Select))
    case BatchDispatch(Enter, stopping) => Some(s.(drain := BatchDispatch(Deliver, stopping), inDispatch := true))
    case BatchDispatch(Deliver, stopping) =>
      Some(HandOver(s, s.batch).(drain := BatchDispatch(Leave, stopping), batch := []))
    case BatchDispatch(Leave, stopping) =>
      Some(s.(drain := if stopping then Stopped else Select, inDispatch := false))
    case Stopped => None
  }

  /** The next state, or None when the action is not enabled. */
  function Next(s: State, a: Action): Option<State> {
    match a
    case Log(p, rec) => if s.Pc(p) == Idle then Some(s.At(p, Guard(rec))) else None
    case ProducerStep(p) => StepProducer(s, p)
    case Subscription(present) => Some(s.(subscribed := present))
    case Close => Some(s.(stop := true))
    case SelectStop => if s.drain == Select && s.stop then Some(s.(drain := BatchCheck(true))) else None
    case SelectReceive =>
      if s.drain == Select && s.queue != []
      then Some(s.(batch := s.batch + [s.queue[0]], queue := s.queue[1..]))
      else None
    case SelectTick =>
      if s.drain != Select then None else if s.subscribed then Some(s.(drain := FlushCheck)) else Some(s)
    case DrainStep => StepDrain(s)
  }

  /** Any interleaving: actions that are not enabled are skipped. */
  function Run(actions: seq<Action>): State {
    if actions == [] then INITIAL
    else
      var s := Run(actions[..|actions| - 1]);
      match Next(s, actions[|actions| - 1])
      case None => s
      case Some(t) => t
  }

  // ---------- Invariants ----------

  predicate ProducerHoldsLock(pc: ProducerPc) {
    pc.Recheck? || pc.Append? || pc.Unlock? || pc.UnlockToSend?
  }

  predicate DrainHoldsLock(pc: DrainPc) {
    pc.FlushTake? || pc.FlushMark? || pc.FlushUnlock?
  }

  /** On the way out: the stop was selected. */
  predicate Stopping(pc: DrainPc) {
    pc.Stopped? || ((pc.BatchCheck? || pc.BatchDispatch?) && pc.stopping)
  }

  predicate DrainDispatches(pc: DrainPc) {
    (pc.RingDispatch? || pc.BatchDispatch?) && pc.phase != Enter
  }

  /** A producer owns the lock exactly in its critical section, and knows the flag it read. */
  ghost predicate ProducerInv(pc: ProducerPc, p: Pid, holder: Option<Holder>, flushed: bool) {
    && (ProducerHoldsLock(pc) <==> holder == Some(Producer(p)))
    && (pc.Send? || pc.UnlockToSend? ==> flushed)
    && (pc.Append? ==> !flushed)
  }

  ghost predicate ProducersInv(s: State) {
    forall p: Pid :: ProducerInv(Lookup(s.producers, p), p, s.holder, s.flushed)
  }

  /** The drain goroutine owns the lock exactly while it takes the ring, raises inDispatch
      exactly while it dispatches, and sets flushed before its first dispatch. */
  ghost predicate DrainInv(s: State) {
    && (DrainHoldsLock(s.drain) <==> s.holder == Some(Drain))
    && (DrainDispatches(s.drain) <==> s.inDispatch)
    && (s.drain.FlushLock? || s.drain.FlushTake? || s.drain.FlushMark? ==> !s.flushed)
    && (s.drain.FlushUnlock? || s.drain.RingDispatch? || s.drain.BatchDispatch? ==> s.flushed)
    && (Stopping(s.drain) ==> s.stop)
  }

  ghost predicate StageInv(s: State) {
    && |s.ring| <= RING_SIZE && |s.queue| <= QUEUE_SIZE
    && (!s.flushed ==> s.batch == [] && s.queue == [] && s.dispatched == [] && s.unheard == {})
    && (s.flushed || s.drain == FlushMark ==> s.ring == [])
    && (s.pending != [] ==> s.drain.FlushMark? || s.drain.FlushUnlock? || s.drain.RingDispatch?)
    && (s.drain == RingDispatch(Leave) ==> s.pending == [])
    && (s.drain.FlushUnlock? || s.drain.RingDispatch? ==> s.batch == [])
    && (s.drain.Stopped? || (s.drain.BatchDispatch? && s.drain.phase == Leave) ==> s.batch == [])
  }

  ghost function UpTo(n: nat): (r: set<nat>)
    ensures forall i :: i in r <==> 0 <= i < n
  {
    if n == 0 then {} else UpTo(n - 1) + {n - 1}
  }

  ghost predicate Ordered(es: seq<Entry>) {
    forall i, j :: 0 <= i < j < |es| ==> es[i].index < es[j].index
  }

  /** Conservation and order: the line is in admission order, and every admitted record is
      either in it, once, or dropped, or was handed over unheard. */
  ghost predicate Accounted(line: seq<Entry>, admitted: seq<Record>, dropped: set<nat>, unheard: set<nat>) {
    && Ordered(line)
    && (forall e :: e in line ==> e.index < |admitted| && e.record == admitted[e.index])
    && Indices(line) !! dropped && Indices(line) !! unheard && dropped !! unheard
    && Indices(line) + dropped + unheard == UpTo(|admitted|)
  }

  /** Until the ring is taken it holds the most recent records and nothing else is lost. */
  ghost predicate RingInv(s: State) {
    !s.flushed && s.drain != FlushMark ==>
      && |s.ring| == (if |s.admitted| <= RING_SIZE then |s.admitted| else RING_SIZE)
      && forall k :: 0 <= k < |s.ring| ==> s.ring[k].index == |s.admitted| - |s.ring| + k
  }

  ghost predicate Inv(s: State) {
    ProducersInv(s) && DrainInv(s) && StageInv(s) && RingInv(s) && Accounted(s.Line(), s.admitted, s.dropped, s.unheard)
  }

  // ---------- Every step keeps the invariants ----------

  lemma InitialInv()
    ensures Inv(INITIAL)
  {
  }

  lemma AdmittedJoinsTheLine(line: seq<Entry>, admitted: seq<Record>, dropped: set<nat>, unheard: set<nat>, rec: Record)
    requires Accounted(line, admitted, dropped, unheard)
    ensures Accounted(line + [Entry(|admitted|, rec)], admitted + [rec], dropped, unheard)
  {
    var e := Entry(|admitted|, rec);
    var t := line + [e];
    assert Indices(t) == Indices(line) + {|admitted|} by {
      assert e in t;
      forall i | i in Indices(line)
        ensures i in Indices(t)
      {
        var f :| f in line && f.index == i;
        assert f in t;
      }
    }
    assert forall i :: 0 <= i < |line| ==> line[i] in line;
  }

  lemma IndicesSplit(line: seq<Entry>)
    requires line != []
    ensures Indices(line) == {line[0].index} + Indices(line[1..])
  {
    var rest := line[1..];
    assert line == [line[0]] + rest && line[0] in line;
    forall i | i in Indices(line)
      ensures i in {line[0].index} + Indices(rest)
    {
      var f :| f in line && f.index == i;
      assert f == line[0] || f in rest;
    }
  }

  lemma OldestLeavesTheLine(line: seq<Entry>, admitted: seq<Record>, dropped: set<nat>, unheard: set<nat>)
    requires Accounted(line, admitted, dropped, unheard) && line != []
    ensures Accounted(line[1..], admitted, dropped + {line[0].index}, unheard)
  {
    var rest := line[1..];
    IndicesSplit(line);
    assert forall e :: e in rest ==> e in line;
    assert line[0].index !in Indices(rest) by {
      assert forall j :: 1 <= j < |line| ==> line[0].index < line[j].index;
    }
    assert Ordered(rest);
  }

  lemma NewestIsDropped(line: seq<Entry>, admitted: seq<Record>, dropped: set<nat>, unheard: set<nat>, rec: Record)
    requires Accounted(line, admitted, dropped, unheard)
    ensures Accounted(line, admitted + [rec], dropped + {|admitted|}, unheard)
  {
    assert forall i :: i in Indices(line) + dropped + unheard <==> 0 <= i < |admitted|;
  }

  /** A batch handed over while nobody listens leaves the line from its middle. */
  lemma {:induction false} MiddleIsUnheard(a: seq<Entry>, b: seq<Entry>, c: seq<Entry>, admitted: seq<Record>,
                                           dropped: set<nat>, unheard: set<nat>)
    requires Accounted(a + b + c, admitted, dropped, unheard)
    ensures Accounted(a + c, admitted, dropped, unheard + Indices(b))
  {
    hide UpTo;
    IndicesOfConcat(a + b, c);
    IndicesOfConcat(a, b);
    OrderedWithoutMiddle(a, b, c);
    IndicesOfConcat(a, c);
    hide Indices, Ordered;
    assert forall e :: e in a + c ==> e in a + b + c;
  }

  lemma OrderedWithoutMiddle(a: seq<Entry>, b: seq<Entry>, c: seq<Entry>)
    requires Ordered(a + b + c)
    ensures Ordered(a + c)
  {
    var t := a + b + c;
    assert forall i :: 0 <= i < |a| ==> (a + c)[i] == t[i];
    assert forall i :: |a| <= i < |a + c| ==> (a + c)[i] == t[i + |b|];
  }

  lemma {:induction false} AppendKeepsAccounts(s: State, p: Pid, rec: Record)
    requires Inv(s) && s.Pc(p) == Append(rec)
    ensures var t := AppendToRing(s, rec); Accounted(t.Line(), t.admitted, t.dropped, t.unheard)
  {
    var t := AppendToRing(s, rec);
    assert s.Line() == s.ring && t.Line() == t.ring;
    hide Accounted;
    if |s.ring| >= RING_SIZE {
      OldestLeavesTheLine(s.ring, s.admitted, s.dropped, s.unheard);
      AdmittedJoinsTheLine(s.ring[1..], s.admitted, s.dropped + {s.ring[0].index}, s.unheard, rec);
    } else {
      AdmittedJoinsTheLine(s.ring, s.admitted, s.dropped, s.unheard, rec);
    }
  }

  lemma SendKeepsAccounts(s: State, p: Pid, rec: Record)
    requires Inv(s) && s.Pc(p) == Send(rec)
    ensures var t := SendToQueue(s, rec); Accounted(t.Line(), t.admitted, t.dropped, t.unheard)
  {
    hide Accounted;
    var t := SendToQueue(s, rec);
    if |s.queue| < QUEUE_SIZE {
      assert t.Line() == s.Line() + [Entry(|s.admitted|, rec)];
      AdmittedJoinsTheLine(s.Line(), s.admitted, s.dropped, s.unheard, rec);
    } else {
      assert t.Line() == s.Line();
      NewestIsDropped(s.Line(), s.admitted, s.dropped, s.unheard, rec);
    }
  }

  lemma {:induction false} ProducerKeepsAccounts(s: State, p: Pid)
    requires Inv(s) && StepProducer(s, p).Some?
    ensures var t := StepProducer(s, p).value; Accounted(t.Line(), t.admitted, t.dropped, t.unheard)
  {
    hide Accounted, ProducersInv, DrainInv, StageInv, RingInv;
    var t := StepProducer(s, p).value;
    match s.Pc(p)
    case Append(rec) =>
      AppendKeepsAccounts(s, p, rec);
      assert t.Line() == AppendToRing(s, rec).Line();
    case Send(rec) =>
      SendKeepsAccounts(s, p, rec);
      assert t.Line() == SendToQueue(s, rec).Line();
    case Idle =>
    case Guard(_) => assert t.Line() == s.Line();
    case Check(_) => assert t.Line() == s.Line();
    case Lock(_) => assert t.Line() == s.Line();
    case Recheck(_) => assert t.Line() == s.Line();
    case Unlock => assert t.Line() == s.Line();
    case UnlockToSend(_) => assert t.Line() == s.Line();
  }

  lemma ProducerKeepsLocks(s: State, p: Pid)
    requires ProducersInv(s) && DrainInv(s) && StepProducer(s, p).Some?
    ensures ProducersInv(StepProducer(s, p).value) && DrainInv(StepProducer(s, p).value)
  {
    var t := StepProducer(s, p).value;
    ProducerStepShape(s, p);
    hide StepProducer;
    var pc := Lookup(t.producers, p);
    LookupAfter(s.producers, p, pc);
    forall q: Pid
      ensures ProducerInv(Lookup(t.producers, q), q, t.holder, t.flushed)
    {
      assert ProducerInv(Lookup(s.producers, q), q, s.holder, s.flushed);
    }
  }

  /** What a producer step changes outside the pipeline. */
  lemma {:induction false} ProducerStepShape(s: State, p: Pid)
    requires ProducerInv(Lookup(s.producers, p), p, s.holder, s.flushed) && StepProducer(s, p).Some?
    ensures var t := StepProducer(s, p).value;
            && t.producers == s.producers[p := Lookup(t.producers, p)]
            && ProducerInv(Lookup(t.producers, p), p, t.holder, t.flushed)
            && t.flushed == s.flushed && t.inDispatch == s.inDispatch && t.drain == s.drain
            && (t.holder == s.holder
                || (s.holder == None && t.holder == Some(Producer(p)))
                || (s.holder == Some(Producer(p)) && t.holder == None))
  {
    ProducerLeavesTheRest(s, p);
    hide AppendToRing, SendToQueue;
    match s.Pc(p)
    case Append(rec) => AdmissionShape(s, rec);
    case Send(rec) => AdmissionShape(s, rec);
    case _ =>
  }

  lemma ProducerLeavesTheRest(s: State, p: Pid)
    requires StepProducer(s, p).Some?
    ensures var t := StepProducer(s, p).value;
            t == s.(ring := t.ring, queue := t.queue, holder := t.holder, producers := t.producers,
                    admitted := t.admitted, dropped := t.dropped)
  {
    hide AppendToRing, SendToQueue;
    match s.Pc(p)
    case Append(rec) => AdmissionShape(s, rec);
    case Send(rec) => AdmissionShape(s, rec);
    case Idle =>
    case Guard(_) =>
    case Check(_) =>
    case Lock(_) =>
    case Recheck(_) =>
    case Unlock =>
    case UnlockToSend(_) =>
  }

  lemma AdmissionShape(s: State, rec: Record)
    ensures var t := AppendToRing(s, rec); t == s.(ring := t.ring, dropped := t.dropped, admitted := t.admitted)
    ensures var t := SendToQueue(s, rec); t == s.(queue := t.queue, dropped := t.dropped, admitted := t.admitted)
  {
  }

  lemma {:induction false} ProducerKeepsStages(s: State, p: Pid)
    requires ProducersInv(s) && DrainInv(s) && StageInv(s) && RingInv(s) && StepProducer(s, p).Some?
    ensures StageInv(StepProducer(s, p).value) && RingInv(StepProducer(s, p).value)
  {
    var t := StepProducer(s, p).value;
    assert ProducerInv(Lookup(s.producers, p), p, s.holder, s.flushed);
    hide ProducersInv, StageInv, RingInv, AppendToRing, SendToQueue;
    if s.Pc(p).Append? {
      AppendKeepsStages(s, s.Pc(p).rec);
      SameStages(AppendToRing(s, s.Pc(p).rec), t);
    } else if s.Pc(p).Send? {
      SendKeepsStages(s, s.Pc(p).rec);
      SameStages(SendToQueue(s, s.Pc(p).rec), t);
    } else {
      SameStages(s, t);
    }
  }

  lemma SameStages(s: State, t: State)
    requires StageInv(s) && RingInv(s) && t == s.(producers := t.producers, holder := t.holder)
    ensures StageInv(t) && RingInv(t)
  {
  }

  lemma SendKeepsStages(s: State, rec: Record)
    requires StageInv(s) && RingInv(s) && s.flushed
    ensures StageInv(SendToQueue(s, rec)) && RingInv(SendToQueue(s, rec))
  {
  }

  lemma AppendKeepsStages(s: State, rec: Record)
    requires StageInv(s) && RingInv(s) && !s.flushed && s.drain != FlushMark
    ensures StageInv(AppendToRing(s, rec)) && RingInv(AppendToRing(s, rec))
  {
    AppendKeepsRing(s, rec);
    AdmissionShape(s, rec);
    hide RingInv, AppendToRing;
  }

  lemma AppendKeepsRing(s: State, rec: Record)
    requires RingInv(s) && !s.flushed && s.drain != FlushMark
    ensures RingInv(AppendToRing(s, rec)) && |AppendToRing(s, rec).ring| <= RING_SIZE
  {
  }

  predicate Delivering(pc: DrainPc) {
    (pc.RingDispatch? || pc.BatchDispatch?) && pc.phase == Deliver
  }

  lemma LineOfOneBatch(s: State, es: seq<Entry>)
    requires (s.pending == es && s.batch == []) || (s.pending == [] && s.batch == es)
    ensures s.Line() == s.dispatched + es + (s.queue + s.ring)
  {
  }

  lemma {:induction false} HandOverKeepsAccounts(s: State, es: seq<Entry>, t: State)
    requires Accounted(s.Line(), s.admitted, s.dropped, s.unheard)
    requires (s.pending == es && s.batch == []) || (s.pending == [] && s.batch == es)
    requires t == HandOver(s, es).(pending := [], batch := [], drain := t.drain)
    ensures Accounted(t.Line(), t.admitted, t.dropped, t.unheard)
  {
    hide Accounted, Indices;
    var rest := s.queue + s.ring;
    LineOfOneBatch(s, es);
    LineOfOneBatch(t, []);
    if s.subscribed {
      assert t.dispatched + [] + rest == s.dispatched + es + rest;
    } else {
      assert t.dispatched + [] + rest == s.dispatched + rest;
      MiddleIsUnheard(s.dispatched, es, rest, s.admitted, s.dropped, s.unheard);
    }
  }

  lemma TakingKeepsLine(s: State)
    requires s.pending == [] && s.batch == [] && s.queue == [] && s.dispatched == []
    ensures s.(pending := s.ring, ring := []).Line() == s.Line()
  {
    assert [] + s.ring == s.ring && s.ring + [] == s.ring;
  }

  lemma DrainKeepsLine(s: State)
    requires DrainInv(s) && StageInv(s) && StepDrain(s).Some? && !Delivering(s.drain)
    ensures var t := StepDrain(s).value;
            t.Line() == s.Line() && t.admitted == s.admitted && t.dropped == s.dropped && t.unheard == s.unheard
  {
    hide HandOver;
    if s.drain.FlushTake? {
      TakingKeepsLine(s);
    }
  }

  lemma DrainKeepsAccounts(s: State)
    requires DrainInv(s) && StageInv(s) && StepDrain(s).Some?
    requires Accounted(s.Line(), s.admitted, s.dropped, s.unheard)
    ensures var t := StepDrain(s).value; Accounted(t.Line(), t.admitted, t.dropped, t.unheard)
  {
    hide Accounted, HandOver;
    var t := StepDrain(s).value;
    if !Delivering(s.drain) {
      DrainKeepsLine(s);
    } else {
      var es := if s.drain.RingDispatch? then s.pending else s.batch;
      HandOverShape(s, es);
      HandOverKeepsAccounts(s, es, t);
    }
  }

  lemma HandOverShape(s: State, es: seq<Entry>)
    ensures var t := HandOver(s, es); t == s.(dispatched := t.dispatched, unheard := t.unheard)
  {
  }

  lemma DrainKeepsStages(s: State)
    requires DrainInv(s) && StageInv(s) && RingInv(s) && StepDrain(s).Some?
    ensures StageInv(StepDrain(s).value) && RingInv(StepDrain(s).value)
  {
  }

  lemma DrainKeepsLocks(s: State)
    requires ProducersInv(s) && DrainInv(s) && StageInv(s) && StepDrain(s).Some?
    ensures ProducersInv(StepDrain(s).value) && DrainInv(StepDrain(s).value)
  {
    hide HandOver;
    if Delivering(s.drain) {
      HandOverShape(s, if s.drain.RingDispatch? then s.pending else s.batch);
    }
    var t := StepDrain(s).value;
    forall p: Pid
      ensures ProducerInv(Lookup(t.producers, p), p, t.holder, t.flushed)
    {
      assert ProducerInv(Lookup(s.producers, p), p, s.holder, s.flushed);
    }
  }

  lemma LogKeepsLocks(s: State, p: Pid, rec: Record)
    requires ProducersInv(s) && s.Pc(p) == Idle
    ensures ProducersInv(s.At(p, Guard(rec)))
  {
    LookupAfter(s.producers, p, Guard(rec));
    forall q: Pid
      ensures ProducerInv(Lookup(s.At(p, Guard(rec)).producers, q), q, s.holder, s.flushed)
    {
      assert ProducerInv(Lookup(s.producers, q), q, s.holder, s.flushed);
    }
  }

  lemma ReceiveKeepsTheLine(s: State)
    requires s.queue != []
    ensures s.(batch := s.batch + [s.queue[0]], queue := s.queue[1..]).Line() == s.Line()
  {
    var t := s.(batch := s.batch + [s.queue[0]], queue := s.queue[1..]);
    var before := s.dispatched + s.pending;
    assert before + t.batch + t.queue == before + s.batch + s.queue;
  }

  lemma ReceiveKeepsInv(s: State)
    requires Inv(s) && Next(s, SelectReceive).Some?
    ensures Inv(Next(s, SelectReceive).value)
  {
    ReceiveKeepsTheLine(s);
    SameProducers(s, Next(s, SelectReceive).value);
    hide Accounted, ProducersInv;
  }

  lemma SelectKeepsInv(s: State, a: Action)
    requires Inv(s) && Next(s, a).Some? && (a.Subscription? || a.Close? || a.SelectStop? || a.SelectTick?)
    ensures Inv(Next(s, a).value)
  {
    var t := Next(s, a).value;
    assert t.Line() == s.Line();
    SameProducers(s, t);
    hide Accounted, ProducersInv;
  }

  lemma SameProducers(s: State, t: State)
    requires ProducersInv(s) && t.producers == s.producers && t.holder == s.holder && t.flushed == s.flushed
    ensures ProducersInv(t)
  {
  }

  /** Back at its select, or stopped, the drain goroutine has handed over its whole batch; and
      once a stop was selected it does not go back. */
  lemma ReturnsEmptyHanded(s: State, a: Action)
    requires DrainInv(s) && StageInv(s) && Next(s, a).Some?
    ensures var t := Next(s, a).value;
            && (AtRest(t.drain) && t.drain != s.drain ==> t.batch == [] && t.pending == [])
            && (Stopping(s.drain) ==> Stopping(t.drain))
  {
    hide StepProducer, HandOver;
    if a.ProducerStep? {
      ProducerLeavesTheRest(s, a.pid);
    }
  }

  predicate AtRest(pc: DrainPc) {
    pc.Select? || pc.Stopped?
  }

  lemma {:induction false} NextKeepsInv(s: State, a: Action)
    requires Inv(s) && Next(s, a).Some?
    ensures Inv(Next(s, a).value)
    ensures var t := Next(s, a).value;
            && (AtRest(t.drain) && t.drain != s.drain ==> t.batch == [] && t.pending == [])
            && (Stopping(s.drain) ==> Stopping(t.drain))
  {
    var t := Next(s, a).value;
    ReturnsEmptyHanded(s, a);
    if a.ProducerStep? {
      hide StepProducer, ProducersInv, DrainInv, StageInv, RingInv, Accounted;
      ProducerKeepsAccounts(s, a.pid);
      ProducerKeepsLocks(s, a.pid);
      ProducerKeepsStages(s, a.pid);
    } else if a.DrainStep? {
      hide StepDrain, ProducersInv, DrainInv, StageInv, RingInv, Accounted;
      DrainKeepsAccounts(s);
      DrainKeepsLocks(s);
      DrainKeepsStages(s);
    } else if a.Log? {
      hide ProducersInv, Accounted;
      LogKeepsLocks(s, a.pid, a.rec);
      assert t.Line() == s.Line();
    } else {
      hide Next, ProducersInv, DrainInv, StageInv, RingInv, Accounted;
      if a.SelectReceive? {
        ReceiveKeepsInv(s);
      } else {
        SelectKeepsInv(s, a);
      }
    }
  }

  lemma {:induction false} EveryRunKeepsInv(actions: seq<Action>)
    ensures Inv(Run(actions))
  {
    if actions == [] {
      InitialInv();
    } else {
      var before := actions[..|actions| - 1];
      EveryRunKeepsInv(before);
      if Next(Run(before), actions[|actions| - 1]).Some? {
        NextKeepsInv(Run(before), actions[|actions| - 1]);
      }
    }
  }

  // ---------- What holds after every interleaving ----------

  /** Delivery is in admission order, without duplicates and without invented records. */
  lemma DeliveredInAdmissionOrder(actions: seq<Action>)
    ensures var s := Run(actions);
            && Ordered(s.dispatched)
            && forall e :: e in s.dispatched ==> e.index < |s.admitted| && e.record == s.admitted[e.index]
  {
    hide Run, ProducersInv, DrainInv, StageInv, RingInv, UpTo;
    EveryRunKeepsInv(actions);
    var s := Run(actions);
    var rest := s.pending + s.batch + s.queue + s.ring;
    assert s.Line() == s.dispatched + rest;
    IndicesOfConcat(s.dispatched, rest);
    hide Indices, Ordered;
    assert forall e :: e in s.dispatched ==> e in s.dispatched + rest;
  }

  datatype Place = InRing | InFlight | InBatch | InQueue | Dispatched | Dropped | Unheard

  ghost predicate IsAt(s: State, i: nat, place: Place) {
    match place
    case InRing => i in Indices(s.ring)
    case InFlight => i in Indices(s.pending)
    case InBatch => i in Indices(s.batch)
    case InQueue => i in Indices(s.queue)
    case Dispatched => i in Indices(s.dispatched)
    case Dropped => i in s.dropped
    case Unheard => i in s.unheard
  }

  lemma IndicesOfConcat(a: seq<Entry>, b: seq<Entry>)
    requires Ordered(a + b)
    ensures Indices(a + b) == Indices(a) + Indices(b) && Indices(a) !! Indices(b)
    ensures Ordered(a) && Ordered(b)
  {
    var t := a + b;
    assert forall i :: 0 <= i < |a| ==> t[i] == a[i];
    assert forall j :: 0 <= j < |b| ==> t[|a| + j] == b[j];
    forall e, f | e in a && f in b
      ensures e.index < f.index
    {
      var i :| 0 <= i < |a| && a[i] == e;
      var j :| 0 <= j < |b| && b[j] == f;
      assert t[i].index < t[|a| + j].index;
    }
    forall i | i in Indices(t)
      ensures i in Indices(a) + Indices(b)
    {
      var e :| e in t && e.index == i;
      assert e in a || e in b;
    }
    assert forall e :: e in a || e in b ==> e in t;
  }

  /** Every admitted record is in exactly one place. */
  lemma EveryRecordIsInOnePlace(actions: seq<Action>, i: nat)
    requires i < |Run(actions).admitted|
    ensures exists place :: IsAt(Run(actions), i, place)
              && forall other :: IsAt(Run(actions), i, other) ==> other == place
  {
    hide Run, ProducersInv, DrainInv, StageInv, RingInv, UpTo;
    EveryRunKeepsInv(actions);
    var s := Run(actions);
    IndicesOfConcat(s.dispatched + s.pending + s.batch + s.queue, s.ring);
    IndicesOfConcat(s.dispatched + s.pending + s.batch, s.queue);
    IndicesOfConcat(s.dispatched + s.pending, s.batch);
    IndicesOfConcat(s.dispatched, s.pending);
    hide Indices, Ordered;
    assert i in UpTo(|s.admitted|);
    var place :=
      if i in s.dropped then Dropped
      else if i in s.unheard then Unheard
      else if i in Indices(s.ring) then InRing
      else if i in Indices(s.queue) then InQueue
      else if i in Indices(s.batch) then InBatch
      else if i in Indices(s.pending) then InFlight
      else Dispatched;
    assert IsAt(s, i, place);
  }

  /** The last 256 admitted records, with their numbers. */
  function Latest(admitted: seq<Record>): seq<Entry> {
    var first := if |admitted| <= 256 then 0 else |admitted| - 256;
    seq(|admitted| - first, k requires 0 <= k < |admitted| - first => Entry(first + k, admitted[first + k]))
  }

  /** Until the flush takes the ring, nothing has left it except by overflow: it holds
      exactly the last 256 records, and every later stage is empty. */
  lemma {:induction false} BootstrapRingKeepsTheLatest(actions: seq<Action>)
    requires !Run(actions).flushed && Run(actions).drain != FlushMark
    ensures var s := Run(actions);
            && s.pending == [] && s.batch == [] && s.queue == [] && s.dispatched == [] && s.unheard == {}
            && s.ring == Latest(s.admitted)
            && s.dropped == UpTo(|s.admitted| - |s.ring|)
  {
    EveryRunKeepsInv(actions);
    BootstrapState(Run(actions));
  }

  lemma BootstrapState(s: State)
    requires StageInv(s) && RingInv(s) && DrainInv(s) && Accounted(s.Line(), s.admitted, s.dropped, s.unheard)
    requires !s.flushed && s.drain != FlushMark
    ensures s.pending == [] && s.batch == [] && s.queue == [] && s.dispatched == [] && s.unheard == {}
    ensures s.ring == Latest(s.admitted) && s.dropped == UpTo(|s.admitted| - |s.ring|)
  {
    hide Accounted, UpTo;
    assert s.pending == [] && s.batch == [] && s.queue == [] && s.dispatched == [];
    assert s.Line() == s.ring;
    RingIsLatest(s.ring, s.admitted, s.dropped);
  }

  lemma {:induction false} RingIsLatest(ring: seq<Entry>, admitted: seq<Record>, dropped: set<nat>)
    requires Accounted(ring, admitted, dropped, {})
    requires |ring| == (if |admitted| <= RING_SIZE then |admitted| else RING_SIZE)
    requires forall k :: 0 <= k < |ring| ==> ring[k].index == |admitted| - |ring| + k
    ensures ring == Latest(admitted) && dropped == UpTo(|admitted| - |ring|)
  {
    hide Accounted, UpTo;
    LatestAreAccounted(ring, admitted, dropped);
    var latest := Latest(admitted);
    assert |ring| == |latest|;
    forall k | 0 <= k < |ring|
      ensures ring[k] == latest[k]
    {
      assert latest[k] == Entry(|admitted| - |ring| + k, admitted[|admitted| - |ring| + k]);
    }
  }

  lemma {:induction false} LatestAreAccounted(ring: seq<Entry>, admitted: seq<Record>, dropped: set<nat>)
    requires Accounted(ring, admitted, dropped, {}) && |ring| <= |admitted|
    requires forall k :: 0 <= k < |ring| ==> ring[k].index == |admitted| - |ring| + k
    ensures forall k :: 0 <= k < |ring| ==> ring[k].record == admitted[|admitted| - |ring| + k]
    ensures dropped == UpTo(|admitted| - |ring|)
  {
    hide UpTo;
    assert forall k :: 0 <= k < |ring| ==> ring[k] in ring;
    IndicesOfLatest(ring, |admitted| - |ring|);
    RestIsDropped(Indices(ring), dropped, |admitted| - |ring|, |admitted|);
  }

  lemma RestIsDropped(held: set<nat>, dropped: set<nat>, first: nat, n: nat)
    requires held !! dropped && held + dropped == UpTo(n)
    requires forall i :: i in held <==> first <= i < n
    requires first <= n
    ensures dropped == UpTo(first)
  {
    hide UpTo;
    forall i: nat
      ensures i in dropped <==> i in UpTo(first)
    {
      assert i in held + dropped <==> i in UpTo(n);
    }
  }

  lemma IndicesOfLatest(ring: seq<Entry>, first: nat)
    requires forall k :: 0 <= k < |ring| ==> ring[k].index == first + k
    ensures forall i :: i in Indices(ring) <==> first <= i < first + |ring|
  {
    forall i | first <= i < first + |ring|
      ensures i in Indices(ring)
    {
      assert ring[i - first].index == i && ring[i - first] in ring;
    }
  }

  /** What was delivered stays delivered, and admission numbers are never reused. */
  lemma {:induction false} StepsOnlyExtendHistory(s: State, a: Action)
    requires Next(s, a).Some?
    ensures ExtendsHistory(s, Next(s, a).value)
  {
    if a.ProducerStep? {
      ProducerExtendsHistory(s, a.pid);
    } else if a.DrainStep? {
      DrainExtendsHistory(s);
    }
  }

  ghost predicate ExtendsHistory(s: State, t: State) {
    s.dispatched <= t.dispatched && s.admitted <= t.admitted && s.dropped <= t.dropped && s.unheard <= t.unheard
    && |t.admitted| <= |s.admitted| + 1
  }

  lemma ProducerExtendsHistory(s: State, p: Pid)
    requires StepProducer(s, p).Some?
    ensures ExtendsHistory(s, StepProducer(s, p).value)
  {
    hide AppendToRing, SendToQueue;
    match s.Pc(p)
    case Append(rec) => AdmissionExtendsHistory(s, rec);
    case Send(rec) => AdmissionExtendsHistory(s, rec);
    case Idle =>
    case Guard(_) =>
    case Check(_) =>
    case Lock(_) =>
    case Recheck(_) =>
    case Unlock =>
    case UnlockToSend(_) =>
  }

  lemma AdmissionExtendsHistory(s: State, rec: Record)
    ensures ExtendsHistory(s, AppendToRing(s, rec)) && ExtendsHistory(s, SendToQueue(s, rec))
  {
  }

  lemma DrainExtendsHistory(s: State)
    requires StepDrain(s).Some?
    ensures ExtendsHistory(s, StepDrain(s).value)
  {
    hide Indices;
    match s.drain
    case RingDispatch(Deliver) => assert ExtendsHistory(s, HandOver(s, s.pending));
    case BatchDispatch(Deliver, _) => assert ExtendsHistory(s, HandOver(s, s.batch));
    case _ =>
  }

  /** The reentrancy guard: a record is refused at its guard exactly while a batch is being
      handed to the extensions, whoever logs it. */
  lemma GuardRefusesExactlyDuringDispatch(actions: seq<Action>, p: Pid)
    requires Run(actions).Pc(p).Guard?
    ensures var s := Run(actions);
            && StepProducer(s, p).Some?
            && StepProducer(s, p).value.admitted == s.admitted
            && (StepProducer(s, p).value.Pc(p) == Idle <==> DrainDispatches(s.drain))
  {
    EveryRunKeepsInv(actions);
    var s := Run(actions);
    LookupAfter(s.producers, p, if s.inDispatch then Idle else Check(s.Pc(p).rec));
  }

  /** Once the drain goroutine has stopped, an admitted record was handed to an extension
      unless it was dropped on overflow, is left behind in the ring or the queue, or was
      handed over while no extension listened. */
  lemma WhatStoppingLeavesBehind(actions: seq<Action>, i: nat)
    requires Run(actions).drain == Stopped && i < |Run(actions).admitted|
    ensures var s := Run(actions);
            i in Indices(s.dispatched) <==>
            i !in s.dropped && i !in Indices(s.queue) && i !in Indices(s.ring) && i !in s.unheard
  {
    EveryRunKeepsInv(actions);
    var s := Run(actions);
    assert s.pending == [] && s.batch == [];
    EveryRecordIsInOnePlace(actions, i);
    hide Run, Inv, Indices;
    NoIndices();
    assert IsAt(s, i, Dispatched) <==> i in Indices(s.dispatched);
    assert IsAt(s, i, InRing) <==> i in Indices(s.ring);
    assert IsAt(s, i, InQueue) <==> i in Indices(s.queue);
    assert IsAt(s, i, Dropped) <==> i in s.dropped;
    assert IsAt(s, i, Unheard) <==> i in s.unheard;
  }

  lemma NoIndices()
    ensures Indices([]) == {}
  {
  }

  lemma RunThen(actions: seq<Action>, a: Action)
    ensures Run(actions + [a]) == match Next(Run(actions), a) case None => Run(actions) case Some(t) => t
  {
    assert (actions + [a])[..|actions + [a]| - 1] == actions;
  }

  // ---------- When startup records are lost ----------

  /** At some point of the run a step of this kind was taken. */
  ghost predicate Once(actions: seq<Action>, kind: (State, Action) -> bool) {
    exists n :: 0 <= n < |actions| && kind(Run(actions[..n]), actions[n])
  }

  lemma OnceStep(actions: seq<Action>, kind: (State, Action) -> bool)
    requires actions != []
    ensures var n := |actions| - 1;
            Once(actions, kind) <==> Once(actions[..n], kind) || kind(Run(actions[..n]), actions[n])
  {
    hide Run;
    var n := |actions| - 1;
    assert forall m :: 0 <= m <= n ==> actions[..n][..m] == actions[..m];
    if Once(actions[..n], kind) {
      var m :| 0 <= m < n && kind(Run(actions[..n][..m]), actions[..n][m]);
      assert kind(Run(actions[..m]), actions[m]);
    }
    if Once(actions, kind) {
      var m :| 0 <= m < |actions| && kind(Run(actions[..m]), actions[m]);
      assert m < n ==> kind(Run(actions[..n][..m]), actions[..n][m]);
    }
  }

  /** The drain loop picks the tick while an extension listens. */
  predicate SubscribedTick(s: State, a: Action) {
    a == SelectTick && s.drain == Select && s.subscribed
  }

  /** The ring's records are handed over while an extension listens. */
  predicate RingHandedOver(s: State, a: Action) {
    a == DrainStep && s.drain == RingDispatch(Deliver) && s.subscribed
  }

  ghost predicate Started(actions: seq<Action>) {
    Once(actions, SubscribedTick)
  }

  ghost predicate RingHeard(actions: seq<Action>) {
    Once(actions, RingHandedOver)
  }

  predicate Flushing(pc: DrainPc) {
    pc.FlushCheck? || pc.FlushLock? || pc.FlushTake? || pc.FlushMark?
  }

  lemma FlushingStep(s: State, a: Action)
    requires Next(s, a).Some?
    ensures var t := Next(s, a).value;
            t.flushed || Flushing(t.drain) <==> s.flushed || Flushing(s.drain) || SubscribedTick(s, a)
  {
    hide StepProducer, StepDrain;
    if a.ProducerStep? {
      ProducerLeavesTheRest(s, a.pid);
    } else if a.DrainStep? {
      DrainKeepsFlushing(s);
    }
  }

  lemma DrainKeepsFlushing(s: State)
    requires StepDrain(s).Some?
    ensures var t := StepDrain(s).value; t.flushed || Flushing(t.drain) <==> s.flushed || Flushing(s.drain)
  {
    hide HandOver;
    match s.drain
    case RingDispatch(Deliver) => HandOverShape(s, s.pending);
    case BatchDispatch(Deliver, _) => HandOverShape(s, s.batch);
    case _ =>
  }

  lemma {:induction false} StartedMeansFlushing(actions: seq<Action>)
    ensures Started(actions) <==> Run(actions).flushed || Flushing(Run(actions).drain)
  {
    hide Once, Next, Flushing, SubscribedTick, Run;
    if actions == [] {
      NothingHappened(SubscribedTick);
    } else {
      var before, last := actions[..|actions| - 1], actions[|actions| - 1];
      StartedMeansFlushing(before);
      OnceStep(actions, SubscribedTick);
      RunThen(before, last);
      assert actions == before + [last];
      if Next(Run(before), last).Some? {
        FlushingStep(Run(before), last);
      } else if SubscribedTick(Run(before), last) {
        TicksAreEnabled(Run(before), last);
      }
    }
  }

  lemma NothingHappened(kind: (State, Action) -> bool)
    ensures !Once([], kind) && Run([]) == INITIAL
    ensures !INITIAL.flushed && !Flushing(INITIAL.drain)
  {
  }

  lemma TicksAreEnabled(s: State, a: Action)
    requires SubscribedTick(s, a)
    ensures Next(s, a).Some?
  {
  }

  /** Where the records are that the flush took: untaken, on their way, or past delivery. */
  ghost predicate TakenInv(s: State, heard: bool) {
    if !s.flushed && s.drain != FlushMark then s.taken == [] && !heard
    else if s.drain.FlushMark? || s.drain.FlushUnlock? then
      s.pending == s.taken && s.dispatched == [] && !heard
    else if s.drain.RingDispatch? && s.drain.phase != Leave then
      s.pending == s.taken != [] && s.dispatched == [] && !heard
    else if heard then s.taken <= s.dispatched
    else Indices(s.taken) <= s.unheard
  }

  lemma DrainKeepsTakenInv(s: State, heard: bool)
    requires StageInv(s) && DrainInv(s) && TakenInv(s, heard) && StepDrain(s).Some?
    ensures TakenInv(StepDrain(s).value, heard || RingHandedOver(s, DrainStep))
  {
    hide Indices;
    NoIndices();
  }

  lemma NextKeepsTakenInv(s: State, a: Action, heard: bool)
    requires Inv(s) && TakenInv(s, heard) && Next(s, a).Some?
    ensures TakenInv(Next(s, a).value, heard || RingHandedOver(s, a))
  {
    hide StepProducer, StepDrain, Indices, ProducersInv, RingInv, Accounted;
    if a.ProducerStep? {
      ProducerLeavesTheRest(s, a.pid);
    } else if a.DrainStep? {
      DrainKeepsTakenInv(s, heard);
    }
  }

  lemma {:induction false} EveryRunKeepsTakenInv(actions: seq<Action>)
    ensures TakenInv(Run(actions), RingHeard(actions))
  {
    hide Once, Next, RingHandedOver, Run, Inv;
    if actions == [] {
      NothingHappened(RingHandedOver);
    } else {
      hide TakenInv;
      var before, last := actions[..|actions| - 1], actions[|actions| - 1];
      EveryRunKeepsInv(before);
      EveryRunKeepsTakenInv(before);
      OnceStep(actions, RingHandedOver);
      RunThen(before, last);
      assert actions == before + [last];
      if Next(Run(before), last).Some? {
        NextKeepsTakenInv(Run(before), last, RingHeard(before));
      } else {
        HandingOverIsEnabled(Run(before), last);
      }
    }
  }

  lemma HandingOverIsEnabled(s: State, a: Action)
    requires Next(s, a).None?
    ensures !RingHandedOver(s, a)
  {
  }

  /** The flush takes the ring once, and finds the latest 256 records in it. */
  lemma {:induction false} FlushTakesTheLatest(actions: seq<Action>, a: Action)
    requires Next(Run(actions), a).Some?
    ensures var s, t := Run(actions), Next(Run(actions), a).value;
            t.taken == s.taken
            || (a == DrainStep && s.drain == FlushTake && s.taken == [] && t.taken == Latest(s.admitted))
  {
    hide Run, Latest, StepProducer, Inv, Accounted, ProducersInv, RingInv, Indices;
    var s := Run(actions);
    EveryRunKeepsTakenInv(actions);
    if a.ProducerStep? {
      ProducerLeavesTheRest(s, a.pid);
    } else if a == DrainStep && s.drain == FlushTake {
      EveryRunKeepsInv(actions);
      FlushTakesUnflushed(s);
      BootstrapRingKeepsTheLatest(actions);
    }
  }

  lemma FlushTakesUnflushed(s: State)
    requires Inv(s) && s.drain == FlushTake
    ensures !s.flushed
  {
  }

  /** "Startup logs are not lost", exactly: when the drain goroutine has stopped, a record
      that the ring still held at the flush, or still holds, was delivered iff an extension
      listened at the moment the ring was handed over.  That needs a tick that found a
      subscriber: without one nothing was delivered at all, and the ring is empty only if
      nothing was logged.  After one the other records were delivered unless the queue, an
      overflow or a missing listener cost them. */
  lemma {:induction false} StartupRecordsNeedAListener(actions: seq<Action>)
    requires Run(actions).drain == Stopped
    ensures var s := Run(actions);
            && (forall e :: e in s.taken + s.ring ==> (e in s.dispatched <==> RingHeard(actions)))
            && (RingHeard(actions) ==> Started(actions))
            && (s.ring == [] <==> Started(actions) || s.admitted == [])
            && (!Started(actions) ==>
                  s.taken == [] && s.ring == Latest(s.admitted) && s.queue == [] && s.dispatched == [])
            && (Started(actions) ==>
                  forall i :: 0 <= i < |s.admitted| ==>
                    (i in Indices(s.dispatched) <==>
                     i !in s.dropped && i !in Indices(s.queue) && i !in s.unheard))
  {
    hide Run, Once, Latest, Indices, ProducersInv, Accounted;
    EveryRunKeepsInv(actions);
    StartedMeansFlushing(actions);
    EveryRunKeepsTakenInv(actions);
    var s := Run(actions);
    if Started(actions) {
      assert StageInv(s) && s.ring == [];
      forall i | 0 <= i < |s.admitted|
        ensures i in Indices(s.dispatched) <==> i !in s.dropped && i !in Indices(s.queue) && i !in s.unheard
      {
        WhatStoppingLeavesBehind(actions, i);
        NoIndices();
      }
      forall e | e in s.taken
        ensures e in s.dispatched <==> RingHeard(actions)
      {
        TakenIsHeardOrUnheard(s, RingHeard(actions), e);
      }
    } else {
      BootstrapRingKeepsTheLatest(actions);
      assert RingInv(s);
    }
  }

  lemma TakenIsHeardOrUnheard(s: State, heard: bool, e: Entry)
    requires Accounted(s.Line(), s.admitted, s.dropped, s.unheard) && e in s.taken
    requires if heard then s.taken <= s.dispatched else Indices(s.taken) <= s.unheard
    ensures e in s.dispatched <==> heard
  {
    if heard {
      var k :| 0 <= k < |s.taken| && s.taken[k] == e;
      assert s.dispatched[k] == e;
    } else {
      IndexOf(s.taken, e);
      assert e in s.dispatched ==> e in s.Line();
    }
  }

  /** Extensions may come to listen, but never leave without another one listening. */
  ghost predicate NeverWithdrawn(actions: seq<Action>) {
    forall n :: 0 <= n < |actions| ==> actions[n] != Subscription(false)
  }

  lemma HeardStep(s: State, a: Action)
    requires Inv(s) && Next(s, a).Some? && a != Subscription(false) && (s.flushed ==> s.subscribed)
    ensures var t := Next(s, a).value; (s.subscribed ==> t.subscribed) && t.unheard == s.unheard
  {
    hide StepProducer, ProducersInv, StageInv, RingInv, Accounted, Indices;
    if a.ProducerStep? {
      ProducerLeavesTheRest(s, a.pid);
    }
  }

  lemma {:induction false} ListenersStay(actions: seq<Action>)
    requires NeverWithdrawn(actions)
    ensures Run(actions).unheard == {} && (Started(actions) ==> Run(actions).subscribed)
  {
    hide Once, Next, SubscribedTick, Run, Inv;
    if actions == [] {
      NothingHappened(SubscribedTick);
    } else {
      var before, last := actions[..|actions| - 1], actions[|actions| - 1];
      ListenersStay(before);
      EveryRunKeepsInv(before);
      StartedMeansFlushing(before);
      OnceStep(actions, SubscribedTick);
      RunThen(before, last);
      assert actions == before + [last];
      TickFindsListener(Run(before), last);
      if Next(Run(before), last).Some? {
        HeardStep(Run(before), last);
      }
    }
  }

  lemma TickFindsListener(s: State, a: Action)
    ensures SubscribedTick(s, a) ==> s.subscribed
  {
  }

  /** Where listeners never leave, the tick alone decides: nothing goes unheard, and after the
      stop every startup record was delivered iff a tick had found a subscriber. */
  lemma {:induction false} WithoutWithdrawalTheTickDecides(actions: seq<Action>)
    requires Run(actions).drain == Stopped && NeverWithdrawn(actions)
    ensures var s := Run(actions);
            && s.unheard == {}
            && forall e :: e in s.taken + s.ring ==> (e in s.dispatched <==> Started(actions))
  {
    hide Run, Once, Inv, Indices;
    StartupRecordsNeedAListener(actions);
    ListenersStay(actions);
    StartedMeansFlushing(actions);
    EveryRunKeepsTakenInv(actions);
    var s := Run(actions);
    forall e | e in s.taken && Started(actions)
      ensures RingHeard(actions)
    {
      if !RingHeard(actions) {
        assert Indices(s.taken) <= s.unheard;
        IndexOf(s.taken, e);
      }
    }
  }

  lemma IndexOf(es: seq<Entry>, e: Entry)
    requires e in es
    ensures e.index in Indices(es)
  {
  }

  /** A record is dropped exactly when it is the oldest of a full ring that another record
      enters, or is itself sent to a full queue. */
  lemma {:induction false} DropsAreOverflows(actions: seq<Action>, a: Action, i: nat)
    requires Next(Run(actions), a).Some?
    ensures var s := Run(actions);
            i in Next(s, a).value.dropped && i !in s.dropped <==>
              && a.ProducerStep?
              && ((s.Pc(a.pid).Append? && |s.ring| == 256 && i == s.ring[0].index)
                  || (s.Pc(a.pid).Send? && |s.queue| == 4096 && i == |s.admitted|))
  {
    hide Run, StepProducer, StepDrain, ProducersInv, DrainInv, RingInv, Accounted;
    EveryRunKeepsInv(actions);
    var s := Run(actions);
    if a.ProducerStep? {
      NothingHeldIsDropped(s);
      ProducerDrops(s, a.pid);
    } else if a.DrainStep? {
      DrainKeepsDropped(s);
    }
  }

  lemma DrainKeepsDropped(s: State)
    requires StepDrain(s).Some?
    ensures StepDrain(s).value.dropped == s.dropped
  {
    hide Indices;
  }

  lemma NothingHeldIsDropped(s: State)
    requires Inv(s)
    ensures |s.admitted| !in s.dropped && (s.ring != [] ==> s.ring[0].index !in s.dropped)
  {
    hide ProducersInv, DrainInv, StageInv, RingInv;
    assert |s.admitted| !in UpTo(|s.admitted|);
    if s.ring != [] {
      assert s.Line()[|s.Line()| - |s.ring|] == s.ring[0];
      assert s.ring[0] in s.Line() && s.ring[0].index in Indices(s.Line());
    }
  }

  lemma ProducerDrops(s: State, p: Pid)
    requires StepProducer(s, p).Some?
    ensures StepProducer(s, p).value.dropped == s.dropped
              + (if s.Pc(p).Append? && |s.ring| >= RING_SIZE then {s.ring[0].index}
                 else if s.Pc(p).Send? && |s.queue| >= QUEUE_SIZE then {|s.admitted|} else {})
  {
    hide AppendToRing, SendToQueue;
    match s.Pc(p)
    case Append(rec) => AdmissionDrops(s, rec);
    case Send(rec) => AdmissionDrops(s, rec);
    case Idle =>
    case Guard(_) =>
    case Check(_) =>
    case Lock(_) =>
    case Recheck(_) =>
    case Unlock =>
    case UnlockToSend(_) =>
  }

  lemma AdmissionDrops(s: State, rec: Record)
    ensures AppendToRing(s, rec).dropped == s.dropped + if |s.ring| >= RING_SIZE then {s.ring[0].index} else {}
    ensures SendToQueue(s, rec).dropped == s.dropped + if |s.queue| >= QUEUE_SIZE then {|s.admitted|} else {}
  {
  }

  // ---------- What a tick is for ----------

  /** The record has left the dispatcher, to an extension or unheard; one from the ring may
      also have been dropped by a later one. */
  predicate Settled(s: State, e: Entry, fromRing: bool) {
    e in s.dispatched || e.index in s.unheard || (fromRing && e.index in s.dropped)
  }

  /** On its way out while the drain goroutine is away from its select. */
  predicate OnItsWay(s: State, e: Entry, fromRing: bool) {
    && !AtRest(s.drain)
    && (e in s.batch || e in s.pending || (fromRing && e in s.ring && Flushing(s.drain)))
  }

  lemma HandOverSettles(s: State, es: seq<Entry>, e: Entry, fromRing: bool)
    requires e in es
    ensures Settled(HandOver(s, es), e, fromRing)
  {
    IndexOf(es, e);
  }

  lemma DrainMovesOn(s: State, e: Entry, fromRing: bool)
    requires DrainInv(s) && StageInv(s) && StepDrain(s).Some? && OnItsWay(s, e, fromRing)
    ensures var t := StepDrain(s).value; OnItsWay(t, e, fromRing) || Settled(t, e, fromRing)
  {
    hide HandOver, Settled;
    if Delivering(s.drain) {
      var es := if s.drain.RingDispatch? then s.pending else s.batch;
      HandOverShape(s, es);
      if e in es {
        HandOverSettles(s, es, e, fromRing);
        SettledAlike(HandOver(s, es), StepDrain(s).value, e, fromRing);
      }
    }
  }

  lemma SettledAlike(s: State, t: State, e: Entry, fromRing: bool)
    requires t.dispatched == s.dispatched && t.unheard == s.unheard && t.dropped == s.dropped
    ensures Settled(t, e, fromRing) == Settled(s, e, fromRing)
  {
  }

  lemma AppendMovesOn(s: State, rec: Record, e: Entry)
    requires e in s.ring
    ensures e in AppendToRing(s, rec).ring || e.index in AppendToRing(s, rec).dropped
  {
    assert s.ring == [s.ring[0]] + s.ring[1..];
  }

  lemma ProducerMovesOn(s: State, p: Pid, e: Entry, fromRing: bool)
    requires StageInv(s) && StepProducer(s, p).Some? && OnItsWay(s, e, fromRing)
    ensures var t := StepProducer(s, p).value; OnItsWay(t, e, fromRing) || Settled(t, e, fromRing)
  {
    ProducerLeavesTheRest(s, p);
    hide AppendToRing, SendToQueue;
    match s.Pc(p)
    case Append(rec) =>
      AdmissionShape(s, rec);
      if e in s.ring {
        AppendMovesOn(s, rec, e);
      }
    case Send(rec) => AdmissionShape(s, rec);
    case _ =>
  }

  lemma {:induction false} NextMovesOn(s: State, a: Action, e: Entry, fromRing: bool)
    requires Inv(s) && Next(s, a).Some? && (OnItsWay(s, e, fromRing) || Settled(s, e, fromRing))
    ensures OnItsWay(Next(s, a).value, e, fromRing) || Settled(Next(s, a).value, e, fromRing)
  {
    hide StepProducer, StepDrain, ProducersInv, RingInv, Accounted, OnItsWay, Settled;
    if Settled(s, e, fromRing) {
      StepsOnlyExtendHistory(s, a);
      SettledStays(s, Next(s, a).value, e, fromRing);
    } else if a.ProducerStep? {
      ProducerMovesOn(s, a.pid, e, fromRing);
    } else if a.DrainStep? {
      DrainMovesOn(s, e, fromRing);
    } else {
      OthersMoveNothing(s, a, e, fromRing);
    }
  }

  lemma SettledStays(s: State, t: State, e: Entry, fromRing: bool)
    requires Settled(s, e, fromRing) && ExtendsHistory(s, t)
    ensures Settled(t, e, fromRing)
  {
    if k :| 0 <= k < |s.dispatched| && s.dispatched[k] == e {
      assert t.dispatched[k] == e;
    }
  }

  lemma OthersMoveNothing(s: State, a: Action, e: Entry, fromRing: bool)
    requires OnItsWay(s, e, fromRing) && Next(s, a).Some? && !a.ProducerStep? && !a.DrainStep?
    ensures OnItsWay(Next(s, a).value, e, fromRing)
  {
    hide StepProducer, StepDrain;
  }

  /** What a tick with a subscriber is for, in every run: each record that the batch or the
      ring held at the tick has been handed over (or, while the ring was still
      filling, dropped by a later record) whenever the goroutine is back at its select, or
      stopped. */
  lemma {:induction false} SubscribedTickFlushes(actions: seq<Action>, n: nat, k: nat, e: Entry, fromRing: bool)
    requires n < k <= |actions| && SubscribedTick(Run(actions[..n]), actions[n])
    requires e in Run(actions[..n]).batch || (fromRing && e in Run(actions[..n]).ring)
    requires AtRest(Run(actions[..k]).drain)
    ensures Settled(Run(actions[..k]), e, fromRing)
  {
    hide Run, Settled, Inv;
    TickMovesOn(actions, n, k, e, fromRing);
    assert !OnItsWay(Run(actions[..k]), e, fromRing);
  }

  lemma {:induction false} TickMovesOn(actions: seq<Action>, n: nat, k: nat, e: Entry, fromRing: bool)
    requires n < k <= |actions| && SubscribedTick(Run(actions[..n]), actions[n])
    requires e in Run(actions[..n]).batch || (fromRing && e in Run(actions[..n]).ring)
    ensures OnItsWay(Run(actions[..k]), e, fromRing) || Settled(Run(actions[..k]), e, fromRing)
  {
    hide Run, Inv, Settled, StepProducer, StepDrain;
    assert actions[..k][..k - 1] == actions[..k - 1] && actions[..k] == actions[..k - 1] + [actions[k - 1]];
    RunThen(actions[..k - 1], actions[k - 1]);
    if k == n + 1 {
    } else {
      TickMovesOn(actions, n, k - 1, e, fromRing);
      EveryRunKeepsInv(actions[..k - 1]);
      hide Next, OnItsWay;
      if Next(Run(actions[..k - 1]), actions[k - 1]).Some? {
        NextMovesOn(Run(actions[..k - 1]), actions[k - 1], e, fromRing);
      }
    }
  }

  /** The record that a producer has in hand, once past the guard. */
  function InHand(pc: ProducerPc): Option<Record> {
    match pc
    case Idle => None
    case Guard(_) => None
    case Check(rec) => Some(rec)
    case Lock(rec) => Some(rec)
    case Recheck(rec) => Some(rec)
    case Append(rec) => Some(rec)
    case Unlock => None
    case UnlockToSend(rec) => Some(rec)
    case Send(rec) => Some(rec)
  }

  /** Past the guard no record is put aside: each step of its producer keeps it in hand or
      admits it, whichever way the flush came in between. */
  lemma {:induction false} PastTheGuardIsAdmitted(s: State, p: Pid)
    requires StepProducer(s, p).Some? && InHand(s.Pc(p)).Some?
    ensures var t, rec := StepProducer(s, p).value, InHand(s.Pc(p)).value;
            || (InHand(t.Pc(p)) == Some(rec) && t.admitted == s.admitted)
            || (InHand(t.Pc(p)) == None && t.admitted == s.admitted + [rec])
  {
    hide AppendToRing, SendToQueue;
    LookupAfter(s.producers, p, StepProducer(s, p).value.Pc(p));
    match s.Pc(p)
    case Append(rec) => AdmissionAdmits(s, rec);
    case Send(rec) => AdmissionAdmits(s, rec);
    case _ =>
  }

  lemma AdmissionAdmits(s: State, rec: Record)
    ensures var t := AppendToRing(s, rec); t.admitted == s.admitted + [rec] && t.producers == s.producers
    ensures var t := SendToQueue(s, rec); t.admitted == s.admitted + [rec] && t.producers == s.producers
  {
  }

  /** The goroutine stops only after the stop channel was closed. */
  lemma StopsOnlyWhenClosed(actions: seq<Action>)
    requires Run(actions).drain == Stopped
    ensures Run(actions).stop
  {
    EveryRunKeepsInv(actions);
  }

  // ---------- Progress ----------

  /** How many steps the drain goroutine has left before it is back at its select, or done. */
  function DrainStepsLeft(pc: DrainPc): nat {
    match pc
    case Select => 0
    case FlushCheck => 12
    case FlushLock => 11
    case FlushTake => 10
    case FlushMark => 9
    case FlushUnlock => 8
    case RingDispatch(phase) => 4 + PhasesLeft(phase)
    case BatchCheck(_) => 4
    case BatchDispatch(phase, _) => PhasesLeft(phase)
    case Stopped => 0
  }

  function PhasesLeft(phase: Phase): nat {
    match phase
    case Enter => 3
    case Deliver => 2
    case Leave => 1
  }

  function ProducerStepsLeft(pc: ProducerPc): nat {
    match pc
    case Idle => 0
    case Guard(_) => 6
    case Check(_) => 5
    case Lock(_) => 4
    case Recheck(_) => 3
    case Append(_) => 2
    case Unlock => 1
    case UnlockToSend(_) => 2
    case Send(_) => 1
  }

  lemma DispatchCountsDown(s: State)
    requires s.drain.RingDispatch? || s.drain.BatchDispatch?
    ensures StepDrain(s).Some? ==> DrainStepsLeft(StepDrain(s).value.drain) < DrainStepsLeft(s.drain)
  {
    hide HandOver;
  }

  lemma {:induction false} DrainCountsDown(s: State)
    ensures StepDrain(s).Some? ==> DrainStepsLeft(StepDrain(s).value.drain) < DrainStepsLeft(s.drain)
  {
    hide HandOver;
    if s.drain.RingDispatch? || s.drain.BatchDispatch? {
      DispatchCountsDown(s);
    }
  }

  lemma DrainWaitsForTheLockOnly(s: State)
    ensures StepDrain(s).None? && DrainStepsLeft(s.drain) > 0 ==> s.drain == FlushLock && s.holder.Some?
  {
    hide HandOver;
  }

  lemma RestingDoesNotStep(s: State)
    ensures AtRest(s.drain) ==> StepDrain(s).None?
  {
  }

  lemma ProducerCountsDown(s: State, p: Pid)
    ensures StepProducer(s, p).Some? ==>
              ProducerStepsLeft(StepProducer(s, p).value.Pc(p)) < ProducerStepsLeft(s.Pc(p))
    ensures StepProducer(s, p).None? && s.Pc(p) != Idle ==> s.Pc(p).Lock? && s.holder.Some?
  {
    hide AppendToRing, SendToQueue;
    if StepProducer(s, p).Some? {
      LookupAfter(s.producers, p, StepProducer(s, p).value.Pc(p));
      match s.Pc(p)
      case Append(rec) => AdmissionShape(s, rec);
      case Send(rec) => AdmissionShape(s, rec);
      case _ =>
    }
  }

  /** No deadlock, in any interleaving: whoever has steps left can take one, unless it waits
      for ringMu, and then the goroutine that owns ringMu can.  Each step counts down, so a
      call to Handle takes at most 6 steps, and the drain goroutine is back at its select, or
      done, after at most 12. */
  lemma {:induction false} SomebodyCanStep(actions: seq<Action>)
    ensures var s := Run(actions);
            && (s.holder == Some(Drain) ==> StepDrain(s).Some?)
            && (forall p: Pid :: s.holder == Some(Producer(p)) ==> StepProducer(s, p).Some?)
            && (StepDrain(s).None? && DrainStepsLeft(s.drain) > 0 ==> s.holder.Some? && s.holder != Some(Drain))
            && (forall p: Pid :: StepProducer(s, p).None? && s.Pc(p) != Idle ==>
                  s.holder.Some? && s.holder != Some(Producer(p)))
            && (StepDrain(s).Some? ==> DrainStepsLeft(StepDrain(s).value.drain) < DrainStepsLeft(s.drain) <= 12)
            && (forall p: Pid :: StepProducer(s, p).Some? ==>
                  ProducerStepsLeft(StepProducer(s, p).value.Pc(p)) < ProducerStepsLeft(s.Pc(p)) <= 6)
            && (StepDrain(s).Some? && AtRest(StepDrain(s).value.drain) ==> StepDrain(s).value.batch == [])
  {
    hide Run, StepProducer, StepDrain, StageInv, RingInv, Accounted;
    EveryRunKeepsInv(actions);
    var s := Run(actions);
    if StepDrain(s).Some? {
      ReturnsEmptyHanded(s, DrainStep);
      RestingDoesNotStep(s);
    }
    DrainWaitsForTheLockOnly(s);
    DrainCountsDown(s);
    forall p: Pid
      ensures s.holder == Some(Producer(p)) ==> StepProducer(s, p).Some?
      ensures StepProducer(s, p).None? && s.Pc(p) != Idle ==> s.holder.Some? && s.holder != Some(Producer(p))
      ensures StepProducer(s, p).Some? ==>
                ProducerStepsLeft(StepProducer(s, p).value.Pc(p)) < ProducerStepsLeft(s.Pc(p)) <= 6
    {
      ProducerCountsDown(s, p);
      assert ProducerInv(Lookup(s.producers, p), p, s.holder, s.flushed);
    }
  }

  // ---------- Runs that lose records or grow ----------

  /** One producer alone, n steps into logging its first record. */
  function Alone(rec: Record, n: nat): State
    requires n <= 6
  {
    var pc := if n == 0 then Guard(rec) else if n == 1 then Check(rec) else if n == 2 then Lock(rec)
              else if n == 3 then Recheck(rec) else if n == 4 then Append(rec) else if n == 5 then Unlock else Idle;
    State(if n >= 5 then [Entry(0, rec)] else [], [], [], [], false, false,
          if 3 <= n <= 5 then Some(Producer(0)) else None, false, false, Select, map[0 := pc],
          if n >= 5 then [rec] else [], {}, [], [], {})
  }

  lemma AloneSteps(rec: Record, n: nat)
    requires n < 6
    ensures Next(Alone(rec, n), ProducerStep(0)) == Some(Alone(rec, n + 1))
  {
    var s, t := Alone(rec, n), Alone(rec, n + 1);
    assert s.producers[0 := t.Pc(0)] == t.producers;
    if n == 4 {
      assert s.ring + [Entry(0, rec)] == [Entry(0, rec)] && s.admitted + [rec] == [rec];
      assert AppendToRing(s, rec).At(0, Unlock) == t;
    }
  }

  lemma LogAlone(rec: Record) returns (actions: seq<Action>)
    ensures Run(actions) == Alone(rec, 6)
  {
    hide Run, StepProducer;
    actions := [Log(0, rec)];
    FirstLog(rec);
    for n := 0 to 6
      invariant Run(actions) == Alone(rec, n)
    {
      RunThen(actions, ProducerStep(0));
      AloneSteps(rec, n);
      actions := actions + [ProducerStep(0)];
    }
  }

  lemma StopNow(actions: seq<Action>) returns (stopped: seq<Action>)
    requires Run(actions).drain == Select && Run(actions).batch == []
    ensures Run(stopped) == Run(actions).(stop := true, drain := Stopped)
  {
    hide Run;
    stopped := actions;
    RunThen(stopped, Close);
    stopped := stopped + [Close];
    RunThen(stopped, SelectStop);
    stopped := stopped + [SelectStop];
    RunThen(stopped, DrainStep);
    stopped := stopped + [DrainStep];
  }

  /** Logged, then subscribed to, then stopped before the next tick: the startup record stays
      in the ring although a subscriber appeared. */
  lemma StoppingCanStrandAStartupRecord(rec: Record) returns (actions: seq<Action>)
    ensures Run(actions).drain == Stopped && Run(actions).subscribed && !Started(actions)
    ensures Run(actions).ring == [Entry(0, rec)] && Run(actions).dispatched == []
  {
    hide Run, Once;
    actions := LogAlone(rec);
    RunThen(actions, Subscription(true));
    actions := actions + [Subscription(true)];
    actions := StopNow(actions);
    StartedMeansFlushing(actions);
  }

  /** What nine steps make of a state whose flush finds no listener any more. */
  function UnheardFlush(s: State): State {
    s.(drain := Select, flushed := true, ring := [], taken := s.ring, unheard := s.unheard + Indices(s.ring))
  }

  lemma FlushUnheard(actions: seq<Action>) returns (flushed: seq<Action>)
    requires var s := Run(actions);
             s.drain == FlushCheck && !s.flushed && s.holder == None && !s.inDispatch && !s.subscribed
             && s.pending == [] && s.batch == []
    ensures Run(flushed) == UnheardFlush(Run(actions))
  {
    hide Run, Indices;
    NoIndices();
    var s := Run(actions);
    assert s.unheard + {} == s.unheard;
    flushed := actions;
    for n := 0 to 5
      invariant Run(flushed) == (if n == 0 then s else if n == 1 then s.(drain := FlushLock)
                                 else if n == 2 then s.(drain := FlushTake, holder := Some(Drain))
                                 else if n == 3 then
                                   s.(drain := FlushMark, holder := Some(Drain), pending := s.ring, taken := s.ring,
                                      ring := [])
                                 else if n == 4 then
                                   s.(drain := FlushUnlock, holder := Some(Drain), pending := s.ring, taken := s.ring,
                                      ring := [], flushed := true)
                                 else
                                   s.(drain := if s.ring == [] then BatchCheck(false) else RingDispatch(Enter),
                                      pending := s.ring, taken := s.ring, ring := [], flushed := true))
    {
      RunThen(flushed, DrainStep);
      flushed := flushed + [DrainStep];
    }
    if s.ring != [] {
      for n := 0 to 3
        invariant Run(flushed) == (if n < 2 then
                                     s.(drain := RingDispatch(if n == 0 then Enter else Deliver), inDispatch := n == 1,
                                        pending := s.ring, taken := s.ring, ring := [], flushed := true)
                                   else UnheardFlush(s).(drain := if n == 2 then RingDispatch(Leave)
                                                                  else BatchCheck(false), inDispatch := n == 2))
      {
        RunThen(flushed, DrainStep);
        flushed := flushed + [DrainStep];
      }
    }
    RunThen(flushed, DrainStep);
    flushed := flushed + [DrainStep];
  }

  /** Logged, subscribed to, and flushed by a tick, but the listener leaves before the ring is
      handed over: the startup record is gone, though a subscriber appeared, the flush took
      place and nothing overflowed or was left behind. */
  lemma {:induction false} LeavingListenerLosesAStartupRecord(rec: Record) returns (actions: seq<Action>)
    ensures Run(actions).drain == Stopped && Started(actions) && !RingHeard(actions)
    ensures var s := Run(actions);
            && s.ring == [] && s.queue == [] && s.dropped == {} && s.dispatched == []
            && s.taken == [Entry(0, rec)] && s.unheard == {0}
  {
    hide Run, Once, StepProducer, StepDrain;
    actions := LogAlone(rec);
    RunThen(actions, Subscription(true));
    actions := actions + [Subscription(true)];
    RunThen(actions, SelectTick);
    actions := actions + [SelectTick];
    RunThen(actions, Subscription(false));
    actions := actions + [Subscription(false)];
    actions := FlushUnheard(actions);
    actions := StopNow(actions);
    OneIndex(Entry(0, rec));
    StartedMeansFlushing(actions);
    StartupRecordsNeedAListener(actions);
    assert Entry(0, rec) in Run(actions).taken + Run(actions).ring;
  }

  lemma OneIndex(e: Entry)
    ensures Indices([e]) == {e.index}
  {
    IndexOf([e], e);
  }

  // ---------- Memory ----------

  /** Until a tick has found a subscriber nothing but the ring holds records. */
  lemma {:induction false} BootstrapMemoryIsBounded(actions: seq<Action>)
    requires !Started(actions)
    ensures var s := Run(actions);
            s.pending == [] && s.batch == [] && s.queue == [] && |s.ring| <= 256
  {
    hide Run, Once, Accounted, ProducersInv, RingInv, Latest, Indices;
    StartedMeansFlushing(actions);
    BootstrapRingKeepsTheLatest(actions);
    EveryRunKeepsInv(actions);
  }

  /** Flushed once, then deserted: n records logged and received since. */
  function Grown(rec: Record, n: nat): State {
    State([], [], seq(n, i requires 0 <= i < n => Entry(i, rec)), [], true, false, None, false, false, Select,
          if n == 0 then map[] else map[0 := Idle], seq(n, i => rec), {}, [], [], {})
  }

  /** k steps into logging and receiving one more record. */
  function Growing(rec: Record, n: nat, k: nat): State
    requires k <= 4
  {
    var s := Grown(rec, n);
    if k == 0 then s.(producers := map[0 := Guard(rec)])
    else if k == 1 then s.(producers := map[0 := Check(rec)])
    else if k == 2 then s.(producers := map[0 := Send(rec)])
    else if k == 3 then
      s.(queue := [Entry(n, rec)], admitted := Grown(rec, n + 1).admitted, producers := map[0 := Idle])
    else Grown(rec, n + 1)
  }

  lemma GrowingSteps(rec: Record, n: nat, k: nat)
    requires k < 4
    ensures Next(Growing(rec, n, k), if k == 3 then SelectReceive else ProducerStep(0)) == Some(Growing(rec, n, k + 1))
  {
    hide StepDrain;
    var s, t := Growing(rec, n, k), Growing(rec, n, k + 1);
    if k < 2 {
      assert s.producers[0 := t.Pc(0)] == t.producers;
    } else if k == 2 {
      GrowingSend(rec, n);
    } else {
      assert [Entry(n, rec)][1..] == [] && s.batch + [Entry(n, rec)] == t.batch;
    }
  }

  lemma GrowingSend(rec: Record, n: nat)
    ensures StepProducer(Growing(rec, n, 2), 0) == Some(Growing(rec, n, 3))
  {
    var s, t := Growing(rec, n, 2), Growing(rec, n, 3);
    assert [] + [Entry(n, rec)] == [Entry(n, rec)];
    assert Grown(rec, n).admitted + [rec] == Grown(rec, n + 1).admitted;
    assert s.producers[0 := Idle] == t.producers;
    assert SendToQueue(s, rec).At(0, Idle) == t;
  }

  lemma GrowOnce(actions: seq<Action>, rec: Record, n: nat) returns (more: seq<Action>)
    requires Run(actions) == Grown(rec, n)
    ensures Run(more) == Grown(rec, n + 1)
  {
    hide Run, StepProducer, StepDrain;
    more := actions;
    RunThen(more, Log(0, rec));
    more := more + [Log(0, rec)];
    assert Run(more) == Growing(rec, n, 0);
    hide Next;
    for k := 0 to 4
      invariant Run(more) == Growing(rec, n, k)
    {
      var a := if k == 3 then SelectReceive else ProducerStep(0);
      RunThen(more, a);
      GrowingSteps(rec, n, k);
      more := more + [a];
    }
  }

  /** "The queue caps growth" while there is no sink only up to the first flush.  After it, when
      the listener has left, the loop keeps receiving and the batch grows without bound. */
  lemma {:induction false} BatchGrowsWithoutBound(rec: Record, n: nat) returns (actions: seq<Action>)
    ensures !Run(actions).subscribed && |Run(actions).batch| == n && Run(actions).dropped == {}
  {
    hide Run;
    actions := DesertedStart();
    for i := 0 to n
      invariant Run(actions) == Grown(rec, i)
    {
      actions := GrowOnce(actions, rec, i);
    }
  }

  lemma DesertedStart() returns (actions: seq<Action>)
    ensures forall rec :: Run(actions) == Grown(rec, 0)
  {
    NothingHappened(SubscribedTick);
    NoIndices();
    hide Run, StepProducer, StepDrain, Indices;
    actions := [];
    RunThen(actions, Subscription(true));
    actions := actions + [Subscription(true)];
    RunThen(actions, SelectTick);
    actions := actions + [SelectTick];
    RunThen(actions, Subscription(false));
    actions := actions + [Subscription(false)];
    actions := FlushUnheard(actions);
  }

  lemma FirstLog(rec: Record)
    ensures Run([Log(0, rec)]) == Alone(rec, 0)
  {
    RunThen([], Log(0, rec));
    assert [] + [Log(0, rec)] == [Log(0, rec)];
    assert INITIAL.producers[0 := Guard(rec)] == Alone(rec, 0).producers;
  }
}
