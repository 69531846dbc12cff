/**
 The writing side of a connection as a transition system: senders, the writing
 goroutine with its small-write merging, and the non-forced disconnectors, stepping
 at the granularity of their accesses to shared state. Writes do not fail and the
 channel is not shut down.
 */
module StreamWriter {
  import opened Vint
  import opened FrameCodec
  import opened Chunks

  const MERGE_BUFFER_MAX_SIZE: nat := 64 * 1024 - 256
  const WRITE_QUEUE_SIZE: nat := 1024

  /** A zero `sendLimit` means no limit. */
  datatype Config = Config(hash: Hash, sendLimit: nat)

  datatype Status = Connected | Disconnecting | Disconnected

  /** Where the writing goroutine stands. */
  datatype Writer =
    | Select
    | Taken(frame: seq<Byte>)
    | Collect(frames: seq<seq<Byte>>)
    | BeginWrite(frames: seq<seq<Byte>>, draining: bool)
    | Write(frames: seq<seq<Byte>>, written: nat, draining: bool)
    | EndWrite(draining: bool)
    | CheckStatus
    | Drain
    | DrainTaken(frame: seq<Byte>)
    | Closing
    | TearDown
    | Exited

  /**
   The disconnector that changed the status. Every later one finds the status changed
   and returns, so there is at most one: it is about to read the writing flag
   (`Marked`), about to close the signal channel (`Unseen`), or done.
   */
  datatype Disconnector = Absent | Marked | Unseen | Done

  datatype State = State(
    status: Status,
    writing: bool,
    signalled: bool,
    closed: bool,
    queue: seq<seq<Byte>>,
    wire: seq<Byte>,
    writer: Writer,
    disconnector: Disconnector,
    /** Payloads of senders that have passed the status check but not enqueued yet. */
    senders: seq<Payload>,
    /** Payloads whose frames were accepted into the queue, in order. */
    accepted: seq<Payload>,
    /** How many payloads had been accepted when the status left Connected. */
    mark: nat)

  datatype Action =
    | Send(payload: Payload)
    | Enqueue(i: nat)
    | WriterSelect(signal: bool)
    | WriterStep(n: nat)
    | Disconnect
    | DisconnectStep

  const INIT: State :=
    State(Connected, false, false, false, [], [], Select, Absent, [], [], 0)

  function Frames(c: Config, ps: seq<Payload>): (fs: seq<seq<Byte>>)
    ensures |fs| == |ps|
    ensures forall i :: 0 <= i < |ps| ==> fs[i] == FrameOf(c.hash, ps[i])
  {
    seq(|ps|, i requires 0 <= i < |ps| => FrameOf(c.hash, ps[i]))
  }

  // ----- Steps -----

  predicate Enabled(c: Config, s: State, a: Action) {
    match a
    case Send(p) => s.status == Connected && !s.closed && !(c.sendLimit > 0 && |p| > c.sendLimit)
    case Enqueue(i) => i < |s.senders| && !s.closed
    case WriterSelect(signal) => s.writer.Select? && (if signal then s.signalled else s.queue != [])
    case WriterStep(n) =>
      && !s.writer.Select? && !s.writer.Exited?
      && (s.writer.Write? && s.writer.written < |Flat(s.writer.frames)| ==>
            0 < n <= |Flat(s.writer.frames)| - s.writer.written)
    case Disconnect => s.status == Connected
    case DisconnectStep => s.disconnector.Marked? || s.disconnector.Unseen?
  }

  function Do(c: Config, s: State, a: Action): State
    requires Enabled(c, s, a)
  {
    match a
    case Send(p) => s.(senders := s.senders + [p])
    case Enqueue(i) =>
      var p := s.senders[i];
      var s' := s.(senders := s.senders[..i] + s.senders[i + 1..]);
      if |s.queue| < WRITE_QUEUE_SIZE
      then s'.(queue := s.queue + [FrameOf(c.hash, p)], accepted := s.accepted + [p])
      else s'
    case WriterSelect(signal) =>
      if signal then s.(writer := Drain)
      else s.(writer := Taken(s.queue[0]), queue := s.queue[1..])
    case WriterStep(n) => StepWriter(s, n)
    case Disconnect => s.(status := Disconnecting, disconnector := Marked, mark := |s.accepted|)
    case DisconnectStep =>
      if s.disconnector.Marked? then s.(disconnector := if s.writing then Done else Unseen)
      else s.(signalled := true, disconnector := Done)
  }

  function StepWriter(s: State, n: nat): State
    requires !s.writer.Select? && !s.writer.Exited?
    requires s.writer.Write? ==> s.writer.written + n <= |Flat(s.writer.frames)| || s.writer.written >= |Flat(s.writer.frames)|
  {
    match s.writer
    case Taken(f) =>
      if s.closed then s.(writer := Closing)
      else if |f| <= DATA_SMALL_SIZE && |s.queue| > 0 then s.(writer := Collect([f]))
      else s.(writer := BeginWrite([f], false))
    case Collect(fs) =>
      if |Flat(fs)| < MERGE_BUFFER_MAX_SIZE && |s.queue| > 0
      then s.(writer := Collect(fs + [s.queue[0]]), queue := s.queue[1..])
      else s.(writer := BeginWrite(fs, false))
    case BeginWrite(fs, d) => s.(writing := true, writer := Write(fs, 0, d))
    case Write(fs, w, d) =>
      if w < |Flat(fs)| then s.(wire := s.wire + Flat(fs)[w..w + n], writer := Write(fs, w + n, d))
      else s.(writer := EndWrite(d))
    case EndWrite(d) => s.(writing := false, writer := if d then Drain else CheckStatus)
    case CheckStatus => s.(writer := if s.status == Disconnecting then Drain else Select)
    case Drain =>
      if s.queue != [] then s.(writer := DrainTaken(s.queue[0]), queue := s.queue[1..])
      else s.(writer := Closing)
    case DrainTaken(f) => s.(writer := if s.closed then Closing else BeginWrite([f], true))
    case Closing => if s.closed then s.(writer := Exited) else s.(closed := true, writer := TearDown)
    case TearDown => s.(status := Disconnected, writer := Exited)
  }

  // ----- Invariant -----

  /** Bytes the writer holds that are not on the wire yet. */
  function InHand(w: Writer): seq<Byte> {
    match w
    case Taken(f) => f
    case DrainTaken(f) => f
    case Collect(fs) => Flat(fs)
    case BeginWrite(fs, _) => Flat(fs)
    case Write(fs, n, _) => if n <= |Flat(fs)| then Flat(fs)[n..] else []
    case _ => []
  }

  /** Accepted bytes that are not on the wire yet. */
  function Outstanding(s: State): seq<Byte> {
    InHand(s.writer) + Flat(s.queue)
  }

  /** Nothing is lost, duplicated or reordered between acceptance and the wire. */
  ghost predicate Conserved(c: Config, s: State) {
    s.wire + Outstanding(s) == Flat(Frames(c, s.accepted))
  }

  predicate Ending(w: Writer) { w.Closing? || w.TearDown? || w.Exited? }

  predicate Draining(w: Writer) {
    w.Drain? || w.DrainTaken? || Ending(w) || ((w.BeginWrite? || w.Write? || w.EndWrite?) && w.draining)
  }

  /** The writer will look at the status, or has already acted on it, before it can block. */
  predicate MustSee(w: Writer) {
    w.Write? || w.EndWrite? || w.CheckStatus? || Draining(w)
  }

  ghost predicate Control(s: State) {
    && (s.writing <==> s.writer.Write? || s.writer.EndWrite?)
    && (s.closed <==> s.writer.TearDown? || s.writer.Exited?)
    && (s.status == Disconnected <==> s.writer.Exited?)
    && (s.status == Connected <==> s.disconnector.Absent?)
    && (s.signalled || Draining(s.writer) ==> s.status != Connected)
    && (s.writer.Write? ==> s.writer.written <= |Flat(s.writer.frames)|)
  }

  /** A connection that is to be closed has someone left who will close it. */
  ghost predicate NotLost(s: State) {
    s.status == Disconnecting ==>
      s.signalled || s.disconnector.Marked? || s.disconnector.Unseen? || MustSee(s.writer)
  }

  ghost predicate Flushed(c: Config, s: State) {
    && s.mark <= |s.accepted|
    && (Ending(s.writer) ==> Flat(Frames(c, s.accepted[..s.mark])) <= s.wire)
  }

  ghost predicate Inv(c: Config, s: State) {
    Control(s) && NotLost(s) && Conserved(c, s) && Flushed(c, s)
  }

  lemma ControlStep(c: Config, s: State, a: Action)
    requires Control(s) && Enabled(c, s, a)
    ensures Control(Do(c, s, a))
  {
  }

  lemma NotLostStep(c: Config, s: State, a: Action)
    requires Control(s) && NotLost(s) && Enabled(c, s, a)
    ensures NotLost(Do(c, s, a))
  {
  }

  lemma FramesAppend(c: Config, ps: seq<Payload>, p: Payload)
    ensures Flat(Frames(c, ps + [p])) == Flat(Frames(c, ps)) + FrameOf(c.hash, p)
  {
    assert Frames(c, ps + [p]) == Frames(c, ps) + [FrameOf(c.hash, p)];
    FlatSnoc(Frames(c, ps), FrameOf(c.hash, p));
  }

  lemma QueueAppend(s: State, s': State, f: seq<Byte>)
    requires s'.queue == s.queue + [f] && s'.writer == s.writer
    ensures Outstanding(s') == Outstanding(s) + f
  {
    FlatSnoc(s.queue, f);
  }

  lemma Regroup(a: seq<Byte>, b: seq<Byte>, c: seq<Byte>)
    ensures a + (b + c) == (a + b) + c
  {
  }

  lemma ConservedEnqueue(c: Config, s: State, i: nat)
    requires Conserved(c, s) && Enabled(c, s, Enqueue(i))
    ensures Conserved(c, Do(c, s, Enqueue(i)))
  {
    var s' := Do(c, s, Enqueue(i));
    var f := FrameOf(c.hash, s.senders[i]);
    if |s.queue| < WRITE_QUEUE_SIZE {
      QueueAppend(s, s', f);
      FramesAppend(c, s.accepted, s.senders[i]);
      Regroup(s.wire, Outstanding(s), f);
    }
  }

  /** Moving the head of the queue into an empty hand. */
  lemma PopOutstanding(s: State, s': State)
    requires s.queue != [] && s'.queue == s.queue[1..]
    requires InHand(s.writer) == [] && InHand(s'.writer) == s.queue[0]
    ensures Outstanding(s') == Outstanding(s)
  {
    FlatUncons(s.queue);
  }

  lemma CollectOutstanding(s: State, s': State, fs: seq<seq<Byte>>)
    requires s.queue != [] && s'.queue == s.queue[1..]
    requires s.writer == Collect(fs) && s'.writer == Collect(fs + [s.queue[0]])
    ensures Outstanding(s') == Outstanding(s)
  {
    FlatUncons(s.queue);
    FlatSnoc(fs, s.queue[0]);
    Regroup(Flat(fs), s.queue[0], Flat(s.queue[1..]));
  }

  lemma WriteOutstanding(s: State, s': State, fs: seq<seq<Byte>>, w: nat, n: nat, d: bool)
    requires w + n <= |Flat(fs)| && s'.queue == s.queue
    requires s.writer == Write(fs, w, d) && s'.writer == Write(fs, w + n, d)
    requires s'.wire == s.wire + Flat(fs)[w..w + n]
    ensures s'.wire + Outstanding(s') == s.wire + Outstanding(s)
  {
    var all, q := Flat(fs), Flat(s.queue);
    assert all[w..] == all[w..w + n] + all[w + n..];
    Regroup(all[w..w + n], all[w + n..], q);
    Regroup(s.wire, all[w..w + n], all[w + n..] + q);
  }

  /** Steps that move no bytes keep what is in the hand. */
  lemma HandKept(s: State, n: nat)
    requires Control(s) && !s.writer.Select? && !s.writer.Exited?
    requires s.writer.Write? ==> s.writer.written >= |Flat(s.writer.frames)|
    requires StepWriter(s, n).queue == s.queue
    ensures InHand(StepWriter(s, n).writer) == InHand(s.writer) && StepWriter(s, n).wire == s.wire
  {
    if s.writer.Taken? || s.writer.DrainTaken? {
      FlatOne(s.writer.frame);
    }
  }

  lemma WriterConserves(s: State, n: nat)
    requires Control(s) && !s.writer.Select? && !s.writer.Exited?
    requires s.writer.Write? && s.writer.written < |Flat(s.writer.frames)| ==>
               s.writer.written + n <= |Flat(s.writer.frames)|
    ensures var s' := StepWriter(s, n);
            s'.accepted == s.accepted && s'.wire + Outstanding(s') == s.wire + Outstanding(s)
  {
    var s' := StepWriter(s, n);
    match s.writer
    case Write(fs, w, d) =>
      if w < |Flat(fs)| {
        WriteOutstanding(s, s', fs, w, n, d);
      } else {
        HandKept(s, n);
      }
    case Collect(fs) =>
      if |Flat(fs)| < MERGE_BUFFER_MAX_SIZE && |s.queue| > 0 {
        CollectOutstanding(s, s', fs);
      } else {
        HandKept(s, n);
      }
    case Drain =>
      if s.queue != [] {
        PopOutstanding(s, s');
      } else {
        HandKept(s, n);
      }
    case _ => HandKept(s, n);
  }

  lemma ConservedStep(c: Config, s: State, a: Action)
    requires Control(s) && Conserved(c, s) && Enabled(c, s, a)
    ensures Conserved(c, Do(c, s, a))
  {
    match a
    case Enqueue(i) => ConservedEnqueue(c, s, i);
    case WriterStep(n) => WriterConserves(s, n);
    case WriterSelect(signal) =>
      if !signal {
        PopOutstanding(s, Do(c, s, a));
      }
    case _ =>
  }

  lemma FramesPrefix(c: Config, ps: seq<Payload>, m: nat)
    requires m <= |ps|
    ensures Flat(Frames(c, ps[..m])) <= Flat(Frames(c, ps))
  {
    var all, early := Frames(c, ps), Frames(c, ps[..m]);
    assert all == early + all[m..];
    FlatAppend(early, all[m..]);
  }

  lemma FlushedStep(c: Config, s: State, a: Action)
    requires Control(s) && Conserved(c, s) && Flushed(c, s) && Enabled(c, s, a)
    ensures Flushed(c, Do(c, s, a))
  {
    var s' := Do(c, s, a);
    if a.Enqueue? {
      assert s'.accepted[..s.mark] == s.accepted[..s.mark];
    } else if Ending(s'.writer) {
      EndingStep(c, s, a);
      if !Ending(s.writer) {
        FramesPrefix(c, s.accepted, s.mark);
        assert s.wire + Outstanding(s) == s.wire;
      }
    }
  }

  /** The writer only ends after a drain that found the queue empty. */
  lemma EndingStep(c: Config, s: State, a: Action)
    requires Control(s) && Enabled(c, s, a) && Ending(Do(c, s, a).writer) && !a.Enqueue?
    ensures var s' := Do(c, s, a); s'.wire == s.wire && s'.accepted == s.accepted && s'.mark == s.mark
    ensures Ending(s.writer) || (s.writer.Drain? && s.queue == [])
  {
  }

  lemma InvStep(c: Config, s: State, a: Action)
    requires Inv(c, s) && Enabled(c, s, a)
    ensures Inv(c, Do(c, s, a))
  {
    ControlStep(c, s, a);
    NotLostStep(c, s, a);
    ConservedStep(c, s, a);
    FlushedStep(c, s, a);
  }

  // ----- Runs -----

  ghost predicate IsRun(c: Config, s: State, run: seq<Action>, last: State)
    decreases |run|
  {
    if run == [] then s == last
    else Enabled(c, s, run[0]) && IsRun(c, Do(c, s, run[0]), run[1..], last)
  }

  lemma {:induction false} RunKeepsInv(c: Config, s: State, run: seq<Action>, last: State)
    requires Inv(c, s) && IsRun(c, s, run, last)
    ensures Inv(c, last)
    decreases |run|
  {
    if run != [] {
      InvStep(c, s, run[0]);
      RunKeepsInv(c, Do(c, s, run[0]), run[1..], last);
    }
  }

  lemma InitInv(c: Config)
    ensures Inv(c, INIT)
  {
    assert Frames(c, []) == [];
  }

  /**
   In every interleaving: a disconnect is never lost, the wire always carries a prefix
   of the accepted frames in order, and by the time the connection is closed every
   frame accepted before the status changed is on the wire.
   */
  lemma GracefulDisconnectSafety(c: Config, run: seq<Action>, s: State)
    requires IsRun(c, INIT, run, s)
    ensures NotLost(s)
    ensures s.wire <= Flat(Frames(c, s.accepted))
    ensures s.closed ==> s.mark <= |s.accepted| && Flat(Frames(c, s.accepted[..s.mark])) <= s.wire
    ensures Outstanding(s) == [] ==> s.wire == Flat(Frames(c, s.accepted))
  {
    InitInv(c);
    RunKeepsInv(c, INIT, run, s);
    assert s.wire + [] == s.wire;
  }

  // ----- Termination of the disconnect -----

  function Weight(f: seq<Byte>): nat { |f| + 10 }

  function QueueWeight(q: seq<seq<Byte>>): nat {
    if q == [] then 0 else Weight(q[0]) + QueueWeight(q[1..])
  }

  function SenderWeight(c: Config, ps: seq<Payload>): nat {
    if ps == [] then 0 else Weight(FrameOf(c.hash, ps[0])) + 1 + SenderWeight(c, ps[1..])
  }

  function WriterWeight(w: Writer): nat {
    match w
    case Select => 6
    case Taken(f) => 12 + |f|
    case Collect(fs) => 11 + |Flat(fs)|
    case BeginWrite(fs, _) => 10 + |Flat(fs)|
    case Write(fs, n, _) => 9 + if n <= |Flat(fs)| then |Flat(fs)| - n else 0
    case EndWrite(_) => 8
    case CheckStatus => 7
    case Drain => 5
    case DrainTaken(f) => 12 + |f|
    case Closing => 2
    case TearDown => 1
    case Exited => 0
  }

  function DisconnectorWeight(d: Disconnector): nat {
    match d case Marked => 2 case Unseen => 1 case _ => 0
  }

  /** Work left before the connection is closed. */
  function Rank(c: Config, s: State): nat {
    SenderWeight(c, s.senders) + QueueWeight(s.queue) + WriterWeight(s.writer) + DisconnectorWeight(s.disconnector)
  }

  lemma {:induction false} QueueWeightAppend(q: seq<seq<Byte>>, f: seq<Byte>)
    ensures QueueWeight(q + [f]) == QueueWeight(q) + Weight(f)
  {
    if q == [] {
      assert q + [f] == [f];
    } else {
      QueueWeightAppend(q[1..], f);
      assert (q + [f])[1..] == q[1..] + [f];
    }
  }

  lemma {:induction false} SenderWeightRemove(c: Config, ps: seq<Payload>, i: nat)
    requires i < |ps|
    ensures SenderWeight(c, ps) == SenderWeight(c, ps[..i] + ps[i + 1..]) + Weight(FrameOf(c.hash, ps[i])) + 1
  {
    if i == 0 {
      assert ps[..0] + ps[1..] == ps[1..];
    } else {
      SenderWeightRemove(c, ps[1..], i - 1);
      assert (ps[..i] + ps[i + 1..])[1..] == ps[1..][..i - 1] + ps[1..][i..];
    }
  }

  lemma WriterStepCounts(c: Config, s: State, n: nat)
    requires Control(s) && Enabled(c, s, WriterStep(n))
    ensures var s' := StepWriter(s, n);
            QueueWeight(s'.queue) + WriterWeight(s'.writer) < QueueWeight(s.queue) + WriterWeight(s.writer)
  {
    match s.writer
    case Taken(f) => FlatOne(f);
    case DrainTaken(f) => FlatOne(f);
    case Collect(fs) => CollectCounts(fs, s.queue);
    case _ =>
  }

  lemma CollectCounts(fs: seq<seq<Byte>>, q: seq<seq<Byte>>)
    ensures q != [] ==>
              WriterWeight(Collect(fs + [q[0]])) + QueueWeight(q[1..]) < WriterWeight(Collect(fs)) + QueueWeight(q)
  {
    if q != [] {
      FlatSnoc(fs, q[0]);
    }
  }

  lemma EnqueueCounts(c: Config, s: State, i: nat)
    requires Enabled(c, s, Enqueue(i))
    ensures Rank(c, Do(c, s, Enqueue(i))) < Rank(c, s)
  {
    SenderWeightRemove(c, s.senders, i);
    QueueWeightAppend(s.queue, FrameOf(c.hash, s.senders[i]));
  }

  /** Once the status has changed every step, whoever takes it, brings the close nearer. */
  lemma EveryStepCounts(c: Config, s: State, a: Action)
    requires Control(s) && s.status != Connected && Enabled(c, s, a)
    ensures Do(c, s, a).status != Connected && Rank(c, Do(c, s, a)) < Rank(c, s)
  {
    match a
    case Enqueue(i) => EnqueueCounts(c, s, i);
    case WriterStep(n) => WriterStepCounts(c, s, n);
    case WriterSelect(signal) => SelectCounts(c, s, signal);
    case _ =>
  }

  lemma SelectCounts(c: Config, s: State, signal: bool)
    requires Enabled(c, s, WriterSelect(signal))
    ensures Rank(c, Do(c, s, WriterSelect(signal))) < Rank(c, s)
  {
  }

  /** A connection that is to be closed and is not yet can always take a step. */
  lemma NeverStuck(c: Config, s: State)
    requires Inv(c, s) && s.status == Disconnecting
    ensures exists a :: Enabled(c, s, a)
  {
    if s.writer.Select? {
      if s.disconnector.Marked? || s.disconnector.Unseen? {
        assert Enabled(c, s, DisconnectStep);
      } else {
        assert Enabled(c, s, WriterSelect(true));
      }
    } else {
      var n := if s.writer.Write? && s.writer.written < |Flat(s.writer.frames)| then 1 else 0;
      assert Enabled(c, s, WriterStep(n));
    }
  }

  lemma {:induction false} RunIsShort(c: Config, s: State, run: seq<Action>, last: State)
    requires Inv(c, s) && s.status != Connected && IsRun(c, s, run, last)
    ensures |run| <= Rank(c, s)
    ensures last.status != Connected
    decreases |run|
  {
    if run != [] {
      InvStep(c, s, run[0]);
      EveryStepCounts(c, s, run[0]);
      RunIsShort(c, Do(c, s, run[0]), run[1..], last);
    }
  }

  /**
   From the moment of the disconnect a run has at most `Rank` steps left, and a run
   that cannot be continued has closed the connection, with every frame accepted
   before the disconnect written out.
   */
  lemma GracefulDisconnectCompletes(c: Config, s: State, run: seq<Action>, last: State)
    requires Inv(c, s) && s.status != Connected && IsRun(c, s, run, last)
    ensures |run| <= Rank(c, s)
    ensures (forall a :: !Enabled(c, last, a)) ==>
              && last.closed && last.status == Disconnected
              && last.mark <= |last.accepted| && Flat(Frames(c, last.accepted[..last.mark])) <= last.wire
  {
    RunIsShort(c, s, run, last);
    RunKeepsInv(c, s, run, last);
    if last.status == Disconnecting {
      NeverStuck(c, last);
    }
  }
}
