/** When the writing goroutine merges, when a send is turned away, and that a backlog gets written. */
module WriterLaws {
  import opened Vint
  import opened FrameCodec
  import opened Chunks
  import opened StreamWriter

  // ----- Merging -----

  /** One frame, or several of which the first is small and all but the last are below the merge limit. */
  ghost predicate Batch(fs: seq<seq<Byte>>) {
    && |fs| >= 1
    && (|fs| > 1 ==> |fs[0]| <= DATA_SMALL_SIZE && |Flat(fs[..|fs| - 1])| < MERGE_BUFFER_MAX_SIZE)
  }

  ghost predicate SmallFirst(fs: seq<seq<Byte>>) { Batch(fs) && |fs[0]| <= DATA_SMALL_SIZE }

  /** What is written at once is a batch; on a drain it is always one frame. */
  ghost predicate InBatches(w: Writer) {
    match w
    case Collect(fs) => SmallFirst(fs)
    case BeginWrite(fs, d) => Batch(fs) && (d ==> |fs| == 1)
    case Write(fs, _, d) => Batch(fs) && (d ==> |fs| == 1)
    case _ => true
  }

  lemma BatchGrows(fs: seq<seq<Byte>>, f: seq<Byte>)
    requires SmallFirst(fs) && |Flat(fs)| < MERGE_BUFFER_MAX_SIZE
    ensures SmallFirst(fs + [f])
  {
    assert (fs + [f])[..|fs|] == fs;
  }

  lemma AloneIsBatch(f: seq<Byte>)
    ensures Batch([f]) && (|f| <= DATA_SMALL_SIZE ==> SmallFirst([f]))
  {
  }

  lemma SmallFirstIsBatch(fs: seq<seq<Byte>>)
    requires SmallFirst(fs)
    ensures Batch(fs)
  {
  }

  lemma WriterInBatches(s: State, n: nat)
    requires Control(s) && !s.writer.Select? && !s.writer.Exited? && InBatches(s.writer)
    requires s.writer.Write? ==> s.writer.written + n <= |Flat(s.writer.frames)| || s.writer.written >= |Flat(s.writer.frames)|
    ensures InBatches(StepWriter(s, n).writer)
  {
    hide Batch;
    hide SmallFirst;
    hide Control;
    hide Flat;
    match s.writer
    case Taken(f) => AloneIsBatch(f);
    case DrainTaken(f) => AloneIsBatch(f);
    case Collect(fs) =>
      SmallFirstIsBatch(fs);
      if s.queue != [] && |Flat(fs)| < MERGE_BUFFER_MAX_SIZE {
        BatchGrows(fs, s.queue[0]);
      }
    case _ =>
  }

  lemma InBatchesStep(c: Config, s: State, a: Action)
    requires Control(s) && Enabled(c, s, a) && InBatches(s.writer)
    ensures InBatches(Do(c, s, a).writer)
  {
    hide Batch;
    hide SmallFirst;
    hide StepWriter;
    hide Control;
    if a.WriterStep? {
      WriterInBatches(s, a.n);
    }
  }

  lemma {:induction false} RunInBatches(c: Config, s: State, run: seq<Action>, last: State)
    requires Control(s) && InBatches(s.writer) && IsRun(c, s, run, last)
    ensures InBatches(last.writer)
    decreases |run|
  {
    if run != [] {
      ControlStep(c, s, run[0]);
      InBatchesStep(c, s, run[0]);
      RunInBatches(c, Do(c, s, run[0]), run[1..], last);
    }
  }

  lemma FlatSplit(fs: seq<seq<Byte>>)
    requires fs != []
    ensures Flat(fs) == Flat(fs[..|fs| - 1]) + fs[|fs| - 1]
  {
    assert fs == fs[..|fs| - 1] + [fs[|fs| - 1]];
    FlatSnoc(fs[..|fs| - 1], fs[|fs| - 1]);
  }

  /** In every interleaving what is merged with others is below the limit and its last frame. */
  lemma MergesWithin(c: Config, run: seq<Action>, s: State)
    requires IsRun(c, INIT, run, s) && s.writer.Write? && |s.writer.frames| > 1
    ensures |s.writer.frames[0]| <= DATA_SMALL_SIZE && !s.writer.draining
    ensures |Flat(s.writer.frames)| < MERGE_BUFFER_MAX_SIZE + |s.writer.frames[|s.writer.frames| - 1]|
  {
    RunInBatches(c, INIT, run, s);
    FlatSplit(s.writer.frames);
  }

  /** A merge stops only at an empty queue or at the limit. */
  lemma MergesOn(c: Config, s: State)
    requires (s.writer.Taken? && !s.closed && |s.writer.frame| <= DATA_SMALL_SIZE) || s.writer.Collect?
    ensures var t := Do(c, s, WriterStep(0)).writer;
            t.BeginWrite? ==> s.queue == [] || |Flat(t.frames)| >= MERGE_BUFFER_MAX_SIZE
  {
  }

  // ----- Sending -----

  /** A send is turned away exactly for its size or because a disconnect came first. */
  lemma SendRefusedIff(c: Config, run: seq<Action>, s: State, p: Payload)
    requires IsRun(c, INIT, run, s)
    ensures !Enabled(c, s, Send(p)) <==> s.status != Connected || (c.sendLimit > 0 && |p| > c.sendLimit)
  {
    InitInv(c);
    RunKeepsInv(c, INIT, run, s);
  }

  // ----- Catching up -----

  predicate Writers(run: seq<Action>) {
    forall i :: 0 <= i < |run| ==> ByWriter(run[i])
  }

  function Backlog(s: State): nat { QueueWeight(s.queue) + WriterWeight(s.writer) }

  predicate ByWriter(a: Action) { a.WriterSelect? || a.WriterStep? }

  /** A writer that is done has nothing left to write. */
  predicate DoneMeansDry(s: State) { Ending(s.writer) ==> Outstanding(s) == [] }

  lemma WriterCounts(c: Config, s: State, a: Action)
    requires Control(s) && Enabled(c, s, a) && ByWriter(a)
    ensures var t := Do(c, s, a); Backlog(t) < Backlog(s) && t.accepted == s.accepted
  {
    if a.WriterStep? {
      WriterStepCounts(c, s, a.n);
    }
  }

  lemma StaysDry(c: Config, s: State, a: Action)
    requires Inv(c, s) && Enabled(c, s, a) && ByWriter(a) && DoneMeansDry(s)
    ensures DoneMeansDry(Do(c, s, a))
  {
    var t := Do(c, s, a);
    if Ending(t.writer) {
      EndingStep(c, s, a);
      ConservedStep(c, s, a);
      assert s.wire + Outstanding(s) == s.wire + Outstanding(t);
    }
  }

  lemma {:induction false} WriterRun(c: Config, s: State, run: seq<Action>, last: State)
    requires Inv(c, s) && DoneMeansDry(s) && Writers(run) && IsRun(c, s, run, last)
    ensures Inv(c, last) && DoneMeansDry(last) && |run| <= Backlog(s) && last.accepted == s.accepted
    decreases |run|
  {
    if run != [] {
      InvStep(c, s, run[0]);
      WriterCounts(c, s, run[0]);
      StaysDry(c, s, run[0]);
      hide Inv;
      hide Do;
      hide DoneMeansDry;
      WriterRun(c, Do(c, s, run[0]), run[1..], last);
    }
  }

  /**
   Left alone the writer takes boundedly many steps, and when it can take no more
   everything that was accepted is on the wire, and a signalled disconnect has closed
   the connection.
   */
  lemma WriterCatchesUp(c: Config, s: State, run: seq<Action>, last: State)
    requires Inv(c, s) && !Ending(s.writer) && Writers(run) && IsRun(c, s, run, last)
    requires forall a: Action :: ByWriter(a) ==> !Enabled(c, last, a)
    ensures |run| <= Backlog(s)
    ensures last.wire == Flat(Frames(c, s.accepted)) && (last.signalled ==> last.closed)
  {
    WriterRun(c, s, run, last);
    StoppedWriter(c, last);
    assert last.wire + [] == last.wire;
  }

  lemma StoppedWriter(c: Config, s: State)
    requires Control(s) && DoneMeansDry(s)
    requires forall a: Action :: ByWriter(a) ==> !Enabled(c, s, a)
    ensures Outstanding(s) == [] && (s.signalled ==> s.closed)
  {
    if s.writer.Select? {
      assert !Enabled(c, s, WriterSelect(false)) && !Enabled(c, s, WriterSelect(true));
    } else if !s.writer.Exited? {
      var n := if s.writer.Write? && s.writer.written < |Flat(s.writer.frames)| then 1 else 0;
      assert Enabled(c, s, WriterStep(n));
    }
  }
}
