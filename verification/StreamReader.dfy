/**
 Reassembly of frames from a byte stream that arrives in arbitrary chunks. `Run` is
 the reference: a parser that sees the whole stream at once. `Reader` is the
 connection's two-phase reader, with its fixed head buffer and its large-frame
 buffer, proved to agree with `Run` on every stream and every chunking.
 */
module StreamReader {
  import opened Vint
  import opened FrameCodec
  import opened Chunks

  /** A zero `limit` means no receive limit. */
  datatype Config = Config(hash: Hash, limit: nat, maxHashFailed: nat, maxBlockFailed: nat)

  datatype Phase = Live | Dropped | Panicked

  /** What a reader has told its owner so far. */
  datatype Rx = Rx(delivered: seq<seq<Byte>>, hashFailed: nat, blockFailed: nat, phase: Phase)

  const START: Rx := Rx([], 0, 0, Live)

  // ----- Reference parser -----

  /** The verdict on one complete frame. */
  function Judge(c: Config, rx: Rx, hashField: U32, payload: seq<Byte>): Rx {
    if c.hash(payload) != hashField then
      rx.(hashFailed := rx.hashFailed + 1, phase := if rx.hashFailed + 1 > c.maxHashFailed then Dropped else rx.phase)
    else if c.limit > 0 && |payload| > c.limit then
      rx.(blockFailed := rx.blockFailed + 1, phase := if rx.blockFailed + 1 > c.maxBlockFailed then Dropped else rx.phase)
    else
      rx.(delivered := rx.delivered + [payload])
  }

  /** Only this much of a frame may be looked at before its header must be complete. */
  function Window(bytes: seq<Byte>): (w: seq<Byte>)
    ensures w <= bytes
  {
    if |bytes| <= DATA_SMALL_SIZE then bytes else bytes[..DATA_SMALL_SIZE]
  }

  predicate TooLarge(c: Config, h: Header)
    requires h.Header?
  {
    h.Total() > DATA_SMALL_SIZE && c.limit > 0 && h.length > c.limit
  }

  /** Consumes every complete frame of `bytes`; what is left is the start of the next one. */
  function Run(c: Config, bytes: seq<Byte>, rx: Rx): (r: (Rx, seq<Byte>))
    decreases |bytes|
  {
    if !rx.phase.Live? then (rx, bytes)
    else
      var h := ParseHeader(Window(bytes));
      if h.NeedMore? then
        (if |bytes| > DATA_SMALL_SIZE then rx.(phase := Dropped) else rx, bytes)
      else if !h.Representable() then (rx.(phase := Panicked), bytes)
      else if TooLarge(c, h) then (rx.(blockFailed := rx.blockFailed + 1, phase := Dropped), bytes)
      else if |bytes| < h.Total() then (rx, bytes)
      else
        Run(c, bytes[h.Total()..], Judge(c, rx, h.hash, bytes[HASH_SIZE + h.vintSize..h.Total()]))
  }

  lemma WindowExtend(a: seq<Byte>, b: seq<Byte>)
    requires ParseHeader(Window(a)).Header?
    ensures ParseHeader(Window(a + b)) == ParseHeader(Window(a))
  {
    var w := Window(a + b);
    assert w == Window(a) + w[|Window(a)|..];
    ParseHeaderExtend(Window(a), w[|Window(a)|..]);
  }

  /** A frame that is complete in `bytes`, and that the reference judges. */
  ghost predicate Complete(c: Config, bytes: seq<Byte>) {
    var h := ParseHeader(Window(bytes));
    h.Header? && h.Representable() && !TooLarge(c, h) && h.Total() <= |bytes|
  }

  lemma RunFirst(c: Config, bytes: seq<Byte>, rx: Rx)
    requires rx.phase.Live? && Complete(c, bytes)
    ensures var h := ParseHeader(Window(bytes));
            Run(c, bytes, rx) == Run(c, bytes[h.Total()..], Judge(c, rx, h.hash, bytes[HASH_SIZE + h.vintSize..h.Total()]))
  {
  }

  lemma CompleteStays(c: Config, a: seq<Byte>, b: seq<Byte>)
    requires Complete(c, a)
    ensures var h := ParseHeader(Window(a));
            && Complete(c, a + b) && ParseHeader(Window(a + b)) == h && (a + b)[h.Total()..] == a[h.Total()..] + b
            && (a + b)[HASH_SIZE + h.vintSize..h.Total()] == a[HASH_SIZE + h.vintSize..h.Total()]
  {
    WindowExtend(a, b);
    hide ParseHeader;
    hide Window;
  }

  /** The same frame comes first, and the same verdict, whatever is appended. */
  lemma RunNext(c: Config, a: seq<Byte>, b: seq<Byte>, rx: Rx)
    requires rx.phase.Live? && Complete(c, a)
    ensures var h := ParseHeader(Window(a));
            var rx' := Judge(c, rx, h.hash, a[HASH_SIZE + h.vintSize..h.Total()]);
            && Run(c, a, rx) == Run(c, a[h.Total()..], rx')
            && Run(c, a + b, rx) == Run(c, a[h.Total()..] + b, rx')
  {
    hide Run;
    hide ParseHeader;
    hide Window;
    hide Judge;
    CompleteStays(c, a, b);
    RunFirst(c, a, rx);
    RunFirst(c, a + b, rx);
  }

  lemma RunHalts(c: Config, a: seq<Byte>, b: seq<Byte>, rx: Rx)
    requires !rx.phase.Live? || !Complete(c, a)
    ensures var (rx1, rest) := Run(c, a, rx);
            Run(c, a + b, rx) == if rx1.phase.Live? then Run(c, rest + b, rx1) else (rx1, rest + b)
  {
    if rx.phase.Live? {
      if ParseHeader(Window(a)).NeedMore? {
        if |a| > DATA_SMALL_SIZE {
          assert Window(a + b) == Window(a);
        }
      } else {
        WindowExtend(a, b);
      }
    }
  }

  /** Reading a stream in two parts is reading it at once; a halt is final. */
  lemma {:induction false} RunAppend(c: Config, a: seq<Byte>, b: seq<Byte>, rx: Rx)
    ensures var (rx1, rest) := Run(c, a, rx);
            Run(c, a + b, rx) == if rx1.phase.Live? then Run(c, rest + b, rx1) else (rx1, rest + b)
    decreases |a|
  {
    hide Run;
    hide ParseHeader;
    if rx.phase.Live? && Complete(c, a) {
      RunNext(c, a, b, rx);
      var h := ParseHeader(Window(a));
      RunAppend(c, a[h.Total()..], b, Judge(c, rx, h.hash, a[HASH_SIZE + h.vintSize..h.Total()]));
    } else {
      RunHalts(c, a, b, rx);
    }
  }

  /** The start of a frame that fits the head buffer and is not complete yet. */
  ghost predicate Waiting(pending: seq<Byte>) {
    var h := ParseHeader(pending);
    && |pending| <= DATA_SMALL_SIZE
    && (h.Header? ==> |pending| < h.Total() <= DATA_SMALL_SIZE)
  }

  /** `pending` is (part of) a frame too big for the head buffer, with this length field. */
  ghost predicate LargeHeader(c: Config, pending: seq<Byte>, vintSize: nat, length: nat) {
    var h := ParseHeader(Window(pending));
    && h.Header? && h.Representable() && !TooLarge(c, h)
    && h.Total() > DATA_SMALL_SIZE && h.Total() >= |pending|
    && h.length == length && h.vintSize == vintSize
  }

  lemma LargeHeaderExtend(c: Config, a: seq<Byte>, b: seq<Byte>, vintSize: nat, length: nat)
    requires LargeHeader(c, a, vintSize, length) && |a| + |b| <= HASH_SIZE + vintSize + length
    ensures LargeHeader(c, a + b, vintSize, length)
  {
    WindowExtend(a, b);
  }

  /** Reading the header in place, at an offset into the buffered bytes. */
  lemma HeaderAt(data: seq<Byte>, from: nat)
    requires from + HASH_SIZE < |data|
    ensures ParseHeader(data[from..]) ==
            match Decode(data[from + HASH_SIZE..])
            case Incomplete => NeedMore
            case Value(v, n) => Header(FromLittleEndian(data[from..from + HASH_SIZE]), n, v)
  {
    assert data[from..][HASH_SIZE..] == data[from + HASH_SIZE..];
    assert data[from..][..HASH_SIZE] == data[from..from + HASH_SIZE];
  }

  lemma ShortHeader(bytes: seq<Byte>)
    requires |bytes| <= HASH_SIZE
    ensures ParseHeader(bytes).NeedMore?
  {
  }

  // ----- The reader on chunks, as functions -----

  /**
   The parsing loop over the head buffer. It goes on after the decision to drop the
   connection, up to a frame that is not complete.
   */
  function Sweep(c: Config, bytes: seq<Byte>, rx: Rx): (r: (Rx, seq<Byte>))
    decreases |bytes|
  {
    var h := ParseHeader(bytes);
    if rx.phase.Panicked? || h.NeedMore? then (rx, bytes)
    else if !h.Representable() then (rx.(phase := Panicked), bytes)
    else if h.Total() <= |bytes| then
      Sweep(c, bytes[h.Total()..], Judge(c, rx, h.hash, bytes[HASH_SIZE + h.vintSize..h.Total()]))
    else if TooLarge(c, h) then (rx.(blockFailed := rx.blockFailed + 1, phase := Dropped), bytes)
    else (rx, bytes)
  }

  /** One step over a complete frame in the head buffer. */
  lemma FrameAt(c: Config, data: seq<Byte>, from: nat, rx: Rx)
    requires from + HASH_SIZE < |data| && !rx.phase.Panicked?
    requires var h := ParseHeader(data[from..]); h.Header? && h.Representable() && from + h.Total() <= |data|
    ensures var h := ParseHeader(data[from..]);
            Sweep(c, data[from..], rx) ==
            Sweep(c, data[from + h.Total()..], Judge(c, rx, h.hash, data[from + HASH_SIZE + h.vintSize..from + h.Total()]))
  {
    var h := ParseHeader(data[from..]);
    assert data[from..][h.Total()..] == data[from + h.Total()..];
    assert data[from..][HASH_SIZE + h.vintSize..h.Total()] == data[from + HASH_SIZE + h.vintSize..from + h.Total()];
  }

  /** A verdict after a drop differs from one before it in the phase alone. */
  lemma JudgePhase(c: Config, rx: Rx, phase: Phase, hashField: U32, payload: seq<Byte>)
    requires rx.phase.Live?
    ensures var r := Judge(c, rx, hashField, payload);
            Judge(c, rx.(phase := phase), hashField, payload) == r.(phase := if r.phase.Dropped? then Dropped else phase)
  {
  }

  /** What the loop makes of bytes that hold no complete frame. */
  lemma SweepStops(c: Config, bytes: seq<Byte>, rx: Rx)
    requires !rx.phase.Panicked?
    requires var h := ParseHeader(bytes); h.NeedMore? || !h.Representable() || |bytes| < h.Total()
    ensures var h := ParseHeader(bytes);
            Sweep(c, bytes, rx) ==
            (if h.NeedMore? then rx
             else if !h.Representable() then rx.(phase := Panicked)
             else if TooLarge(c, h) then rx.(blockFailed := rx.blockFailed + 1, phase := Dropped)
             else rx, bytes)
  {
  }

  /** One turn of the reading loop: the bytes held afterwards, and how many were taken in. */
  datatype Turn = Turn(rx: Rx, held: seq<Byte>, taken: nat)

  function Least(a: nat, b: nat): (m: nat)
    ensures m <= a && m <= b
  {
    if a < b then a else b
  }

  /**
   Feeds the start of `incoming` to the large frame under way or to the head buffer. On a
   drop, `held` is what the buffer holds beyond the point where the reference halts.
   */
  function Step(c: Config, held: seq<Byte>, incoming: seq<Byte>, rx: Rx): (t: Turn)
    requires incoming != []
    ensures 0 < t.taken <= |incoming|
  {
    var h := ParseHeader(Window(held));
    if h.Header? && h.Total() > DATA_SMALL_SIZE then
      var taken := Least(|incoming|, if |held| < h.Total() then h.Total() - |held| else 1);
      var all := held + incoming[..taken];
      if |all| < h.Total() then Turn(rx, all, taken)
      else Turn(Judge(c, rx, h.hash, all[HASH_SIZE + h.vintSize..h.Total()]), [], taken)
    else if |held| >= DATA_SMALL_SIZE then Turn(rx.(phase := Dropped), held, 1)
    else
      var taken := Least(|incoming|, DATA_SMALL_SIZE - |held|);
      var all := held + incoming[..taken];
      var (r, rest) := Sweep(c, all, rx);
      Turn(r, if r.phase.Live? then rest else Run(c, all, rx).1, taken)
  }

  function FedChunk(c: Config, held: seq<Byte>, chunk: seq<Byte>, rx: Rx): (r: (Rx, seq<Byte>))
    decreases |chunk|
  {
    if chunk == [] || !rx.phase.Live? then (rx, held)
    else
      var t := Step(c, held, chunk, rx);
      FedChunk(c, t.held, chunk[t.taken..], t.rx)
  }

  function Fed(c: Config, held: seq<Byte>, chunks: seq<seq<Byte>>, rx: Rx): (r: (Rx, seq<Byte>))
    decreases |chunks|
  {
    if chunks == [] || !rx.phase.Live? then (rx, held)
    else
      var (r, rest) := FedChunk(c, held, chunks[0], rx);
      Fed(c, rest, chunks[1..], r)
  }

  // ----- Chunks against the reference -----

  /** Nothing to judge yet: a frame that is not complete, and that the reader would go on with. */
  ghost predicate Holding(c: Config, held: seq<Byte>) {
    var h := ParseHeader(Window(held));
    if h.Header? then h.Representable() && !TooLarge(c, h) && |held| < h.Total() else |held| <= DATA_SMALL_SIZE
  }

  lemma JudgeKeeps(c: Config, rx: Rx, hashField: U32, payload: seq<Byte>)
    ensures var r := Judge(c, rx, hashField, payload);
            rx.delivered <= r.delivered && (r.phase == rx.phase || r.phase.Dropped?)
  {
  }

  /** A frame that is complete in the head buffer. */
  ghost predicate Ready(bytes: seq<Byte>) {
    var h := ParseHeader(bytes);
    h.Header? && h.Representable() && h.Total() <= |bytes|
  }

  lemma SweepFirst(c: Config, bytes: seq<Byte>, rx: Rx)
    requires !rx.phase.Panicked? && Ready(bytes)
    ensures var h := ParseHeader(bytes);
            Sweep(c, bytes, rx) == Sweep(c, bytes[h.Total()..], Judge(c, rx, h.hash, bytes[HASH_SIZE + h.vintSize..h.Total()]))
  {
  }

  lemma ReadyStays(a: seq<Byte>, b: seq<Byte>)
    requires Ready(a)
    ensures var h := ParseHeader(a);
            && Ready(a + b) && ParseHeader(a + b) == h && (a + b)[h.Total()..] == a[h.Total()..] + b
            && (a + b)[HASH_SIZE + h.vintSize..h.Total()] == a[HASH_SIZE + h.vintSize..h.Total()]
  {
    ParseHeaderExtend(a, b);
    hide ParseHeader;
  }

  /** The loop takes the frame in front, the same whatever is appended. */
  lemma SweepNext(c: Config, a: seq<Byte>, b: seq<Byte>, rx: Rx)
    requires !rx.phase.Panicked? && Ready(a)
    ensures var h := ParseHeader(a);
            var rx' := Judge(c, rx, h.hash, a[HASH_SIZE + h.vintSize..h.Total()]);
            && (rx'.phase == rx.phase || rx'.phase.Dropped?)
            && Sweep(c, a, rx) == Sweep(c, a[h.Total()..], rx')
            && Sweep(c, a + b, rx) == Sweep(c, a[h.Total()..] + b, rx')
  {
    hide Sweep;
    hide ParseHeader;
    ReadyStays(a, b);
    SweepFirst(c, a, rx);
    SweepFirst(c, a + b, rx);
  }

  /** Over the head buffer: a live sweep is the reference; after a halt it delivers what is left. */
  ghost predicate SweepsAsRun(c: Config, bytes: seq<Byte>, rx: Rx) {
    var (r, (rx', rest)) := (Sweep(c, bytes, rx), Run(c, bytes, rx));
    && r.0.delivered == Sweep(c, rest, rx').0.delivered
    && (if r.0.phase.Live? then r == (rx', rest) && Holding(c, rest) else !rx'.phase.Live?)
  }

  lemma SweepHalts(c: Config, bytes: seq<Byte>, rx: Rx)
    requires |bytes| <= DATA_SMALL_SIZE && rx.phase.Live? && !Ready(bytes)
    ensures SweepsAsRun(c, bytes, rx)
  {
    assert Window(bytes) == bytes;
  }

  lemma SweepDropped(c: Config, bytes: seq<Byte>, rx: Rx)
    requires rx.phase.Dropped?
    ensures SweepsAsRun(c, bytes, rx)
  {
    SweepStaysDown(c, bytes, rx);
    hide Sweep;
  }

  lemma ReadyComplete(c: Config, bytes: seq<Byte>)
    requires |bytes| <= DATA_SMALL_SIZE && Ready(bytes)
    ensures Window(bytes) == bytes && Complete(c, bytes)
  {
  }

  lemma SweepsOn(c: Config, bytes: seq<Byte>, rx: Rx, next: seq<Byte>, rx': Rx)
    requires Sweep(c, bytes, rx) == Sweep(c, next, rx') && Run(c, bytes, rx) == Run(c, next, rx')
    requires SweepsAsRun(c, next, rx')
    ensures SweepsAsRun(c, bytes, rx)
  {
    hide Sweep;
    hide Run;
    hide Holding;
  }

  /** Both take the frame in front. */
  lemma BothNext(c: Config, bytes: seq<Byte>, rx: Rx)
    requires |bytes| <= DATA_SMALL_SIZE && rx.phase.Live? && Ready(bytes)
    ensures var h := ParseHeader(bytes);
            var (rx', next) := (Judge(c, rx, h.hash, bytes[HASH_SIZE + h.vintSize..h.Total()]), bytes[h.Total()..]);
            && |next| < |bytes| && !rx'.phase.Panicked?
            && Sweep(c, bytes, rx) == Sweep(c, next, rx') && Run(c, bytes, rx) == Run(c, next, rx')
  {
    ReadyComplete(c, bytes);
    hide ParseHeader;
    hide Sweep;
    hide Run;
    hide Complete;
    hide Window;
    SweepFirst(c, bytes, rx);
    RunFirst(c, bytes, rx);
    var h := ParseHeader(bytes);
    JudgeKeeps(c, rx, h.hash, bytes[HASH_SIZE + h.vintSize..h.Total()]);
  }

  lemma {:induction false} SweepIsRun(c: Config, bytes: seq<Byte>, rx: Rx)
    requires |bytes| <= DATA_SMALL_SIZE && rx.phase.Live?
    ensures SweepsAsRun(c, bytes, rx)
    decreases |bytes|
  {
    hide SweepsAsRun;
    hide Judge;
    hide ParseHeader;
    if Ready(bytes) {
      BothNext(c, bytes, rx);
      var h := ParseHeader(bytes);
      var (rx', next) := (Judge(c, rx, h.hash, bytes[HASH_SIZE + h.vintSize..h.Total()]), bytes[h.Total()..]);
      if rx'.phase.Live? {
        SweepIsRun(c, next, rx');
      } else {
        SweepDropped(c, next, rx');
      }
      SweepsOn(c, bytes, rx, next, rx');
    } else {
      SweepHalts(c, bytes, rx);
    }
  }

  lemma SweepAgainstRun(c: Config, bytes: seq<Byte>, rx: Rx)
    requires |bytes| <= DATA_SMALL_SIZE && rx.phase.Live?
    ensures var (r, (rx', rest)) := (Sweep(c, bytes, rx), Run(c, bytes, rx));
            && r.0.delivered == Sweep(c, rest, rx').0.delivered
            && (if r.0.phase.Live? then r == (rx', rest) && Holding(c, rest) else !rx'.phase.Live?)
  {
    SweepIsRun(c, bytes, rx);
    hide Sweep;
    hide Run;
    hide Holding;
  }

  lemma {:induction false} SweepStaysDown(c: Config, bytes: seq<Byte>, rx: Rx)
    requires !rx.phase.Live?
    ensures !Sweep(c, bytes, rx).0.phase.Live?
    decreases |bytes|
  {
    if !rx.phase.Panicked? && Ready(bytes) {
      var h := ParseHeader(bytes);
      SweepStaysDown(c, bytes[h.Total()..], Judge(c, rx, h.hash, bytes[HASH_SIZE + h.vintSize..h.Total()]));
    }
  }

  /** What a halted reader has delivered, against where the reference halted. */
  ghost predicate Overran(c: Config, goal: (Rx, seq<Byte>), rx: Rx, held: seq<Byte>) {
    && !goal.0.phase.Live? && !rx.phase.Live? && held <= goal.1
    && rx.delivered == Sweep(c, held, goal.0).0.delivered
  }

  lemma StepIsRun(c: Config, held: seq<Byte>, incoming: seq<Byte>, rx: Rx)
    requires Holding(c, held) && rx.phase.Live? && incoming != []
    ensures var t := Step(c, held, incoming, rx);
            var goal := Run(c, held + incoming, rx);
            if t.rx.phase.Live? then Holding(c, t.held) && goal == Run(c, t.held + incoming[t.taken..], t.rx)
            else Overran(c, goal, t.rx, t.held)
  {
    var (t, h) := (Step(c, held, incoming, rx), ParseHeader(Window(held)));
    if h.Header? && h.Total() > DATA_SMALL_SIZE {
      LargeStepIsRun(c, held, incoming, rx);
    } else if |held| >= DATA_SMALL_SIZE {
      FullStepIsRun(c, held, incoming, rx);
    } else {
      HeadStepIsRun(c, held, incoming, rx);
    }
  }

  lemma FullStepIsRun(c: Config, held: seq<Byte>, incoming: seq<Byte>, rx: Rx)
    requires Holding(c, held) && rx.phase.Live? && incoming != [] && |held| >= DATA_SMALL_SIZE
    requires var h := ParseHeader(Window(held)); h.Header? ==> h.Total() <= DATA_SMALL_SIZE
    ensures Overran(c, Run(c, held + incoming, rx), rx.(phase := Dropped), held)
  {
    assert Window(held + incoming) == Window(held) == held;
  }

  lemma HeadStepIsRun(c: Config, held: seq<Byte>, incoming: seq<Byte>, rx: Rx)
    requires Holding(c, held) && rx.phase.Live? && incoming != [] && |held| < DATA_SMALL_SIZE
    requires var h := ParseHeader(Window(held)); h.Header? ==> h.Total() <= DATA_SMALL_SIZE
    ensures var t := Step(c, held, incoming, rx);
            var goal := Run(c, held + incoming, rx);
            if t.rx.phase.Live? then Holding(c, t.held) && goal == Run(c, t.held + incoming[t.taken..], t.rx)
            else Overran(c, goal, t.rx, t.held)
  {
    hide Run;
    hide Sweep;
    hide ParseHeader;
    hide Holding;
    hide Overran;
    var t := Step(c, held, incoming, rx);
    var (all, later) := (held + incoming[..t.taken], incoming[t.taken..]);
    assert held + incoming == all + later;
    SweepAgainstRun(c, all, rx);
    RunAppend(c, all, later, rx);
    if !t.rx.phase.Live? {
      SweptOver(c, all, later, rx);
    }
  }

  lemma SweptOver(c: Config, all: seq<Byte>, later: seq<Byte>, rx: Rx)
    requires |all| <= DATA_SMALL_SIZE && rx.phase.Live? && !Sweep(c, all, rx).0.phase.Live?
    ensures Overran(c, Run(c, all + later, rx), Sweep(c, all, rx).0, Run(c, all, rx).1)
  {
    hide Run;
    hide Sweep;
    SweepAgainstRun(c, all, rx);
    RunAppend(c, all, later, rx);
  }

  lemma LargeStep(c: Config, held: seq<Byte>, incoming: seq<Byte>, rx: Rx, taken: nat)
    requires incoming != []
    requires var h := ParseHeader(Window(held)); h.Header? && h.Total() > DATA_SMALL_SIZE && |held| < h.Total()
    requires taken == Least(|incoming|, ParseHeader(Window(held)).Total() - |held|)
    ensures var (t, h, all) := (Step(c, held, incoming, rx), ParseHeader(Window(held)), held + incoming[..taken]);
            && ParseHeader(Window(all)) == h && |all| <= h.Total()
            && t == if |all| < h.Total() then Turn(rx, all, taken)
                    else Turn(Judge(c, rx, h.hash, all[HASH_SIZE + h.vintSize..h.Total()]), [], taken)
  {
    WindowExtend(held, incoming[..taken]);
  }

  lemma HoldingShort(c: Config, held: seq<Byte>)
    requires Holding(c, held) && ParseHeader(Window(held)).Header?
    ensures |held| < ParseHeader(Window(held)).Total()
  {
  }

  lemma LargeParts(c: Config, held: seq<Byte>, incoming: seq<Byte>, taken: nat)
    requires Holding(c, held) && incoming != []
    requires var h := ParseHeader(Window(held)); h.Header? && h.Total() > DATA_SMALL_SIZE
    requires taken == Least(|incoming|, ParseHeader(Window(held)).Total() - |held|)
    ensures var (h, all) := (ParseHeader(Window(held)), held + incoming[..taken]);
            && held + incoming == all + incoming[taken..] && Holding(c, [])
            && (|all| < h.Total() ==> Holding(c, all)) && (|all| == h.Total() ==> Complete(c, all))
  {
    WindowExtend(held, incoming[..taken]);
    hide ParseHeader;
    assert Holding(c, []) by { ShortHeader([]); }
  }

  lemma LargeStepIsRun(c: Config, held: seq<Byte>, incoming: seq<Byte>, rx: Rx)
    requires Holding(c, held) && rx.phase.Live? && incoming != []
    requires var h := ParseHeader(Window(held)); h.Header? && h.Total() > DATA_SMALL_SIZE
    ensures var t := Step(c, held, incoming, rx);
            var goal := Run(c, held + incoming, rx);
            if t.rx.phase.Live? then Holding(c, t.held) && goal == Run(c, t.held + incoming[t.taken..], t.rx)
            else Overran(c, goal, t.rx, t.held)
  {
    hide *;
    HoldingShort(c, held);
    var taken := Least(|incoming|, ParseHeader(Window(held)).Total() - |held|);
    var all := held + incoming[..taken];
    LargeStep(c, held, incoming, rx, taken);
    LargeParts(c, held, incoming, taken);
    if |all| == ParseHeader(Window(held)).Total() {
      LargeCompleteIsRun(c, all, incoming[taken..], rx);
    }
  }

  lemma LargeCompleteIsRun(c: Config, frame: seq<Byte>, rest: seq<Byte>, rx: Rx)
    requires Complete(c, frame) && |frame| == ParseHeader(Window(frame)).Total() && rx.phase.Live?
    ensures var h := ParseHeader(Window(frame));
            var (rx', goal) := (Judge(c, rx, h.hash, frame[HASH_SIZE + h.vintSize..h.Total()]), Run(c, frame + rest, rx));
            if rx'.phase.Live? then goal == Run(c, [] + rest, rx') else Overran(c, goal, rx', [])
  {
    LargeFrameIsRun(c, frame, rest, rx);
    var h := ParseHeader(Window(frame));
    var payload := frame[HASH_SIZE + h.vintSize..h.Total()];
    hide *;
    JudgeKeeps(c, rx, h.hash, payload);
    LargeDropped(c, [] + rest, Judge(c, rx, h.hash, payload));
  }

  lemma LargeDropped(c: Config, rest: seq<Byte>, rx: Rx)
    requires !rx.phase.Panicked?
    ensures rx.phase.Dropped? ==> Overran(c, Run(c, rest, rx), rx, [])
  {
    assert [] <= rest;
  }

  /** A complete large frame, whatever follows it. */
  lemma LargeFrameIsRun(c: Config, frame: seq<Byte>, rest: seq<Byte>, rx: Rx)
    requires Complete(c, frame) && |frame| == ParseHeader(Window(frame)).Total() && rx.phase.Live?
    ensures var h := ParseHeader(Window(frame));
            Run(c, frame + rest, rx) == Run(c, [] + rest, Judge(c, rx, h.hash, frame[HASH_SIZE + h.vintSize..h.Total()]))
  {
    RunNext(c, frame, rest, rx);
    hide *;
    assert frame[|frame|..] == [];
  }

  lemma HeldAlone(c: Config, held: seq<Byte>, rx: Rx)
    requires Holding(c, held) && rx.phase.Live?
    ensures Run(c, held, rx) == (rx, held)
  {
  }

  lemma OverranMore(c: Config, bytes: seq<Byte>, more: seq<Byte>, start: Rx, rx: Rx, held: seq<Byte>)
    requires Overran(c, Run(c, bytes, start), rx, held)
    ensures Overran(c, Run(c, bytes + more, start), rx, held)
  {
    hide Run;
    hide Sweep;
    RunAppend(c, bytes, more, start);
  }

  lemma {:induction false} FedChunkIsRun(c: Config, held: seq<Byte>, chunk: seq<Byte>, rx: Rx)
    requires Holding(c, held) && rx.phase.Live?
    ensures var ((r, rest), goal) := (FedChunk(c, held, chunk, rx), Run(c, held + chunk, rx));
            if r.phase.Live? then goal == (r, rest) && Holding(c, rest) else Overran(c, goal, r, rest)
    decreases |chunk|
  {
    if chunk == [] {
      assert held + chunk == held;
      HeldAlone(c, held, rx);
    } else {
      var t := Step(c, held, chunk, rx);
      StepIsRun(c, held, chunk, rx);
      hide Run;
      hide Sweep;
      hide Step;
      hide Holding;
      hide Overran;
      if t.rx.phase.Live? {
        FedChunkIsRun(c, t.held, chunk[t.taken..], t.rx);
      }
    }
  }

  lemma FedNext(c: Config, held: seq<Byte>, chunks: seq<seq<Byte>>, rx: Rx)
    requires chunks != [] && rx.phase.Live?
    ensures var (r, rest) := FedChunk(c, held, chunks[0], rx);
            Fed(c, held, chunks, rx) == if r.phase.Live? then Fed(c, rest, chunks[1..], r) else (r, rest)
    ensures held + Flat(chunks) == (held + chunks[0]) + Flat(chunks[1..])
  {
    hide FedChunk;
    FlatUncons(chunks);
  }

  lemma FedNone(c: Config, held: seq<Byte>, rx: Rx)
    requires Holding(c, held) && rx.phase.Live?
    ensures Fed(c, held, [], rx) == (rx, held) == Run(c, held + Flat([]), rx)
  {
    assert held + Flat([]) == held;
    HeldAlone(c, held, rx);
  }

  /**
   The reader on chunks against the reference on the whole stream: the same while live.
   Otherwise both have halted, and the reader has also delivered what it held by then
   beyond the point where the reference halted.
   */
  lemma {:induction false} FedIsRun(c: Config, held: seq<Byte>, chunks: seq<seq<Byte>>, rx: Rx)
    requires Holding(c, held) && rx.phase.Live?
    ensures var ((r, rest), goal) := (Fed(c, held, chunks, rx), Run(c, held + Flat(chunks), rx));
            if r.phase.Live? then goal == (r, rest) && Holding(c, rest) else Overran(c, goal, r, rest)
    decreases |chunks|
  {
    hide *;
    if chunks == [] {
      FedNone(c, held, rx);
    } else {
      var (r, rest) := FedChunk(c, held, chunks[0], rx);
      FedChunkIsRun(c, held, chunks[0], rx);
      FedNext(c, held, chunks, rx);
      if r.phase.Live? {
        RunAppend(c, held + chunks[0], Flat(chunks[1..]), rx);
        FedIsRun(c, rest, chunks[1..], r);
      } else {
        OverranMore(c, held + chunks[0], Flat(chunks[1..]), rx, r, rest);
      }
    }
  }

  lemma Glue(s: seq<Byte>, a: nat, b: nat, c: nat, d: nat)
    requires a <= b <= c <= d <= |s|
    ensures s[a..b] + s[b..c] + s[c..d] == s[a..d]
  {
  }

  // ----- The connection's reader -----

  class Reader {
    const config: Config
    const head: array<Byte>
    var headLen: nat
    /** Non-null in the body phase: the hash field followed by the payload so far. */
    var large: array?<Byte>
    var largePos: nat
    var largeLen: nat
    /** The length code of the large frame, which the implementation drops. */
    ghost var largeVint: seq<Byte>
    /** Payloads handed to the Received callback. */
    var delivered: seq<seq<Byte>>
    var hashFailed: nat
    var blockFailed: nat

    /** Bytes read from the stream and not yet part of a judged frame. */
    ghost function Pending(): (s: seq<Byte>)
      requires headLen <= head.Length
      requires large != null ==> HASH_SIZE <= largePos <= large.Length
      reads this, head, large
    {
      if large == null then head[..headLen]
      else large[..HASH_SIZE] + largeVint + large[HASH_SIZE..largePos]
    }

    ghost function State(): Rx
      reads this
    {
      Rx(delivered, hashFailed, blockFailed, Live)
    }

    ghost predicate Shape()
      reads this, large
    {
      && head.Length == DATA_SMALL_SIZE && headLen <= DATA_SMALL_SIZE
      && (large != null ==>
            && headLen == 0 && large != head
            && large.Length == HASH_SIZE + largeLen
            && HASH_SIZE <= largePos <= large.Length)
    }

    ghost predicate Valid()
      reads this, head, large
    {
      && Shape()
      && (large == null ==> Waiting(Pending()))
      && (large != null ==> LargeHeader(config, Pending(), |largeVint|, largeLen) && largePos < large.Length)
    }

    constructor (config: Config)
      ensures Valid() && Pending() == [] && State() == START && this.config == config
      ensures fresh(head)
    {
      this.config := config;
      head := new Byte[DATA_SMALL_SIZE](_ => 0);
      headLen := 0;
      large, largePos, largeLen, largeVint := null, 0, 0, [];
      delivered, hashFailed, blockFailed := [], 0, 0;
    }

    /** Checks one complete frame, fires the callback or counts the failure. */
    method JudgeFrame(hashField: U32, payload: seq<Byte>) returns (free: bool)
      modifies this`delivered, this`hashFailed, this`blockFailed
      ensures Judge(config, old(State()), hashField, payload) == State().(phase := if free then Dropped else Live)
      ensures old(delivered) <= delivered
    {
      free := false;
      if config.hash(payload) != hashField {
        hashFailed := hashFailed + 1;
        if hashFailed > config.maxHashFailed {
          free := true;
        }
      } else if config.limit > 0 && |payload| > config.limit {
        blockFailed := blockFailed + 1;
        if blockFailed > config.maxBlockFailed {
          free := true;
        }
      } else {
        delivered := delivered + [payload];
      }
    }

    /** Enters the body phase for the frame at `head[from..from + left]`. */
    method BeginLargeFrame(from: nat, left: nat, vintSize: nat, msgLen: nat)
      requires head.Length == DATA_SMALL_SIZE && from + left <= DATA_SMALL_SIZE
      requires HASH_SIZE + vintSize <= left < HASH_SIZE + vintSize + msgLen
      modifies this`large, this`largePos, this`largeLen, this`largeVint
      ensures large != null && fresh(large)
      ensures large.Length == HASH_SIZE + msgLen && HASH_SIZE <= largePos <= large.Length && largeLen == msgLen
      ensures |largeVint| == vintSize
      ensures large[..HASH_SIZE] + largeVint + large[HASH_SIZE..largePos] == head[from..from + left]
    {
      var buffer := new Byte[HASH_SIZE + msgLen](_ => 0);
      forall k | 0 <= k < HASH_SIZE { buffer[k] := head[from + k]; }
      var remaining := left - HASH_SIZE - vintSize;
      forall k | HASH_SIZE <= k < HASH_SIZE + remaining { buffer[k] := head[from + vintSize + k]; }
      large, largePos, largeLen := buffer, HASH_SIZE + remaining, msgLen;
      largeVint := head[from + HASH_SIZE..from + HASH_SIZE + vintSize];
      assert forall k :: 0 <= k < HASH_SIZE ==> large[k] == head[from + k];
      assert large[..HASH_SIZE] == head[from..from + HASH_SIZE];
      assert large[HASH_SIZE..largePos] == head[from + HASH_SIZE + vintSize..from + left];
      Glue(head[..], from, from + HASH_SIZE, from + HASH_SIZE + vintSize, from + left);
    }

    /** Moves the leftover bytes to the front of the head buffer. */
    method Compact(from: nat, left: nat)
      requires from + left <= head.Length
      modifies head, this`headLen
      ensures headLen == left && head[..left] == old(head[from..from + left])
    {
      if from > 0 && left > 0 {
        forall k | 0 <= k < left { head[k] := head[from + k]; }
      }
      headLen := left;
    }

    /** The parsing loop, which is `Sweep`: it goes on over what is buffered after a drop. */
    method ParseFrames(data: seq<Byte>) returns (phase: Phase, from: nat, vintSize: nat, msgLen: nat)
      requires |data| <= DATA_SMALL_SIZE
      modifies this`delivered, this`hashFailed, this`blockFailed
      ensures from <= |data| && Sweep(config, data, old(State())) == (State().(phase := phase), data[from..])
      ensures phase.Live? && vintSize == 0 ==> Waiting(data[from..])
      ensures phase.Live? && vintSize != 0 ==>
                LargeHeader(config, data[from..], vintSize, msgLen) && HASH_SIZE + vintSize <= |data| - from
    {
      hide Sweep;
      hide ParseHeader;
      hide Decode;
      hide FromLittleEndian;
      phase, from := Live, 0;
      ghost var goal := Sweep(config, data, State());
      assert data[0..] == data;
      while |data| - from > HASH_SIZE
        invariant from <= |data| && !phase.Panicked?
        invariant Sweep(config, data[from..], State().(phase := phase)) == goal
      {
        msgLen, vintSize := ReadVint(data[from + HASH_SIZE..]);
        HeaderAt(data, from);
        if vintSize == 0 {
          SweepStops(config, data[from..], State().(phase := phase));
          return;
        }
        var total := HASH_SIZE + vintSize + msgLen;
        if total > MAX_INT {
          SweepStops(config, data[from..], State().(phase := phase));
          phase := Panicked;
          return;
        }
        if |data| - from >= total {
          phase := TakeFrame(data, from, vintSize, total, phase);
          from := from + total;
        } else {
          SweepStops(config, data[from..], State().(phase := phase));
          assert Window(data[from..]) == data[from..];
          if total <= DATA_SMALL_SIZE {
            vintSize := 0;
            return;
          }
          if config.limit > 0 && msgLen > config.limit {
            blockFailed := blockFailed + 1;
            phase := Dropped;
          }
          return;
        }
      }
      ShortHeader(data[from..]);
      SweepStops(config, data[from..], State().(phase := phase));
      vintSize, msgLen := 0, 0;
    }

    /** The branch for a complete frame in the head buffer. */
    method TakeFrame(data: seq<Byte>, from: nat, vintSize: nat, total: nat, phase: Phase) returns (next: Phase)
      requires from + HASH_SIZE < |data| <= DATA_SMALL_SIZE && from + total <= |data| && !phase.Panicked?
      requires var h := ParseHeader(data[from..]); h.Header? && h.vintSize == vintSize && h.Total() == total <= MAX_INT
      modifies this`delivered, this`hashFailed, this`blockFailed
      ensures !next.Panicked?
      ensures Sweep(config, data[from..], old(State()).(phase := phase)) ==
              Sweep(config, data[from + total..], State().(phase := next))
    {
      var hashField := FromLittleEndian(data[from..from + HASH_SIZE]);
      assert ParseHeader(data[from..]).hash == hashField by {
        assert data[from..][..HASH_SIZE] == data[from..from + HASH_SIZE];
      }
      var payload := data[from + HASH_SIZE + vintSize..from + total];
      FrameAt(config, data, from, State().(phase := phase));
      JudgePhase(config, State(), phase, hashField, payload);
      hide *;
      var free := JudgeFrame(hashField, payload);
      next := if free then Dropped else phase;
    }

    /** Parses the head buffer, then enters the body phase or keeps the leftover bytes. */
    method ProcessReadHeadFrames() returns (phase: Phase)
      requires Shape() && large == null
      modifies this, head
      ensures var (rx, rest) := Sweep(config, old(Pending()), old(State()));
              rx == State().(phase := phase) && (phase.Live? ==> Valid() && Pending() == rest)
      ensures phase.Live? && large != null ==> fresh(large)
    {
      ghost var data := head[..headLen];
      var from, vintSize, msgLen;
      phase, from, vintSize, msgLen := ParseFrames(head[..headLen]);
      if !phase.Live? {
        return;
      }
      ghost var rest := data[from..];
      assert rest == head[from..headLen];
      if vintSize != 0 {
        BeginLargeFrame(from, headLen - from, vintSize, msgLen);
        headLen := 0;
      } else {
        Compact(from, headLen - from);
      }
      assert Pending() == rest;
    }

    /** Copies `bytes` behind what the large frame already holds. */
    method CopyLarge(bytes: seq<Byte>)
      requires Shape() && large != null && largePos + |bytes| <= large.Length
      modifies this`largePos, large
      ensures Shape() && largePos == old(largePos) + |bytes|
      ensures Pending() == old(Pending()) + bytes
    {
      ghost var before := large[..];
      var at := largePos;
      forall k | at <= k < at + |bytes| { large[k] := bytes[k - at]; }
      largePos := at + |bytes|;
      assert large[..HASH_SIZE] == before[..HASH_SIZE];
      assert large[HASH_SIZE..largePos] == before[HASH_SIZE..at] + bytes;
    }

    /** Appends as much of `incoming` as the large frame still wants. */
    method FeedLargeFrame(incoming: seq<Byte>) returns (taken: nat)
      requires Shape() && large != null && LargeHeader(config, Pending(), |largeVint|, largeLen) && largePos < large.Length && incoming != []
      modifies this`largePos, large
      ensures Shape() && LargeHeader(config, Pending(), |largeVint|, largeLen)
      ensures 0 < taken == Least(|incoming|, large.Length - old(largePos)) <= |incoming| && largePos == old(largePos) + taken
      ensures Pending() == old(Pending()) + incoming[..taken]
    {
      var remaining := HASH_SIZE + largeLen - largePos;
      taken := |incoming|;
      if taken > remaining {
        taken := remaining;
      }
      CopyLarge(incoming[..taken]);
      LargeHeaderExtend(config, old(Pending()), incoming[..taken], |largeVint|, largeLen);
    }

    /** Judges a fully assembled large frame and leaves the body phase. */
    method ProcessCompleteLargeFrame() returns (phase: Phase)
      requires Shape() && large != null && LargeHeader(config, Pending(), |largeVint|, largeLen) && largePos == large.Length
      modifies this
      ensures var h := ParseHeader(Window(old(Pending())));
              Judge(config, old(State()), h.hash, old(Pending())[HASH_SIZE + h.vintSize..h.Total()]) == State().(phase := phase)
      ensures headLen == old(headLen) && (phase.Live? ==> large == null)
    {
      var payload := large[HASH_SIZE..HASH_SIZE + largeLen];
      var hashField := FromLittleEndian(large[..HASH_SIZE]);
      ghost var pending := Pending();
      ghost var h := ParseHeader(Window(pending));
      assert Window(pending)[..HASH_SIZE] == large[..HASH_SIZE];
      assert pending[HASH_SIZE + h.vintSize..h.Total()] == payload;
      assert pending[h.Total()..] == [];
      var free := JudgeFrame(hashField, payload);
      phase := if free then Dropped else Live;
      if !free {
        large := null;
      }
    }

    /** Appends as much of `incoming` as the head buffer has room for. */
    method FeedHead(incoming: seq<Byte>) returns (taken: nat)
      requires Shape() && large == null && headLen < DATA_SMALL_SIZE && incoming != []
      modifies this`headLen, head
      ensures Shape() && 0 < taken == Least(|incoming|, DATA_SMALL_SIZE - old(headLen)) <= |incoming|
      ensures Pending() == old(Pending()) + incoming[..taken]
    {
      taken := |incoming|;
      if taken > DATA_SMALL_SIZE - headLen {
        taken := DATA_SMALL_SIZE - headLen;
      }
      ghost var before := head[..];
      var at := headLen;
      forall k | at <= k < at + taken { head[k] := incoming[k - at]; }
      headLen := at + taken;
      assert head[..headLen] == before[..at] + incoming[..taken];
    }

    /** Feeds the start of `incoming` to the large frame, and judges it when it is complete. */
    method StepLarge(incoming: seq<Byte>) returns (phase: Phase, taken: nat)
      requires Valid() && large != null && incoming != []
      modifies this, large
      ensures Stepped(Step(config, old(Pending()), incoming, old(State())), phase, taken)
      ensures phase.Live? ==> large == null || large == old(large)
    {
      ghost var (pending, rx) := (Pending(), State());
      taken := FeedLargeFrame(incoming);
      phase := Live;
      if largePos >= HASH_SIZE + largeLen {
        phase := ProcessCompleteLargeFrame();
      }
      LargeStep(config, pending, incoming, rx, taken);
    }

    /** Feeds the start of `incoming` to the head buffer, and parses what it holds. */
    method StepHead(incoming: seq<Byte>) returns (phase: Phase, taken: nat)
      requires Valid() && large == null && headLen < DATA_SMALL_SIZE && incoming != []
      modifies this, head
      ensures Stepped(Step(config, old(Pending()), incoming, old(State())), phase, taken)
      ensures phase.Live? && large != null ==> fresh(large)
    {
      hide Sweep;
      assert Window(Pending()) == Pending();
      taken := FeedHead(incoming);
      phase := ProcessReadHeadFrames();
    }

    /** Where the reader stands after a turn that went as `t` says. */
    ghost predicate Stepped(t: Turn, phase: Phase, taken: nat)
      reads this, head, large
    {
      taken == t.taken && State().(phase := phase) == t.rx && (phase.Live? ==> Valid() && Pending() == t.held)
    }

    /** Feeds the start of `incoming` to whichever buffer wants it. */
    method ReadStep(incoming: seq<Byte>) returns (phase: Phase, taken: nat)
      requires Valid() && incoming != []
      modifies this, head, large
      ensures Stepped(Step(config, old(Pending()), incoming, old(State())), phase, taken)
      ensures phase.Live? && large != null && large != old(large) ==> fresh(large)
    {
      if large != null {
        hide Step;
        phase, taken := StepLarge(incoming);
      } else if headLen >= DATA_SMALL_SIZE {
        assert Window(Pending()) == Pending();
        return Dropped, 1;
      } else {
        hide Step;
        phase, taken := StepHead(incoming);
      }
    }

    /** The inner loop of the reading goroutine, for the bytes of one read. */
    method ReadChunk(chunk: seq<Byte>) returns (phase: Phase)
      requires Valid()
      modifies this, head, large
      ensures var (rx, held) := FedChunk(config, old(Pending()), chunk, old(State()));
              rx == State().(phase := phase) && (phase.Live? ==> Valid() && Pending() == held)
      ensures phase.Live? && large != null && large != old(large) ==> fresh(large)
    {
      hide Step;
      ghost var goal := FedChunk(config, Pending(), chunk, State());
      var incoming := chunk;
      while |incoming| > 0
        invariant Valid() && FedChunk(config, Pending(), incoming, State()) == goal
        invariant large != null && large != old(large) ==> fresh(large)
        decreases |incoming|
      {
        var taken;
        phase, taken := ReadStep(incoming);
        if !phase.Live? {
          return;
        }
        incoming := incoming[taken..];
      }
      phase := Live;
    }

    /**
     The reading goroutine over the chunks the socket happens to return: it reads until
     the chunks run out or the connection is to be freed. What it has delivered and
     counted is exactly `Fed`, and while it is live that is what the reference says.
     */
    method ReadLoop(chunks: seq<seq<Byte>>) returns (phase: Phase)
      requires Valid() && Pending() == []
      modifies this, head, large
      ensures var (rx, held) := Fed(config, [], chunks, old(State()));
              rx == State().(phase := phase) && (phase.Live? ==> Valid() && Pending() == held)
      ensures var goal := Run(config, Flat(chunks), old(State()));
              if phase.Live? then goal == (State(), Pending())
              else !goal.0.phase.Live? && goal.0.delivered <= delivered
    {
      ghost var goal := Fed(config, [], chunks, State());
      ReadIsRun(config, chunks, State());
      assert chunks[0..] == chunks;
      var i := 0;
      while i < |chunks|
        invariant 0 <= i <= |chunks|
        invariant Valid() && Fed(config, Pending(), chunks[i..], State()) == goal
        invariant large != null && large != old(large) ==> fresh(large)
      {
        assert chunks[i..][1..] == chunks[i + 1..];
        phase := ReadChunk(chunks[i]);
        if !phase.Live? {
          return;
        }
        i := i + 1;
      }
      phase := Live;
    }
  }

  /** Sweeping further never takes a delivery back. */
  lemma {:induction false} SweepDelivers(c: Config, bytes: seq<Byte>, rx: Rx)
    ensures rx.delivered <= Sweep(c, bytes, rx).0.delivered
    decreases |bytes|
  {
    var h := ParseHeader(bytes);
    if !rx.phase.Panicked? && h.Header? && h.Representable() && h.Total() <= |bytes| {
      SweepDelivers(c, bytes[h.Total()..], Judge(c, rx, h.hash, bytes[HASH_SIZE + h.vintSize..h.Total()]));
    }
  }

  lemma ReadIsRun(c: Config, chunks: seq<seq<Byte>>, rx: Rx)
    requires rx.phase.Live?
    ensures var ((r, rest), goal) := (Fed(c, [], chunks, rx), Run(c, Flat(chunks), rx));
            if r.phase.Live? then goal == (r, rest)
            else Overran(c, goal, r, rest) && goal.0.delivered <= r.delivered
  {
    assert [] + Flat(chunks) == Flat(chunks);
    assert Holding(c, []);
    FedIsRun(c, [], chunks, rx);
    var ((r, rest), goal) := (Fed(c, [], chunks, rx), Run(c, Flat(chunks), rx));
    SweepDelivers(c, rest, goal.0);
  }
}
