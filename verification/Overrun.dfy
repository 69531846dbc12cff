/**
 What a reader delivers that has decided to drop the connection: the frames its head
 buffer holds by then. So it depends on how the stream was cut, and this says how.
 */
module Overrun {
  import opened Vint
  import opened FrameCodec
  import opened Chunks
  import opened StreamReader
  import opened StreamChannel

  // ----- Where the reference halts -----

  lemma RunHalted(c: Config, bytes: seq<Byte>, rx: Rx)
    requires !rx.phase.Live?
    ensures Run(c, bytes, rx) == (rx, bytes)
  {
  }

  lemma Around(s: seq<Byte>)
    ensures [] + s == s == s + []
  {
  }

  /** Holding more bytes, the loop delivers no less. */
  lemma {:induction false} SweepMore(c: Config, a: seq<Byte>, b: seq<Byte>, rx: Rx)
    ensures Sweep(c, a, rx).0.delivered <= Sweep(c, a + b, rx).0.delivered
    decreases |a|
  {
    if !rx.phase.Panicked? && Ready(a) {
      SweepNext(c, a, b, rx);
      hide Sweep;
      hide ParseHeader;
      var h := ParseHeader(a);
      SweepMore(c, a[h.Total()..], b, Judge(c, rx, h.hash, a[HASH_SIZE + h.vintSize..h.Total()]));
    } else {
      SweepDelivers(c, a + b, rx);
    }
  }

  /** The length of the frame whose verdict halts the reference, if it is a verdict that does. */
  function Halting(c: Config, bytes: seq<Byte>, rx: Rx): (n: nat)
    decreases |bytes|
  {
    var h := ParseHeader(Window(bytes));
    if !rx.phase.Live? || h.NeedMore? || !h.Representable() || TooLarge(c, h) || |bytes| < h.Total() then 0
    else
      var rx' := Judge(c, rx, h.hash, bytes[HASH_SIZE + h.vintSize..h.Total()]);
      if rx'.phase.Live? then Halting(c, bytes[h.Total()..], rx') else h.Total()
  }

  lemma HaltingFirst(c: Config, bytes: seq<Byte>, rx: Rx)
    requires rx.phase.Live? && Complete(c, bytes)
    ensures var h := ParseHeader(Window(bytes));
            var rx' := Judge(c, rx, h.hash, bytes[HASH_SIZE + h.vintSize..h.Total()]);
            Halting(c, bytes, rx) == if rx'.phase.Live? then Halting(c, bytes[h.Total()..], rx') else h.Total()
  {
    hide ParseHeader;
    hide Window;
    hide Judge;
  }

  lemma HaltingNext(c: Config, a: seq<Byte>, b: seq<Byte>, rx: Rx)
    requires rx.phase.Live? && Complete(c, a)
    ensures var h := ParseHeader(Window(a));
            var rx' := Judge(c, rx, h.hash, a[HASH_SIZE + h.vintSize..h.Total()]);
            && Halting(c, a, rx) == (if rx'.phase.Live? then Halting(c, a[h.Total()..], rx') else h.Total())
            && Halting(c, a + b, rx) == (if rx'.phase.Live? then Halting(c, a[h.Total()..] + b, rx') else h.Total())
  {
    hide Halting;
    hide ParseHeader;
    hide Window;
    hide Judge;
    CompleteStays(c, a, b);
    HaltingFirst(c, a, rx);
    HaltingFirst(c, a + b, rx);
  }

  lemma HaltingNot(c: Config, a: seq<Byte>, b: seq<Byte>, rx: Rx)
    requires rx.phase.Live? && !Complete(c, a)
    ensures Halting(c, a, rx) == 0
    ensures Run(c, a, rx).1 == a && (Run(c, a, rx).0.phase.Live? ==> Run(c, a, rx).0 == rx)
    ensures !Run(c, a, rx).0.phase.Live? ==> Halting(c, a + b, rx) == 0
  {
    if ParseHeader(Window(a)).Header? {
      WindowExtend(a, b);
    } else if |a| > DATA_SMALL_SIZE {
      assert Window(a + b) == Window(a);
    }
  }

  /** Where a live reference goes on to, it halts; where it has halted, more bytes change nothing. */
  lemma {:induction false} HaltingAppend(c: Config, a: seq<Byte>, b: seq<Byte>, rx: Rx)
    requires rx.phase.Live?
    ensures var (rx1, rest) := Run(c, a, rx);
            Halting(c, a + b, rx) == if rx1.phase.Live? then Halting(c, rest + b, rx1) else Halting(c, a, rx)
    decreases |a|
  {
    hide Run;
    hide Halting;
    hide ParseHeader;
    if Complete(c, a) {
      RunNext(c, a, b, rx);
      HaltingNext(c, a, b, rx);
      var h := ParseHeader(Window(a));
      var rx' := Judge(c, rx, h.hash, a[HASH_SIZE + h.vintSize..h.Total()]);
      if rx'.phase.Live? {
        HaltingAppend(c, a[h.Total()..], b, rx');
      } else {
        RunHalted(c, a[h.Total()..], rx');
      }
    } else {
      HaltingNot(c, a, b, rx);
    }
  }

  /** The frames before the halting one are judged live, and its verdict is the last. */
  ghost predicate HaltsAt(c: Config, bytes: seq<Byte>, rx: Rx, k: nat) {
    && k <= |bytes| && Complete(c, bytes[k..])
    && var (rx0, rest0) := Run(c, bytes[..k], rx);
       var h := ParseHeader(Window(bytes[k..]));
       && rx0.phase.Live? && rest0 == [] && h.Total() == Halting(c, bytes, rx)
       && Run(c, bytes, rx) == (Judge(c, rx0, h.hash, bytes[k..][HASH_SIZE + h.vintSize..h.Total()]), bytes[k..][h.Total()..])
       && !Run(c, bytes, rx).0.phase.Live?
  }

  /** The reference that halts otherwise has not taken the frame it halts at. */
  ghost predicate HaltsBefore(c: Config, bytes: seq<Byte>, rx: Rx) {
    var (rx', rest) := Run(c, bytes, rx); !rx'.phase.Live? && !Complete(c, rest)
  }

  lemma PrefixSlice(s: seq<Byte>, m: nat, i: nat, j: nat)
    requires i <= j <= m <= |s|
    ensures s[..m][i..j] == s[i..j]
  {
  }

  lemma CompletePrefix(c: Config, bytes: seq<Byte>, m: nat)
    requires Complete(c, bytes) && ParseHeader(Window(bytes)).Total() <= m <= |bytes|
    ensures Complete(c, bytes[..m]) && ParseHeader(Window(bytes[..m])) == ParseHeader(Window(bytes))
  {
    var (w, h) := (Window(bytes), ParseHeader(Window(bytes)));
    ParseHeaderExtend(w, []);
    var start := w[..HASH_SIZE + h.vintSize];
    var v := Window(bytes[..m]);
    assert v == start + v[|start|..];
    ParseHeaderExtend(start, v[|start|..]);
  }

  lemma HaltsAtNow(c: Config, bytes: seq<Byte>, rx: Rx)
    requires rx.phase.Live? && Complete(c, bytes)
    requires var h := ParseHeader(Window(bytes)); !Judge(c, rx, h.hash, bytes[HASH_SIZE + h.vintSize..h.Total()]).phase.Live?
    ensures HaltsAt(c, bytes, rx, 0)
  {
    assert bytes[0..] == bytes && bytes[..0] == [];
    hide ParseHeader;
    RunFirst(c, bytes, rx);
    var h := ParseHeader(Window(bytes));
    RunHalted(c, bytes[h.Total()..], Judge(c, rx, h.hash, bytes[HASH_SIZE + h.vintSize..h.Total()]));
    HaltingNext(c, bytes, [], rx);
    hide Halting;
    EmptyRun(c, rx);
  }

  lemma EmptyRun(c: Config, rx: Rx)
    ensures Run(c, [], rx) == (rx, [])
  {
  }

  lemma HaltsAtLater(c: Config, bytes: seq<Byte>, rx: Rx, k: nat)
    requires rx.phase.Live? && Complete(c, bytes)
    requires var h := ParseHeader(Window(bytes));
             var rx' := Judge(c, rx, h.hash, bytes[HASH_SIZE + h.vintSize..h.Total()]);
             rx'.phase.Live? && HaltsAt(c, bytes[h.Total()..], rx', k)
    ensures HaltsAt(c, bytes, rx, ParseHeader(Window(bytes)).Total() + k)
  {
    hide ParseHeader;
    hide Run;
    hide Halting;
    hide Judge;
    hide Window;
    var h := ParseHeader(Window(bytes));
    var (total, m) := (h.Total(), h.Total() + k);
    CompletePrefix(c, bytes, m);
    RunFirst(c, bytes, rx);
    RunFirst(c, bytes[..m], rx);
    HaltingNext(c, bytes, [], rx);
    assert bytes[total..][k..] == bytes[m..] && bytes[..m][total..] == bytes[total..][..k];
    PrefixSlice(bytes, m, HASH_SIZE + h.vintSize, total);
  }

  /** The state after the first frame, and what follows it. */
  lemma FirstJudged(c: Config, bytes: seq<Byte>, rx: Rx) returns (rx': Rx, next: seq<Byte>)
    requires rx.phase.Live? && Complete(c, bytes)
    ensures var h := ParseHeader(Window(bytes));
            && h.Header? && 0 < h.Total() <= |bytes| && HASH_SIZE + h.vintSize <= h.Total()
            && rx' == Judge(c, rx, h.hash, bytes[HASH_SIZE + h.vintSize..h.Total()]) && next == bytes[h.Total()..]
    ensures |next| < |bytes| && Run(c, bytes, rx) == Run(c, next, rx')
    ensures Halting(c, bytes, rx) == if rx'.phase.Live? then Halting(c, next, rx') else ParseHeader(Window(bytes)).Total()
  {
    var h := ParseHeader(Window(bytes));
    rx', next := Judge(c, rx, h.hash, bytes[HASH_SIZE + h.vintSize..h.Total()]), bytes[h.Total()..];
    hide ParseHeader;
    hide Run;
    hide Halting;
    hide Judge;
    hide Window;
    RunFirst(c, bytes, rx);
    HaltingNext(c, bytes, [], rx);
  }

  /** A halted reference has either judged a last frame, or stopped in front of one. */
  lemma {:induction false} HaltSplit(c: Config, bytes: seq<Byte>, rx: Rx) returns (k: nat)
    requires rx.phase.Live? && !Run(c, bytes, rx).0.phase.Live?
    ensures if Halting(c, bytes, rx) > 0 then HaltsAt(c, bytes, rx, k) else HaltsBefore(c, bytes, rx)
    decreases |bytes|
  {
    hide *;
    k := 0;
    if Complete(c, bytes) {
      var rx', next := FirstJudged(c, bytes, rx);
      if rx'.phase.Live? {
        k := HaltSplit(c, next, rx');
        if Halting(c, bytes, rx) > 0 {
          HaltsAtLater(c, bytes, rx, k);
          k := ParseHeader(Window(bytes)).Total() + k;
        } else {
          HaltsBeforeLater(c, bytes, rx, next, rx');
        }
      } else {
        HaltsAtNow(c, bytes, rx);
      }
    } else {
      HaltingNot(c, bytes, [], rx);
      HaltsBeforeNow(c, bytes, rx);
    }
  }

  lemma HaltsBeforeLater(c: Config, bytes: seq<Byte>, rx: Rx, next: seq<Byte>, rx': Rx)
    requires HaltsBefore(c, next, rx') && Run(c, bytes, rx) == Run(c, next, rx')
    ensures HaltsBefore(c, bytes, rx)
  {
    hide Run;
  }

  lemma HaltsBeforeNow(c: Config, bytes: seq<Byte>, rx: Rx)
    requires !Run(c, bytes, rx).0.phase.Live? && !Complete(c, bytes) && Run(c, bytes, rx).1 == bytes
    ensures HaltsBefore(c, bytes, rx)
  {
  }

  // ----- One chunk into the head buffer -----

  /** What is held is no part of a large frame. */
  ghost predicate InHead(c: Config, held: seq<Byte>) {
    Holding(c, held) && var h := ParseHeader(Window(held)); h.Header? ==> h.Total() <= DATA_SMALL_SIZE
  }

  lemma OneStep(c: Config, held: seq<Byte>, chunk: seq<Byte>, rx: Rx)
    requires InHead(c, held) && chunk != [] && |held| + |chunk| <= DATA_SMALL_SIZE && rx.phase.Live?
    ensures var (r, rest) := Sweep(c, held + chunk, rx);
            FedChunk(c, held, chunk, rx) == (r, if r.phase.Live? then rest else Run(c, held + chunk, rx).1)
  {
    hide Sweep;
    hide Run;
    assert chunk[..|chunk|] == chunk && chunk[|chunk|..] == [];
    assert Step(c, held, chunk, rx).taken == |chunk|;
  }

  /** The bytes held by a live reader are no part of a large frame if a drop is near. */
  lemma HeadBeforeDrop(c: Config, held: seq<Byte>, more: seq<Byte>, rx: Rx)
    requires Holding(c, held) && rx.phase.Live? && |held| + |more| <= DATA_SMALL_SIZE
    requires !Run(c, held + more, rx).0.phase.Live?
    ensures InHead(c, held)
  {
    var h := ParseHeader(Window(held));
    if h.Header? && h.Total() > DATA_SMALL_SIZE {
      WindowExtend(held, more);
    }
  }

  lemma TwoChunks(c: Config, a: seq<Byte>, b: seq<Byte>)
    ensures Flat([a, b]) == a + b
    ensures var (r, held) := FedChunk(c, [], a, START);
            Fed(c, [], [a, b], START) == if r.phase.Live? then FedChunk(c, held, b, r) else (r, held)
  {
    hide FedChunk;
    FlatUncons([a, b]);
    FlatUncons([b]);
    assert [a, b][1..] == [b] && [b][1..] == [];
    assert Flat([b]) == b + [] == b;
    var (r, held) := FedChunk(c, [], a, START);
    assert Fed(c, [], [a, b], START) == Fed(c, held, [b], r);
    if r.phase.Live? {
      var (q, rest) := FedChunk(c, held, b, r);
      assert Fed(c, held, [b], r) == Fed(c, rest, [], q);
    }
  }

  lemma {:induction false} RestShort(c: Config, a: seq<Byte>, rx: Rx)
    ensures |Run(c, a, rx).1| <= |a|
    decreases |a|
  {
    if rx.phase.Live? && Complete(c, a) {
      var h := ParseHeader(Window(a));
      RestShort(c, a[h.Total()..], Judge(c, rx, h.hash, a[HASH_SIZE + h.vintSize..h.Total()]));
    }
  }

  // ----- How much a reader can hold at the drop -----

  /** Beyond the halting frame the head buffer has only so much room. */
  ghost predicate Bounded(c: Config, bytes: seq<Byte>, rx: Rx, held: seq<Byte>) {
    held == [] || |held| + Halting(c, bytes, rx) <= DATA_SMALL_SIZE
  }

  lemma {:induction false} HaltingFits(c: Config, bytes: seq<Byte>, rx: Rx)
    ensures |Run(c, bytes, rx).1| + Halting(c, bytes, rx) <= |bytes|
    decreases |bytes|
  {
    hide *;
    if rx.phase.Live? && Complete(c, bytes) {
      var rx', next := FirstJudged(c, bytes, rx);
      HaltingFits(c, next, rx');
      if !rx'.phase.Live? {
        RunHalted(c, next, rx');
      }
    } else if rx.phase.Live? {
      HaltingNot(c, bytes, [], rx);
    } else {
      RunHalted(c, bytes, rx);
      HaltedAlready(c, bytes, rx);
    }
  }

  lemma HaltedAlready(c: Config, bytes: seq<Byte>, rx: Rx)
    requires !rx.phase.Live?
    ensures Halting(c, bytes, rx) == 0
  {
  }

  lemma StepTakes(c: Config, held: seq<Byte>, incoming: seq<Byte>, rx: Rx)
    requires incoming != []
    ensures var t := Step(c, held, incoming, rx); Step(c, held, incoming[..t.taken], rx) == t
  {
    hide Sweep;
    hide Run;
    hide ParseHeader;
    var t := Step(c, held, incoming, rx);
    assert incoming[..t.taken][..t.taken] == incoming[..t.taken];
  }

  /** A live turn is the reference on what was taken in. */
  lemma LiveStep(c: Config, held: seq<Byte>, incoming: seq<Byte>, rx: Rx)
    requires Holding(c, held) && rx.phase.Live? && incoming != [] && Step(c, held, incoming, rx).rx.phase.Live?
    ensures var t := Step(c, held, incoming, rx);
            Holding(c, t.held) && Run(c, held + incoming[..t.taken], rx) == (t.rx, t.held)
  {
    hide *;
    var t := Step(c, held, incoming, rx);
    StepTakes(c, held, incoming, rx);
    StepIsRun(c, held, incoming[..t.taken], rx);
    assert incoming[..t.taken][t.taken..] == [];
    Around(t.held);
    HeldAlone(c, t.held, t.rx);
  }

  lemma DroppedStep(c: Config, held: seq<Byte>, incoming: seq<Byte>, rx: Rx)
    requires Holding(c, held) && rx.phase.Live? && incoming != [] && !Step(c, held, incoming, rx).rx.phase.Live?
    ensures Bounded(c, held + incoming, rx, Step(c, held, incoming, rx).held)
  {
    var (t, h) := (Step(c, held, incoming, rx), ParseHeader(Window(held)));
    if h.Header? && h.Total() > DATA_SMALL_SIZE {
      assert t.held == [];
    } else if |held| >= DATA_SMALL_SIZE {
      assert Window(held + incoming) == Window(held) == held;
    } else {
      DroppedInHead(c, held, incoming, rx);
    }
  }

  lemma DroppedInHead(c: Config, held: seq<Byte>, incoming: seq<Byte>, rx: Rx)
    requires InHead(c, held) && |held| < DATA_SMALL_SIZE && rx.phase.Live? && incoming != []
    requires !Step(c, held, incoming, rx).rx.phase.Live?
    ensures Bounded(c, held + incoming, rx, Step(c, held, incoming, rx).held)
  {
    hide Sweep;
    hide Run;
    hide Halting;
    hide ParseHeader;
    hide Holding;
    var t := Step(c, held, incoming, rx);
    var (all, later) := (held + incoming[..t.taken], incoming[t.taken..]);
    assert held + incoming == all + later;
    SweepAgainstRun(c, all, rx);
    HaltingAppend(c, all, later, rx);
    HaltingFits(c, all, rx);
  }

  lemma {:induction false} FedChunkBound(c: Config, held: seq<Byte>, chunk: seq<Byte>, rx: Rx)
    requires Holding(c, held) && rx.phase.Live?
    ensures var (r, rest) := FedChunk(c, held, chunk, rx);
            !r.phase.Live? ==> Bounded(c, held + chunk, rx, rest)
    decreases |chunk|
  {
    hide *;
    if chunk != [] {
      var t := Step(c, held, chunk, rx);
      FedChunkNext(c, held, chunk, rx);
      if t.rx.phase.Live? {
        LiveStep(c, held, chunk, rx);
        FedChunkBound(c, t.held, chunk[t.taken..], t.rx);
        BoundedMoves(c, held + chunk[..t.taken], chunk[t.taken..], rx, FedChunk(c, held, chunk, rx).1);
        Rejoin(held, chunk, t.taken);
      } else {
        DroppedStep(c, held, chunk, rx);
      }
    } else {
      FedChunkNone(c, held, rx);
    }
  }

  lemma Rejoin(a: seq<Byte>, b: seq<Byte>, i: nat)
    requires i <= |b|
    ensures (a + b[..i]) + b[i..] == a + b
  {
  }

  lemma FedChunkNone(c: Config, held: seq<Byte>, rx: Rx)
    ensures FedChunk(c, held, [], rx) == (rx, held)
  {
  }

  lemma FedChunkNext(c: Config, held: seq<Byte>, chunk: seq<Byte>, rx: Rx)
    requires rx.phase.Live? && chunk != []
    ensures var t := Step(c, held, chunk, rx);
            FedChunk(c, held, chunk, rx) == if t.rx.phase.Live? then FedChunk(c, t.held, chunk[t.taken..], t.rx) else (t.rx, t.held)
  {
    hide Step;
  }

  lemma BoundedMoves(c: Config, a: seq<Byte>, b: seq<Byte>, rx: Rx, held: seq<Byte>)
    requires rx.phase.Live? && Run(c, a, rx).0.phase.Live?
    ensures var (rx1, rest) := Run(c, a, rx); Bounded(c, a + b, rx, held) <==> Bounded(c, rest + b, rx1, held)
  {
    hide Run;
    hide Halting;
    HaltingAppend(c, a, b, rx);
  }

  lemma BoundedStays(c: Config, a: seq<Byte>, b: seq<Byte>, rx: Rx, held: seq<Byte>)
    requires rx.phase.Live? && !Run(c, a, rx).0.phase.Live? && Bounded(c, a, rx, held)
    ensures Bounded(c, a + b, rx, held)
  {
    hide Run;
    hide Halting;
    HaltingAppend(c, a, b, rx);
  }

  lemma RunLive(c: Config, a: seq<Byte>, rx: Rx, r: Rx, held: seq<Byte>)
    requires Overran(c, Run(c, a, rx), r, held)
    ensures !Run(c, a, rx).0.phase.Live?
  {
  }

  /** However the stream was cut, the reader holds no more than the head buffer's room. */
  lemma {:induction false} FedBound(c: Config, held: seq<Byte>, chunks: seq<seq<Byte>>, rx: Rx)
    requires Holding(c, held) && rx.phase.Live?
    ensures var (r, rest) := Fed(c, held, chunks, rx);
            !r.phase.Live? ==> Bounded(c, held + Flat(chunks), rx, rest)
    decreases |chunks|
  {
    hide *;
    if chunks == [] {
      FedNone(c, held, rx);
    } else {
      var (r, rest) := FedChunk(c, held, chunks[0], rx);
      FedNext(c, held, chunks, rx);
      FedChunkIsRun(c, held, chunks[0], rx);
      FedChunkBound(c, held, chunks[0], rx);
      if r.phase.Live? {
        FedBound(c, rest, chunks[1..], r);
        BoundedMoves(c, held + chunks[0], Flat(chunks[1..]), rx, Fed(c, held, chunks, rx).1);
      } else {
        RunLive(c, held + chunks[0], rx, r, rest);
        BoundedStays(c, held + chunks[0], Flat(chunks[1..]), rx, rest);
      }
    }
  }

  // ----- When the chunking does not matter -----

  /** In front of a frame that is not complete, or is refused, the loop delivers nothing. */
  lemma SweepStuck(c: Config, rest: seq<Byte>, held: seq<Byte>, rx: Rx)
    requires !Complete(c, rest) && held <= rest && |held| <= DATA_SMALL_SIZE
    ensures Sweep(c, held, rx).0.delivered == rx.delivered
  {
    if Ready(held) {
      assert Window(held) == held && rest == held + rest[|held|..];
      WindowExtend(held, rest[|held|..]);
    }
  }

  /** Whatever the cuts, a stream's payloads are the same. */
  ghost predicate Independent(c: Config, stream: seq<Byte>) {
    forall a, b :: Flat(a) == stream && Flat(b) == stream ==>
      Fed(c, [], a, START).0.delivered == Fed(c, [], b, START).0.delivered
  }

  /** The most that one of the chunkings can deliver. */
  function Most(c: Config, stream: seq<Byte>): Rx {
    var ((rx, rest), n) := (Run(c, stream, START), Halting(c, stream, START));
    Sweep(c, rest[..Least(|rest|, if n <= DATA_SMALL_SIZE then DATA_SMALL_SIZE - n else 0)], rx).0
  }

  /** Every chunking delivers what the reference does, and no more than the most. */
  lemma FedBetween(c: Config, chunks: seq<seq<Byte>>)
    requires !Run(c, Flat(chunks), START).0.phase.Live?
    ensures var d := Fed(c, [], chunks, START).0.delivered;
            Run(c, Flat(chunks), START).0.delivered <= d <= Most(c, Flat(chunks)).delivered
  {
    assert Holding(c, []) && START.phase.Live?;
    hide *;
    var stream := Flat(chunks);
    var (r, held) := Fed(c, [], chunks, START);
    Around(stream);
    ReadIsRun(c, chunks, START);
    FedBound(c, [], chunks, START);
    BetweenBounds(c, stream, r, held);
  }

  lemma BetweenBounds(c: Config, stream: seq<Byte>, r: Rx, held: seq<Byte>)
    requires Overran(c, Run(c, stream, START), r, held) && Bounded(c, stream, START, held)
    ensures Run(c, stream, START).0.delivered <= r.delivered <= Most(c, stream).delivered
  {
    hide Run;
    hide Sweep;
    hide Halting;
    var ((rx, rest), n) := (Run(c, stream, START), Halting(c, stream, START));
    var room := Least(|rest|, if n <= DATA_SMALL_SIZE then DATA_SMALL_SIZE - n else 0);
    assert rest[..room] == held + rest[|held|..room];
    SweepMore(c, held, rest[|held|..room], rx);
    SweepDelivers(c, held, rx);
  }

  /** A frame whose verdict halts, in front of whatever follows. */
  ghost predicate Fatal(c: Config, bytes: seq<Byte>, rx: Rx, verdict: Rx, n: nat) {
    && rx.phase.Live? && Complete(c, bytes) && !verdict.phase.Live?
    && var h := ParseHeader(Window(bytes));
       n == h.Total() && verdict == Judge(c, rx, h.hash, bytes[HASH_SIZE + h.vintSize..n])
  }

  lemma FatalPrefix(c: Config, bytes: seq<Byte>, rx: Rx, verdict: Rx, n: nat, m: nat)
    requires Fatal(c, bytes, rx, verdict, n) && n <= m <= |bytes|
    ensures Fatal(c, bytes[..m], rx, verdict, n) && Run(c, bytes[..m], rx) == (verdict, bytes[..m][n..])
  {
    CompletePrefix(c, bytes, m);
    hide ParseHeader;
    hide Window;
    hide Judge;
    hide Run;
    var h := ParseHeader(Window(bytes));
    PrefixSlice(bytes, m, HASH_SIZE + h.vintSize, n);
    RunFirst(c, bytes[..m], rx);
    RunHalted(c, bytes[..m][n..], verdict);
  }

  lemma HaltsAtFatal(c: Config, bytes: seq<Byte>, rx: Rx, k: nat)
    requires HaltsAt(c, bytes, rx, k)
    ensures var n := Halting(c, bytes, rx);
            && k + n <= |bytes| && Fatal(c, bytes[k..], Run(c, bytes[..k], rx).0, Run(c, bytes, rx).0, n)
            && Run(c, bytes, rx).1 == bytes[k + n..] && Run(c, bytes[..k], rx).1 == []
  {
    hide Run;
    hide Halting;
    hide ParseHeader;
    hide Judge;
    hide Window;
    assert bytes[k..][Halting(c, bytes, rx)..] == bytes[k + Halting(c, bytes, rx)..];
  }

  lemma FedLive(c: Config, chunk: seq<Byte>)
    requires Run(c, chunk, START).0.phase.Live?
    ensures FedChunk(c, [], chunk, START) == Run(c, chunk, START)
  {
    assert Holding(c, []) && START.phase.Live?;
    hide *;
    Around(chunk);
    FedChunkIsRun(c, [], chunk, START);
    var (r, held) := FedChunk(c, [], chunk, START);
    if !r.phase.Live? {
      RunLive(c, chunk, START, r, held);
    }
  }

  lemma FedExactly(c: Config, chunk: seq<Byte>)
    requires var (rx, rest) := Run(c, chunk, START); !rx.phase.Live? && rest == []
    ensures var r := FedChunk(c, [], chunk, START).0;
            !r.phase.Live? && r.delivered == Run(c, chunk, START).0.delivered
  {
    assert Holding(c, []) && START.phase.Live?;
    hide Run;
    hide FedChunk;
    hide Holding;
    Around(chunk);
    FedChunkIsRun(c, [], chunk, START);
  }

  /** Cut right behind the halting frame, the stream delivers what the reference does. */
  lemma CutAfter(c: Config, stream: seq<Byte>, k: nat)
    requires HaltsAt(c, stream, START, k)
    ensures var m := k + Halting(c, stream, START);
            && m <= |stream|
            && Fed(c, [], [stream[..m], stream[m..]], START).0.delivered == Run(c, stream, START).0.delivered
  {
    hide *;
    HaltsAtFatal(c, stream, START, k);
    var (n, rx0, rx) := (Halting(c, stream, START), Run(c, stream[..k], START).0, Run(c, stream, START).0);
    var frame := stream[k..][..n];
    assert stream[..k + n] == stream[..k] + frame && frame[n..] == [];
    FatalPrefix(c, stream[k..], rx0, rx, n, n);
    RunAppend(c, stream[..k], frame, START);
    Around(frame);
    FatalIs(c, stream[k..], rx0, rx, n);
    FedExactly(c, stream[..k + n]);
    TwoChunks(c, stream[..k + n], stream[k + n..]);
  }

  lemma FatalIs(c: Config, bytes: seq<Byte>, rx: Rx, verdict: Rx, n: nat)
    requires Fatal(c, bytes, rx, verdict, n)
    ensures rx.phase.Live? && !verdict.phase.Live?
  {
  }

  /** The first turn on a fatal frame: it drops, and delivers what it holds behind the frame. */
  lemma FatalStep(c: Config, bytes: seq<Byte>, rx: Rx, verdict: Rx, n: nat)
    requires Fatal(c, bytes, rx, verdict, n) && n <= DATA_SMALL_SIZE && bytes != [] && n <= |bytes|
    ensures var r := FedChunk(c, [], bytes, rx).0;
            r.delivered == Sweep(c, bytes[n..][..Least(|bytes| - n, DATA_SMALL_SIZE - n)], verdict).0.delivered
  {
    var all := bytes[..Least(|bytes|, DATA_SMALL_SIZE)];
    FirstTurn(c, bytes, rx);
    FatalIs(c, bytes, rx, verdict, n);
    assert |all| >= n && |all| <= DATA_SMALL_SIZE;
    assert all[n..] == bytes[n..][..Least(|bytes| - n, DATA_SMALL_SIZE - n)];
    hide *;
    FatalPrefix(c, bytes, rx, verdict, n, |all|);
    SweepAgainstRun(c, all, rx);
    FedChunkNext(c, [], bytes, rx);
  }

  lemma FirstTurn(c: Config, bytes: seq<Byte>, rx: Rx)
    requires bytes != []
    ensures Step(c, [], bytes, rx).rx == Sweep(c, bytes[..Least(|bytes|, DATA_SMALL_SIZE)], rx).0
  {
    hide Sweep;
    hide Run;
    ShortHeader([]);
    Around(bytes[..Least(|bytes|, DATA_SMALL_SIZE)]);
  }

  /** Cut right in front of it, the stream delivers the most. */
  lemma CutInFront(c: Config, stream: seq<Byte>, k: nat)
    requires HaltsAt(c, stream, START, k) && 0 < Halting(c, stream, START) <= DATA_SMALL_SIZE
    ensures Fed(c, [], [stream[..k], stream[k..]], START).0.delivered == Most(c, stream).delivered
  {
    hide Run;
    hide Sweep;
    hide Fed;
    hide FedChunk;
    hide HaltsAt;
    hide Halting;
    hide Fatal;
    HaltsAtFatal(c, stream, START, k);
    var (n, rx0, rx) := (Halting(c, stream, START), Run(c, stream[..k], START).0, Run(c, stream, START).0);
    FatalIs(c, stream[k..], rx0, rx, n);
    FedLive(c, stream[..k]);
    FatalStep(c, stream[k..], rx0, rx, n);
    TwoChunks(c, stream[..k], stream[k..]);
    assert stream[k..][n..] == stream[k + n..];
  }

  lemma LiveIndependent(c: Config, stream: seq<Byte>)
    requires Run(c, stream, START).0.phase.Live?
    ensures Independent(c, stream) && Halting(c, stream, START) == 0
  {
    HaltingFitsLive(c, stream, START);
    forall a, b | Flat(a) == stream && Flat(b) == stream
      ensures Fed(c, [], a, START).0.delivered == Fed(c, [], b, START).0.delivered
    {
      LiveDelivers(c, a);
      LiveDelivers(c, b);
    }
  }

  lemma LiveDelivers(c: Config, chunks: seq<seq<Byte>>)
    requires Run(c, Flat(chunks), START).0.phase.Live?
    ensures Fed(c, [], chunks, START).0 == Run(c, Flat(chunks), START).0
  {
    hide Fed;
    hide Run;
    ReadIsRun(c, chunks, START);
  }

  lemma {:induction false} HaltingFitsLive(c: Config, bytes: seq<Byte>, rx: Rx)
    requires Run(c, bytes, rx).0.phase.Live?
    ensures Halting(c, bytes, rx) == 0
    decreases |bytes|
  {
    hide *;
    if !rx.phase.Live? {
      RunHalted(c, bytes, rx);
    } else if Complete(c, bytes) {
      var rx', next := FirstJudged(c, bytes, rx);
      if rx'.phase.Live? {
        HaltingFitsLive(c, next, rx');
      } else {
        RunHalted(c, next, rx');
      }
    } else {
      HaltingNot(c, bytes, [], rx);
    }
  }

  lemma MostIsLeast(c: Config, stream: seq<Byte>)
    requires !Run(c, stream, START).0.phase.Live? && Most(c, stream).delivered == Run(c, stream, START).0.delivered
    ensures Independent(c, stream)
  {
    hide Run;
    hide Most;
    hide Fed;
    forall a, b | Flat(a) == stream && Flat(b) == stream
      ensures Fed(c, [], a, START).0.delivered == Fed(c, [], b, START).0.delivered
    {
      FedBetween(c, a);
      FedBetween(c, b);
    }
  }

  /** Halting otherwise than by the verdict on a frame of the head buffer, nothing more is delivered. */
  lemma NothingMore(c: Config, stream: seq<Byte>)
    requires !Run(c, stream, START).0.phase.Live?
    requires var n := Halting(c, stream, START); n == 0 || n > DATA_SMALL_SIZE
    ensures Most(c, stream).delivered == Run(c, stream, START).0.delivered
  {
    hide Run;
    hide Halting;
    hide Sweep;
    hide HaltsAt;
    var (rx, rest) := Run(c, stream, START);
    if Halting(c, stream, START) == 0 {
      var k := HaltSplit(c, stream, START);
      SweepStuck(c, rest, rest[..Least(|rest|, DATA_SMALL_SIZE)], rx);
    } else {
      ShortHeader([]);
      SweepDelivers(c, [], rx);
      SweepEmpty(c, rx);
    }
  }

  lemma SweepEmpty(c: Config, rx: Rx)
    ensures Sweep(c, [], rx) == (rx, [])
  {
  }

  lemma Dependent(c: Config, stream: seq<Byte>)
    requires !Run(c, stream, START).0.phase.Live? && 0 < Halting(c, stream, START) <= DATA_SMALL_SIZE
    requires Independent(c, stream)
    ensures Most(c, stream).delivered == Run(c, stream, START).0.delivered
  {
    hide Run;
    hide Halting;
    hide Most;
    hide Fed;
    hide HaltsAt;
    var k := HaltSplit(c, stream, START);
    var m := k + Halting(c, stream, START);
    CutAfter(c, stream, k);
    CutInFront(c, stream, k);
    KeepsPosition(c, stream, START, k);
    CutFlat(c, stream, k);
    CutFlat(c, stream, m);
  }

  lemma KeepsPosition(c: Config, bytes: seq<Byte>, rx: Rx, k: nat)
    requires HaltsAt(c, bytes, rx, k)
    ensures k <= |bytes|
  {
  }

  lemma CutFlat(c: Config, stream: seq<Byte>, i: nat)
    requires i <= |stream|
    ensures Flat([stream[..i], stream[i..]]) == stream
  {
    hide *;
    TwoChunks(c, stream[..i], stream[i..]);
    assert stream[..i] + stream[i..] == stream;
  }

  /**
   A stream delivers the same however it is cut exactly if the reference does not halt at
   the verdict on a frame that fits the head buffer, or nothing is delivered of what the
   head buffer has room for behind that frame.
   */
  lemma IndependentIff(c: Config, stream: seq<Byte>)
    ensures Independent(c, stream) <==>
            var ((rx, rest), n) := (Run(c, stream, START), Halting(c, stream, START));
            n == 0 || n > DATA_SMALL_SIZE
            || Sweep(c, rest[..Least(|rest|, DATA_SMALL_SIZE - n)], rx).0.delivered == rx.delivered
  {
    hide Run;
    hide Halting;
    hide Sweep;
    hide Independent;
    if Run(c, stream, START).0.phase.Live? {
      LiveIndependent(c, stream);
    } else {
      var n := Halting(c, stream, START);
      if n == 0 || n > DATA_SMALL_SIZE {
        NothingMore(c, stream);
      }
      if Most(c, stream).delivered == Run(c, stream, START).0.delivered {
        MostIsLeast(c, stream);
      } else if Independent(c, stream) {
        Dependent(c, stream);
      }
    }
  }

  // ----- A dropped stream with one sound frame behind it -----

  lemma BadFrame(c: Config, bad: Wire, rx: Rx)
    requires rx.phase.Live? && rx.hashFailed == c.maxHashFailed
    requires c.hash(bad.payload) != bad.hash && (c.limit > 0 ==> |bad.payload| <= c.limit)
    ensures Run(c, [] + WireBytes(bad), rx) == (rx.(hashFailed := rx.hashFailed + 1, phase := Dropped), [])
  {
    var rx' := rx.(hashFailed := rx.hashFailed + 1, phase := Dropped);
    assert Judge(c, rx, bad.hash, bad.payload) == rx';
    hide *;
    Around(WireBytes(bad));
    RunOneWire(c, bad, [], rx);
    RunHalted(c, [], rx');
  }

  /** All the frames of `ws` are judged, and the damaged one behind them is one too many. */
  lemma DamagedDrops(c: Config, ws: seq<Wire>, bad: Wire)
    requires WithinLimit(c, ws) && (c.limit > 0 ==> |bad.payload| <= c.limit)
    requires Damaged(c.hash, ws) == c.maxHashFailed && c.hash(bad.payload) != bad.hash
    ensures Run(c, WireStream(ws) + WireBytes(bad), START) ==
            (Rx(Sound(c.hash, ws), c.maxHashFailed + 1, 0, Dropped), [])
  {
    hide *;
    RunWires(c, ws);
    BadFrame(c, bad, Rx(Sound(c.hash, ws), c.maxHashFailed, 0, Live));
    RunAppend(c, WireStream(ws), WireBytes(bad), START);
  }

  /** The loop, told to go on over (a part of) one sound frame. */
  lemma SweepSound(c: Config, good: Wire, part: seq<Byte>, rx: Rx)
    requires part <= WireBytes(good) && rx.phase.Dropped? && |part| <= DATA_SMALL_SIZE
    requires c.hash(good.payload) == good.hash && (c.limit > 0 ==> |good.payload| <= c.limit)
    ensures Sweep(c, part, rx).0.delivered ==
            if |part| == |WireBytes(good)| then rx.delivered + [good.payload] else rx.delivered
  {
    var frame := WireBytes(good);
    if |part| == |frame| {
      assert part == frame && frame + [] == frame;
      ParseWireHeader(good, []);
      var h := ParseHeader(frame);
      assert frame[HASH_SIZE + h.vintSize..h.Total()] == good.payload && frame[h.Total()..] == [];
      assert Sweep(c, [], Judge(c, rx, good.hash, good.payload)).0 == Judge(c, rx, good.hash, good.payload);
    } else {
      PartHeader(good, part);
    }
  }

  lemma PartHeader(w: Wire, part: seq<Byte>)
    requires part <= WireBytes(w) && |part| < |WireBytes(w)|
    ensures var h := ParseHeader(part); h.Header? ==> |part| < h.Total() && h.length == |w.payload| && h.Total() == |WireBytes(w)|
  {
    if ParseHeader(part).Header? {
      ParseHeaderExtend(part, WireBytes(w)[|part|..]);
      assert part + WireBytes(w)[|part|..] == WireBytes(w) == WireBytes(w) + [];
      ParseWireHeader(w, []);
    }
  }

  /** What the reader holds beyond the drop, when `stream` drops and `stream + more` is cut at `cut`. */
  function HeldAtDrop(stream: seq<Byte>, more: seq<Byte>, cut: nat): seq<Byte> {
    if |stream| <= cut <= |stream| + |more| then more[..cut - |stream|] else more
  }

  /** The first chunk already drops the connection. */
  lemma CutBehind(c: Config, stream: seq<Byte>, more: seq<Byte>, part: nat)
    requires |stream| + |more| <= DATA_SMALL_SIZE && part <= |more|
    requires var (rx, rest) := Run(c, stream, START); !rx.phase.Live? && rest == []
    ensures var (r, held) := FedChunk(c, [], stream + more[..part], START);
            !r.phase.Live? && held == more[..part]
  {
    var a := stream + more[..part];
    assert stream != [] && Holding(c, []) && InHead(c, []);
    hide *;
    RunAppend(c, stream, more[..part], START);
    Around(more[..part]);
    Around(a);
    FedChunkIsRun(c, [], a, START);
    OneStep(c, [], a, START);
    SweepAgainstRun(c, a, START);
  }

  lemma FirstPart(c: Config, a: seq<Byte>, b: seq<Byte>)
    requires |a| + |b| <= DATA_SMALL_SIZE && b != []
    requires var (rx, rest) := Run(c, a + b, START); !rx.phase.Live? && rest == []
    ensures var (r, held) := FedChunk(c, [], a, START);
            r.phase.Live? && InHead(c, held) && |held| <= |a| && Run(c, held + b, r) == Run(c, a + b, START)
  {
    assert Holding(c, []) && START.phase.Live?;
    hide *;
    var (r, held) := FedChunk(c, [], a, START);
    Around(a);
    FedChunkIsRun(c, [], a, START);
    LiveBefore(c, a, b);
    if r.phase.Live? {
      RestShort(c, a, START);
      RunAppend(c, a, b, START);
      HeadBeforeDrop(c, held, b, r);
    } else {
      RunLive(c, a, START, r, held);
    }
  }

  lemma SecondPart(c: Config, held: seq<Byte>, b: seq<Byte>, more: seq<Byte>, r: Rx)
    requires InHead(c, held) && r.phase.Live? && |held| + |b| + |more| <= DATA_SMALL_SIZE && b != []
    requires var (rx, rest) := Run(c, held + b, r); !rx.phase.Live? && rest == []
    ensures var (q, end) := FedChunk(c, held, b + more, r); !q.phase.Live? && end == more
  {
    hide *;
    RunAppend(c, held + b, more, r);
    Around(more);
    assert held + (b + more) == held + b + more;
    OneStep(c, held, b + more, r);
    SweepAgainstRun(c, held + (b + more), r);
  }

  /** The first chunk ends before the drop, so the second one brings all that follows. */
  lemma CutBefore(c: Config, a: seq<Byte>, b: seq<Byte>, more: seq<Byte>)
    requires |a| + |b| + |more| <= DATA_SMALL_SIZE && b != []
    requires var (rx, rest) := Run(c, a + b, START); !rx.phase.Live? && rest == []
    ensures var (r, held) := FedChunk(c, [], a, START);
            && r.phase.Live?
            && var (q, end) := FedChunk(c, held, b + more, r);
               !q.phase.Live? && end == more
  {
    hide *;
    FirstPart(c, a, b);
    var (r, held) := FedChunk(c, [], a, START);
    SecondPart(c, held, b, more, r);
  }

  lemma LiveBefore(c: Config, a: seq<Byte>, b: seq<Byte>)
    requires b != [] && Run(c, a + b, START).1 == []
    ensures Run(c, a, START).0.phase.Live?
  {
    hide Run;
    RunAppend(c, a, b, START);
  }

  lemma CutHolds(c: Config, stream: seq<Byte>, more: seq<Byte>, cut: nat)
    requires |stream| + |more| <= DATA_SMALL_SIZE && cut <= |stream| + |more|
    requires var (rx, rest) := Run(c, stream, START); !rx.phase.Live? && rest == []
    ensures var all := stream + more;
            var (r, held) := Fed(c, [], [all[..cut], all[cut..]], START);
            !r.phase.Live? && held == HeldAtDrop(stream, more, cut)
  {
    hide Run;
    hide FedChunk;
    hide Fed;
    var all := stream + more;
    TwoChunks(c, all[..cut], all[cut..]);
    if |stream| <= cut {
      assert all[..cut] == stream + more[..cut - |stream|];
      CutBehind(c, stream, more, cut - |stream|);
    } else {
      assert all[..cut] == stream[..cut] && all[cut..] == stream[cut..] + more && stream == stream[..cut] + stream[cut..];
      CutBefore(c, stream[..cut], stream[cut..], more);
    }
  }

  /**
   A stream that gets the connection dropped with its last frame, and one sound frame
   behind it, all within the head buffer and read in two pieces: the sound frame is
   delivered all the same, unless the cut falls between the drop and the frame's end.
   */
  method ReadInTwo(c: Config, ghost ws: seq<Wire>, ghost bad: Wire, ghost good: Wire, stream: seq<Byte>, cut: nat)
      returns (phase: Phase, delivered: seq<seq<Byte>>)
    requires stream == WireStream(ws) + WireBytes(bad) + WireBytes(good) && cut <= |stream| <= DATA_SMALL_SIZE
    requires WithinLimit(c, ws) && Damaged(c.hash, ws) == c.maxHashFailed
    requires c.hash(bad.payload) != bad.hash && (c.limit > 0 ==> |bad.payload| <= c.limit)
    requires c.hash(good.payload) == good.hash && (c.limit > 0 ==> |good.payload| <= c.limit)
    ensures !phase.Live?
    ensures delivered == Sound(c.hash, ws) +
                         if |stream| - |WireBytes(good)| <= cut < |stream| then [] else [good.payload]
  {
    CutDelivers(c, ws, bad, good, cut);
    hide *;
    var reader := new Reader(c);
    phase := reader.ReadLoop([stream[..cut], stream[cut..]]);
    delivered := reader.delivered;
  }

  lemma CutDelivers(c: Config, ws: seq<Wire>, bad: Wire, good: Wire, cut: nat)
    requires var n := |WireStream(ws)| + |WireBytes(bad)| + |WireBytes(good)|; cut <= n <= DATA_SMALL_SIZE
    requires WithinLimit(c, ws) && Damaged(c.hash, ws) == c.maxHashFailed
    requires c.hash(bad.payload) != bad.hash && (c.limit > 0 ==> |bad.payload| <= c.limit)
    requires c.hash(good.payload) == good.hash && (c.limit > 0 ==> |good.payload| <= c.limit)
    ensures var all := WireStream(ws) + WireBytes(bad) + WireBytes(good);
            var r := Fed(c, [], [all[..cut], all[cut..]], START).0;
            && !r.phase.Live?
            && r.delivered == Sound(c.hash, ws) +
                              if |all| - |WireBytes(good)| <= cut < |all| then [] else [good.payload]
  {
    var (first, more) := (WireStream(ws) + WireBytes(bad), WireBytes(good));
    var all := first + more;
    var held := HeldAtDrop(first, more, cut);
    assert held <= more && (|held| == |more| <==> !(|first| <= cut < |all|));
    var rx := Rx(Sound(c.hash, ws), c.maxHashFailed + 1, 0, Dropped);
    assert rx.delivered + [] == rx.delivered;
    var chunks := [all[..cut], all[cut..]];
    assert all == all[..cut] + all[cut..];
    hide *;
    DamagedDrops(c, ws, bad);
    CutHolds(c, first, more, cut);
    TwoChunks(c, all[..cut], all[cut..]);
    RunAppend(c, first, more, START);
    HaltedDelivers(c, chunks);
    SweepSound(c, good, held, rx);
  }

  lemma HaltedDelivers(c: Config, chunks: seq<seq<Byte>>)
    requires !Fed(c, [], chunks, START).0.phase.Live?
    ensures var ((r, held), goal) := (Fed(c, [], chunks, START), Run(c, Flat(chunks), START));
            r.delivered == Sweep(c, held, goal.0).0.delivered
  {
    hide Fed;
    hide Run;
    hide Sweep;
    ReadIsRun(c, chunks, START);
  }
}
