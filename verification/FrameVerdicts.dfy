/**
 What a reader makes of whole frames, sound, damaged or over the receive limit, and which
 streams of them it bears.
 */
module FrameVerdicts {
  import opened Vint
  import opened FrameCodec
  import opened Chunks
  import opened StreamReader
  import opened StreamChannel

  ghost predicate Whole(c: Config, w: Wire) { c.hash(w.payload) == w.hash }

  predicate OverLimit(c: Config, w: Wire) { c.limit > 0 && |w.payload| > c.limit }

  /** Over the limit, and too long for the head buffer. */
  predicate Huge(c: Config, w: Wire) { OverLimit(c, w) && |WireBytes(w)| > DATA_SMALL_SIZE }

  lemma HeaderOf(c: Config, w: Wire, rest: seq<Byte>)
    ensures var (bytes, h) := (WireBytes(w) + rest, ParseHeader(Window(WireBytes(w) + rest)));
            && h == Header(w.hash, |Encode(|w.payload|)|, |w.payload|) && h.Representable()
            && h.Total() == |WireBytes(w)| && (TooLarge(c, h) <==> Huge(c, w))
            && bytes[HASH_SIZE + h.vintSize..h.Total()] == w.payload && bytes[h.Total()..] == rest
  {
    WindowHeader(w, rest);
    ParseWireHeader(w, rest);
  }

  /** A frame that is over the limit and too long for the head buffer drops the connection at once. */
  lemma HugeDrops(c: Config, w: Wire, rest: seq<Byte>, rx: Rx)
    requires rx.phase.Live? && Huge(c, w)
    ensures Run(c, WireBytes(w) + rest, rx) == (rx.(blockFailed := rx.blockFailed + 1, phase := Dropped), WireBytes(w) + rest)
  {
    HeaderOf(c, w, rest);
  }

  /** A frame is delivered if it is sound and within the limit, and else counted. */
  ghost function After(c: Config, w: Wire, rx: Rx): Rx {
    if !Whole(c, w) then
      rx.(hashFailed := rx.hashFailed + 1, phase := if rx.hashFailed + 1 > c.maxHashFailed then Dropped else Live)
    else if OverLimit(c, w) then
      rx.(blockFailed := rx.blockFailed + 1, phase := if rx.blockFailed + 1 > c.maxBlockFailed then Dropped else Live)
    else rx.(delivered := rx.delivered + [w.payload])
  }

  /** What becomes of any other frame. */
  lemma FrameCounts(c: Config, w: Wire, rest: seq<Byte>, rx: Rx)
    requires rx.phase.Live? && !Huge(c, w)
    ensures Run(c, WireBytes(w) + rest, rx) == Run(c, rest, After(c, w, rx))
  {
    HeaderOf(c, w, rest);
    hide ParseHeader;
    hide Window;
  }

  // ----- Streams -----

  /** The payloads that are sound and within the limit. */
  ghost function Good(c: Config, ws: seq<Wire>): seq<seq<Byte>> {
    if ws == [] then []
    else if Whole(c, ws[0]) && !OverLimit(c, ws[0]) then [ws[0].payload] + Good(c, ws[1..])
    else Good(c, ws[1..])
  }

  ghost function BadHashes(c: Config, ws: seq<Wire>): nat {
    if ws == [] then 0 else (if Whole(c, ws[0]) then 0 else 1) + BadHashes(c, ws[1..])
  }

  ghost function OverSized(c: Config, ws: seq<Wire>): nat {
    if ws == [] then 0 else (if Whole(c, ws[0]) && OverLimit(c, ws[0]) then 1 else 0) + OverSized(c, ws[1..])
  }

  /** Not too many bad hashes, not too many small frames over the limit, and no large one. */
  ghost predicate Bearable(c: Config, ws: seq<Wire>, rx: Rx) {
    && rx.hashFailed + BadHashes(c, ws) <= c.maxHashFailed
    && rx.blockFailed + OverSized(c, ws) <= c.maxBlockFailed
    && forall w :: w in ws ==> !Huge(c, w)
  }

  /** The reference bears a stream exactly if it is bearable, and then delivers and counts just this. */
  ghost predicate Decided(c: Config, ws: seq<Wire>, rx: Rx) {
    && (Run(c, WireStream(ws), rx).0.phase.Live? <==> Bearable(c, ws, rx))
    && (Bearable(c, ws, rx) ==> Run(c, WireStream(ws), rx) == (Total(c, ws, rx), []))
  }

  ghost predicate Counting(c: Config, rx: Rx) {
    rx.phase.Live? && rx.hashFailed <= c.maxHashFailed && rx.blockFailed <= c.maxBlockFailed
  }

  lemma DecidedNone(c: Config, rx: Rx)
    requires Counting(c, rx)
    ensures Decided(c, [], rx)
  {
    assert rx.delivered + [] == rx.delivered;
  }

  lemma DecidedHuge(c: Config, ws: seq<Wire>, rx: Rx)
    requires Counting(c, rx) && ws != [] && Huge(c, ws[0])
    ensures Decided(c, ws, rx)
  {
    HugeDrops(c, ws[0], WireStream(ws[1..]), rx);
    hide Run;
    hide Huge;
    assert ws[0] in ws;
  }

  lemma DecidedStopped(c: Config, ws: seq<Wire>, rx: Rx)
    requires Counting(c, rx) && ws != [] && !Huge(c, ws[0]) && !After(c, ws[0], rx).phase.Live?
    ensures Decided(c, ws, rx)
  {
    FrameIsAfter(c, ws, rx);
    Stopped(c, WireStream(ws[1..]), After(c, ws[0], rx));
    BearableStep(c, ws, rx);
    hide Run;
    hide Bearable;
    hide Huge;
  }

  ghost function Total(c: Config, ws: seq<Wire>, rx: Rx): Rx {
    rx.(delivered := rx.delivered + Good(c, ws), hashFailed := rx.hashFailed + BadHashes(c, ws),
        blockFailed := rx.blockFailed + OverSized(c, ws))
  }

  lemma TotalStep(c: Config, ws: seq<Wire>, rx: Rx)
    requires ws != [] && rx.phase.Live? && After(c, ws[0], rx).phase.Live?
    ensures Total(c, ws, rx) == Total(c, ws[1..], After(c, ws[0], rx))
  {
    hide OverLimit;
    hide Whole;
    assert rx.delivered + ([ws[0].payload] + Good(c, ws[1..])) == (rx.delivered + [ws[0].payload]) + Good(c, ws[1..]);
  }

  lemma FrameIsAfter(c: Config, ws: seq<Wire>, rx: Rx)
    requires rx.phase.Live? && ws != [] && !Huge(c, ws[0])
    ensures Run(c, WireStream(ws), rx) == Run(c, WireStream(ws[1..]), After(c, ws[0], rx))
  {
    hide Run;
    hide After;
    hide Huge;
    hide WireBytes;
    FrameCounts(c, ws[0], WireStream(ws[1..]), rx);
  }

  lemma DecidedOn(c: Config, ws: seq<Wire>, rx: Rx)
    requires Counting(c, rx) && ws != [] && !Huge(c, ws[0]) && After(c, ws[0], rx).phase.Live?
    requires Decided(c, ws[1..], After(c, ws[0], rx))
    ensures Decided(c, ws, rx)
  {
    FrameIsAfter(c, ws, rx);
    BearableStep(c, ws, rx);
    TotalStep(c, ws, rx);
    hide Run;
    hide Bearable;
    hide Huge;
    hide After;
    hide Total;
    hide WireStream;
  }

  lemma {:induction false} StreamLiveIff(c: Config, ws: seq<Wire>, rx: Rx)
    requires Counting(c, rx)
    ensures Decided(c, ws, rx)
    decreases |ws|
  {
    hide Decided;
    hide Huge;
    if ws == [] {
      DecidedNone(c, rx);
    } else if Huge(c, ws[0]) {
      DecidedHuge(c, ws, rx);
    } else if After(c, ws[0], rx).phase.Live? {
      StreamLiveIff(c, ws[1..], After(c, ws[0], rx));
      DecidedOn(c, ws, rx);
    } else {
      DecidedStopped(c, ws, rx);
    }
  }

  lemma BearableStep(c: Config, ws: seq<Wire>, rx: Rx)
    requires ws != [] && !Huge(c, ws[0]) && rx.phase.Live?
    requires rx.hashFailed <= c.maxHashFailed && rx.blockFailed <= c.maxBlockFailed
    ensures var rx' := After(c, ws[0], rx); Bearable(c, ws, rx) <==> rx'.phase.Live? && Bearable(c, ws[1..], rx')
  {
    assert forall w :: w in ws <==> w == ws[0] || w in ws[1..];
    hide Huge;
  }

  lemma Stopped(c: Config, bytes: seq<Byte>, rx: Rx)
    requires !rx.phase.Live?
    ensures !Run(c, bytes, rx).0.phase.Live?
  {
  }

  /**
   The reader, on whole frames of any kind under any chunking: it keeps the connection
   exactly if the stream is bearable, and then it has delivered exactly the good payloads.
   */
  method Bears(c: Config, ghost ws: seq<Wire>, chunks: seq<seq<Byte>>) returns (phase: Phase, delivered: seq<seq<Byte>>)
    requires Flat(chunks) == WireStream(ws)
    ensures phase.Live? <==> Bearable(c, ws, START)
    ensures phase.Live? ==> delivered == Good(c, ws)
  {
    StreamLiveIff(c, ws, START);
    assert Decided(c, ws, START);
    assert START.delivered + Good(c, ws) == Good(c, ws);
    hide *;
    var reader := new Reader(c);
    phase := reader.ReadLoop(chunks);
    delivered := reader.delivered;
  }

  // ----- The limit -----

  ghost predicate Within(c: Config, ps: seq<seq<Byte>>) {
    c.limit > 0 ==> forall p :: p in ps ==> |p| <= c.limit
  }

  lemma JudgeWithin(c: Config, rx: Rx, hashField: U32, payload: seq<Byte>)
    requires Within(c, rx.delivered)
    ensures Within(c, Judge(c, rx, hashField, payload).delivered)
  {
  }

  lemma {:induction false} RunWithin(c: Config, bytes: seq<Byte>, rx: Rx)
    requires Within(c, rx.delivered)
    ensures Within(c, Run(c, bytes, rx).0.delivered)
    decreases |bytes|
  {
    if rx.phase.Live? && Complete(c, bytes) {
      var h := ParseHeader(Window(bytes));
      var payload := bytes[HASH_SIZE + h.vintSize..h.Total()];
      RunFirst(c, bytes, rx);
      JudgeWithin(c, rx, h.hash, payload);
      hide Run;
      hide Within;
      RunWithin(c, bytes[h.Total()..], Judge(c, rx, h.hash, payload));
    }
  }

  lemma {:induction false} SweepWithin(c: Config, bytes: seq<Byte>, rx: Rx)
    requires Within(c, rx.delivered)
    ensures Within(c, Sweep(c, bytes, rx).0.delivered)
    decreases |bytes|
  {
    if !rx.phase.Panicked? && Ready(bytes) {
      var h := ParseHeader(bytes);
      var payload := bytes[HASH_SIZE + h.vintSize..h.Total()];
      SweepFirst(c, bytes, rx);
      JudgeWithin(c, rx, h.hash, payload);
      hide Sweep;
      hide Within;
      SweepWithin(c, bytes[h.Total()..], Judge(c, rx, h.hash, payload));
    }
  }

  /** Whatever the bytes and the chunks, nothing over the limit is ever delivered. */
  lemma NothingOverLimit(c: Config, chunks: seq<seq<Byte>>)
    ensures Within(c, Fed(c, [], chunks, START).0.delivered)
  {
    var (goal, (r, held)) := (Run(c, Flat(chunks), START), Fed(c, [], chunks, START));
    assert Within(c, START.delivered);
    ReadIsRun(c, chunks, START);
    hide Run;
    hide Sweep;
    hide Fed;
    hide Within;
    RunWithin(c, Flat(chunks), START);
    SweepWithin(c, held, goal.0);
  }
}
