/**
 The two sides of a stream put together: what the senders' payloads become at the
 receiver, for every merging of writes and every cutting of reads.
 */
module StreamChannel {
  import opened Vint
  import opened FrameCodec
  import opened Chunks
  import R = StreamReader
  import W = StreamWriter
  import S = StreamSends

  // ----- Streams of frames with arbitrary hash fields -----

  function WireStream(ws: seq<Wire>): (s: seq<Byte>) {
    if ws == [] then [] else WireBytes(ws[0]) + WireStream(ws[1..])
  }

  /** The payloads whose hash field is right. */
  function Sound(hash: Hash, ws: seq<Wire>): (ps: seq<seq<Byte>>) {
    if ws == [] then []
    else (if hash(ws[0].payload) == ws[0].hash then [ws[0].payload] else []) + Sound(hash, ws[1..])
  }

  function Damaged(hash: Hash, ws: seq<Wire>): nat {
    if ws == [] then 0
    else (if hash(ws[0].payload) == ws[0].hash then 0 else 1) + Damaged(hash, ws[1..])
  }

  ghost predicate WithinLimit(c: R.Config, ws: seq<Wire>) {
    c.limit > 0 ==> forall i :: 0 <= i < |ws| ==> |ws[i].payload| <= c.limit
  }

  /** The header of the first frame is complete within the head buffer's window. */
  lemma WindowHeader(w: Wire, rest: seq<Byte>)
    ensures ParseHeader(R.Window(WireBytes(w) + rest)) == Header(w.hash, |Encode(|w.payload|)|, |w.payload|)
  {
    var bytes := WireBytes(w) + rest;
    ParseWireHeader(w, rest);
    ParseHeaderExtend(bytes, []);
    EncodeSizeBound(|w.payload|);
    var start := bytes[..HASH_SIZE + |Encode(|w.payload|)|];
    var window := R.Window(bytes);
    assert window == start + window[|start|..];
    ParseHeaderExtend(start, window[|start|..]);
  }

  lemma RunOneWire(c: R.Config, w: Wire, rest: seq<Byte>, rx: R.Rx)
    requires rx.phase.Live? && (c.limit > 0 ==> |w.payload| <= c.limit)
    ensures R.Run(c, WireBytes(w) + rest, rx) == R.Run(c, rest, R.Judge(c, rx, w.hash, w.payload))
  {
    WindowHeader(w, rest);
    ParseWireHeader(w, rest);
    var bytes := WireBytes(w) + rest;
    var h := ParseHeader(R.Window(bytes));
    assert bytes[HASH_SIZE + h.vintSize..h.Total()] == w.payload;
    assert bytes[h.Total()..] == rest;
  }

  function JudgeAll(c: R.Config, ws: seq<Wire>, rx: R.Rx): R.Rx {
    if ws == [] then rx else JudgeAll(c, ws[1..], R.Judge(c, rx, ws[0].hash, ws[0].payload))
  }

  lemma {:induction false} JudgeAllWithin(c: R.Config, ws: seq<Wire>, rx: R.Rx)
    requires WithinLimit(c, ws) && rx.hashFailed + Damaged(c.hash, ws) <= c.maxHashFailed
    ensures JudgeAll(c, ws, rx) ==
            rx.(delivered := rx.delivered + Sound(c.hash, ws), hashFailed := rx.hashFailed + Damaged(c.hash, ws))
  {
    if ws == [] {
      assert rx.delivered + [] == rx.delivered;
    } else {
      var rx' := R.Judge(c, rx, ws[0].hash, ws[0].payload);
      JudgeAllWithin(c, ws[1..], rx');
      assert rx'.delivered + Sound(c.hash, ws[1..]) == rx.delivered + Sound(c.hash, ws);
    }
  }

  lemma {:induction false} RunJudges(c: R.Config, ws: seq<Wire>, rx: R.Rx)
    requires rx.phase.Live? && WithinLimit(c, ws)
    requires rx.hashFailed + Damaged(c.hash, ws) <= c.maxHashFailed
    ensures R.Run(c, WireStream(ws), rx) == (JudgeAll(c, ws, rx), [])
  {
    if ws != [] {
      RunOneWire(c, ws[0], WireStream(ws[1..]), rx);
      RunJudges(c, ws[1..], R.Judge(c, rx, ws[0].hash, ws[0].payload));
    }
  }

  lemma RunWires(c: R.Config, ws: seq<Wire>)
    requires WithinLimit(c, ws) && Damaged(c.hash, ws) <= c.maxHashFailed
    ensures R.Run(c, WireStream(ws), R.START) ==
            (R.Rx(Sound(c.hash, ws), Damaged(c.hash, ws), 0, R.Live), [])
  {
    RunJudges(c, ws, R.START);
    JudgeAllFromStart(c, ws);
  }

  lemma JudgeAllFromStart(c: R.Config, ws: seq<Wire>)
    requires WithinLimit(c, ws) && Damaged(c.hash, ws) <= c.maxHashFailed
    ensures JudgeAll(c, ws, R.START) == R.Rx(Sound(c.hash, ws), Damaged(c.hash, ws), 0, R.Live)
  {
    JudgeAllWithin(c, ws, R.START);
    assert [] + Sound(c.hash, ws) == Sound(c.hash, ws);
  }

  /** What has been delivered is never taken back. */
  lemma {:induction false} RunDeliversMore(c: R.Config, bytes: seq<Byte>, rx: R.Rx)
    ensures rx.delivered <= R.Run(c, bytes, rx).0.delivered
    decreases |bytes|
  {
    if rx.phase.Live? {
      var h := ParseHeader(R.Window(bytes));
      if h.Header? && h.Representable() && !R.TooLarge(c, h) && h.Total() <= |bytes| {
        RunDeliversMore(c, bytes[h.Total()..], R.Judge(c, rx, h.hash, bytes[HASH_SIZE + h.vintSize..h.Total()]));
      }
    }
  }

  /** A stream that ends live was live all along, and had delivered a prefix. */
  lemma RunPrefix(c: R.Config, bytes: seq<Byte>, cut: nat)
    requires cut <= |bytes| && R.Run(c, bytes, R.START).0.phase.Live?
    ensures R.Run(c, bytes[..cut], R.START).0.phase.Live?
    ensures R.Run(c, bytes[..cut], R.START).0.delivered <= R.Run(c, bytes, R.START).0.delivered
  {
    assert bytes == bytes[..cut] + bytes[cut..];
    R.RunAppend(c, bytes[..cut], bytes[cut..], R.START);
    var (rx, rest) := R.Run(c, bytes[..cut], R.START);
    RunDeliversMore(c, rest + bytes[cut..], rx);
  }

  /**
   Reassembly does not depend on the chunking: on well-formed frames within the
   receive limit, with no more damaged hashes than are tolerated, no prefix of the
   stream gets the connection dropped, and the whole stream delivers exactly the
   frames whose hash is right, in order.
   */
  method Receive(c: R.Config, ghost ws: seq<Wire>, chunks: seq<seq<Byte>>)
      returns (phase: R.Phase, delivered: seq<seq<Byte>>)
    requires WithinLimit(c, ws) && Damaged(c.hash, ws) <= c.maxHashFailed
    requires Flat(chunks) <= WireStream(ws)
    ensures phase.Live? && delivered <= Sound(c.hash, ws)
    ensures Flat(chunks) == WireStream(ws) ==> delivered == Sound(c.hash, ws)
  {
    RunWires(c, ws);
    RunPrefix(c, WireStream(ws), |Flat(chunks)|);
    assert Flat(chunks) == WireStream(ws)[..|Flat(chunks)|];
    assert Flat(chunks) == WireStream(ws) ==> WireStream(ws)[..|Flat(chunks)|] == WireStream(ws);
    var reader := new R.Reader(c);
    phase := reader.ReadLoop(chunks);
    delivered := reader.delivered;
  }

  // ----- End to end -----

  function Wires(hash: Hash, ps: seq<Payload>): (ws: seq<Wire>)
    ensures |ws| == |ps|
    ensures forall i :: 0 <= i < |ps| ==> ws[i] == Wire(hash(ps[i]), ps[i])
  {
    seq(|ps|, i requires 0 <= i < |ps| => Wire(hash(ps[i]), ps[i]))
  }

  lemma {:induction false} HonestWires(c: W.Config, ps: seq<Payload>)
    ensures Sound(c.hash, Wires(c.hash, ps)) == ps && Damaged(c.hash, Wires(c.hash, ps)) == 0
    ensures WireStream(Wires(c.hash, ps)) == Flat(W.Frames(c, ps))
  {
    var ws := Wires(c.hash, ps);
    if ps != [] {
      HonestWires(c, ps[1..]);
      assert ws[1..] == Wires(c.hash, ps[1..]);
      FlatUncons(W.Frames(c, ps));
      assert W.Frames(c, ps)[1..] == W.Frames(c, ps[1..]);
    }
  }

  ghost predicate Receivable(c: R.Config, ps: seq<Payload>) {
    c.limit > 0 ==> forall i :: 0 <= i < |ps| ==> |ps[i]| <= c.limit
  }

  /** The reference parser on any part of what an honest writer put on the wire. */
  lemma RunHonest(wc: W.Config, rc: R.Config, ps: seq<Payload>)
    requires rc.hash == wc.hash && Receivable(rc, ps)
    ensures R.Run(rc, Flat(W.Frames(wc, ps)), R.START) == (R.Rx(ps, 0, 0, R.Live), [])
  {
    HonestWires(wc, ps);
    RunWires(rc, Wires(wc.hash, ps));
  }

  /** Any part of what was written is received without being dropped, and in order. */
  lemma RunHonestPrefix(wc: W.Config, rc: R.Config, ps: seq<Payload>, read: seq<Byte>)
    requires rc.hash == wc.hash && Receivable(rc, ps) && read <= Flat(W.Frames(wc, ps))
    ensures R.Run(rc, read, R.START).0.phase.Live? && R.Run(rc, read, R.START).0.delivered <= ps
  {
    var all := Flat(W.Frames(wc, ps));
    assert all[..|read|] == read;
    RunHonest(wc, rc, ps);
    RunPrefix(rc, all, |read|);
  }

  ghost predicate Delivered(s: W.State, read: seq<Byte>, rx: R.Rx) {
    && rx.phase.Live? && rx.delivered <= s.accepted
    && (read == s.wire && W.Outstanding(s) == [] ==> rx.delivered == s.accepted)
    && (read == s.wire && s.closed ==> s.mark <= |s.accepted| && s.accepted[..s.mark] <= rx.delivered)
  }

  lemma EndToEndRun(wc: W.Config, rc: R.Config, run: seq<W.Action>, s: W.State, read: seq<Byte>)
    requires W.IsRun(wc, W.INIT, run, s) && rc.hash == wc.hash && Receivable(rc, s.accepted)
    requires read <= s.wire
    ensures Delivered(s, read, R.Run(rc, read, R.START).0)
  {
    W.GracefulDisconnectSafety(wc, run, s);
    RunHonestPrefix(wc, rc, s.accepted, read);
    if read == s.wire && W.Outstanding(s) == [] {
      RunHonest(wc, rc, s.accepted);
    }
    if read == s.wire && s.closed {
      RunBeyond(wc, rc, s.accepted[..s.mark], s.wire);
    }
  }

  /** A live stream that begins with the frames of `ps` delivers at least `ps`. */
  lemma RunBeyond(wc: W.Config, rc: R.Config, ps: seq<Payload>, wire: seq<Byte>)
    requires rc.hash == wc.hash && Receivable(rc, ps) && Flat(W.Frames(wc, ps)) <= wire
    requires R.Run(rc, wire, R.START).0.phase.Live?
    ensures ps <= R.Run(rc, wire, R.START).0.delivered
  {
    var early := Flat(W.Frames(wc, ps));
    assert wire[..|early|] == early;
    RunHonest(wc, rc, ps);
    RunPrefix(rc, wire, |early|);
  }

  /**
   End to end, for every interleaving of senders, writer and disconnector and every
   chunking of the bytes read so far: the receiver is not dropped and has been given a
   prefix of the payloads offered while the queue had room, in order and once each; all of
   them once the writer has nothing outstanding; and on a graceful close at least all those
   offered before the disconnect. If the queue was never full, those are all that were offered.
   */
  method EndToEnd(ghost wc: W.Config, rc: R.Config, ghost run: seq<W.Action>, ghost s: W.State, chunks: seq<seq<Byte>>)
      returns (phase: R.Phase, delivered: seq<seq<Byte>>)
    requires W.IsRun(wc, W.INIT, run, s) && rc.hash == wc.hash
    requires Receivable(rc, S.Admitted(wc, W.INIT, [], run)) && Flat(chunks) <= s.wire
    ensures phase.Live?
    ensures var taken := S.Admitted(wc, W.INIT, [], run);
            && delivered <= taken
            && (Flat(chunks) == s.wire && W.Outstanding(s) == [] ==> delivered == taken)
    ensures Flat(chunks) == s.wire && s.closed ==> S.Admitted(wc, W.INIT, [], S.UntilDisconnect(run)) <= delivered
    ensures S.NeverFull(wc, W.INIT, run) ==>
              && S.Admitted(wc, W.INIT, [], run) == S.Offered([], run)
              && (s.closed ==> S.Admitted(wc, W.INIT, [], S.UntilDisconnect(run)) == S.Offered([], S.UntilDisconnect(run)))
  {
    S.SendsDecide(wc, run, s);
    W.GracefulDisconnectSafety(wc, run, s);
    EndToEndRun(wc, rc, run, s, Flat(chunks));
    hide S.Admitted;
    hide S.Offered;
    hide S.UntilDisconnect;
    hide S.NeverFull;
    var reader := new R.Reader(rc);
    phase := reader.ReadLoop(chunks);
    delivered := reader.delivered;
  }
}
