/**
 The accumulating frame reader: a growing buffer with a read and a write position,
 proved to be an unbounded queue of bytes, and what that queue yields.
 */
module FrameReader {
  import opened Vint
  import opened FrameCodec

  class FrameReader {
    const hash: Hash
    var buf: array<Byte>
    var readPos: nat
    var writePos: nat

    ghost predicate Valid()
      reads this
    {
      readPos <= writePos <= buf.Length
    }

    /** The bytes written and not yet consumed. */
    ghost function Contents(): (s: seq<Byte>)
      requires Valid()
      reads this, buf
    {
      buf[readPos..writePos]
    }

    constructor (hash: Hash, initialCapacity: nat)
      ensures Valid() && Contents() == [] && fresh(buf) && this.hash == hash
    {
      this.hash := hash;
      buf := new Byte[initialCapacity](_ => 0);
      readPos, writePos := 0, 0;
    }

    /** Appends `data`, growing and compacting the buffer when it does not fit. */
    method Write(data: seq<Byte>) returns (n: nat)
      requires Valid()
      modifies this, buf
      ensures Valid() && (buf == old(buf) || fresh(buf))
      ensures n == |data| && Contents() == old(Contents()) + data
    {
      ghost var before := Contents();
      var needed := writePos + |data|;
      if needed > buf.Length {
        Grow(needed);
      }
      var at := writePos;
      forall k | at <= k < at + |data| { buf[k] := data[k - at]; }
      writePos := at + |data|;
      assert buf[readPos..at] == before;
      return |data|;
    }

    /** Moves the contents to the front of a buffer of at least `needed` bytes. */
    method Grow(needed: nat)
      requires Valid() && needed > buf.Length
      modifies this
      ensures Valid() && fresh(buf) && Contents() == old(Contents()) && readPos == 0
      ensures buf.Length >= needed
    {
      var newSize := buf.Length * 2;
      if newSize < needed {
        newSize := needed;
      }
      var newBuf := new Byte[newSize](_ => 0);
      forall k | 0 <= k < writePos - readPos { newBuf[k] := buf[readPos + k]; }
      buf := newBuf;
      writePos := writePos - readPos;
      readPos := 0;
    }

    /** Takes one good frame off the front; anything else leaves the contents alone. */
    method ReadFrame() returns (r: Unpacked)
      requires Valid()
      modifies this, buf
      ensures Valid() && buf == old(buf)
      ensures r == UnpackFrame(hash, old(Contents()))
      ensures Contents() == if r.Good? then old(Contents())[r.consumed..] else old(Contents())
    {
      r := UnpackFrame(hash, buf[readPos..writePos]);
      if r.Good? {
        readPos := readPos + r.consumed;
        if readPos > buf.Length / 2 {
          var remaining := writePos - readPos;
          var from := readPos;
          forall k | 0 <= k < remaining { buf[k] := buf[from + k]; }
          readPos := 0;
          writePos := remaining;
        }
      }
    }

    method Reset()
      requires Valid()
      modifies this
      ensures Valid() && Contents() == []
    {
      readPos, writePos := 0, 0;
    }
  }

  // ----- What the queue yields -----

  datatype Op = Write(data: seq<Byte>) | Read

  /** The reader as a queue of bytes: contents, and the payloads it has yielded. */
  datatype Queue = Queue(contents: seq<Byte>, yielded: seq<seq<Byte>>)

  function Step(hash: Hash, q: Queue, op: Op): Queue {
    match op
    case Write(data) => q.(contents := q.contents + data)
    case Read =>
      var r := UnpackFrame(hash, q.contents);
      if r.Good? then Queue(q.contents[r.consumed..], q.yielded + [r.payload]) else q
  }

  function Steps(hash: Hash, q: Queue, ops: seq<Op>): Queue
    decreases |ops|
  {
    if ops == [] then q else Steps(hash, Step(hash, q, ops[0]), ops[1..])
  }

  function Written(ops: seq<Op>): seq<Byte> {
    if ops == [] then [] else (if ops[0].Write? then ops[0].data else []) + Written(ops[1..])
  }

  function Packed(hash: Hash, ps: seq<Payload>): (s: seq<Byte>) {
    if ps == [] then [] else FrameOf(hash, ps[0]) + Packed(hash, ps[1..])
  }

  /** A reader object driven through any sequence of operations behaves as the queue. */
  method Drive(hash: Hash, initialCapacity: nat, ops: seq<Op>) returns (yielded: seq<seq<Byte>>)
    ensures yielded == Steps(hash, Queue([], []), ops).yielded
  {
    var reader := new FrameReader(hash, initialCapacity);
    yielded := [];
    ghost var goal := Steps(hash, Queue([], []), ops);
    var i := 0;
    assert ops[0..] == ops;
    while i < |ops|
      invariant 0 <= i <= |ops| && reader.Valid() && fresh(reader) && fresh(reader.buf) && reader.hash == hash
      invariant Steps(hash, Queue(reader.Contents(), yielded), ops[i..]) == goal
    {
      assert ops[i..][1..] == ops[i + 1..];
      match ops[i] {
        case Write(data) =>
          var _ := reader.Write(data);
        case Read =>
          var r := reader.ReadFrame();
          if r.Good? {
            yielded := yielded + [r.payload];
          }
      }
      i := i + 1;
    }
  }

  /** The start of a packed stream unpacks to its first payload, or is short. */
  lemma UnpackPacked(hash: Hash, ps: seq<Payload>, s: seq<Byte>)
    requires s <= Packed(hash, ps)
    ensures var r := UnpackFrame(hash, s);
            if ps != [] && |FrameOf(hash, ps[0])| <= |s| then r == Good(ps[0], |FrameOf(hash, ps[0])|) else r == Short
  {
    if ps != [] {
      var w := Wire(hash(ps[0]), ps[0]);
      var n := |WireBytes(w)|;
      if n <= |s| {
        UnpackWire(hash, w, s[n..]);
        assert s == WireBytes(w) + s[n..];
      } else {
        PrefixShort(hash, w, |s|);
        assert s == WireBytes(w)[..|s|];
      }
    }
  }

  /** The queue's place in a packed stream: yielded, contents, bytes still `to come`. */
  ghost predicate InStream(hash: Hash, ps: seq<Payload>, q: Queue, toCome: seq<Byte>) {
    q.yielded <= ps && q.contents + toCome == Packed(hash, ps[|q.yielded|..])
  }

  lemma StepInStream(hash: Hash, ps: seq<Payload>, q: Queue, op: Op, later: seq<Byte>)
    requires InStream(hash, ps, q, (if op.Write? then op.data else []) + later)
    ensures InStream(hash, ps, Step(hash, q, op), later)
  {
    var rest := ps[|q.yielded|..];
    match op
    case Write(data) => assert q.contents + (data + later) == (q.contents + data) + later;
    case Read =>
      assert [] + later == later;
      UnpackPacked(hash, rest, q.contents);
      var r := UnpackFrame(hash, q.contents);
      if r.Good? {
        assert rest[1..] == ps[|q.yielded| + 1..];
        assert (q.contents + later)[r.consumed..] == q.contents[r.consumed..] + later;
        assert Packed(hash, rest)[r.consumed..] == Packed(hash, rest[1..]);
      }
  }

  /**
   However writes and reads interleave and wherever the chunks are cut, the payloads
   come out in order and once each, and the bytes not yet yielded are all still held.
   */
  lemma {:induction false} YieldsInOrder(hash: Hash, ps: seq<Payload>, q: Queue, ops: seq<Op>, beyond: seq<Byte>)
    requires InStream(hash, ps, q, Written(ops) + beyond)
    ensures InStream(hash, ps, Steps(hash, q, ops), beyond)
    decreases |ops|
  {
    if ops == [] {
      assert Written(ops) + beyond == beyond;
    } else {
      var now := if ops[0].Write? then ops[0].data else [];
      assert Written(ops) + beyond == now + (Written(ops[1..]) + beyond);
      StepInStream(hash, ps, q, ops[0], Written(ops[1..]) + beyond);
      YieldsInOrder(hash, ps, Step(hash, q, ops[0]), ops[1..], beyond);
    }
  }

  ghost predicate AllReads(ops: seq<Op>) {
    forall i :: 0 <= i < |ops| ==> ops[i].Read?
  }

  /** Reading on after the last write takes one frame a read until none is left. */
  lemma {:induction false} DrainYieldsAll(hash: Hash, ps: seq<Payload>, q: Queue, rs: seq<Op>)
    requires InStream(hash, ps, q, []) && AllReads(rs) && |rs| >= |ps| - |q.yielded|
    ensures Steps(hash, q, rs) == Queue([], ps)
    decreases |rs|
  {
    assert q.contents + [] == q.contents;
    if rs == [] {
      assert ps[|q.yielded|..] == [];
    } else {
      UnpackPacked(hash, ps[|q.yielded|..], q.contents);
      var none: seq<Byte> := [];
      assert none + none == none;
      StepInStream(hash, ps, q, Read, []);
      DrainYieldsAll(hash, ps, Step(hash, q, Read), rs[1..]);
    }
  }

  /** A whole stream, written and read in any interleaving and then drained, is yielded whole. */
  lemma WholeStream(hash: Hash, ps: seq<Payload>, ops: seq<Op>, rs: seq<Op>)
    requires Written(ops) == Packed(hash, ps) && AllReads(rs) && |rs| >= |ps|
    ensures Steps(hash, Queue([], []), ops).yielded <= ps
    ensures Steps(hash, Steps(hash, Queue([], []), ops), rs) == Queue([], ps)
  {
    assert ps[0..] == ps && [] + (Written(ops) + []) == Written(ops);
    YieldsInOrder(hash, ps, Queue([], []), ops, []);
    DrainYieldsAll(hash, ps, Steps(hash, Queue([], []), ops), rs);
  }

  /** A frame with a damaged hash is never skipped: it blocks every later read. */
  lemma {:induction false} DamagedFrameBlocks(hash: Hash, q: Queue, ops: seq<Op>)
    requires UnpackFrame(hash, q.contents).BadHash?
    ensures Steps(hash, q, ops).yielded == q.yielded
    decreases |ops|
  {
    if ops != [] {
      if ops[0].Write? {
        BadHashExtend(hash, q.contents, ops[0].data);
      }
      DamagedFrameBlocks(hash, Step(hash, q, ops[0]), ops[1..]);
    }
  }

  lemma BadHashExtend(hash: Hash, data: seq<Byte>, more: seq<Byte>)
    requires UnpackFrame(hash, data).BadHash?
    ensures UnpackFrame(hash, data + more) == UnpackFrame(hash, data)
  {
    ParseHeaderExtend(data, more);
    var h := ParseHeader(data);
    assert (data + more)[HASH_SIZE + h.vintSize..h.Total()] == data[HASH_SIZE + h.vintSize..h.Total()];
  }
}
