/** At which ends blocks go in, are read and come out: queues and stacks. */
module DequeLaws {
  import opened BufferDeque

  function Unread(sizes: seq<nat>): (bs: seq<Block>)
    ensures |bs| == |sizes| && forall i :: 0 <= i < |bs| ==> bs[i] == Block(sizes[i], 0)
  {
    seq(|sizes|, i requires 0 <= i < |sizes| => Block(sizes[i], 0))
  }

  function Backwards(sizes: seq<nat>): (r: seq<nat>)
    ensures |r| == |sizes| && forall i :: 0 <= i < |r| ==> r[i] == sizes[|sizes| - 1 - i]
  {
    seq(|sizes|, i requires 0 <= i < |sizes| => sizes[|sizes| - 1 - i])
  }

  function Sum(sizes: seq<nat>): nat {
    if sizes == [] then 0 else sizes[0] + Sum(sizes[1..])
  }

  function Pushes(front: bool, sizes: seq<nat>): (ops: seq<Op>)
    ensures |ops| == |sizes| && forall i :: 0 <= i < |ops| ==> ops[i] == DoPush(front, sizes[i])
  {
    seq(|sizes|, i requires 0 <= i < |sizes| => DoPush(front, sizes[i]))
  }

  /** Pops that take all there is of a block, and free it. */
  function Pops(front: bool, n: nat, most: nat): (ops: seq<Op>)
    ensures |ops| == n && forall i :: 0 <= i < n ==> ops[i] == DoPop(front, most, true)
  {
    seq(n, _ => DoPop(front, most, true))
  }

  /** The sizes fit: no block is empty, and the limits are kept to the end. */
  predicate Fits(d: Deque, sizes: seq<nat>)
    requires d.Valid()
  {
    && (forall i :: 0 <= i < |sizes| ==> sizes[i] > 0)
    && (d.limitNumber > 0 ==> |d.blocks| + |sizes| <= d.limitNumber)
    && (d.limitSize > 0 ==> Total(d.blocks) + Sum(sizes) <= d.limitSize)
  }

  /** How much each operation of a run reads. */
  function Reads(d: Deque, ops: seq<Op>, isStatic: bool): seq<nat>
    requires d.Valid()
    decreases |ops|
  {
    if ops == [] then [] else [Read(d, ops[0])] + Reads(Do(d, ops[0], isStatic).0, ops[1..], isStatic)
  }

  /** A push that fits puts an unread block at its end, and the rest stays. */
  lemma PushAtEnd(d: Deque, front: bool, size: nat, isStatic: bool)
    requires d.Valid() && Fits(d, [size])
    ensures Push(d, front, size, isStatic) ==
            (d.(blocks := if front then [Block(size, 0)] + d.blocks else d.blocks + [Block(size, 0)]), NoErr)
  {
    assert Sum([size]) == size + Sum([]);
    assert [size][0] > 0;
  }

  function AtEnd(d: Deque, front: bool, sizes: seq<nat>): Deque {
    d.(blocks := if front then Unread(Backwards(sizes)) + d.blocks else d.blocks + Unread(sizes))
  }

  lemma AtEndNext(d: Deque, front: bool, sizes: seq<nat>)
    requires sizes != []
    ensures AtEnd(AtEnd(d, front, [sizes[0]]), front, sizes[1..]) == AtEnd(d, front, sizes)
    ensures AtEnd(d, front, [sizes[0]]) ==
            d.(blocks := if front then [Block(sizes[0], 0)] + d.blocks else d.blocks + [Block(sizes[0], 0)])
  {
    var (b, rest) := ([Block(sizes[0], 0)], sizes[1..]);
    assert Unread([sizes[0]]) == b && Unread(Backwards([sizes[0]])) == b;
    if front {
      assert Unread(Backwards(sizes)) == Unread(Backwards(rest)) + b;
      assert Unread(Backwards(rest)) + (b + d.blocks) == (Unread(Backwards(rest)) + b) + d.blocks;
    } else {
      assert Unread(sizes) == b + Unread(rest);
      assert (d.blocks + b) + Unread(rest) == d.blocks + (b + Unread(rest));
    }
  }

  lemma PushesNext(d: Deque, front: bool, sizes: seq<nat>, isStatic: bool)
    requires d.Valid() && Fits(d, sizes) && sizes != []
    ensures var d' := AtEnd(d, front, [sizes[0]]);
            && d'.Valid() && Fits(d', sizes[1..])
            && After(d, Pushes(front, sizes), isStatic) == After(d', Pushes(front, sizes[1..]), isStatic)
  {
    FitsOne(d, sizes);
    PushAtEnd(d, front, sizes[0], isStatic);
    AtEndNext(d, front, sizes);
    InsertTotal(d.blocks, front, Block(sizes[0], 0));
    assert Pushes(front, sizes)[1..] == Pushes(front, sizes[1..]);
    hide Push;
    hide Total;
    hide AtEnd;
  }

  lemma {:induction false} PushesAtEnd(d: Deque, front: bool, sizes: seq<nat>, isStatic: bool)
    requires d.Valid() && Fits(d, sizes)
    ensures After(d, Pushes(front, sizes), isStatic) == AtEnd(d, front, sizes)
    decreases |sizes|
  {
    if sizes == [] {
      assert Unread([]) == [] && Unread(Backwards([])) == [];
      assert [] + d.blocks == d.blocks == d.blocks + [];
    } else {
      PushesNext(d, front, sizes, isStatic);
      AtEndNext(d, front, sizes);
      hide *;
      PushesAtEnd(AtEnd(d, front, [sizes[0]]), front, sizes[1..], isStatic);
    }
  }

  lemma FitsOne(d: Deque, sizes: seq<nat>)
    requires d.Valid() && Fits(d, sizes) && sizes != []
    ensures Fits(d, [sizes[0]])
  {
    assert Sum([sizes[0]]) == sizes[0] + Sum([]);
  }

  /** A pop that takes all of an unread block reads its size and takes it off its end. */
  lemma PopAtEnd(d: Deque, front: bool, most: nat, isStatic: bool)
    requires d.Valid() && d.blocks != []
    requires var b := if front then d.blocks[0] else d.blocks[|d.blocks| - 1]; b.used == 0 && b.raw <= most
    ensures var op := DoPop(front, most, true);
            && Read(d, op) == (if front then d.blocks[0] else d.blocks[|d.blocks| - 1]).raw
            && Do(d, op, isStatic) == (d.(blocks := if front then d.blocks[1..] else d.blocks[..|d.blocks| - 1]), NoErr)
  {
  }

  function Others(front: bool, sizes: seq<nat>): seq<nat>
    requires sizes != []
  {
    if front then sizes[1..] else sizes[..|sizes| - 1]
  }

  lemma PopsNext(d: Deque, front: bool, sizes: seq<nat>, most: nat, isStatic: bool)
    requires d.Valid() && d.blocks == Unread(sizes) && sizes != [] && forall i :: 0 <= i < |sizes| ==> sizes[i] <= most
    ensures var d' := d.(blocks := Unread(Others(front, sizes)));
            && d'.Valid()
            && Reads(d, Pops(front, |sizes|, most), isStatic) ==
               [if front then sizes[0] else sizes[|sizes| - 1]] + Reads(d', Pops(front, |sizes| - 1, most), isStatic)
  {
    PopAtEnd(d, front, most, isStatic);
    assert Pops(front, |sizes|, most)[1..] == Pops(front, |sizes| - 1, most);
    assert Unread(Others(front, sizes)) == if front then d.blocks[1..] else d.blocks[..|sizes| - 1];
    hide Pop;
    hide Do;
    hide Read;
  }

  lemma {:induction false} PopsAtEnd(d: Deque, front: bool, sizes: seq<nat>, most: nat, isStatic: bool)
    requires d.Valid() && d.blocks == Unread(sizes) && forall i :: 0 <= i < |sizes| ==> sizes[i] <= most
    ensures Reads(d, Pops(front, |sizes|, most), isStatic) == if front then sizes else Backwards(sizes)
    decreases |sizes|
  {
    if sizes != [] {
      PopsNext(d, front, sizes, most, isStatic);
      assert Backwards(sizes) == [sizes[|sizes| - 1]] + Backwards(sizes[..|sizes| - 1]);
      hide Reads;
      hide Pops;
      PopsAtEnd(d.(blocks := Unread(Others(front, sizes))), front, Others(front, sizes), most, isStatic);
    }
  }

  /**
   Blocks pushed at one end into an empty manager and popped at the other come out in the
   order they went in, and popped at the same end in the opposite order.
   */
  lemma QueueOrStack(d: Deque, pushFront: bool, popFront: bool, sizes: seq<nat>, most: nat, isStatic: bool)
    requires d.blocks == [] && Fits(d, sizes) && forall i :: 0 <= i < |sizes| ==> sizes[i] <= most
    ensures Reads(After(d, Pushes(pushFront, sizes), isStatic), Pops(popFront, |sizes|, most), isStatic) ==
            if pushFront != popFront then sizes else Backwards(sizes)
  {
    PushesAtEnd(d, pushFront, sizes, isStatic);
    var d' := After(d, Pushes(pushFront, sizes), isStatic);
    var held := if pushFront then Backwards(sizes) else sizes;
    assert d'.blocks == Unread(held);
    PopsAtEnd(d', popFront, held, most, isStatic);
    assert Backwards(Backwards(sizes)) == sizes;
  }

  /** A pop looks at the block at its end alone, and reads on where the last one stopped. */
  lemma PopTouchesEnd(d: Deque, front: bool, size: nat, free: bool)
    requires d.Valid() && d.blocks != []
    ensures var (n, i) := (|d.blocks|, if front then 0 else |d.blocks| - 1);
            var (b, r) := (d.blocks[i], Pop(d, front, size, free).0.blocks);
            var taken := if size < b.raw - b.used then size else b.raw - b.used;
            if free && b.used + taken == b.raw then r == if front then d.blocks[1..] else d.blocks[..n - 1]
            else
              && |r| == n && r[i] == Block(b.raw, b.used + taken)
              && forall j :: 0 <= j < n && j != i ==> r[j] == d.blocks[j]
  {
  }

  /** A merge that is within the limit makes the block at its end longer, and no other. */
  lemma MergeGrowsEnd(d: Deque, front: bool, size: nat, isStatic: bool)
    requires d.Valid() && d.blocks != []
    ensures var (n, i) := (|d.blocks|, if front then 0 else |d.blocks| - 1);
            var (r, err) := Merge(d, front, size, isStatic);
            && (err == NoErr <==> d.limitSize <= 0 || Total(d.blocks) + size <= d.limitSize)
            && (err != NoErr ==> err == BuffLimit && r == d)
            && (err == NoErr ==>
                  && |r.blocks| == n && r.blocks[i] == Block(d.blocks[i].raw + size, d.blocks[i].used)
                  && forall j :: 0 <= j < n && j != i ==> r.blocks[j] == d.blocks[j])
  {
  }

  /** A push is refused exactly for a limit, or for an empty block that nothing stands in for. */
  lemma PushRefusedIff(d: Deque, front: bool, size: nat, isStatic: bool)
    requires d.Valid()
    ensures var (r, err) := Push(d, front, size, isStatic);
            && (err == BuffLimit <==>
                  (d.limitNumber > 0 && |d.blocks| >= d.limitNumber) || (d.limitSize > 0 && Total(d.blocks) + size > d.limitSize))
            && (err == Malloc ==> size == 0) && err != NoData && (err != NoErr ==> r == d)
            && (err == NoErr ==> |r.blocks| == |d.blocks| + 1)
            && (size > 0 && err != BuffLimit ==> err == NoErr)
  {
  }
}
