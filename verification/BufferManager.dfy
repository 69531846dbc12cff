/** The buffer manager, over a list of blocks or over a ring of block slots. */
module BufferManager {
  import opened Vint
  import D = BufferDeque

  const DATA_ALIGN := 8

  function PaddingSize(s: nat): (r: nat)
    ensures r >= s && r % DATA_ALIGN == 0 && r < s + DATA_ALIGN
  {
    if s % DATA_ALIGN == 0 then s else s + DATA_ALIGN - s % DATA_ALIGN
  }

  /** A block is the first `size` bytes of some memory, read up to `used`. */
  class BufferBlock {
    const mem: array<Byte>
    const size: nat
    var used: nat

    ghost predicate Valid()
      reads this
    {
      used <= size <= mem.Length
    }

    function Value(): D.Block
      reads this
    {
      D.Block(size, used)
    }

    constructor (mem: array<Byte>, size: nat, used: nat)
      ensures this.mem == mem && this.size == size && this.used == used
    {
      this.mem, this.size, this.used := mem, size, used;
    }

    function Size(): nat
      requires Valid()
      reads this
    {
      size - used
    }

    method Pop(s: nat)
      requires Valid()
      modifies this`used
      ensures Valid() && used == if old(used) + s > size then size else old(used) + s
    {
      if used + s > size {
        used := size;
      } else {
        used := used + s;
      }
    }
  }

  method NewBufferBlock(size: nat) returns (block: BufferBlock?)
    ensures block == null <==> size == 0
    ensures block != null ==>
              fresh(block) && fresh(block.mem) && block.Valid() && block.mem.Length == block.size == size && block.used == 0
  {
    if size == 0 {
      return null;
    }
    var mem := new Byte[size](_ => 0);
    block := new BufferBlock(mem, size, 0);
  }

  // ----- The ring of slots -----

  function Slot(n: nat, head: nat, i: nat): (s: nat)
    requires head < n && i <= n
    ensures s < n && s == (head + i) % n
  {
    if head + i < n then head + i
    else
      Wrapped(n, head + i - n);
      head + i - n
  }

  lemma Wrapped(n: nat, s: nat)
    requires s < n
    ensures (s + n) % n == s
  {
  }

  function Next(n: nat, k: nat): (s: nat)
    requires k < n
    ensures s < n && s == (k + 1) % n
  {
    if k + 1 == n then 0 else k + 1
  }

  function Previous(n: nat, k: nat): (s: nat)
    requires k < n
    ensures s < n && s == (k + n - 1) % n
  {
    if k == 0 then n - 1
    else
      Wrapped(n, k - 1);
      k - 1
  }

  /** From `head` up to `tail`, around the ring, are the blocks; the other slots are free. */
  ghost predicate Ring(circle: seq<BufferBlock?>, head: nat, tail: nat, blocks: seq<BufferBlock>) {
    && head < |circle| && |blocks| < |circle| && tail == Slot(|circle|, head, |blocks|)
    && (forall i :: 0 <= i < |blocks| ==> circle[Slot(|circle|, head, i)] == blocks[i])
    && (forall i :: |blocks| <= i < |circle| ==> circle[Slot(|circle|, head, i)] == null)
  }

  lemma SlotsDistinct(n: nat, head: nat, i: nat, j: nat)
    requires head < n && i < n && j < n && i != j
    ensures Slot(n, head, i) != Slot(n, head, j)
  {
  }

  lemma RingEnds(circle: seq<BufferBlock?>, head: nat, tail: nat, blocks: seq<BufferBlock>)
    requires Ring(circle, head, tail, blocks)
    ensures head == tail <==> blocks == []
    ensures Next(|circle|, tail) == head <==> |blocks| + 1 == |circle|
    ensures circle[tail] == null && (circle[head] == null <==> blocks == [])
    ensures blocks != [] ==> circle[head] == blocks[0]
    ensures blocks != [] ==>
              && Previous(|circle|, tail) == Slot(|circle|, head, |blocks| - 1)
              && circle[Previous(|circle|, tail)] == blocks[|blocks| - 1]
    ensures |blocks| == if tail >= head then tail - head else |circle| - head + tail
  {
    assert Slot(|circle|, head, 0) == head;
  }

  lemma RingPushBack(circle: seq<BufferBlock?>, head: nat, tail: nat, blocks: seq<BufferBlock>, b: BufferBlock)
    requires Ring(circle, head, tail, blocks) && |blocks| + 1 < |circle|
    ensures Ring(circle[tail := b], head, Next(|circle|, tail), blocks + [b])
  {
    var n := |circle|;
    forall i | 0 <= i < n && i != |blocks| ensures Slot(n, head, i) != tail {
      SlotsDistinct(n, head, i, |blocks|);
    }
  }

  lemma RingPushFront(circle: seq<BufferBlock?>, head: nat, tail: nat, blocks: seq<BufferBlock>, b: BufferBlock)
    requires Ring(circle, head, tail, blocks) && |blocks| + 1 < |circle|
    ensures var h := Previous(|circle|, head);
            Ring(circle[h := b], h, tail, [b] + blocks)
  {
    var n := |circle|;
    var h := Previous(n, head);
    forall i | 0 < i < n ensures Slot(n, h, i) == Slot(n, head, i - 1) && Slot(n, h, i) != h {
    }
    assert h == Slot(n, head, n - 1) && Slot(n, h, 0) == h;
  }

  lemma SlotAfter(n: nat, head: nat, i: nat)
    requires head < n && i < n
    ensures Slot(n, Next(n, head), i) == Slot(n, head, i + 1)
    ensures i + 1 < n ==> Slot(n, head, i + 1) != head
  {
  }

  lemma RingPopFront(circle: seq<BufferBlock?>, head: nat, tail: nat, blocks: seq<BufferBlock>)
    requires Ring(circle, head, tail, blocks) && blocks != []
    ensures Ring(circle[head := null], Next(|circle|, head), tail, blocks[1..])
  {
    var n := |circle|;
    var h := Next(n, head);
    forall i | 0 <= i < n ensures Slot(n, h, i) == Slot(n, head, i + 1) && (i + 1 < n ==> Slot(n, h, i) != head) {
      SlotAfter(n, head, i);
    }
    assert Slot(n, head, n) == head;
    hide Slot;
    hide Next;
  }

  lemma RingPopBack(circle: seq<BufferBlock?>, head: nat, tail: nat, blocks: seq<BufferBlock>)
    requires Ring(circle, head, tail, blocks) && blocks != []
    ensures var t := Slot(|circle|, head, |blocks| - 1);
            Ring(circle[t := null], head, t, blocks[..|blocks| - 1])
  {
    var n := |circle|;
    forall i | 0 <= i < n && i != |blocks| - 1 ensures Slot(n, head, i) != Slot(n, head, |blocks| - 1) {
      SlotsDistinct(n, head, i, |blocks| - 1);
    }
  }

  lemma RingReplace(circle: seq<BufferBlock?>, head: nat, tail: nat, blocks: seq<BufferBlock>, i: nat, b: BufferBlock)
    requires Ring(circle, head, tail, blocks) && i < |blocks|
    ensures Ring(circle[Slot(|circle|, head, i) := b], head, tail, blocks[i := b])
  {
    var n := |circle|;
    forall j | 0 <= j < n && j != i ensures Slot(n, head, j) != Slot(n, head, i) {
      SlotsDistinct(n, head, j, i);
    }
  }

  method FreshRing(n: nat) returns (circle: array<BufferBlock?>)
    ensures fresh(circle) && circle.Length == n && (n > 0 ==> Ring(circle[..], 0, 0, []))
  {
    circle := new BufferBlock?[n](_ => null);
  }

  /** An empty ring may be restarted anywhere. */
  lemma RingRestart(circle: seq<BufferBlock?>, head: nat, tail: nat)
    requires Ring(circle, head, tail, [])
    ensures Ring(circle, 0, 0, [])
  {
    var n := |circle|;
    forall k | 0 <= k < n ensures circle[k] == null {
      var i := if k >= head then k - head else k + n - head;
      assert Slot(n, head, i) == k;
    }
  }

  // ----- The manager -----

  ghost function Values(bs: seq<BufferBlock>): (r: seq<D.Block>)
    reads bs
    ensures |r| == |bs| && forall i :: 0 <= i < |bs| ==> r[i] == bs[i].Value()
    ensures AllValid(bs) ==> D.AllValid(r)
  {
    seq(|bs|, i requires 0 <= i < |bs| reads bs => bs[i].Value())
  }

  ghost predicate AllValid(bs: seq<BufferBlock>)
    reads bs
  {
    forall i :: 0 <= i < |bs| ==> bs[i].Valid()
  }

  /** What becomes of the blocks' values when a block is added at an end. */
  lemma AddedValues(bs: seq<BufferBlock>, front: bool, b: BufferBlock)
    requires AllValid(bs) && b.Valid()
    ensures AllValid(D.Insert(bs, front, b)) && Values(D.Insert(bs, front, b)) == D.Insert(Values(bs), front, b.Value())
    ensures D.Total(Values(D.Insert(bs, front, b))) == D.Total(Values(bs)) + b.Size()
  {
    D.InsertTotal(Values(bs), front, b.Value());
    assert Values(D.Insert(bs, front, b)) == D.Insert(Values(bs), front, b.Value());
  }

  /** A piece of memory handed to the caller. */
  datatype Span = NoSpan | Span(mem: array<Byte>, from: nat, to: nat)

  class BufferManager {
    var dynamicBuffer: seq<BufferBlock>
    var staticMode: bool
    var buffer: array<Byte>
    var circleIndex: array<BufferBlock?>
    var head: nat
    var tail: nat
    var costNumber: int
    var costSize: int
    var limitNumber: int
    var limitSize: int
    /** The blocks in order, in either mode. */
    ghost var blocks: seq<BufferBlock>

    ghost predicate Stored()
      reads `dynamicBuffer, `staticMode, `buffer, `circleIndex, `head, `tail, `limitNumber, `limitSize, `blocks, circleIndex
    {
      if staticMode then
        && Ring(circleIndex[..], head, tail, blocks)
        && limitNumber > 0 && circleIndex.Length == limitNumber + 1 && 0 < limitSize <= buffer.Length
      else dynamicBuffer == blocks
    }

    /** Each block lies in its memory, and no two live blocks share memory. */
    ghost predicate Sound()
      reads `blocks, blocks
    {
      && AllValid(blocks)
      && (forall i, j :: 0 <= i < j < |blocks| ==> blocks[i].mem != blocks[j].mem)
    }

    /** The counters are the number of blocks and the bytes left in them. */
    ghost predicate Counted()
      requires Sound()
      reads this, blocks
    {
      costNumber == |blocks| && costSize == D.Total(Values(blocks))
    }

    ghost predicate Valid()
      reads this, circleIndex, blocks
    {
      Stored() && Sound() && Counted()
    }

    ghost function Value(): D.Deque
      reads this, blocks
    {
      D.Deque(Values(blocks), limitNumber, limitSize)
    }

    constructor ()
      ensures Valid() && fresh(circleIndex) && Value() == D.Deque([], 0, 0) && !staticMode
    {
      dynamicBuffer, blocks, staticMode := [], [], false;
      buffer := new Byte[0];
      circleIndex := new BufferBlock?[0];
      head, tail, costNumber, costSize, limitNumber, limitSize := 0, 0, 0, 0, 0, 0;
    }

    method Reset()
      modifies this
      ensures Valid() && !staticMode && blocks == [] && Value() == D.Deque([], 0, 0) && circleIndex == old(circleIndex)
    {
      staticMode := false;
      dynamicBuffer, blocks := [], [];
      costSize, costNumber, limitNumber, limitSize := 0, 0, 0, 0;
    }

    method EnterStatic(maxSize: nat, maxNumber: nat)
      requires Stored() && blocks == [] && maxSize != 0 && maxNumber > 0
      modifies `staticMode, `buffer, `circleIndex, `head, `tail, `limitNumber, `limitSize
      ensures Stored() && staticMode && fresh(circleIndex) && limitNumber == maxNumber && limitSize == maxSize
    {
      hide Ring;
      buffer := new Byte[PaddingSize(maxSize + DATA_ALIGN)](_ => 0);
      circleIndex := FreshRing(maxNumber + 1);
      staticMode, head, tail := true, 0, 0;
      limitSize, limitNumber := maxSize, maxNumber;
    }

    /** Empties the manager and, for usable limits, switches it to the ring. */
    method SetMode(maxSize: nat, maxNumber: int)
      modifies this
      ensures Valid() && blocks == [] && staticMode == (maxSize != 0 && maxNumber > 0)
      ensures Value() == if staticMode then D.Deque([], maxNumber, maxSize) else D.Deque([], 0, 0)
      ensures circleIndex == old(circleIndex) || fresh(circleIndex)
    {
      Reset();
      hide Stored;
      hide D.Total;
      if maxSize != 0 && maxNumber > 0 {
        EnterStatic(maxSize, maxNumber);
      }
    }

    method SetLimit(maxSize: int, maxNumber: int) returns (ok: bool)
      requires Valid()
      modifies this`limitSize, this`limitNumber
      ensures Valid() && ok == !staticMode
      ensures Value() == if ok then old(Value()).(limitNumber := maxNumber, limitSize := maxSize) else old(Value())
    {
      if staticMode {
        return false;
      }
      limitNumber, limitSize := maxNumber, maxSize;
      return true;
    }

    predicate Empty()
      reads this
    {
      if staticMode then head == tail else dynamicBuffer == []
    }

    lemma EmptyIs()
      requires Stored()
      ensures Empty() <==> blocks == []
    {
      if staticMode {
        RingEnds(circleIndex[..], head, tail, blocks);
      }
    }

    /** The number of blocks, counted from the storage. */
    method Count() returns (n: nat)
      requires Valid()
      ensures n == costNumber == |blocks|
    {
      if !staticMode {
        return |dynamicBuffer|;
      }
      RingEnds(circleIndex[..], head, tail, blocks);
      if tail >= head {
        return tail - head;
      }
      return circleIndex.Length - head + tail;
    }

    /** The block at one end. */
    method End(front: bool) returns (block: BufferBlock)
      requires Stored() && blocks != []
      ensures block == blocks[if front then 0 else |blocks| - 1]
    {
      if !staticMode {
        return if front then dynamicBuffer[0] else dynamicBuffer[|dynamicBuffer| - 1];
      }
      RingEnds(circleIndex[..], head, tail, blocks);
      return if front then circleIndex[head] else circleIndex[Previous(circleIndex.Length, tail)];
    }

    // Each operation works at either end: the front one and the back one differ in the end alone.

    method DynamicPush(front: bool, size: nat) returns (block: BufferBlock?)
      requires Stored() && !staticMode
      modifies this`dynamicBuffer, this`blocks
      ensures block == null <==> size == 0
      ensures block == null ==> blocks == old(blocks) && Stored()
      ensures block != null ==>
                && fresh(block) && fresh(block.mem) && block.Valid() && block.size == size && block.used == 0
                && blocks == D.Insert(old(blocks), front, block) && Stored()
    {
      block := NewBufferBlock(size);
      if block != null {
        dynamicBuffer := if front then [block] + dynamicBuffer else dynamicBuffer + [block];
        blocks := dynamicBuffer;
      }
    }

    /** The first block lies in the static buffer, later ones in memory of their own. */
    method StaticPush(front: bool, size: nat) returns (block: BufferBlock?)
      requires Stored() && staticMode && |blocks| < limitNumber && size <= limitSize
      modifies this`blocks, this`head, this`tail, circleIndex
      ensures block == null <==> size == 0 && old(blocks) != []
      ensures block == null ==> blocks == old(blocks) && Stored()
      ensures block != null ==>
                && fresh(block) && (old(blocks) != [] ==> fresh(block.mem))
                && block.Valid() && block.size == size && block.used == 0
                && blocks == D.Insert(old(blocks), front, block) && Stored()
    {
      ghost var circle := circleIndex[..];
      RingEnds(circle, head, tail, blocks);
      assert Next(circleIndex.Length, tail) != head;
      if circleIndex[head] == null && circleIndex[tail] == null {
        RingRestart(circle, head, tail);
        tail, head := 0, 0;
        block := new BufferBlock(buffer, size, 0);
        RingPushBack(circle, 0, 0, blocks, block);
        circleIndex[tail] := block;
        tail := Next(circleIndex.Length, tail);
        blocks := [block];
      } else {
        block := NewBufferBlock(size);
        if block != null {
          PutEnd(front, block);
        }
      }
    }

    method PutEnd(front: bool, block: BufferBlock)
      requires Stored() && staticMode && |blocks| < limitNumber
      modifies this`blocks, this`head, this`tail, circleIndex
      ensures Stored() && blocks == D.Insert(old(blocks), front, block)
    {
      ghost var circle := circleIndex[..];
      if front {
        RingPushFront(circle, head, tail, blocks, block);
        head := Previous(circleIndex.Length, head);
        circleIndex[head] := block;
        blocks := [block] + blocks;
        assert circleIndex[..] == circle[head := block];
      } else {
        RingPushBack(circle, head, tail, blocks, block);
        circleIndex[tail] := block;
        assert circleIndex[..] == circle[tail := block];
        tail := Next(circleIndex.Length, tail);
        blocks := blocks + [block];
      }
    }

    /** Adds a block where the limits allow one; only an empty block may be refused. */
    method Place(front: bool, size: nat) returns (block: BufferBlock?)
      requires Stored() && Sound() && (staticMode ==> |blocks| < limitNumber && size <= limitSize)
      modifies this`dynamicBuffer, this`blocks, this`head, this`tail, circleIndex
      ensures Stored() && Sound()
      ensures block == null <==> size == 0 && !(staticMode && old(blocks) == [])
      ensures block == null ==> blocks == old(blocks)
      ensures block != null ==>
                fresh(block) && block.Valid() && block.size == size && block.used == 0 && blocks == D.Insert(old(blocks), front, block)
    {
      if staticMode {
        block := StaticPush(front, size);
      } else {
        block := DynamicPush(front, size);
      }
    }

    /** What the caller is given after a successful push: a new block at the end, and its memory. */
    ghost predicate Pushed(was: seq<BufferBlock>, front: bool, size: nat, b: BufferBlock, span: Span)
      reads this, b
    {
      b.Valid() && blocks == D.Insert(was, front, b) && span == if size == 0 then NoSpan else Span(b.mem, 0, size)
    }

    method PushWithin(front: bool, size: nat) returns (err: D.Err, span: Span, ghost block: BufferBlock?)
      requires Valid()
      requires !(limitNumber > 0 && costNumber >= limitNumber) && !(limitSize > 0 && costSize + size > limitSize)
      modifies this`dynamicBuffer, this`blocks, this`head, this`tail, this`costNumber, this`costSize, circleIndex
      ensures Valid() && (Value(), err) == D.Push(old(Value()), front, size, staticMode)
      ensures err == D.NoErr ==> block != null && fresh(block) && Pushed(old(blocks), front, size, block, span)
      ensures forall b :: b in blocks ==> b in old(blocks) || fresh(b)
    {
      hide Ring;
      hide D.Total;
      ghost var was := blocks;
      var b := Place(front, size);
      if b == null {
        return D.Malloc, NoSpan, null;
      }
      AddedValues(was, front, b);
      costNumber := costNumber + 1;
      costSize := costSize + size;
      err, block := D.NoErr, b;
      span := if b.used >= b.size then NoSpan else Span(b.mem, b.used, b.size);
    }

    method Push(front: bool, size: nat) returns (err: D.Err, span: Span, ghost block: BufferBlock?)
      requires Valid()
      modifies this`dynamicBuffer, this`blocks, this`head, this`tail, this`costNumber, this`costSize, circleIndex
      ensures Valid() && (Value(), err) == D.Push(old(Value()), front, size, staticMode)
      ensures err == D.NoErr ==> block != null && fresh(block) && Pushed(old(blocks), front, size, block, span)
      ensures forall b :: b in blocks ==> b in old(blocks) || fresh(b)
    {
      hide Ring;
      hide D.Total;
      if limitNumber > 0 && costNumber >= limitNumber {
        return D.BuffLimit, NoSpan, null;
      }
      if limitSize > 0 && costSize + size > limitSize {
        return D.BuffLimit, NoSpan, null;
      }
      err, span, block := PushWithin(front, size);
    }

    /** Reads up to `size` bytes of the block at one end. */
    method ReadEnd(front: bool, size: nat) returns (take: nat, left: nat)
      requires Stored() && Sound() && blocks != []
      modifies blocks`used
      ensures Stored() && Sound()
      ensures var i := D.EndIndex(blocks, front);
              var b := old(Values(blocks))[i];
              && take == D.Taken(b, size) && left == b.raw - b.used - take
              && Values(blocks) == old(Values(blocks))[i := b.(used := b.used + take)]
    {
      var block := End(front);
      take := size;
      if take > block.Size() {
        take := block.Size();
      }
      block.Pop(take);
      left := block.Size();
    }

    /** Takes the block at one end out. */
    method FreeEnd(front: bool)
      requires Stored() && Sound() && blocks != []
      modifies this`dynamicBuffer, this`blocks, this`head, this`tail, circleIndex
      ensures Stored() && Sound() && blocks == D.Remove(old(blocks), front)
    {
      if !staticMode {
        dynamicBuffer := D.Remove(dynamicBuffer, front);
        blocks := dynamicBuffer;
      } else {
        FreeSlot(front);
      }
    }

    method FreeSlot(front: bool)
      requires Stored() && staticMode && blocks != []
      modifies this`blocks, this`head, this`tail, circleIndex
      ensures Stored() && blocks == D.Remove(old(blocks), front)
    {
      ghost var circle := circleIndex[..];
      RingEnds(circle, head, tail, blocks);
      if front {
        RingPopFront(circle, head, tail, blocks);
        circleIndex[head] := null;
        assert circleIndex[..] == circle[head := null];
        head := Next(circleIndex.Length, head);
      } else {
        RingPopBack(circle, head, tail, blocks);
        var tailIndex := Previous(circleIndex.Length, tail);
        circleIndex[tailIndex] := null;
        assert circleIndex[..] == circle[tailIndex := null];
        tail := tailIndex;
      }
      blocks := D.Remove(blocks, front);
    }

    /** Takes `take` bytes off the count; an emptied manager starts over. The count never falls short. */
    method FixLimit(take: nat)
      requires Stored() && (blocks != [] ==> costSize >= take)
      modifies this`head, this`tail, this`costNumber, this`costSize
      ensures Stored()
      ensures costNumber == (if blocks == [] then 0 else old(costNumber))
      ensures costSize == if blocks == [] then 0 else old(costSize) - take
    {
      EmptyIs();
      if Empty() {
        if staticMode {
          RingRestart(circleIndex[..], head, tail);
          head, tail := 0, 0;
        }
        costSize, costNumber := 0, 0;
      } else {
        costSize := if costSize >= take then costSize - take else 0;
      }
    }

    /** Frees the block at one end and counts it off. */
    method DropEnd(front: bool)
      requires Stored() && Sound() && blocks != [] && costNumber == |blocks|
      modifies this`dynamicBuffer, this`blocks, this`head, this`tail, this`costNumber, circleIndex
      ensures Stored() && Sound() && blocks == D.Remove(old(blocks), front) && costNumber == |blocks|
      ensures Values(blocks) == D.Remove(old(Values(blocks)), front)
    {
      RemovedValues(blocks, front);
      FreeEnd(front);
      if costNumber > 0 {
        costNumber := costNumber - 1;
      }
    }

    /** Reads at one end, and frees the block there if that is wanted and nothing is left of it. */
    method ReadAndFree(front: bool, size: nat, free: bool) returns (take: nat)
      requires Valid() && blocks != []
      modifies this`dynamicBuffer, this`blocks, this`head, this`tail, this`costNumber, circleIndex, blocks`used
      ensures Stored() && Sound() && costNumber == |blocks|
      ensures Value() == D.Pop(old(Value()), front, size, free).0
      ensures take == D.Taken(old(Values(blocks))[D.EndIndex(old(blocks), front)], size)
      ensures blocks == old(blocks) || blocks == D.Remove(old(blocks), front)
    {
      hide Stored;
      hide D.Total;
      var left;
      take, left := ReadEnd(front, size);
      if free && left <= 0 {
        DropEnd(front);
      }
    }

    method PopSome(front: bool, size: nat, free: bool)
      requires Valid() && blocks != []
      modifies this`dynamicBuffer, this`blocks, this`head, this`tail, this`costNumber, this`costSize, circleIndex, blocks`used
      ensures Valid() && Value() == D.Pop(old(Value()), front, size, free).0
      ensures blocks == old(blocks) || blocks == D.Remove(old(blocks), front)
    {
      hide Ring;
      hide D.Total;
      hide D.Pop;
      D.PopTotal(Value(), front, size, free);
      var take := ReadAndFree(front, size, free);
      EmptyTotal(blocks);
      FixLimit(take);
    }

    method Pop(front: bool, size: nat, free: bool) returns (err: D.Err)
      requires Valid()
      modifies this`dynamicBuffer, this`blocks, this`head, this`tail, this`costNumber, this`costSize, circleIndex, blocks`used
      ensures Valid() && (Value(), err) == D.Pop(old(Value()), front, size, free)
      ensures blocks == old(blocks) || (old(blocks) != [] && blocks == D.Remove(old(blocks), front))
    {
      EmptyIs();
      if Empty() {
        return D.NoData;
      }
      hide Stored;
      hide D.Total;
      PopSome(front, size, free);
      err := D.NoErr;
    }

    /** Puts another block in the place of the one at one end. */
    method ReplaceEnd(front: bool, block: BufferBlock)
      requires Stored() && blocks != []
      modifies this`dynamicBuffer, this`blocks, circleIndex
      ensures Stored() && blocks == old(blocks)[D.EndIndex(old(blocks), front) := block]
    {
      ghost var i := D.EndIndex(blocks, front);
      if !staticMode {
        dynamicBuffer := dynamicBuffer[(if front then 0 else |dynamicBuffer| - 1) := block];
      } else {
        ghost var circle := circleIndex[..];
        RingEnds(circle, head, tail, blocks);
        RingReplace(circle, head, tail, blocks, i, block);
        var slot := if front then head else Previous(circleIndex.Length, tail);
        circleIndex[slot] := block;
        assert circleIndex[..] == circle[slot := block];
      }
      blocks := blocks[i := block];
    }

    /** The old bytes in the grown block, beside the piece that is new. */
    ghost predicate Kept(block: BufferBlock, bigger: BufferBlock, front: bool, size: nat, span: Span)
      reads block, bigger, block.mem, bigger.mem
    {
      var at := if front then size else 0;
      && block.size <= block.mem.Length && at + block.size <= bigger.mem.Length
      && bigger.mem[at..at + block.size] == block.mem[..block.size]
      && span == if front then Span(bigger.mem, 0, size) else Span(bigger.mem, block.size, block.size + size)
    }

    /** A larger block with the old bytes at its start, or for the front at its end. */
    method Grown(front: bool, size: nat, block: BufferBlock) returns (bigger: BufferBlock, span: Span)
      requires size > 0 && block.Valid()
      ensures fresh(bigger) && fresh(bigger.mem) && bigger.Valid()
      ensures bigger.Value() == block.Value().(raw := block.size + size)
      ensures Kept(block, bigger, front, size, span)
    {
      var b := NewBufferBlock(size + block.size);
      bigger := b;
      var at := if front then size else 0;
      forall k | at <= k < at + block.size { bigger.mem[k] := block.mem[k - at]; }
      bigger.used := block.used;
      span := if front then Span(bigger.mem, 0, size) else Span(bigger.mem, block.size, block.size + size);
    }

    /** Puts a block with memory of its own in the place of the one at one end. */
    method ReplaceOwn(front: bool, block: BufferBlock)
      requires Stored() && Sound() && blocks != [] && block.Valid()
      requires forall i :: 0 <= i < |blocks| ==> blocks[i].mem != block.mem
      modifies this`dynamicBuffer, this`blocks, circleIndex
      ensures Stored() && Sound() && blocks == old(blocks)[D.EndIndex(old(blocks), front) := block]
      ensures Values(blocks) == old(Values(blocks))[D.EndIndex(old(blocks), front) := block.Value()]
    {
      hide Stored;
      ghost var was := blocks;
      ReplaceEnd(front, block);
      assert Values(blocks) == Values(was)[D.EndIndex(was, front) := block.Value()];
    }

    /** Puts a grown block in the place of the one at one end, and counts the growth. */
    method InstallGrown(front: bool, size: nat, bigger: BufferBlock)
      requires Valid() && blocks != [] && size > 0 && !(limitSize > 0 && costSize + size > limitSize) && bigger.Valid()
      requires forall i :: 0 <= i < |blocks| ==> blocks[i].mem != bigger.mem
      requires var was := blocks[D.EndIndex(blocks, front)].Value(); bigger.Value() == was.(raw := was.raw + size)
      modifies this`dynamicBuffer, this`blocks, this`costSize, circleIndex
      ensures Valid() && Value() == D.Merge(old(Value()), front, size, staticMode).0
      ensures blocks == old(blocks)[D.EndIndex(old(blocks), front) := bigger]
    {
      hide Stored;
      hide D.Total;
      ghost var d := Value();
      D.MergeTotal(d, front, size, staticMode);
      ReplaceOwn(front, bigger);
      hide Sound;
      assert Value() == D.Merge(d, front, size, staticMode).0;
      costSize := costSize + size;
    }

    method MergeSome(front: bool, size: nat) returns (span: Span)
      requires Valid() && blocks != [] && size > 0 && !(limitSize > 0 && costSize + size > limitSize)
      modifies this`dynamicBuffer, this`blocks, this`costSize, circleIndex
      ensures Valid() && Value() == D.Merge(old(Value()), front, size, staticMode).0
      ensures var i := D.EndIndex(old(blocks), front);
              && |blocks| == |old(blocks)| && Kept(old(blocks)[i], blocks[i], front, size, span)
              && blocks == old(blocks)[i := blocks[i]] && fresh(blocks[i])
    {
      hide Stored;
      hide D.Total;
      hide D.Merge;
      hide Kept;
      hide Counted;
      var block := End(front);
      var bigger;
      bigger, span := Grown(front, size, block);
      InstallGrown(front, size, bigger);
    }

    method Merge(front: bool, size: nat) returns (err: D.Err, span: Span)
      requires Valid()
      modifies this`dynamicBuffer, this`blocks, this`head, this`tail, this`costNumber, this`costSize, circleIndex
      ensures Valid() && (Value(), err) == D.Merge(old(Value()), front, size, staticMode)
      ensures err == D.NoErr && old(blocks) != [] && size > 0 ==>
                var i := D.EndIndex(old(blocks), front);
                |blocks| == |old(blocks)| && Kept(old(blocks)[i], blocks[i], front, size, span)
      ensures forall b :: b in blocks ==> b in old(blocks) || fresh(b)
    {
      EmptyIs();
      hide Stored;
      hide D.Total;
      if Empty() {
        ghost var block;
        err, span, block := Push(front, size);
        return;
      }
      if limitSize > 0 && costSize + size > limitSize {
        return D.BuffLimit, NoSpan;
      }
      err, span := D.NoErr, NoSpan;
      if size == 0 {
        NothingMerged(Value(), front);
        return;
      }
      span := MergeSome(front, size);
    }
  }

  lemma RemovedValues(bs: seq<BufferBlock>, front: bool)
    requires bs != []
    ensures Values(D.Remove(bs, front)) == D.Remove(Values(bs), front)
  {
  }

  lemma EmptyTotal(bs: seq<BufferBlock>)
    requires AllValid(bs)
    ensures bs == [] ==> D.Total(Values(bs)) == 0
  {
  }

  lemma NothingMerged(d: D.Deque, front: bool)
    requires d.Valid() && d.blocks != [] && !(d.limitSize > 0 && D.Total(d.blocks) > d.limitSize)
    ensures forall isStatic :: D.Merge(d, front, 0, isStatic) == (d, D.NoErr)
  {
    var i := D.EndIndex(d.blocks, front);
    assert d.blocks[i := d.blocks[i].(raw := d.blocks[i].raw + 0)] == d.blocks;
  }
}
