/**
 What a buffer manager is, whichever way it stores its blocks: a double-ended queue of
 blocks, each with a size and a read offset, under a limit on their number and bytes.
 */
module BufferDeque {

  datatype Block = Block(raw: nat, used: nat) {
    predicate Valid() { used <= raw }

    function Left(): nat
      requires Valid()
    {
      raw - used
    }
  }

  predicate AllValid(bs: seq<Block>) {
    forall i :: 0 <= i < |bs| ==> bs[i].Valid()
  }

  /** The bytes not yet read. */
  function Total(bs: seq<Block>): nat
    requires AllValid(bs)
  {
    if bs == [] then 0 else bs[0].Left() + Total(bs[1..])
  }

  lemma {:induction false} TotalAppend(a: seq<Block>, b: seq<Block>)
    requires AllValid(a) && AllValid(b)
    ensures AllValid(a + b) && Total(a + b) == Total(a) + Total(b)
  {
    if a == [] {
      assert a + b == b;
    } else {
      assert (a + b)[1..] == a[1..] + b;
      TotalAppend(a[1..], b);
    }
  }

  lemma TotalOne(b: Block)
    requires b.Valid()
    ensures Total([b]) == b.Left()
  {
    assert Total([b]) == b.Left() + Total([]);
  }

  /** Replacing one block changes the total by the difference. */
  lemma TotalReplace(bs: seq<Block>, i: nat, b: Block)
    requires AllValid(bs) && i < |bs| && b.Valid()
    ensures AllValid(bs[i := b]) && Total(bs[i := b]) + bs[i].Left() == Total(bs) + b.Left()
  {
    assert bs == bs[..i] + ([bs[i]] + bs[i + 1..]);
    assert bs[i := b] == bs[..i] + ([b] + bs[i + 1..]);
    TotalAppend([bs[i]], bs[i + 1..]);
    TotalAppend([b], bs[i + 1..]);
    TotalAppend(bs[..i], [bs[i]] + bs[i + 1..]);
    TotalAppend(bs[..i], [b] + bs[i + 1..]);
    TotalOne(bs[i]);
    TotalOne(b);
  }

  datatype Err = NoErr | NoData | BuffLimit | Malloc

  datatype Deque = Deque(blocks: seq<Block>, limitNumber: int, limitSize: int) {
    predicate Valid() { AllValid(blocks) }

    predicate Within() {
      Valid() && (limitNumber > 0 ==> |blocks| <= limitNumber) && (limitSize > 0 ==> Total(blocks) <= limitSize)
    }
  }

  // ----- The operations at either end -----

  function Insert<T>(bs: seq<T>, front: bool, b: T): seq<T> {
    if front then [b] + bs else bs + [b]
  }

  function EndIndex<T>(bs: seq<T>, front: bool): (i: nat)
    requires bs != []
    ensures i < |bs|
  {
    if front then 0 else |bs| - 1
  }

  function Remove<T>(bs: seq<T>, front: bool): seq<T>
    requires bs != []
  {
    if front then bs[1..] else bs[..|bs| - 1]
  }

  function Push(d: Deque, front: bool, size: nat, isStatic: bool): (r: (Deque, Err))
    requires d.Valid()
    ensures r.0.Valid() && (r.1 != NoErr ==> r.0 == d)
  {
    if d.limitNumber > 0 && |d.blocks| >= d.limitNumber then (d, BuffLimit)
    else if d.limitSize > 0 && Total(d.blocks) + size > d.limitSize then (d, BuffLimit)
    else if size == 0 && !(isStatic && d.blocks == []) then (d, Malloc)
    else (d.(blocks := Insert(d.blocks, front, Block(size, 0))), NoErr)
  }

  function Taken(b: Block, size: nat): (n: nat)
    requires b.Valid()
    ensures n <= size && b.used + n <= b.raw
  {
    if size > b.Left() then b.Left() else size
  }

  function Pop(d: Deque, front: bool, size: nat, free: bool): (r: (Deque, Err))
    requires d.Valid()
    ensures r.0.Valid() && (r.1 != NoErr ==> r.0 == d)
  {
    if d.blocks == [] then (d, NoData)
    else
      var i := EndIndex(d.blocks, front);
      var b := d.blocks[i].(used := d.blocks[i].used + Taken(d.blocks[i], size));
      (d.(blocks := if free && b.Left() == 0 then Remove(d.blocks, front) else d.blocks[i := b]), NoErr)
  }

  function Merge(d: Deque, front: bool, size: nat, isStatic: bool): (r: (Deque, Err))
    requires d.Valid()
    ensures r.0.Valid() && (r.1 != NoErr ==> r.0 == d)
  {
    if d.blocks == [] then Push(d, front, size, isStatic)
    else if d.limitSize > 0 && Total(d.blocks) + size > d.limitSize then (d, BuffLimit)
    else
      var i := EndIndex(d.blocks, front);
      (d.(blocks := d.blocks[i := d.blocks[i].(raw := d.blocks[i].raw + size)]), NoErr)
  }

  datatype Op = DoPush(front: bool, size: nat) | DoPop(front: bool, size: nat, free: bool) | DoMerge(front: bool, size: nat)

  function Do(d: Deque, op: Op, isStatic: bool): (r: (Deque, Err))
    requires d.Valid()
    ensures r.0.Valid() && (r.1 != NoErr ==> r.0 == d)
  {
    match op
    case DoPush(front, size) => Push(d, front, size, isStatic)
    case DoPop(front, size, free) => Pop(d, front, size, free)
    case DoMerge(front, size) => Merge(d, front, size, isStatic)
  }

  // ----- Bytes are conserved and limits kept -----

  function Added(d: Deque, op: Op, isStatic: bool): nat
    requires d.Valid()
  {
    if op.DoPop? || Do(d, op, isStatic).1 != NoErr then 0 else op.size
  }

  function Read(d: Deque, op: Op): nat
    requires d.Valid()
  {
    if op.DoPop? && d.blocks != [] then Taken(d.blocks[EndIndex(d.blocks, op.front)], op.size) else 0
  }

  lemma RemoveTotal(bs: seq<Block>, front: bool)
    requires AllValid(bs) && bs != []
    ensures Total(Remove(bs, front)) + bs[EndIndex(bs, front)].Left() == Total(bs)
  {
    if !front {
      var m := |bs| - 1;
      assert bs == bs[..m] + [bs[m]];
      TotalAppend(bs[..m], [bs[m]]);
      TotalOne(bs[m]);
    }
  }

  lemma InsertTotal(bs: seq<Block>, front: bool, b: Block)
    requires AllValid(bs) && b.Valid()
    ensures Total(Insert(bs, front, b)) == Total(bs) + b.Left()
  {
    TotalOne(b);
    if front {
      TotalAppend([b], bs);
    } else {
      TotalAppend(bs, [b]);
    }
  }

  lemma PopTotal(d: Deque, front: bool, size: nat, free: bool)
    requires d.Valid() && d.blocks != []
    ensures var d' := Pop(d, front, size, free).0;
            Total(d'.blocks) + Taken(d.blocks[EndIndex(d.blocks, front)], size) == Total(d.blocks)
  {
    var i := EndIndex(d.blocks, front);
    TotalReplace(d.blocks, i, d.blocks[i].(used := d.blocks[i].used + Taken(d.blocks[i], size)));
    RemoveTotal(d.blocks, front);
    hide Total;
  }

  lemma MergeTotal(d: Deque, front: bool, size: nat, isStatic: bool)
    requires d.Valid() && d.blocks != []
    ensures var (d', err) := Merge(d, front, size, isStatic);
            Total(d'.blocks) == Total(d.blocks) + if err == NoErr then size else 0
  {
    var i := EndIndex(d.blocks, front);
    TotalReplace(d.blocks, i, d.blocks[i].(raw := d.blocks[i].raw + size));
    hide Total;
  }

  lemma PushConserves(d: Deque, front: bool, size: nat, isStatic: bool)
    requires d.Within()
    ensures var (d', err) := Push(d, front, size, isStatic);
            && d'.Within() && |d'.blocks| == |d.blocks| + (if err == NoErr then 1 else 0)
            && Total(d'.blocks) == Total(d.blocks) + if err == NoErr then size else 0
  {
    InsertTotal(d.blocks, front, Block(size, 0));
  }

  /** Every operation keeps the limits, and accounts for every byte. */
  lemma StepConserves(d: Deque, op: Op, isStatic: bool)
    requires d.Within()
    ensures var d' := Do(d, op, isStatic).0;
            d'.Within() && Total(d'.blocks) + Read(d, op) == Total(d.blocks) + Added(d, op, isStatic)
  {
    match op
    case DoPush(front, size) => PushConserves(d, front, size, isStatic);
    case DoPop(front, size, free) =>
      if d.blocks != [] {
        PopTotal(d, front, size, free);
      }
    case DoMerge(front, size) =>
      if d.blocks == [] {
        PushConserves(d, front, size, isStatic);
      } else {
        MergeTotal(d, front, size, isStatic);
      }
  }

  function After(d: Deque, ops: seq<Op>, isStatic: bool): (r: Deque)
    requires d.Valid()
    ensures r.Valid()
    decreases |ops|
  {
    if ops == [] then d else After(Do(d, ops[0], isStatic).0, ops[1..], isStatic)
  }

  function AllAdded(d: Deque, ops: seq<Op>, isStatic: bool): nat
    requires d.Valid()
    decreases |ops|
  {
    if ops == [] then 0
    else Added(d, ops[0], isStatic) + AllAdded(Do(d, ops[0], isStatic).0, ops[1..], isStatic)
  }

  function AllRead(d: Deque, ops: seq<Op>, isStatic: bool): nat
    requires d.Valid()
    decreases |ops|
  {
    if ops == [] then 0 else Read(d, ops[0]) + AllRead(Do(d, ops[0], isStatic).0, ops[1..], isStatic)
  }

  /** Over any run, what was added is what was read and what is left. */
  lemma {:induction false} RunConserves(d: Deque, ops: seq<Op>, isStatic: bool)
    requires d.Within()
    ensures After(d, ops, isStatic).Within()
    ensures Total(After(d, ops, isStatic).blocks) + AllRead(d, ops, isStatic) ==
            Total(d.blocks) + AllAdded(d, ops, isStatic)
    decreases |ops|
  {
    if ops != [] {
      StepConserves(d, ops[0], isStatic);
      RunConserves(Do(d, ops[0], isStatic).0, ops[1..], isStatic);
    }
  }

  // ----- The two modes -----

  /** An empty block asked of an empty manager: only the static mode grants it. */
  predicate EmptyOnEmpty(d: Deque, op: Op) {
    d.blocks == [] && !op.DoPop? && op.size == 0
  }

  predicate NeverEmptyOnEmpty(d: Deque, ops: seq<Op>)
    requires d.Valid()
    decreases |ops|
  {
    ops == [] || (!EmptyOnEmpty(d, ops[0]) && NeverEmptyOnEmpty(Do(d, ops[0], false).0, ops[1..]))
  }

  function Outcomes(d: Deque, ops: seq<Op>, isStatic: bool): seq<(Deque, Err)>
    requires d.Valid()
    decreases |ops|
  {
    if ops == [] then []
    else [Do(d, ops[0], isStatic)] + Outcomes(Do(d, ops[0], isStatic).0, ops[1..], isStatic)
  }

  /**
   With equal limits the two modes give the same errors, sizes, offsets and costs at every
   step of a run exactly if it never asks an empty manager for an empty block.
   */
  lemma {:induction false} ModesAgree(d: Deque, ops: seq<Op>)
    requires d.Valid()
    ensures Outcomes(d, ops, true) == Outcomes(d, ops, false) <==> NeverEmptyOnEmpty(d, ops)
    decreases |ops|
  {
    if ops != [] {
      var r := Do(d, ops[0], false);
      if EmptyOnEmpty(d, ops[0]) {
        assert Outcomes(d, ops, true)[0].1 == NoErr && Outcomes(d, ops, false)[0].1 == Malloc;
      } else {
        assert Do(d, ops[0], true) == r;
        ModesAgree(r.0, ops[1..]);
        assert Outcomes(d, ops, true)[1..] == Outcomes(r.0, ops[1..], true);
        assert Outcomes(d, ops, false)[1..] == Outcomes(r.0, ops[1..], false);
      }
    }
  }

  function Errs(outcomes: seq<(Deque, Err)>): (es: seq<Err>)
    ensures |es| == |outcomes| && forall i :: 0 <= i < |es| ==> es[i] == outcomes[i].1
  {
    seq(|outcomes|, i requires 0 <= i < |outcomes| => outcomes[i].1)
  }

  lemma OutcomesStep(d: Deque, ops: seq<Op>, isStatic: bool)
    requires d.Valid() && ops != []
    ensures var (d', err) := Do(d, ops[0], isStatic);
            && Errs(Outcomes(d, ops, isStatic)) == [err] + Errs(Outcomes(d', ops[1..], isStatic))
            && After(d, ops, isStatic) == After(d', ops[1..], isStatic)
  {
    hide Do;
  }

  lemma NothingDone(d: Deque, isStatic: bool)
    requires d.Valid()
    ensures Errs(Outcomes(d, [], isStatic)) == [] && After(d, [], isStatic) == d
  {
  }

  /** The errors alone tell the modes apart, if anything does. */
  lemma {:induction false} ErrsAgree(d: Deque, ops: seq<Op>)
    requires d.Valid()
    ensures Errs(Outcomes(d, ops, true)) == Errs(Outcomes(d, ops, false)) <==> NeverEmptyOnEmpty(d, ops)
    ensures NeverEmptyOnEmpty(d, ops) ==> After(d, ops, true) == After(d, ops, false)
    decreases |ops|
  {
    if ops != [] {
      OutcomesStep(d, ops, true);
      OutcomesStep(d, ops, false);
      var ((s, serr), (l, lerr)) := (Do(d, ops[0], true), Do(d, ops[0], false));
      assert if EmptyOnEmpty(d, ops[0]) then serr == NoErr && lerr == Malloc else s == l && serr == lerr;
      hide Do;
      ErrsAgree(l, ops[1..]);
      var (es, el) := (Errs(Outcomes(s, ops[1..], true)), Errs(Outcomes(l, ops[1..], false)));
      assert ([serr] + es)[0] == serr && ([lerr] + el)[0] == lerr && ([serr] + es)[1..] == es && ([lerr] + el)[1..] == el;
    }
  }
}
