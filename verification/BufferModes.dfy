/** Two buffer managers side by side: one over a list and one over a ring, under the same limits. */
module BufferModes {
  import opened Vint
  import D = BufferDeque
  import opened BufferManager

  method Apply(m: BufferManager, op: D.Op) returns (err: D.Err)
    requires m.Valid()
    modifies m, m.circleIndex, m.blocks
    ensures m.Valid() && (m.Value(), err) == D.Do(old(m.Value()), op, m.staticMode)
    ensures m.staticMode == old(m.staticMode) && m.circleIndex == old(m.circleIndex)
    ensures forall b :: b in m.blocks ==> b in old(m.blocks) || fresh(b)
  {
    hide BufferManager.Stored;
    hide BufferManager.Sound;
    hide BufferManager.Counted;
    hide BufferManager.Value;
    hide BufferManager.Pushed;
    hide BufferManager.Kept;
    hide D.Push;
    hide D.Pop;
    hide D.Merge;
    var span;
    match op {
      case DoPush(front, size) =>
        ghost var block;
        err, span, block := m.Push(front, size);
      case DoPop(front, size, free) => err := m.Pop(front, size, free);
      case DoMerge(front, size) => err, span := m.Merge(front, size);
    }
  }

  lemma ValueValid(m: BufferManager)
    requires m.Valid()
    ensures m.Value().Valid()
  {
  }

  /** Does `ops` one after the other; what happens is what the deque says, step by step. */
  method ApplyAll(m: BufferManager, ops: seq<D.Op>) returns (errs: seq<D.Err>)
    requires m.Valid()
    modifies m, m.circleIndex, m.blocks
    ensures m.Valid() && m.Value().Valid() && m.staticMode == old(m.staticMode)
    ensures m.Value() == D.After(old(m.Value()), ops, old(m.staticMode))
    ensures errs == D.Errs(D.Outcomes(old(m.Value()), ops, old(m.staticMode)))
    decreases |ops|
  {
    ValueValid(m);
    hide *;
    if |ops| == 0 {
      D.NothingDone(m.Value(), m.staticMode);
      return [];
    }
    D.OutcomesStep(m.Value(), ops, m.staticMode);
    var err := Apply(m, ops[0]);
    assert forall i :: 0 <= i < |m.blocks| ==> m.blocks[i] in old(m.blocks) || fresh(m.blocks[i]);
    errs := ApplyAll(m, ops[1..]);
    errs := [err] + errs;
  }

  /** A new manager in one of the modes, after a run. */
  method DriveOne(ops: seq<D.Op>, maxSize: nat, maxNumber: nat, isStatic: bool)
      returns (errs: seq<D.Err>, m: BufferManager)
    requires maxSize > 0 && maxNumber > 0
    ensures m.Valid() && m.staticMode == isStatic
    ensures var d := D.Deque([], maxNumber, maxSize);
            errs == D.Errs(D.Outcomes(d, ops, isStatic)) && m.Value() == D.After(d, ops, isStatic)
  {
    hide *;
    m := new BufferManager();
    if isStatic {
      m.SetMode(maxSize, maxNumber);
    } else {
      var ok := m.SetLimit(maxSize, maxNumber);
    }
    assert m.Value() == D.Deque([], maxNumber, maxSize);
    NoBlocks(m);
    errs := ApplyAll(m, ops);
  }

  lemma NoBlocks(m: BufferManager)
    ensures m.Value().blocks == [] ==> m.blocks == []
  {
  }

  /**
   A manager over a list and one over a ring, driven through the same run under the same
   limits: they report the same errors exactly if the run never asks an empty manager for
   an empty block, and then they also end with the same blocks.
   */
  method DriveBoth(ops: seq<D.Op>, maxSize: nat, maxNumber: nat)
      returns (listErrs: seq<D.Err>, ringErrs: seq<D.Err>, list: BufferManager, ring: BufferManager)
    requires maxSize > 0 && maxNumber > 0
    ensures list.Valid() && ring.Valid() && !list.staticMode && ring.staticMode
    ensures listErrs == ringErrs <==> D.NeverEmptyOnEmpty(D.Deque([], maxNumber, maxSize), ops)
    ensures listErrs == ringErrs ==> list.Value() == ring.Value()
  {
    ghost var d := D.Deque([], maxNumber, maxSize);
    assert d.Valid();
    hide *;
    D.ErrsAgree(d, ops);
    listErrs, list := DriveOne(ops, maxSize, maxNumber, false);
    ringErrs, ring := DriveOne(ops, maxSize, maxNumber, true);
  }
}
