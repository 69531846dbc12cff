/**
 What becomes of the payloads that senders hand in, told by the actions of a run alone:
 which sends pass the check, and which of them the write queue takes.
 */
module StreamSends {
  import opened Vint
  import opened FrameCodec
  import opened Chunks
  import opened StreamWriter

  // ----- What the actions say -----

  function Without(ps: seq<Payload>, i: nat): seq<Payload>
    requires i < |ps|
  {
    ps[..i] + ps[i + 1..]
  }

  /** The payloads offered to the queue, in order: each sender holds the payload of its own send. */
  function Offered(held: seq<Payload>, run: seq<Action>): (ps: seq<Payload>)
    decreases |run|
  {
    if run == [] then []
    else
      match run[0]
      case Send(p) => Offered(held + [p], run[1..])
      case Enqueue(i) => if i < |held| then [held[i]] + Offered(Without(held, i), run[1..]) else Offered(held, run[1..])
      case _ => Offered(held, run[1..])
  }

  /** Those of them that meet a queue with room. */
  ghost function Admitted(c: Config, s: State, held: seq<Payload>, run: seq<Action>): (ps: seq<Payload>)
    decreases |run|
  {
    if run == [] || !Enabled(c, s, run[0]) then []
    else
      var next := Do(c, s, run[0]);
      match run[0]
      case Send(p) => Admitted(c, next, held + [p], run[1..])
      case Enqueue(i) =>
        if i >= |held| then Admitted(c, next, held, run[1..])
        else (if |s.queue| < WRITE_QUEUE_SIZE then [held[i]] else []) + Admitted(c, next, Without(held, i), run[1..])
      case _ => Admitted(c, next, held, run[1..])
  }

  /** No enqueue of the run meets a full queue. */
  ghost predicate NeverFull(c: Config, s: State, run: seq<Action>)
    decreases |run|
  {
    run == [] || !Enabled(c, s, run[0])
    || ((run[0].Enqueue? ==> |s.queue| < WRITE_QUEUE_SIZE) && NeverFull(c, Do(c, s, run[0]), run[1..]))
  }

  function UntilDisconnect(run: seq<Action>): (early: seq<Action>) {
    if run == [] || run[0].Disconnect? then [] else [run[0]] + UntilDisconnect(run[1..])
  }

  // ----- And what the states say -----

  /** An enqueue is refused exactly if the queue is full; a refusal leaves everything else alone. */
  lemma RefusedIffFull(c: Config, s: State, i: nat)
    requires Enabled(c, s, Enqueue(i))
    ensures var t := Do(c, s, Enqueue(i));
            && t.senders == Without(s.senders, i)
            && (t.accepted == s.accepted <==> |s.queue| >= WRITE_QUEUE_SIZE)
            && (|s.queue| >= WRITE_QUEUE_SIZE ==> t == s.(senders := t.senders))
            && (|s.queue| < WRITE_QUEUE_SIZE ==>
                  t.accepted == s.accepted + [s.senders[i]] && t.queue == s.queue + [FrameOf(c.hash, s.senders[i])])
  {
    assert |s.accepted + [s.senders[i]]| != |s.accepted|;
  }

  lemma OtherSteps(c: Config, s: State, a: Action)
    requires Enabled(c, s, a) && !a.Enqueue?
    ensures var t := Do(c, s, a);
            t.accepted == s.accepted && t.senders == if a.Send? then s.senders + [a.payload] else s.senders
  {
  }

  /** What was accepted is what was offered while there was room. */
  lemma {:induction false} AcceptedIsAdmitted(c: Config, s: State, run: seq<Action>, last: State)
    requires IsRun(c, s, run, last)
    ensures last.accepted == s.accepted + Admitted(c, s, s.senders, run)
    decreases |run|
  {
    if run != [] {
      var (a, next) := (run[0], Do(c, s, run[0]));
      AcceptedIsAdmitted(c, next, run[1..], last);
      if a.Enqueue? {
        RefusedIffFull(c, s, a.i);
      } else {
        OtherSteps(c, s, a);
      }
      hide Do;
    }
  }

  lemma {:induction false} NeverFullAdmitsAll(c: Config, s: State, run: seq<Action>, last: State)
    requires IsRun(c, s, run, last) && NeverFull(c, s, run)
    ensures Admitted(c, s, s.senders, run) == Offered(s.senders, run)
    decreases |run|
  {
    if run != [] {
      var (a, next) := (run[0], Do(c, s, run[0]));
      NeverFullAdmitsAll(c, next, run[1..], last);
      if a.Enqueue? {
        RefusedIffFull(c, s, a.i);
      } else {
        OtherSteps(c, s, a);
      }
      hide Do;
    }
  }

  // ----- Before and after the disconnect -----

  lemma LaterStep(c: Config, s: State, a: Action)
    requires Enabled(c, s, a) && s.status != Connected
    ensures var t := Do(c, s, a); t.status != Connected && t.mark == s.mark && s.accepted <= t.accepted
  {
  }

  lemma {:induction false} LaterKeepsMark(c: Config, s: State, run: seq<Action>, last: State)
    requires IsRun(c, s, run, last) && s.status != Connected
    ensures last.status != Connected && last.mark == s.mark && s.accepted <= last.accepted
    decreases |run|
  {
    if run != [] {
      LaterStep(c, s, run[0]);
      hide Do;
      hide Enabled;
      LaterKeepsMark(c, Do(c, s, run[0]), run[1..], last);
    }
  }

  /** Nobody passes the check after the disconnect, nor with a payload over the limit. */
  lemma {:induction false} SendsPassCheck(c: Config, s: State, run: seq<Action>, last: State)
    requires IsRun(c, s, run, last)
    ensures forall i :: 0 <= i < |run| && run[i].Send? ==>
              (c.sendLimit > 0 ==> |run[i].payload| <= c.sendLimit) && s.status == Connected
              && forall j :: 0 <= j < i ==> !run[j].Disconnect?
    decreases |run|
  {
    if run != [] {
      var rest := run[1..];
      SendsPassCheck(c, Do(c, s, run[0]), rest, last);
      forall i | 0 <= i < |run| && run[i].Send?
        ensures (c.sendLimit > 0 ==> |run[i].payload| <= c.sendLimit) && s.status == Connected
                && forall j :: 0 <= j < i ==> !run[j].Disconnect?
      {
        if i > 0 {
          assert run[i] == rest[i - 1];
          forall j | 0 <= j < i ensures !run[j].Disconnect? {
            if j > 0 {
              assert run[j] == rest[j - 1];
            }
          }
        }
      }
    }
  }

  /** At the close the mark stands where the offers before the disconnect end. */
  lemma {:induction false} MarkIsEarly(c: Config, s: State, run: seq<Action>, last: State)
    requires IsRun(c, s, run, last) && Control(s) && s.status == Connected && last.status != Connected
    ensures last.mark <= |last.accepted|
    ensures last.accepted[..last.mark] == s.accepted + Admitted(c, s, s.senders, UntilDisconnect(run))
    decreases |run|
  {
    var (a, next) := (run[0], Do(c, s, run[0]));
    if a.Disconnect? {
      LaterKeepsMark(c, next, run[1..], last);
      assert s.accepted + [] == s.accepted;
    } else {
      ControlStep(c, s, a);
      StaysConnected(c, s, a);
      MarkIsEarly(c, next, run[1..], last);
      AdmittedStep(c, s, a, UntilDisconnect(run[1..]));
    }
  }

  lemma StaysConnected(c: Config, s: State, a: Action)
    requires Control(s) && s.status == Connected && Enabled(c, s, a) && !a.Disconnect?
    ensures Do(c, s, a).status == Connected
  {
  }

  lemma AdmittedStep(c: Config, s: State, a: Action, rest: seq<Action>)
    requires Enabled(c, s, a)
    ensures var next := Do(c, s, a);
            s.accepted + Admitted(c, s, s.senders, [a] + rest) == next.accepted + Admitted(c, next, next.senders, rest)
  {
    assert ([a] + rest)[1..] == rest;
    if a.Enqueue? {
      RefusedIffFull(c, s, a.i);
    } else {
      OtherSteps(c, s, a);
    }
    hide Do;
  }

  lemma {:induction false} EarlyRun(c: Config, s: State, run: seq<Action>, last: State) returns (mid: State)
    requires IsRun(c, s, run, last)
    ensures IsRun(c, s, UntilDisconnect(run), mid)
    ensures NeverFull(c, s, run) ==> NeverFull(c, s, UntilDisconnect(run))
    decreases |run|
  {
    mid := s;
    if run != [] && !run[0].Disconnect? {
      mid := EarlyRun(c, Do(c, s, run[0]), run[1..], last);
      assert UntilDisconnect(run)[1..] == UntilDisconnect(run[1..]);
    }
  }

  /**
   Of any run: what is accepted are the payloads offered while the queue had room, in the
   order of the offers; all those offered, if the queue was never full; and the mark of a
   closed connection stands where those offered before the disconnect end.
   */
  lemma SendsDecide(c: Config, run: seq<Action>, s: State)
    requires IsRun(c, INIT, run, s)
    ensures s.accepted == Admitted(c, INIT, [], run)
    ensures NeverFull(c, INIT, run) ==> s.accepted == Offered([], run)
    ensures s.closed ==> s.mark <= |s.accepted| && s.accepted[..s.mark] == Admitted(c, INIT, [], UntilDisconnect(run))
    ensures s.closed && NeverFull(c, INIT, run) ==> s.accepted[..s.mark] == Offered([], UntilDisconnect(run))
  {
    AcceptedIsAdmitted(c, INIT, run, s);
    assert INIT.accepted + Admitted(c, INIT, [], run) == Admitted(c, INIT, [], run);
    InitInv(c);
    RunKeepsInv(c, INIT, run, s);
    var early := UntilDisconnect(run);
    if s.closed {
      MarkIsEarly(c, INIT, run, s);
      assert INIT.accepted + Admitted(c, INIT, [], early) == Admitted(c, INIT, [], early);
    }
    if NeverFull(c, INIT, run) {
      NeverFullAdmitsAll(c, INIT, run, s);
      var mid := EarlyRun(c, INIT, run, s);
      NeverFullAdmitsAll(c, INIT, early, mid);
    }
  }

  /** The payloads that passed the check, in the order of the checks. */
  function SentBy(run: seq<Action>): seq<Payload> {
    if run == [] then []
    else if run[0].Send? then [run[0].payload] + SentBy(run[1..])
    else SentBy(run[1..])
  }

  lemma OneOffered(held: seq<Payload>, i: nat, offered: seq<Payload>, sent: seq<Payload>)
    requires i < |held| && multiset(offered) <= multiset(Without(held, i)) + multiset(sent)
    ensures multiset([held[i]] + offered) <= multiset(held) + multiset(sent)
  {
    assert held == held[..i] + ([held[i]] + held[i + 1..]);
    assert multiset(held) == multiset(Without(held, i)) + multiset{held[i]};
  }

  lemma OneSent(held: seq<Payload>, p: Payload, offered: seq<Payload>, sent: seq<Payload>)
    requires multiset(offered) <= multiset(held + [p]) + multiset(sent)
    ensures multiset(offered) <= multiset(held) + multiset([p] + sent)
  {
  }

  /** Every payload offered comes from a send of the run, and is offered no more often than sent. */
  lemma {:induction false} OfferedWereSent(held: seq<Payload>, run: seq<Action>)
    ensures multiset(Offered(held, run)) <= multiset(held) + multiset(SentBy(run))
    decreases |run|
  {
    if run != [] {
      var rest := run[1..];
      match run[0]
      case Send(p) =>
        OfferedWereSent(held + [p], rest);
        OneSent(held, p, Offered(held + [p], rest), SentBy(rest));
      case Enqueue(i) =>
        if i < |held| {
          OfferedWereSent(Without(held, i), rest);
          OneOffered(held, i, Offered(Without(held, i), rest), SentBy(rest));
        } else {
          OfferedWereSent(held, rest);
        }
      case _ => OfferedWereSent(held, rest);
    }
  }
}
