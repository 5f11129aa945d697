/** The registry of clients waiting for a reader event (src/eventhandler.c) and the commands of
    src/winscard_svc.c that add to it and take from it. */
module EventHandler {
  import opened Wrappers
  import opened SimCList

  /** SCARD_S_SUCCESS of an event, SCARD_E_CANCELLED of a cancel, the reply to CMD_STOP_WAITING. */
  datatype Code = Signalled | Cancelled | Stopped

  datatype Answer = Answer(fd: int, code: Code)

  /** waiting is ClientsWaitingForEvent; sent lists the wait answers written so far. */
  datatype Waiters = Waiters(waiting: seq<int>, sent: seq<Answer>)

  datatype Step =
    | Wait(fd: int)                             // CMD_WAIT_READER_STATE_CHANGE
    | Stop(fd: int)                             // CMD_STOP_WAITING_READER_STATE_CHANGE
    | Cancel(fd: int)                           // SCARD_CANCEL aimed at the client of fd
    | Signal                                    // EHSignalEventToClients
    | Die(fd: int, betweenCommands: bool)       // the client thread ends

  function RemoveFirst(w: seq<int>, fd: int): (r: seq<int>)
    ensures fd !in w ==> r == w
    ensures multiset(r) == multiset(w) - multiset{fd}
  {
    if w == [] then []
    else if w[0] == fd then
      assert w == [w[0]] + w[1..];
      w[1..]
    else
      assert w == [w[0]] + w[1..];
      [w[0]] + RemoveFirst(w[1..], fd)
  }

  lemma {:induction false} RemoveFirstAt(w: seq<int>, fd: int, k: nat)
    requires k < |w| && w[k] == fd && forall i :: 0 <= i < k ==> w[i] != fd
    ensures RemoveFirst(w, fd) == w[..k] + w[k + 1..]
  {
    if k > 0 {
      RemoveFirstAt(w[1..], fd, k - 1);
      SlicesOfTail(w, k);
    }
  }

  lemma SlicesOfTail(w: seq<int>, k: nat)
    requires 0 < k < |w|
    ensures [w[0]] + (w[1..][..k - 1] + w[1..][k..]) == w[..k] + w[k + 1..]
  {
    assert w[..k] == [w[0]] + w[1..][..k - 1];
    assert w[1..][k..] == w[k + 1..];
  }

  function Answers(w: seq<int>, code: Code): (r: seq<Answer>)
    ensures |r| == |w|
  {
    seq(|w|, i requires 0 <= i < |w| => Answer(w[i], code))
  }

  function Next(s: Waiters, step: Step): Waiters {
    match step
    case Wait(fd) => s.(waiting := s.waiting + [fd])
    case Stop(fd) =>
      if fd in s.waiting then Waiters(RemoveFirst(s.waiting, fd), s.sent + [Answer(fd, Stopped)]) else s
    case Cancel(fd) =>
      if fd in s.waiting then Waiters(RemoveFirst(s.waiting, fd), s.sent + [Answer(fd, Cancelled)]) else s
    case Signal => Waiters([], s.sent + Answers(s.waiting, Signalled))
    case Die(fd, betweenCommands) =>
      if betweenCommands then s.(waiting := RemoveFirst(s.waiting, fd)) else s
  }

  function Run(s: Waiters, steps: seq<Step>): Waiters
    decreases steps
  {
    if steps == [] then s else Run(Next(s, steps[0]), steps[1..])
  }

  /** Commands of client fd that ask for one answer. */
  function Registrations(steps: seq<Step>, fd: int): nat {
    if steps == [] then 0
    else (if steps[0] == Wait(fd) then 1 else 0) + Registrations(steps[1..], fd)
  }

  /** Entries of fd that its own death took out of the list unanswered. */
  function Dropped(s: Waiters, steps: seq<Step>, fd: int): nat
    decreases steps
  {
    if steps == [] then 0
    else
      (if steps[0] == Die(fd, true) && fd in s.waiting then 1 else 0)
      + Dropped(Next(s, steps[0]), steps[1..], fd)
  }

  function Answered(sent: seq<Answer>, fd: int): nat {
    if sent == [] then 0 else (if sent[0].fd == fd then 1 else 0) + Answered(sent[1..], fd)
  }

  lemma {:induction false} AnsweredConcat(a: seq<Answer>, b: seq<Answer>, fd: int)
    ensures Answered(a + b, fd) == Answered(a, fd) + Answered(b, fd)
  {
    if a == [] {
      assert a + b == b;
    } else {
      assert (a + b)[1..] == a[1..] + b;
      AnsweredConcat(a[1..], b, fd);
    }
  }

  lemma {:induction false} AnsweredAll(w: seq<int>, code: Code, fd: int)
    ensures Answered(Answers(w, code), fd) == multiset(w)[fd]
  {
    if w != [] {
      assert w == [w[0]] + w[1..];
      assert Answers(w, code)[1..] == Answers(w[1..], code);
      AnsweredAll(w[1..], code, fd);
    }
  }

  /** Pending and answered registrations of one client. */
  function Balance(s: Waiters, fd: int): nat {
    multiset(s.waiting)[fd] + Answered(s.sent, fd)
  }

  lemma RemovalBalance(s: Waiters, g: int, code: Code, fd: int)
    requires g in s.waiting
    ensures Balance(Waiters(RemoveFirst(s.waiting, g), s.sent + [Answer(g, code)]), fd) == Balance(s, fd)
  {
    AnsweredConcat(s.sent, [Answer(g, code)], fd);
    assert multiset(s.waiting)[g] > 0;
  }

  /** What one step does to the balance of one client. */
  lemma StepBalance(s: Waiters, step: Step, fd: int)
    ensures Balance(Next(s, step), fd) + (if step == Die(fd, true) && fd in s.waiting then 1 else 0)
         == Balance(s, fd) + (if step == Wait(fd) then 1 else 0)
  {
    match step
    case Wait(g) => assert multiset(s.waiting + [g]) == multiset(s.waiting) + multiset{g};
    case Stop(g) => if g in s.waiting { RemovalBalance(s, g, Stopped, fd); }
    case Cancel(g) => if g in s.waiting { RemovalBalance(s, g, Cancelled, fd); }
    case Signal =>
      AnsweredConcat(s.sent, Answers(s.waiting, Signalled), fd);
      AnsweredAll(s.waiting, Signalled, fd);
    case Die(g, b) => assert g in s.waiting <==> multiset(s.waiting)[g] > 0;
  }

  /** Conservation of waiters, from any state and over any interleaving: every registration is
      answered once, still pending, or dropped when its client died. */
  lemma {:induction false} Conservation(s: Waiters, steps: seq<Step>, fd: int)
    ensures var t := Run(s, steps);
      multiset(s.waiting)[fd] + Answered(s.sent, fd) + Registrations(steps, fd)
      == multiset(t.waiting)[fd] + Answered(t.sent, fd) + Dropped(s, steps, fd)
    decreases steps
  {
    if steps != [] {
      StepBalance(s, steps[0], fd);
      Conservation(Next(s, steps[0]), steps[1..], fd);
    }
  }

  // ---- what an answer says ----

  /** How many answers of this kind client fd has been sent. */
  function Sent(sent: seq<Answer>, fd: int, code: Code): nat {
    multiset(sent)[Answer(fd, code)]
  }

  /** How many answers of this kind the steps owe client fd: a stop and a cancel one each when it waits, an event one
      for each of its entries. */
  function Owed(s: Waiters, steps: seq<Step>, fd: int, code: Code): nat
    decreases steps
  {
    if steps == [] then 0
    else
      (match steps[0]
       case Stop(g) => if g == fd && code == Stopped && fd in s.waiting then 1 else 0
       case Cancel(g) => if g == fd && code == Cancelled && fd in s.waiting then 1 else 0
       case Signal => if code == Signalled then multiset(s.waiting)[fd] else 0
       case _ => 0)
      + Owed(Next(s, steps[0]), steps[1..], fd, code)
  }

  lemma {:induction false} AnswersCode(w: seq<int>, code: Code, fd: int, c: Code)
    ensures Sent(Answers(w, code), fd, c) == if c == code then multiset(w)[fd] else 0
  {
    if w != [] {
      var all := Answers(w, code);
      assert w == [w[0]] + w[1..];
      assert all == [Answer(w[0], code)] + Answers(w[1..], code);
      AnswersCode(w[1..], code, fd, c);
    }
  }

  lemma StepSends(s: Waiters, step: Step, fd: int, code: Code)
    ensures Sent(Next(s, step).sent, fd, code) == Sent(s.sent, fd, code) + Owed(s, [step], fd, code)
  {
    assert [step][1..] == [];
    match step
    case Stop(g) => assert multiset(s.sent + [Answer(g, Stopped)]) == multiset(s.sent) + multiset{Answer(g, Stopped)};
    case Cancel(g) => assert multiset(s.sent + [Answer(g, Cancelled)]) == multiset(s.sent) + multiset{Answer(g, Cancelled)};
    case Signal =>
      AnswersCode(s.waiting, Signalled, fd, code);
      assert multiset(s.sent + Answers(s.waiting, Signalled)) == multiset(s.sent) + multiset(Answers(s.waiting, Signalled));
    case _ =>
  }

  /** Over any interleaving each client is sent the answers it is owed, with the codes of what ended its waiting, and no
      others. */
  lemma {:induction false} AnsweredWithCode(s: Waiters, steps: seq<Step>, fd: int, code: Code)
    ensures Sent(Run(s, steps).sent, fd, code) == Sent(s.sent, fd, code) + Owed(s, steps, fd, code)
    decreases steps
  {
    if steps != [] {
      StepSends(s, steps[0], fd, code);
      assert [steps[0]][1..] == [];
      AnsweredWithCode(Next(s, steps[0]), steps[1..], fd, code);
    }
  }

  /** In no step does client fd register while an earlier registration of its own is pending. */
  ghost predicate OneAtATime(s: Waiters, steps: seq<Step>, fd: int)
    decreases steps
  {
    steps == [] || ((steps[0] == Wait(fd) ==> fd !in s.waiting) && OneAtATime(Next(s, steps[0]), steps[1..], fd))
  }

  /** A client that registers only when it is not waiting never has two pending entries. */
  lemma {:induction false} AtMostOnePending(s: Waiters, steps: seq<Step>, fd: int)
    requires multiset(s.waiting)[fd] <= 1 && OneAtATime(s, steps, fd)
    ensures multiset(Run(s, steps).waiting)[fd] <= 1
    decreases steps
  {
    if steps != [] {
      OnePendingStep(s, steps[0], fd);
      AtMostOnePending(Next(s, steps[0]), steps[1..], fd);
    }
  }

  lemma OnePendingStep(s: Waiters, step: Step, fd: int)
    requires multiset(s.waiting)[fd] <= 1 && (step == Wait(fd) ==> fd !in s.waiting)
    ensures multiset(Next(s, step).waiting)[fd] <= 1
  {
    hide RemoveFirst, Answers;
    assert fd in s.waiting <==> multiset(s.waiting)[fd] > 0;
    if step.Wait? {
      assert multiset(s.waiting + [step.fd]) == multiset(s.waiting) + multiset{step.fd};
    }
  }

  /** A dead client leaves nothing behind exactly when its thread ended between two commands with at
      most one pending entry, or had none; on every other exit its entries stay in the list. */
  lemma DeathLeavesNothing(s: Waiters, fd: int, betweenCommands: bool)
    ensures fd !in Next(s, Die(fd, betweenCommands)).waiting
       <==> multiset(s.waiting)[fd] <= (if betweenCommands then 1 else 0)
  {
    assert fd in RemoveFirst(s.waiting, fd) <==> multiset(RemoveFirst(s.waiting, fd))[fd] > 0;
    assert fd in s.waiting <==> multiset(s.waiting)[fd] > 0;
  }

  /** An entry left behind is answered to whoever has the descriptor next: from a state on, a client can be
      sent an answer without any registration exactly when an entry of its descriptor is pending. */
  lemma UnaskedAnswer(s: Waiters, fd: int)
    ensures (exists steps :: Registrations(steps, fd) == 0 && Answered(Run(s, steps).sent, fd) > Answered(s.sent, fd))
       <==> fd in s.waiting
  {
    assert fd in s.waiting <==> multiset(s.waiting)[fd] > 0;
    if steps :| Registrations(steps, fd) == 0 && Answered(Run(s, steps).sent, fd) > Answered(s.sent, fd) {
      Conservation(s, steps, fd);
    }
    if fd in s.waiting {
      var steps := [Signal];
      assert steps[1..] == [] && Run(s, steps) == Next(s, Signal);
      StepBalance(s, Signal, fd);
      assert Registrations(steps, fd) == 0 && Answered(Run(s, steps).sent, fd) > Answered(s.sent, fd);
    }
  }

  /** Such a case: client 5 waits and its thread ends in the middle of a command; the next client with this
      descriptor is sent the answer to a question it has not asked. */
  lemma AnsweredAfterDeath()
    ensures var s := Run(Waiters([], []), [Wait(5), Die(5, false)]);
      s.waiting == [5] && Next(s, Signal).sent == [Answer(5, Signalled)]
  {
    var steps := [Wait(5), Die(5, false)];
    assert steps[1..] == [Die(5, false)] && steps[1..][1..] == [];
    assert Run(Waiters([], []), steps) == Next(Next(Waiters([], []), Wait(5)), Die(5, false));
    assert Next(Waiters([], []), Wait(5)).waiting == [5];
    assert Answers([5], Signalled) == [Answer(5, Signalled)];
  }

  /** list_comparator_int32_t */
  function CompareFd(a: int, b: int): int {
    (if a < b then 1 else 0) - (if a > b then 1 else 0)
  }

  class Registry {
    const clients: List<int>
    var sent: seq<Answer>

    ghost predicate Valid()
      reads this, clients, clients.Repr
    {
      && this !in clients.Repr && clients.Valid()
      && clients.comparator == Some(CompareFd) && !clients.iterActive
    }

    ghost function View(): Waiters
      reads this, clients
    {
      Waiters(clients.elems, sent)
    }

    /** EHInitializeEventStructures */
    constructor ()
      ensures Valid() && View() == Waiters([], []) && fresh(clients.Repr)
    {
      var l := new List(0);
      l.comparator := Some(CompareFd);
      clients, sent := l, [];
    }

    /** EHRegisterClientForEvent */
    method Register(fd: int)
      requires Valid()
      modifies clients.Repr
      ensures Valid() && fresh(clients.Repr - old(clients.Repr))
      ensures View() == Next(old(View()), Wait(fd))
    {
      var _ := clients.Append(fd);
    }

    /** EHTryToUnregisterClientForEvent */
    method TryUnregister(fd: int) returns (ok: bool)
      requires Valid()
      modifies clients.Repr
      ensures Valid() && clients.Repr == old(clients.Repr) && sent == old(sent)
      ensures ok == (fd in old(clients.elems))
      ensures clients.elems == RemoveFirst(old(clients.elems), fd)
    {
      ghost var w := clients.elems;
      var ret := clients.Delete(fd);
      ok := ret >= 0;
      if ok {
        ghost var k: nat :| old(clients.FirstMatch(fd, k)) && clients.elems == w[..k] + w[k + 1..];
        RemoveFirstAt(w, fd, k);
      } else {
        assert forall i :: 0 <= i < |w| ==> w[i] != fd;
      }
    }

    /** MSGSignalClient, and the reply to CMD_STOP_WAITING. */
    method Send(fd: int, code: Code)
      modifies this`sent
      ensures sent == old(sent) + [Answer(fd, code)]
    {
      sent := sent + [Answer(fd, code)];
    }

    /** CMD_STOP_WAITING_READER_STATE_CHANGE */
    method StopWaiting(fd: int)
      requires Valid()
      modifies this`sent, clients.Repr
      ensures Valid() && View() == Next(old(View()), Stop(fd))
    {
      var ok := TryUnregister(fd);
      if ok { Send(fd, Stopped); }
    }

    /** SCARD_CANCEL once the target client is found. */
    method CancelWaiting(fd: int)
      requires Valid()
      modifies this`sent, clients.Repr
      ensures Valid() && View() == Next(old(View()), Cancel(fd))
    {
      var ok := TryUnregister(fd);
      if ok { Send(fd, Cancelled); }
    }

    /** EHSignalEventToClients */
    method SignalAll()
      requires Valid()
      modifies this`sent, clients.Repr
      ensures Valid() && View() == Next(old(View()), Signal)
    {
      var _ := clients.IteratorStart();
      SignalEach();
      var _ := clients.IteratorStop();
      var _ := clients.Clear();
    }

    method SignalEach()
      requires this !in clients.Repr && clients.Valid() && clients.Iterating(0)
      modifies this`sent, clients`iterPos, clients`iterCurEntry
      ensures clients.Valid() && sent == old(sent) + Answers(clients.elems, Signalled)
    {
      hide clients.Valid;
      ghost var k := 0;
      ghost var all := Answers(clients.elems, Signalled);
      var more := clients.IteratorHasNext();
      while more
        invariant clients.Valid() && k <= |clients.elems| && clients.Iterating(k)
        invariant more == (k < |clients.elems|)
        invariant sent == old(sent) + all[..k]
        decreases |clients.elems| - k
      {
        SignalNext(k);
        assert all[..k + 1] == all[..k] + [all[k]];
        k := k + 1;
        more := clients.IteratorHasNext();
      }
    }

    method SignalNext(ghost k: nat)
      requires this !in clients.Repr && clients.Valid() && k < |clients.elems| && clients.Iterating(k)
      modifies this`sent, clients`iterPos, clients`iterCurEntry
      ensures clients.Valid() && clients.Iterating(k + 1)
      ensures sent == old(sent) + [Answer(clients.elems[k], Signalled)]
    {
      var fd := clients.IteratorNext();
      Send(fd, Signalled);
    }
  }
}
