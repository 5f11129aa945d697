/** Locks over whole runs of the server: what a transaction protects from everybody else, which steps
    give it up, and when an exclusive connection holds a lock. */
module Transactions {
  import opened Wrappers
  import opened ReaderState
  import opened ReaderLaws
  import opened ServerState
  import opened ServerLaws

  /** Client o holds the lock of reader i through handle h, and no other client lists h. */
  ghost predicate Owns(s: Server, i: nat, h: int, o: int) {
    && i < |s.readers| && Holds(s.readers[i], h) && s.readers[i].lockId == h
    && o in s.clients && Associated(s.clients[o], h)
    && forall id :: id in s.clients && id != o ==> h !in s.clients[id].cards
  }

  // ---- the steps that give the lock up ----

  /** The owner disconnects, or ends the last of its transactions while the connection is not exclusive. */
  predicate ReleasesLock(r: Reader, h: int, op: Operation) {
    match op
    case DoDisconnect(disposition) => disposition != BadDisposition
    case DoEnd(finish) =>
      finish != BadDisposition && EventReply(r, h) == Success && r.lockCount == 1 && r.contexts != EXCLUSIVE_CONTEXT
    case _ => false
  }

  /** The client releases its context, is cut off for naming a handle it does not list, or makes such a call. */
  predicate ReleasingCommand(c: Client, r: Reader, command: Command, h: int) {
    match command
    case ReleaseContext(ctx) => ctx == c.hContext
    case OnHandle(k, op) => !Associated(c, k) || (k == h && ReleasesLock(r, h, op))
    case _ => false
  }

  /** Or the client dies, the card is seen to go, or the reader goes. */
  predicate GivesUp(s: Server, step: Step, i: nat, h: int, o: int)
    requires i < |s.readers| && o in s.clients
  {
    match step
    case Serves(id, command, answers) => id == o && ReleasingCommand(s.clients[o], s.readers[i], command, h)
    case Dies(id, answers) => id == o
    case PollsCard(j, sees, d) => j == i && RemovalSeen(s.readers[i], sees)
    case RemovesReader(j) => j == i
    case _ => false
  }

  // ---- calls of the owner ----

  /** What a call of the owner does to the depth of its lock: a begin goes deeper, an end comes back, a
      change to exclusive takes another lock and a change from exclusive gives one back, but the last. */
  function Shift(r: Reader, h: int, op: Operation, d: Driver): int {
    if Arguments(op) != Success then 0
    else match op
      case DoBegin => if Begin(r, h).reply == Success then 1 else 0
      case DoEnd(finish) => if EventReply(r, h) == Success && r.lockCount > 1 then -1 else 0
      case DoReconnect(mode, q, init) =>
        if Reconnect(r, h, mode, q, init, d).reply != Success then 0
        else if mode == Exclusive then (if r.contexts != EXCLUSIVE_CONTEXT then 1 else 0)
        else if r.contexts == EXCLUSIVE_CONTEXT && r.lockCount > 1 then -1
        else 0
      case _ => 0
  }

  lemma OwnReconnect(r: Reader, h: int, mode: Mode, q: Request, init: Disposition, d: Driver)
    requires Sound(r) && r.lockId == h && Has(r.handles, h) && mode != BadMode
    ensures var o := Reconnect(r, h, mode, q, init, d);
      o.reader.lockId == h && o.reader.lockCount == r.lockCount +
        if o.reply != Success then 0
        else if mode == Exclusive then (if r.contexts != EXCLUSIVE_CONTEXT then 1 else 0)
        else if r.contexts == EXCLUSIVE_CONTEXT && r.lockCount > 1 then -1
        else 0
  {
    var ready := Initialise(r, init, d);
    InitialiseKeeps(r, init, d);
    SetProtocolKeeps(ready.reader, mode, q, d);
  }

  lemma OwnEnd(r: Reader, h: int, finish: Disposition, d: Driver)
    requires Sound(r) && r.lockId == h && Has(r.handles, h)
    ensures var s := End(r, h, finish, d).reader;
      if EventReply(r, h) != Success then s == r
      else if r.lockCount > 1 then s.lockId == h && s.lockCount == r.lockCount - 1
      else if r.contexts == EXCLUSIVE_CONTEXT then s.lockId == h && s.lockCount == 1
      else s.lockId == 0
  {
    ConcludeKeeps(r, finish, d);
  }

  /** A call of the owner keeps the lock exactly when it is not one that releases it, and then the depth
      is what the call makes it. */
  lemma OwnRequest(r: Reader, h: int, op: Operation, d: Driver)
    requires Sound(r) && r.lockId == h && Has(r.handles, h) && Arguments(op) == Success
    ensures var s := Apply(r, h, op, d).reader;
      && (s.lockId == h <==> !ReleasesLock(r, h, op))
      && (!ReleasesLock(r, h, op) ==> s.lockCount == r.lockCount + Shift(r, h, op, d) && Has(s.handles, h))
      && s.live == r.live
  {
    assert h != 0;
    ApplyKeepsSound(r, h, op, d);
    match op
    case DoReconnect(mode, q, init) => OwnReconnect(r, h, mode, q, init, d);
    case DoDisconnect(disposition) => DisconnectLaw(r, h, disposition, d);
    case DoEnd(finish) => OwnEnd(r, h, finish, d);
    case _ =>
  }

  // ---- steps of the others ----

  /** A step that is not a call of the owner through h and not a turn of the polling thread of reader i. */
  predicate OwnCall(step: Step, h: int, o: int) {
    step.Serves? && step.id == o && step.command.OnHandle? && step.command.card == h
  }

  predicate Watches(step: Step, i: nat) {
    (step.StartsPolling? || step.PollsCard? || step.PollsPower?) && step.i == i
  }

  /** Other handles may have gone, and the sharing may have been passed on. Nothing else differs: the same
      owner as deep in its transactions and with the same event, the same card, protocol, power and
      status, and no call has reached the driver. */
  ghost predicate Undisturbed(r: Reader, t: Reader, h: int) {
    && t == r.(handles := t.handles, contexts := t.contexts, sharing := t.sharing, polledSharing := t.polledSharing)
    && EventOf(t.handles, h) == EventOf(r.handles, h)
  }

  lemma ForeignHandle(s: Server, id: int, k: int, op: Operation, d: Driver, i: nat, h: int, o: int)
    requires Inv(s) && Owns(s, i, h, o) && id in s.clients && Associated(s.clients[id], k) && k != h
    ensures var t := ServeHandle(s, id, k, op, d).server;
      Owns(t, i, h, o) && Undisturbed(s.readers[i], t.readers[i], h)
  {
    var t := ServeHandle(s, id, k, op, d).server;
    var j := FindById(s.readers, k);
    DropFirstKeeps(s.clients[id].cards, k);
    if j == i && k != 0 && Arguments(op) == Success {
      LockedOut(s.readers[i], k, op, d);
      WithoutLaw(s.readers[i].handles, k);
    }
  }

  /** A connect leaves a locked reader and an exclusive one as they are, whichever reader it names. */
  lemma LockedReaderUntouched(s: Server, id: int, ctx: int, name: string, mode: Mode, q: ReaderState.Request, card: int, d: Driver,
                              i: nat)
    requires Inv(s) && id in s.clients && i < |s.readers| && s.readers[i].live
    requires s.readers[i].lockId != 0 || s.readers[i].contexts == EXCLUSIVE_CONTEXT
    ensures var t := ServeConnect(s, id, ctx, name, mode, q, card, d).server;
      |t.readers| == |s.readers| && t.readers[i] == s.readers[i] && (Unused(s.readers, card) || t.clients == s.clients)
  {
    var j := FindByName(s.readers, name);
    if ConnectArguments(mode, q) == Success && j < |s.readers| && Unused(s.readers, card) {
      ConnectLaw(s.readers[j], mode, q, card, s.maxHandles, d);
      var rs := s.readers[j := Connect(s.readers[j], mode, q, card, s.maxHandles, d).reader];
      assert rs[i] == s.readers[i];
      assert FindById(rs, card) != i;
    }
  }

  lemma ForeignConnect(s: Server, id: int, ctx: int, name: string, mode: Mode, q: ReaderState.Request, card: int, d: Driver,
                       i: nat, h: int, o: int)
    requires Inv(s) && Owns(s, i, h, o) && id in s.clients
    ensures var t := ServeConnect(s, id, ctx, name, mode, q, card, d).server;
      Owns(t, i, h, o) && Undisturbed(s.readers[i], t.readers[i], h)
  {
    LockedReaderUntouched(s, id, ctx, name, mode, q, card, d, i);
    FoundUnique(s.readers, i, h);
    assert Unused(s.readers, card) ==> card != h;
    var t := ServeConnect(s, id, ctx, name, mode, q, card, d).server;
    assert t.clients == s.clients || t.clients == s.clients[id := s.clients[id].(cards := s.clients[id].cards + [card])];
  }

  lemma ForeignRelease(s: Server, id: int, answers: Answers, clients: map<int, Client>, i: nat, h: int, o: int)
    requires Inv(s) && Owns(s, i, h, o) && id in s.clients && id != o && clients.Keys <= s.clients.Keys
    requires forall x :: x in s.clients && x != id ==> x in clients && clients[x] == s.clients[x]
    requires id in clients ==> clients[id] == Client(0, [])
    ensures var t := s.(readers := ReleaseAll(s.readers, s.clients[id].cards, answers, 0), clients := clients);
      Owns(t, i, h, o) && Undisturbed(s.readers[i], t.readers[i], h)
  {
    var cards := s.clients[id].cards;
    ReleaseAllLaw(s.readers, cards, answers, 0);
    var r := s.readers[i];
    var t := ReleaseAll(s.readers, cards, answers, 0)[i];
    assert Released(r, t, cards) && Told(r, t);
    assert r.calls == t.calls;
    assert !Disturbed(r, t);
  }

  lemma ForeignCleanup(s: Server, id: int, answers: Answers, i: nat, h: int, o: int)
    requires Inv(s) && Owns(s, i, h, o) && id in s.clients && id != o
    ensures var t := Cleanup(s, id, answers); Owns(t, i, h, o) && Undisturbed(s.readers[i], t.readers[i], h)
  {
    if s.clients[id].hContext != 0 {
      ForeignRelease(s, id, answers, s.clients - {id}, i, h, o);
    }
  }

  lemma ForeignServe(s: Server, id: int, command: Command, answers: Answers, i: nat, h: int, o: int)
    requires Inv(s) && Owns(s, i, h, o) && id in s.clients
    requires id == o ==> !ReleasingCommand(s.clients[o], s.readers[i], command, h) && !OwnCall(Serves(id, command, answers), h, o)
    ensures var t := Serve(s, id, command, answers).server;
      Owns(t, i, h, o) && Undisturbed(s.readers[i], t.readers[i], h)
  {
    match command
    case Establish(ctx) =>
    case ReleaseContext(ctx) =>
      if id != o && s.clients[id].hContext != 0 && s.clients[id].hContext == ctx {
        ForeignRelease(s, id, answers, s.clients[id := Client(0, [])], i, h, o);
      }
    case ConnectTo(ctx, name, mode, q, card) => ForeignConnect(s, id, ctx, name, mode, q, card, answers(0), i, h, o);
    case OnHandle(k, op) =>
      if Associated(s.clients[id], k) {
        ForeignHandle(s, id, k, op, answers(0), i, h, o);
      } else {
        ForeignCleanup(s, id, answers, i, h, o);
      }
  }

  lemma ForeignStep(s: Server, step: Step, i: nat, h: int, o: int)
    requires Inv(s) && Owns(s, i, h, o) && !GivesUp(s, step, i, h, o) && !OwnCall(step, h, o) && !Watches(step, i)
    ensures var t := Next(s, step); Owns(t, i, h, o) && Undisturbed(s.readers[i], t.readers[i], h)
  {
    match step
    case Serves(id, command, answers) => if id in s.clients { ForeignServe(s, id, command, answers, i, h, o); }
    case Dies(id, answers) => if id in s.clients { ForeignCleanup(s, id, answers, i, h, o); }
    case _ =>
  }

  /** A turn of the polling thread of reader i that is not quiet: its first look, a look that finds what it did
      not see last, and a tick on a card that is powered but not in use, or was in use before. */
  predicate Stirs(s: Server, step: Step, i: nat)
    requires i < |s.readers|
  {
    match step
    case StartsPolling(j, sees, d) => j == i && s.readers[i].polled == NotStarted
    case PollsCard(j, sees, d) => j == i && !LooksQuietly(s.readers[i], sees)
    case PollsPower(j) => j == i && !TicksQuietly(s.readers[i])
    case _ => false
  }

  /** The polling thread never takes the lock without a removal, and disturbs what the lock protects exactly
      when it is not quiet. */
  lemma WatchingStep(s: Server, step: Step, i: nat, h: int, o: int)
    requires Inv(s) && Owns(s, i, h, o) && !GivesUp(s, step, i, h, o) && Watches(step, i)
    ensures var t := Next(s, step);
      && Owns(t, i, h, o) && t.readers[i].lockCount == s.readers[i].lockCount
      && (Undisturbed(s.readers[i], t.readers[i], h) <==> !Stirs(s, step, i))
  {
    hide LooksQuietly, TicksQuietly;
    match step
    case StartsPolling(j, sees, d) =>
      PollRestKeepsSound(s.readers[i], sees, d);
      QuietLook(s.readers[i], sees, d);
      StartsDisturbed(s.readers[i], sees, d, h);
    case PollsCard(j, sees, d) =>
      PollStatusLaw(s.readers[i], sees, d);
      QuietLook(s.readers[i], sees, d);
      LookDisturbs(s.readers[i], sees, d, h);
    case PollsPower(j) => TickDisturbs(s.readers[i], h);
  }

  lemma StartsDisturbed(r: Reader, o: Observation, d: Driver, h: int)
    ensures Undisturbed(r, PollStart(r, o, d), h) <==> r.polled != NotStarted
  {
  }

  lemma LookDisturbs(r: Reader, o: Observation, d: Driver, h: int)
    requires Sound(r) && !RemovalSeen(r, o)
    ensures Undisturbed(r, PollStatus(r, o, d), h) <==> LooksQuietly(r, o)
  {
    QuietLook(r, o, d);
  }

  lemma TickDisturbs(r: Reader, h: int)
    ensures Undisturbed(r, PollPower(r), h) <==> TicksQuietly(r)
  {
  }

  /** For example: the card of a direct connection is powered down in the middle of its transaction. */
  lemma DirectCardGoesDown(s: Server, i: nat, h: int, o: int)
    requires Inv(s) && Owns(s, i, h, o) && s.readers[i].power == Powered && s.readers[i].polled == SawPresent
    ensures var t := Next(s, PollsPower(i));
      Owns(t, i, h, o) && t.readers[i].power == PowerOff && t.readers[i].calls == s.readers[i].calls + [AutoPowerDown]
  {
  }

  lemma OwnStep(s: Server, step: Step, i: nat, h: int, o: int)
    requires Inv(s) && Owns(s, i, h, o) && !GivesUp(s, step, i, h, o) && OwnCall(step, h, o)
    ensures var t := Next(s, step);
      Owns(t, i, h, o) && t.readers[i].lockCount == s.readers[i].lockCount + Shift(s.readers[i], h, step.command.op, step.answers(0))
  {
    FoundUnique(s.readers, i, h);
    assert Sound(s.readers[i]) && h != 0;
    if Arguments(step.command.op) == Success {
      OwnRequest(s.readers[i], h, step.command.op, step.answers(0));
    }
  }

  function StepShift(s: Server, step: Step, i: nat, h: int, o: int): int
    requires i < |s.readers|
  {
    if OwnCall(step, h, o) then Shift(s.readers[i], h, step.command.op, step.answers(0)) else 0
  }

  lemma LockStep(s: Server, step: Step, i: nat, h: int, o: int)
    requires Inv(s) && Owns(s, i, h, o) && !GivesUp(s, step, i, h, o)
    ensures var t := Next(s, step);
      && Owns(t, i, h, o) && t.readers[i].lockCount == s.readers[i].lockCount + StepShift(s, step, i, h, o)
      && (OwnCall(step, h, o) || Stirs(s, step, i) || Undisturbed(s.readers[i], t.readers[i], h))
  {
    if OwnCall(step, h, o) {
      OwnStep(s, step, i, h, o);
    } else if Watches(step, i) {
      WatchingStep(s, step, i, h, o);
    } else {
      ForeignStep(s, step, i, h, o);
    }
  }

  /** The other half: after each of the steps that give the lock up, h does not hold it. */
  lemma LockLost(s: Server, step: Step, i: nat, h: int, o: int)
    requires Inv(s) && Owns(s, i, h, o) && GivesUp(s, step, i, h, o)
    ensures var t := Next(s, step); i < |t.readers| && t.readers[i].lockId != h
  {
    assert Sound(s.readers[i]) && h != 0;
    match step
    case Serves(id, command, answers) =>
      ReleaseAllLaw(s.readers, s.clients[o].cards, answers, 0);
      assert Released(s.readers[i], ReleaseAll(s.readers, s.clients[o].cards, answers, 0)[i], s.clients[o].cards);
      if command.OnHandle? && Associated(s.clients[o], command.card) {
        FoundUnique(s.readers, i, h);
        OwnRequest(s.readers[i], h, command.op, answers(0));
      }
    case Dies(id, answers) =>
      ReleaseAllLaw(s.readers, s.clients[o].cards, answers, 0);
      assert Released(s.readers[i], ReleaseAll(s.readers, s.clients[o].cards, answers, 0)[i], s.clients[o].cards);
    case PollsCard(j, sees, d) => PollStatusLaw(s.readers[i], sees, d);
    case RemovesReader(j) =>
  }

  // ---- whole runs ----

  /** No step of the run gives the lock up. */
  ghost predicate Keeps(s: Server, steps: seq<Step>, i: nat, h: int, o: int)
    decreases steps
  {
    steps == [] ||
    (i < |s.readers| && o in s.clients && !GivesUp(s, steps[0], i, h, o) && Keeps(Next(s, steps[0]), steps[1..], i, h, o))
  }

  /** How much deeper the calls of the owner go. */
  function Depth(s: Server, steps: seq<Step>, i: nat, h: int, o: int): int
    decreases steps
  {
    if steps == [] || i >= |s.readers| then 0
    else StepShift(s, steps[0], i, h, o) + Depth(Next(s, steps[0]), steps[1..], i, h, o)
  }

  /** Each step but the owner's calls leaves the reader alone, and so does the polling thread while it is quiet. */
  ghost predicate OthersKeepOut(s: Server, steps: seq<Step>, i: nat, h: int, o: int, stirred: bool)
    decreases steps
  {
    steps == [] ||
    (var t := Next(s, steps[0]);
     && i < |s.readers| && i < |t.readers|
     && (OwnCall(steps[0], h, o) || (stirred && Stirs(s, steps[0], i)) || Undisturbed(s.readers[i], t.readers[i], h))
     && OthersKeepOut(t, steps[1..], i, h, o, stirred))
  }

  /** From the moment handle h holds the lock of reader i, and through any run without a step that gives
      it up, in which h itself may do anything else with its card, h keeps the lock, as deep as its own
      calls make it, and no step of anybody else touches the card or what h knows of it, but for the
      turns of the polling thread that are not quiet. */
  lemma {:induction false} LockHeld(s: Server, steps: seq<Step>, i: nat, h: int, o: int)
    requires Inv(s) && Owns(s, i, h, o) && Keeps(s, steps, i, h, o)
    ensures var t := Run(s, steps);
      && Owns(t, i, h, o) && t.readers[i].lockCount == s.readers[i].lockCount + Depth(s, steps, i, h, o)
      && OthersKeepOut(s, steps, i, h, o, true)
    decreases steps
  {
    if steps != [] {
      NextKeepsInv(s, steps[0]);
      LockStep(s, steps[0], i, h, o);
      LockHeld(Next(s, steps[0]), steps[1..], i, h, o);
    }
  }

  /** A card in use that the polling thread has seen. */
  predicate CardHeld(r: Reader) {
    r.polled == SawPresent && r.power == InUse
  }

  /** The polling thread keeps seeing the card. */
  predicate SeenThroughout(steps: seq<Step>, i: nat) {
    forall k :: 0 <= k < |steps| && steps[k].PollsCard? && steps[k].i == i ==> steps[k].sees == SeesPresent
  }

  lemma OwnCallKeepsCard(r: Reader, h: int, op: Operation, d: Driver)
    requires Sound(r) && Has(r.handles, h) && CardHeld(r) && !(op.DoDisconnect? && Apply(r, h, op, d).reply == Success)
    ensures CardHeld(Apply(r, h, op, d).reader)
  {
    InUseLaw(r, h, op, d);
    match op
    case DoReconnect(mode, q, init) => var _ := ReconnectShape(r, h, mode, q, init, d);
    case _ =>
  }

  lemma OwnStepKeepsCard(s: Server, step: Step, i: nat, h: int, o: int)
    requires Inv(s) && Owns(s, i, h, o) && !GivesUp(s, step, i, h, o) && OwnCall(step, h, o) && CardHeld(s.readers[i])
    ensures i < |Next(s, step).readers| && CardHeld(Next(s, step).readers[i])
  {
    FoundUnique(s.readers, i, h);
    assert Sound(s.readers[i]);
    if Arguments(step.command.op) == Success {
      OwnCallKeepsCard(s.readers[i], h, step.command.op, step.answers(0));
    }
  }

  lemma CardStep(s: Server, step: Step, i: nat, h: int, o: int)
    requires Inv(s) && Owns(s, i, h, o) && !GivesUp(s, step, i, h, o) && CardHeld(s.readers[i])
    requires step.PollsCard? && step.i == i ==> step.sees == SeesPresent
    ensures var t := Next(s, step);
      && i < |t.readers| && CardHeld(t.readers[i])
      && (OwnCall(step, h, o) || Undisturbed(s.readers[i], t.readers[i], h))
  {
    if OwnCall(step, h, o) {
      OwnStepKeepsCard(s, step, i, h, o);
    } else if Watches(step, i) {
      if !step.PollsPower? { QuietPolling(s.readers[i], step.sees, step.d); }
    } else {
      ForeignStep(s, step, i, h, o);
    }
  }

  /** Isolation, with a card in use that stays in place: besides, the card stays powered, and nothing but
      the calls of h reaches it or changes its protocol or status, the polling thread included. */
  lemma {:induction false} TransactionIsolated(s: Server, steps: seq<Step>, i: nat, h: int, o: int)
    requires Inv(s) && Owns(s, i, h, o) && Keeps(s, steps, i, h, o)
    requires CardHeld(s.readers[i]) && SeenThroughout(steps, i)
    ensures var t := Run(s, steps);
      && Owns(t, i, h, o) && t.readers[i].lockCount == s.readers[i].lockCount + Depth(s, steps, i, h, o)
      && CardHeld(t.readers[i]) && OthersKeepOut(s, steps, i, h, o, false)
    decreases steps
  {
    if steps != [] {
      NextKeepsInv(s, steps[0]);
      LockStep(s, steps[0], i, h, o);
      CardStep(s, steps[0], i, h, o);
      assert forall k :: 0 <= k < |steps[1..]| ==> steps[1..][k] == steps[k + 1];
      TransactionIsolated(Next(s, steps[0]), steps[1..], i, h, o);
    }
  }

  /** A successful begin of a handle that no other client lists takes the lock, or one level more of it. */
  lemma BeginStartsTransaction(s: Server, i: nat, h: int, o: int, answers: Answers)
    requires Inv(s) && i < |s.readers| && Holds(s.readers[i], h) && o in s.clients && Associated(s.clients[o], h)
    requires forall id :: id in s.clients && id != o ==> h !in s.clients[id].cards
    requires Serve(s, o, OnHandle(h, DoBegin), answers).reply == Success
    ensures var t := Serve(s, o, OnHandle(h, DoBegin), answers).server;
      Owns(t, i, h, o) && t.readers[i].lockCount == s.readers[i].lockCount + 1
  {
    FoundUnique(s.readers, i, h);
    assert Sound(s.readers[i]);
  }

  // ---- exclusive connections ----

  predicate Exclusively(s: Server, i: nat) {
    i < |s.readers| && s.readers[i].live && s.readers[i].contexts == EXCLUSIVE_CONTEXT
  }

  /** A successful begin through a handle of reader i. */
  predicate BeginsOn(s: Server, step: Step, i: nat)
    requires i < |s.readers|
  {
    && step.Serves? && step.id in s.clients && step.command.OnHandle? && step.command.op.DoBegin?
    && Associated(s.clients[step.id], step.command.card) && FindById(s.readers, step.command.card) == i
    && Serve(s, step.id, step.command, step.answers).reply == Success
  }

  /** Whether the reader has a lock after the step, while the connection stays exclusive. */
  predicate LockedAfter(locked: bool, s: Server, step: Step, i: nat)
    requires i < |s.readers|
  {
    if step.PollsCard? && step.i == i && RemovalSeen(s.readers[i], step.sees) then false
    else locked || BeginsOn(s, step, i)
  }

  lemma ReleasedExclusive(r: Reader, t: Reader, cards: seq<int>)
    requires Sound(r) && Released(r, t, cards) && r.contexts == EXCLUSIVE_CONTEXT == t.contexts
    ensures t.lockId == r.lockId
  {
    if r.lockId != 0 && r.lockId in cards {
      var c := t.handles[0].card;
      assert Has(t.handles, c);
      TwoHandles(r.handles, c, r.lockId);
    }
  }

  lemma ExclusiveCall(s: Server, id: int, k: int, op: Operation, d: Driver, i: nat)
    requires Inv(s) && id in s.clients && Exclusively(s, i)
    requires var t := ServeHandle(s, id, k, op, d).server; Exclusively(t, i)
    ensures var o := ServeHandle(s, id, k, op, d);
      o.server.readers[i].lockId != 0 <==>
        s.readers[i].lockId != 0 || (op.DoBegin? && FindById(s.readers, k) == i && o.reply == Success)
  {
    assert Sound(s.readers[i]);
    if FindById(s.readers, k) == i && Arguments(op) == Success {
      assert k != 0;
      ExclusiveRequest(s.readers[i], k, op, d);
    }
  }

  lemma ExclusiveServe(s: Server, id: int, command: Command, answers: Answers, i: nat)
    requires Inv(s) && id in s.clients && Exclusively(s, i) && Exclusively(Serve(s, id, command, answers).server, i)
    ensures Serve(s, id, command, answers).server.readers[i].lockId != 0
       <==> s.readers[i].lockId != 0 || BeginsOn(s, Serves(id, command, answers), i)
  {
    var r := s.readers[i];
    match command
    case Establish(ctx) =>
    case ReleaseContext(ctx) => ReleaseExclusive(s, id, answers, i);
    case ConnectTo(ctx, name, mode, q, card) => LockedReaderUntouched(s, id, ctx, name, mode, q, card, answers(0), i);
    case OnHandle(k, op) =>
      if Associated(s.clients[id], k) {
        ExclusiveCall(s, id, k, op, answers(0), i);
      } else {
        ReleaseExclusive(s, id, answers, i);
      }
  }

  lemma ReleaseExclusive(s: Server, id: int, answers: Answers, i: nat)
    requires Inv(s) && id in s.clients && Exclusively(s, i)
    ensures var t := ReleaseAll(s.readers, s.clients[id].cards, answers, 0)[i];
      t.contexts == EXCLUSIVE_CONTEXT ==> t.lockId == s.readers[i].lockId
  {
    var cards := s.clients[id].cards;
    ReleaseAllLaw(s.readers, cards, answers, 0);
    var t := ReleaseAll(s.readers, cards, answers, 0)[i];
    assert Released(s.readers[i], t, cards);
    if t.contexts == EXCLUSIVE_CONTEXT { ReleasedExclusive(s.readers[i], t, cards); }
  }

  lemma ExclusiveStep(s: Server, step: Step, i: nat)
    requires Inv(s) && Exclusively(s, i) && Exclusively(Next(s, step), i)
    ensures Next(s, step).readers[i].lockId != 0 <==> LockedAfter(s.readers[i].lockId != 0, s, step, i)
  {
    match step
    case Serves(id, command, answers) => if id in s.clients { ExclusiveServe(s, id, command, answers, i); }
    case Dies(id, answers) => if id in s.clients { ReleaseExclusive(s, id, answers, i); }
    case StartsPolling(j, sees, d) => PollRestKeepsSound(s.readers[i], sees, d);
    case PollsCard(j, sees, d) => RemovalKeepsExclusive(s.readers[i], sees, d);
    case _ =>
  }

  ghost predicate StaysExclusive(s: Server, steps: seq<Step>, i: nat)
    decreases steps
  {
    Exclusively(s, i) && (steps == [] || StaysExclusive(Next(s, steps[0]), steps[1..], i))
  }

  function LockedThrough(locked: bool, s: Server, steps: seq<Step>, i: nat): bool
    decreases steps
  {
    if steps == [] || i >= |s.readers| then locked
    else LockedThrough(LockedAfter(locked, s, steps[0], i), Next(s, steps[0]), steps[1..], i)
  }

  /** While a connection is exclusive it loses its lock exactly when its card is seen to go, and has one
      again exactly from its next begin on. */
  lemma {:induction false} ExclusiveLock(s: Server, steps: seq<Step>, i: nat)
    requires Inv(s) && StaysExclusive(s, steps, i)
    ensures var t := Run(s, steps);
      i < |t.readers| && (t.readers[i].lockId != 0 <==> LockedThrough(s.readers[i].lockId != 0, s, steps, i))
    decreases steps
  {
    if steps != [] {
      NextKeepsInv(s, steps[0]);
      ExclusiveStep(s, steps[0], i);
      ExclusiveLock(Next(s, steps[0]), steps[1..], i);
    }
  }
}
