/** Whole runs of the server: what every handle is told, what keeps a card powered, and where two
    clients can still get in each other's way. */
module ServerRuns {
  import opened Wrappers
  import opened ReaderState
  import opened ReaderLaws
  import opened ServerState
  import opened ServerLaws

  // ---- what a handle is told, what keeps a card powered ----

  /** How the reader of a connect ends up. */
  ghost predicate ConnectedOrAbandoned(r: Reader, x: Reader, mode: Mode, q: ReaderState.Request, card: int, max: nat, d: Driver) {
    var o := Connect(r, mode, q, card, max, d);
    x == o.reader || (o.reply == Success && x == Disconnect(o.reader, card, Leave, d).reader)
  }

  lemma ServeConnectShape(s: Server, id: int, ctx: int, name: string, mode: Mode, q: ReaderState.Request, card: int, d: Driver, i: nat)
    requires Inv(s) && id in s.clients && i < |s.readers|
    ensures var t := ServeConnect(s, id, ctx, name, mode, q, card, d).server;
      && |t.readers| == |s.readers|
      && (t.readers[i] == s.readers[i] ||
          (s.readers[i].live && Unused(s.readers, card) && ConnectedOrAbandoned(s.readers[i], t.readers[i], mode, q, card, s.maxHandles, d)))
  {
    var j := FindByName(s.readers, name);
    if ConnectArguments(mode, q) == Success && j < |s.readers| && Unused(s.readers, card) {
      var o := Connect(s.readers[j], mode, q, card, s.maxHandles, d);
      ConnectLaw(s.readers[j], mode, q, card, s.maxHandles, d);
      AddedLaw(s.readers[j].handles, card, NoEvent);
      if o.reply == Success {
        ConnectedReaders(s.readers, j, mode, q, card, s.maxHandles, d);
        FoundUnique(s.readers[j := o.reader], j, card);
      }
    }
  }

  /** What a handle that stays is told when it does not reconnect: of a removal the polling thread has
      seen, else of a reset, else nothing. */
  ghost predicate Informed(r: Reader, t: Reader, c: int, removed: bool) {
    && r.calls <= t.calls
    && (Has(r.handles, c) && Has(t.handles, c) ==>
          EventOf(t.handles, c) == if removed then Some(RemovedEvent)
                                   else if Disturbed(r, t) then Some(ResetEvent)
                                   else EventOf(r.handles, c))
  }

  /** While a connection is left, the card stays in use, and out of the hands of the polling thread. */
  predicate StaysInUse(r: Reader, t: Reader) {
    r.power == InUse && t.contexts != 0 ==> t.power == InUse
  }

  predicate StaysCalm(r: Reader, t: Reader) {
    Calm(r.power) && t.contexts != 0 ==> Calm(t.power)
  }

  lemma ConnectInforms(r: Reader, x: Reader, mode: Mode, q: ReaderState.Request, card: int, max: nat, d: Driver, c: int)
    requires Sound(r) && r.live && card != 0 && !Has(r.handles, card) && max >= 1
    requires ConnectedOrAbandoned(r, x, mode, q, card, max, d)
    ensures Informed(r, x, c, false) && StaysInUse(r, x) && StaysCalm(r, x)
  {
    var o := Connect(r, mode, q, card, max, d);
    ConnectDisturbsNobody(r, mode, q, card, max, d);
    ConnectLaw(r, mode, q, card, max, d);
    if x != o.reader {
      AddedLaw(r.handles, card, NoEvent);
      DisconnectEvents(o.reader, card, Leave, d);
      PowerAfterDisconnect(o.reader, card, Leave, d);
      DisconnectLaw(o.reader, card, Leave, d);
      DisturbedBy(o.reader, x, []);
      DisturbedTransitive(r, o.reader, x);
    }
  }

  predicate Reconnects(s: Server, step: Step, c: int) {
    && step.Serves? && step.id in s.clients && step.command.OnHandle? && step.command.card == c && step.command.op.DoReconnect?
    && Serve(s, step.id, step.command, step.answers).reply == Success
  }

  /** The polling thread of reader i finds a card that it last saw missing or in error, or looks for the
      first time: it powers the card up. */
  predicate PowersUp(s: Server, step: Step, i: nat)
    requires i < |s.readers|
  {
    || (step.PollsCard? && step.i == i && FindsCard(s.readers[i], step.sees))
    || (step.StartsPolling? && step.i == i && step.sees == SeesPresent && s.readers[i].polled == NotStarted)
  }

  /** A client leaves reader i and asks for its card to be powered down. */
  predicate AsksPowerDown(s: Server, step: Step, i: nat) {
    step.Serves? && step.command.OnHandle? && step.command.op == DoDisconnect(Unpower) && FindById(s.readers, step.command.card) == i
  }

  /** The polling thread notices that the card of reader i has gone. */
  predicate Removal(s: Server, step: Step, i: nat)
    requires i < |s.readers|
  {
    step.PollsCard? && step.i == i && RemovalSeen(s.readers[i], step.sees)
  }

  lemma PollInforms(r: Reader, o: Observation, d: Driver, c: int)
    requires Sound(r)
    ensures Informed(r, PollStart(r, o, d), c, false) && Informed(r, PollStatus(r, o, d), c, RemovalSeen(r, o))
  {
    PollStatusLaw(r, o, d);
    var up := if o == SeesPresent then [PowerUp] else [];
    DisturbedBy(r, PollStart(r, o, d), if r.polled != NotStarted then [] else up);
    DisturbedBy(r, PollStatus(r, o, d), if r.polled == NotStarted || r.polled == SawPresent then [] else up);
  }

  lemma PollPowerInforms(r: Reader, c: int)
    ensures Informed(r, PollPower(r), c, false)
  {
    DisturbedBy(r, PollPower(r), if r.polled != NotStarted && r.power == Powered then [AutoPowerDown] else []);
  }

  lemma SameReaderInforms(r: Reader, c: int)
    ensures Informed(r, r, c, false) && StaysInUse(r, r) && StaysCalm(r, r)
  {
  }

  lemma ReleaseInforms(rs: seq<Reader>, cards: seq<int>, answers: Answers, i: nat, c: int)
    requires AllSound(rs) && Disjoint(rs) && i < |rs|
    ensures var t := ReleaseAll(rs, cards, answers, 0)[i]; Informed(rs[i], t, c, false) && StaysInUse(rs[i], t) && StaysCalm(rs[i], t)
  {
    ReleaseAllLaw(rs, cards, answers, 0);
    var ss := ReleaseAll(rs, cards, answers, 0);
    assert Told(rs[i], ss[i]) && StaysPowered(rs[i], ss[i]);
  }

  lemma HandleInforms(s: Server, id: int, h: int, op: Operation, d: Driver, i: nat, c: int)
    requires Inv(s) && id in s.clients && i < |s.readers|
    ensures var o := ServeHandle(s, id, h, op, d);
      && |o.server.readers| == |s.readers| && s.readers[i].calls <= o.server.readers[i].calls
      && (if Reconnected(h, op, o.reply, c)
          then Holds(s.readers[i], c) ==> EventOf(o.server.readers[i].handles, c) == Some(NoEvent)
          else Informed(s.readers[i], o.server.readers[i], c, false))
      && ((op == DoDisconnect(Unpower) && FindById(s.readers, h) == i) || StaysInUse(s.readers[i], o.server.readers[i]))
      && StaysCalm(s.readers[i], o.server.readers[i])
  {
    var o := Apply(s.readers[i], h, op, d);
    SameReaderInforms(s.readers[i], c);
    if Holds(s.readers[i], c) { FoundUnique(s.readers, i, c); }
    if FindById(s.readers, h) == i && h != 0 && Arguments(op) == Success {
      EventLaw(s.readers[i], h, op, d);
      ApplyKeepsSound(s.readers[i], h, op, d);
      if s.readers[i].power == InUse { InUseLaw(s.readers[i], h, op, d); }
      if Calm(s.readers[i].power) && o.reader.contexts != 0 { CalmLaw(s.readers[i], h, op, d); }
    }
  }

  /** The event of handle c after a step: taken back by its own successful reconnect, else told. */
  ghost predicate EventFollows(s: Server, step: Step, t: Server, i: nat, c: int)
    requires i < |s.readers| && i < |t.readers|
  {
    && s.readers[i].calls <= t.readers[i].calls
    && (if Reconnects(s, step, c) then Holds(s.readers[i], c) ==> EventOf(t.readers[i].handles, c) == Some(NoEvent)
        else Informed(s.readers[i], t.readers[i], c, Removal(s, step, i)))
  }

  ghost predicate PowerFollows(s: Server, step: Step, t: Server, i: nat)
    requires i < |s.readers| && i < |t.readers|
  {
    PowersUp(s, step, i) ||
    (StaysCalm(s.readers[i], t.readers[i]) && (AsksPowerDown(s, step, i) || StaysInUse(s.readers[i], t.readers[i])))
  }

  lemma ServeInforms(s: Server, id: int, command: Command, answers: Answers, i: nat, c: int)
    requires Inv(s) && id in s.clients && i < |s.readers|
    ensures var t := Serve(s, id, command, answers).server;
      && |t.readers| == |s.readers|
      && EventFollows(s, Serves(id, command, answers), t, i, c)
      && PowerFollows(s, Serves(id, command, answers), t, i)
  {
    SameReaderInforms(s.readers[i], c);
    match command
    case Establish(ctx) =>
    case ReleaseContext(ctx) => ReleaseInforms(s.readers, s.clients[id].cards, answers, i, c);
    case ConnectTo(ctx, name, mode, q, card) =>
      ServeConnectShape(s, id, ctx, name, mode, q, card, answers(0), i);
      var x := Serve(s, id, command, answers).server.readers[i];
      if x != s.readers[i] { ConnectInforms(s.readers[i], x, mode, q, card, s.maxHandles, answers(0), c); }
    case OnHandle(h, op) =>
      ReleaseInforms(s.readers, s.clients[id].cards, answers, i, c);
      HandleInforms(s, id, h, op, answers(0), i, c);
  }

  /** One step, for the events of one handle and for a card in use. */
  lemma StepInforms(s: Server, step: Step, i: nat, c: int)
    requires Inv(s) && i < |s.readers| && s.readers[i].live && i < |Next(s, step).readers| && Next(s, step).readers[i].live
    ensures var t := Next(s, step);
      EventFollows(s, step, t, i, c) && PowerFollows(s, step, t, i)
  {
    SameReaderInforms(s.readers[i], c);
    match step
    case Serves(id, command, answers) => if id in s.clients { ServeInforms(s, id, command, answers, i, c); }
    case Dies(id, answers) => if id in s.clients { ReleaseInforms(s.readers, s.clients[id].cards, answers, i, c); }
    case StartsPolling(j, sees, d) => PollInforms(s.readers[i], sees, d, c);
    case PollsCard(j, sees, d) => PollInforms(s.readers[i], sees, d, c);
    case PollsPower(j) => PollPowerInforms(s.readers[i], c);
    case _ =>
  }

  ghost predicate Present(s: Server, i: nat, c: int) {
    i < |s.readers| && Holds(s.readers[i], c)
  }

  /** Handle c is on reader i all along. */
  ghost predicate StaysPresent(s: Server, steps: seq<Step>, i: nat, c: int)
    decreases steps
  {
    Present(s, i, c) && (steps == [] || StaysPresent(Next(s, steps[0]), steps[1..], i, c))
  }

  /** The latest notice of a run for handle c on reader i: e, unless the card is seen to go, or the driver is
      asked to reset the card or to power it down for a client, or the handle reconnects with success. */
  function Latest(e: Event, s: Server, steps: seq<Step>, i: nat, c: int): Event
    decreases steps
  {
    if steps == [] then e
    else
      var t := Next(s, steps[0]);
      if i >= |s.readers| || i >= |t.readers| then e
      else
        var f := if Reconnects(s, steps[0], c) then NoEvent
                 else if Removal(s, steps[0], i) then RemovedEvent
                 else if Disturbed(s.readers[i], t.readers[i]) then ResetEvent
                 else e;
        Latest(f, t, steps[1..], i, c)
  }

  /** A handle reads the latest notice: what its event says is at any moment the latest of the resets
      and removals of its reader, and of its own reconnects. */
  lemma {:induction false} NothingMissed(s: Server, steps: seq<Step>, i: nat, c: int)
    requires Inv(s) && StaysPresent(s, steps, i, c)
    ensures var t := Run(s, steps);
      && Present(s, i, c) && Present(t, i, c)
      && EventOf(t.readers[i].handles, c) == Some(Latest(EventOf(s.readers[i].handles, c).value, s, steps, i, c))
    decreases steps
  {
    if steps != [] {
      NextKeepsInv(s, steps[0]);
      StepInforms(s, steps[0], i, c);
      NothingMissed(Next(s, steps[0]), steps[1..], i, c);
    }
  }

  /** A new handle has been told of nothing. */
  lemma NewHandleUntold(s: Server, id: int, ctx: int, name: string, mode: Mode, q: ReaderState.Request, card: int, d: Driver)
    requires Inv(s) && id in s.clients && ServeConnect(s, id, ctx, name, mode, q, card, d).reply == Success
    ensures var i := FindByName(s.readers, name);
      var t := ServeConnect(s, id, ctx, name, mode, q, card, d).server;
      Present(t, i, card) && EventOf(t.readers[i].handles, card) == Some(NoEvent)
  {
    var i := FindByName(s.readers, name);
    ConnectLaw(s.readers[i], mode, q, card, s.maxHandles, d);
    AddedLaw(s.readers[i].handles, card, NoEvent);
  }

  /** Handle c does not reconnect with success. */
  ghost predicate NeverReconnects(s: Server, steps: seq<Step>, c: int)
    decreases steps
  {
    steps == [] || (!Reconnects(s, steps[0], c) && NeverReconnects(Next(s, steps[0]), steps[1..], c))
  }

  /** Nothing has happened to the card of reader i. */
  ghost predicate NothingHappens(s: Server, steps: seq<Step>, i: nat)
    decreases steps
  {
    steps == [] ||
    (var t := Next(s, steps[0]);
     && i < |s.readers| && i < |t.readers| && !Removal(s, steps[0], i) && !Disturbed(s.readers[i], t.readers[i])
     && NothingHappens(t, steps[1..], i))
  }

  /** So a handle without an event, that has not reconnected, has missed nothing: there was nothing to miss. */
  lemma {:induction false} UntoldMeansNothing(s: Server, steps: seq<Step>, i: nat, c: int)
    requires Inv(s) && StaysPresent(s, steps, i, c) && NeverReconnects(s, steps, c)
    ensures var t := Run(s, steps);
      && Present(s, i, c) && Present(t, i, c)
      && (EventOf(t.readers[i].handles, c) == Some(NoEvent) <==>
            EventOf(s.readers[i].handles, c) == Some(NoEvent) && NothingHappens(s, steps, i))
    decreases steps
  {
    if steps != [] {
      NextKeepsInv(s, steps[0]);
      StepInforms(s, steps[0], i, c);
      UntoldMeansNothing(Next(s, steps[0]), steps[1..], i, c);
    }
  }

  /** At any moment of such a run, a handle that was told can do nothing with the card. */
  lemma ToldHandleIsRefused(s: Server, id: int, h: int, op: Operation, d: Driver, i: nat)
    requires Inv(s) && id in s.clients && Present(s, i, h) && EventOf(s.readers[i].handles, h) != Some(NoEvent)
    requires op.DoBegin? || op.DoEnd? || op.DoStatus? || op.DoAttrib? || op.DoTransmit?
    ensures var o := ServeHandle(s, id, h, op, d); o.server == s && o.reply != Success
  {
    FoundUnique(s.readers, i, h);
    var e := EventOf(s.readers[i].handles, h).value;
    assert e == ResetEvent || e == RemovedEvent;
    ToldIsRefused(s.readers[i], h, op, d);
    assert Sound(s.readers[i]);
  }

  /** Reader i keeps a connection all along, and its polling thread powers no card up. */
  ghost predicate StaysConnected(s: Server, steps: seq<Step>, i: nat)
    decreases steps
  {
    && i < |s.readers| && s.readers[i].live && s.readers[i].contexts != 0
    && (steps == [] || (!PowersUp(s, steps[0], i) && StaysConnected(Next(s, steps[0]), steps[1..], i)))
  }

  /** After a connect that is not direct, and until the last disconnect or until the polling thread finds a
      card where it last saw none or an error, no tick of the polling thread powers the card down: it
      stays in use, or off where a client has had it powered down. */
  lemma {:induction false} NeverPoweredDown(s: Server, steps: seq<Step>, i: nat)
    requires Inv(s) && StaysConnected(s, steps, i) && Calm(s.readers[i].power)
    ensures var t := Run(s, steps);
      i < |t.readers| && Calm(t.readers[i].power) && Next(t, PollsPower(i)) == t
    decreases steps
  {
    if steps == [] {
      assert s.readers[i := s.readers[i]] == s.readers;
    } else {
      NextKeepsInv(s, steps[0]);
      StepInforms(s, steps[0], i, 0);
      NeverPoweredDown(Next(s, steps[0]), steps[1..], i);
    }
  }

  ghost predicate NobodyAsks(s: Server, steps: seq<Step>, i: nat)
    decreases steps
  {
    steps == [] || (!AsksPowerDown(s, steps[0], i) && NobodyAsks(Next(s, steps[0]), steps[1..], i))
  }

  /** It stays in use when nobody has it powered down either. */
  lemma {:induction false} StaysInUseThroughRun(s: Server, steps: seq<Step>, i: nat)
    requires Inv(s) && StaysConnected(s, steps, i) && NobodyAsks(s, steps, i) && s.readers[i].power == InUse
    ensures var t := Run(s, steps); i < |t.readers| && t.readers[i].power == InUse
    decreases steps
  {
    if steps != [] {
      NextKeepsInv(s, steps[0]);
      StepInforms(s, steps[0], i, 0);
      StaysInUseThroughRun(Next(s, steps[0]), steps[1..], i);
    }
  }

  // ---- two clients with the same number ----

  /** Client id ends its context: every live handle of client x survives exactly when id does not list
      it as well. */
  lemma OthersSpared(s: Server, id: int, x: int, answers: Answers)
    requires Inv(s) && id in s.clients && x in s.clients
    ensures var rs := ReleaseAll(s.readers, s.clients[id].cards, answers, 0);
      (forall i: nat, c :: Present(s, i, c) && c in s.clients[x].cards ==> Holds(rs[i], c))
      <==> (forall i: nat, c :: Present(s, i, c) && c in s.clients[x].cards ==> c !in s.clients[id].cards)
  {
    var cards := s.clients[id].cards;
    var rs := ReleaseAll(s.readers, cards, answers, 0);
    ReleaseAllLaw(s.readers, cards, answers, 0);
    forall i: nat, c | Present(s, i, c) ensures Holds(rs[i], c) <==> c !in cards {
      assert Released(s.readers[i], rs[i], cards);
    }
  }

  function OpenDirectly(id: int, ctx: int, name: string, card: int, answers: Answers): seq<Step> {
    [Arrives(id), Serves(id, Establish(ctx), answers),
     Serves(id, ConnectTo(ctx, name, Direct, ReaderState.Request({}, false, false), card), answers)]
  }

  lemma OpenedDirectly(s: Server, id: int, ctx: int, name: string, card: int, answers: Answers)
    requires Inv(s) && id !in s.clients && ctx != 0 && s.maxCards > 0 && Unused(s.readers, card) && answers(0).authorized
    requires |s.readers| > 0 && Named(s.readers[0], name) && s.readers[0].handles == [] && s.readers[0].status != Unknown
    ensures var t := Run(s, OpenDirectly(id, ctx, name, card, answers));
      && t.clients == s.clients[id := Client(ctx, [card])] && t.maxCards == s.maxCards && t.maxHandles == s.maxHandles
      && |t.readers| == |s.readers| && t.readers == s.readers[0 := t.readers[0]]
      && t.readers[0].handles == [Handle(card, NoEvent)] && t.readers[0].live
  {
    var steps := OpenDirectly(id, ctx, name, card, answers);
    var s1 := Next(s, steps[0]);
    var s2 := Next(s1, steps[1]);
    var s3 := Next(s2, steps[2]);
    assert steps[1..][0] == steps[1] && steps[1..][1..][0] == steps[2] && steps[1..][1..][1..] == [];
    assert Run(s, steps) == Run(s1, steps[1..]) == Run(s2, steps[1..][1..]) == Run(s3, []);
    assert Sound(s.readers[0]);
    assert s2.clients == s.clients[id := Client(ctx, [])];
    assert s.readers[0].handles + [Handle(card, NoEvent)] == [Handle(card, NoEvent)];
    assert [] + [card] == [card];
  }

  lemma {:induction false} RunConcat(s: Server, a: seq<Step>, b: seq<Step>)
    ensures Run(s, a + b) == Run(Run(s, a), b)
    decreases a
  {
    if a == [] {
      assert a + b == b;
    } else {
      assert (a + b)[1..] == a[1..] + b;
      RunConcat(Next(s, a[0]), a[1..], b);
    }
  }

  function Reuse(card: int, answers: Answers): seq<Step> {
    [AddsReader("R")] + OpenDirectly(1, 11, "R", card, answers)
    + ([RemovesReader(0), AddsReader("R")] + OpenDirectly(2, 12, "R", card, answers))
  }

  /** The number of a handle whose reader is gone may be drawn again. Client 1 still lists it, so that
      its end takes the connection of client 2 away. */
  lemma HandleReused(card: int, answers: Answers)
    requires card != 0 && answers(0).authorized
    ensures var s := Run(Started(200, 200), Reuse(card, answers));
      var t := Next(s, Dies(1, answers));
      && Inv(s) && 2 in s.clients && s.clients[2].cards == [card] && Present(s, 0, card)
      && 2 in t.clients && t.clients[2].cards == [card] && !Present(t, 0, card)
  {
    var s0 := Started(200, 200);
    StartedInv(200, 200);
    var a := [AddsReader("R")];
    var s1 := Run(s0, a);
    assert a[1..] == [];
    assert s1 == Next(s0, a[0]);
    RunKeepsInv(s0, a);
    var b := OpenDirectly(1, 11, "R", card, answers);
    var s2 := Run(s1, b);
    OpenedDirectly(s1, 1, 11, "R", card, answers);
    RunKeepsInv(s1, b);
    var c := [RemovesReader(0), AddsReader("R")];
    var s3 := Run(s2, c);
    assert c[1..] == [AddsReader("R")] && c[1..][1..] == [];
    assert s3 == Next(Next(s2, c[0]), c[1]);
    RunKeepsInv(s2, c);
    var e := OpenDirectly(2, 12, "R", card, answers);
    OpenedDirectly(s3, 2, 12, "R", card, answers);
    RunKeepsInv(s3, e);
    RunConcat(s0, a, b);
    RunConcat(s0, a + b, c + e);
    RunConcat(s2, c, e);
    var s4 := Run(s3, e);
    ReleaseAllLaw(s4.readers, [card], answers, 0);
    assert Released(s4.readers[0], ReleaseAll(s4.readers, [card], answers, 0)[0], [card]);
  }
}
