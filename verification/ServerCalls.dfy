/** The calls of CallLaws as a client makes them: whose reader a command reaches, when it succeeds and what it leaves
    of the clients; and how clients end and readers come. */
module ServerCalls {
  import opened Wrappers
  import opened ReaderState
  import opened ReaderLaws
  import opened ServerState
  import opened ServerLaws
  import opened CallLaws

  /** The arguments with which a call gets as far as the reader. */
  predicate Acceptable(op: Operation) {
    match op
    case DoReconnect(mode, q, init) =>
      (init == Leave || init == Reset || init == Unpower) && mode != BadMode && (mode == Direct || Asks(q))
    case DoDisconnect(disposition) => disposition != BadDisposition
    case DoEnd(finish) => finish != BadDisposition
    case _ => true
  }

  lemma ArgumentsExactly(op: Operation)
    ensures Arguments(op) == Success <==> Acceptable(op)
    ensures !Acceptable(op) && !(op.DoReconnect? && Arguments(op) == ProtoMismatch) ==> Arguments(op) == InvalidValue
    ensures Arguments(op) == ProtoMismatch <==>
              op.DoReconnect? && !Acceptable(op) && (op.init == Leave || op.init == Reset || op.init == Unpower) && op.mode != BadMode
  {
  }

  /** Client id has handle h on reader i. */
  ghost predicate Holder(s: Server, id: int, h: int, i: nat) {
    id in s.clients && Associated(s.clients[id], h) && i < |s.readers| && Holds(s.readers[i], h)
  }

  /** A call on a handle changes the one reader that has it, and the list of cards only when it is a disconnect that
      succeeds: then the handle leaves it once. */
  lemma CallReaches(s: Server, id: int, h: int, op: Operation, answers: Answers, i: nat)
    requires Inv(s) && Holder(s, id, h, i)
    ensures var o := Serve(s, id, OnHandle(h, op), answers); var a := Apply(s.readers[i], h, op, answers(0));
      if !Acceptable(op) then o == Served(s, Arguments(op))
      else
        && o.reply == a.reply && o.server == s.(readers := s.readers[i := a.reader], clients := o.server.clients)
        && if op.DoDisconnect? && a.reply == Success then Unlisted(s.clients, o.server.clients, id, h) else o.server.clients == s.clients
  {
    hide Apply;
    FoundUnique(s.readers, i, h);
    assert Sound(s.readers[i]) && h != 0;
    ArgumentsExactly(op);
    DropFirstCount(s.clients[id].cards, h);
  }

  /** The handle leaves the list of its client once. */
  ghost predicate Unlisted(clients: map<int, Client>, after: map<int, Client>, id: int, h: int) {
    && id in clients && id in after && after == clients[id := clients[id].(cards := after[id].cards)]
    && multiset(after[id].cards) == multiset(clients[id].cards) - multiset{h}
  }

  /** A handle whose reader has gone can only be disconnected, which takes it off the list. */
  lemma CallMisses(s: Server, id: int, h: int, op: Operation, answers: Answers)
    requires Inv(s) && id in s.clients && h != 0 && Associated(s.clients[id], h) && FindById(s.readers, h) == |s.readers|
    ensures var o := Serve(s, id, OnHandle(h, op), answers);
      && o.server.readers == s.readers && (o.reply == Success <==> op.DoDisconnect? && Acceptable(op))
      && (!op.DoDisconnect? && Acceptable(op) ==> o.reply == InvalidValue)
      && if o.reply == Success then Unlisted(s.clients, o.server.clients, id, h) else o.server.clients == s.clients
  {
    ArgumentsExactly(op);
    DropFirstCount(s.clients[id].cards, h);
  }

  lemma {:induction false} DropFirstCount(cards: seq<int>, h: int)
    ensures multiset(DropFirst(cards, h)) == multiset(cards) - multiset{h}
  {
    if cards != [] {
      assert cards == [cards[0]] + cards[1..];
      if cards[0] != h { DropFirstCount(cards[1..], h); }
    }
  }

  /** A begin succeeds exactly when the handle may use the card: a lock that is free, or its own, is never refused. */
  lemma BeginServed(s: Server, id: int, h: int, answers: Answers, i: nat)
    requires Inv(s) && Holder(s, id, h, i)
    ensures var o := Serve(s, id, OnHandle(h, DoBegin), answers); var r := s.readers[i];
      && (o.reply == Success <==> Usable(r, h))
      && o.server == s.(readers := s.readers[i := if Usable(r, h) then r.(lockId := h, lockCount := r.lockCount + 1) else r])
  {
    hide Apply, Serve;
    CallReaches(s, id, h, DoBegin, answers, i);
    assert Sound(s.readers[i]);
    BeginExactly(s.readers[i], h, answers(0));
  }

  // ---- a connection ----

  /** The client has the context it names, and room for one more handle. */
  predicate MayList(c: Client, ctx: int, maxCards: nat) {
    c.hContext != 0 && c.hContext == ctx && |c.cards| < maxCards
  }

  /** A connect succeeds exactly when polkit, the arguments, the reader and the client's list all let it; the handle
      is then in the list. When only the list refuses it, the handle is taken off the reader again. */
  lemma ConnectServed(s: Server, id: int, ctx: int, name: string, mode: Mode, q: ReaderState.Request, card: int, answers: Answers)
    requires Inv(s) && id in s.clients && Unused(s.readers, card)
    ensures var o := Serve(s, id, ConnectTo(ctx, name, mode, q, card), answers);
      var i := FindByName(s.readers, name);
      var asked := answers(0).authorized && mode != BadMode && (mode == Direct || Asks(q));
      var c := s.clients[id];
      && (!asked || i == |s.readers| ==> o.server == s && o.reply != Success)
      && (!answers(0).authorized ==> o.reply == SecurityViolation) && (asked && i == |s.readers| ==> o.reply == UnknownReader)
      && (asked && i < |s.readers| ==>
            var a := Connect(s.readers[i], mode, q, card, s.maxHandles, answers(0));
            && (o.reply == Success <==> a.reply == Success && MayList(c, ctx, s.maxCards))
            && (a.reply != Success || o.reply == Success ==> o.server.readers == s.readers[i := a.reader] && o.reply == a.reply)
            && (a.reply == Success && o.reply != Success ==>
                  && o.reply == (if c.hContext == 0 then InvalidHandle else if c.hContext != ctx then InvalidValue else NoMemory)
                  && |o.server.readers| == |s.readers| && !Has(o.server.readers[i].handles, card)
                  && forall h :: h != card ==> EventOf(o.server.readers[i].handles, h) == EventOf(s.readers[i].handles, h)))
      && o.server.clients == if o.reply == Success then s.clients[id := c.(cards := c.cards + [card])] else s.clients
  {
    hide Connect;
    var i := FindByName(s.readers, name);
    var d := answers(0);
    if i < |s.readers| {
      var a := Connect(s.readers[i], mode, q, card, s.maxHandles, d);
      if a.reply == Success { GivenUp(s.readers, i, mode, q, card, s.maxHandles, d); }
    }
  }

  lemma GivenUp(rs: seq<Reader>, i: nat, mode: Mode, q: ReaderState.Request, card: int, max: nat, d: Driver)
    requires AllSound(rs) && Disjoint(rs) && i < |rs| && rs[i].live && Unused(rs, card) && max >= 1
    requires Connect(rs[i], mode, q, card, max, d).reply == Success
    ensures var ss := Abandon(rs[i := Connect(rs[i], mode, q, card, max, d).reader], card, d);
      !Has(ss[i].handles, card) && forall h :: h != card ==> EventOf(ss[i].handles, h) == EventOf(rs[i].handles, h)
  {
    hide Connect;
    var r := Connect(rs[i], mode, q, card, max, d).reader;
    ConnectLaw(rs[i], mode, q, card, max, d);
    ConnectedReaders(rs, i, mode, q, card, max, d);
    AddedLaw(rs[i].handles, card, NoEvent);
    var ts := rs[i := r];
    assert Holds(ts[i], card);
    FoundUnique(ts, i, card);
    WithoutLaw(r.handles, card);
    LeavesOthers(r, card, d);
  }

  lemma LeavesOthers(r: Reader, h: int, d: Driver)
    ensures Disconnect(r, h, Leave, d).reader.handles == Without(r.handles, h)
  {
  }

  // ---- contexts ----

  /** A context is opened with the number drawn for it, and closed by the client that has it: its handles and its locks
      go, and the cards it leaves dirty are reset. */
  lemma ContextServed(s: Server, id: int, ctx: int, answers: Answers)
    requires Inv(s) && id in s.clients && ctx != 0
    ensures Serve(s, id, Establish(ctx), answers) == Served(s.(clients := s.clients[id := s.clients[id].(hContext := ctx)]), Success)
    ensures var o := Serve(s, id, ReleaseContext(ctx), answers); var c := s.clients[id];
      && (o.reply == Success <==> c.hContext == ctx)
      && (o.reply != Success ==> o == Served(s, if c.hContext == 0 then InvalidHandle else InvalidValue))
      && (o.reply == Success ==> o.server.clients == s.clients[id := Client(0, [])]
                                 && |o.server.readers| == |s.readers| && AllReleased(s.readers, o.server.readers, c.cards))
  {
    ReleaseAllLaw(s.readers, s.clients[id].cards, answers, 0);
  }

  /** A client that dies, or is cut off for a handle it does not list, leaves nothing behind either. */
  lemma ClientEnds(s: Server, id: int, h: int, op: Operation, answers: Answers)
    requires Inv(s) && id in s.clients && !Associated(s.clients[id], h)
    ensures var t := Next(s, Dies(id, answers));
      && Serve(s, id, OnHandle(h, op), answers).server == t
      && t.clients == s.clients - {id} && |t.readers| == |s.readers| && AllReleased(s.readers, t.readers, s.clients[id].cards)
  {
    ReleaseAllLaw(s.readers, s.clients[id].cards, answers, 0);
  }

  // ---- readers that come ----

  /** A new reader takes a vacant entry; it is unlocked and without connections, and nothing is known of a card until
      its polling thread starts. All others stay as they are. */
  lemma ReaderComes(s: Server, name: string) returns (i: nat)
    ensures var t := Next(s, AddsReader(name));
      && i < |t.readers| && |s.readers| <= |t.readers| && t.clients == s.clients
      && (i < |s.readers| ==> !s.readers[i].live) && (forall j :: 0 <= j < |s.readers| && j != i ==> t.readers[j] == s.readers[j])
      && (forall j :: |s.readers| <= j < |t.readers| && j != i ==> !t.readers[j].live)
      && var r := t.readers[i];
         && r.live && r.name == name && r.handles == [] && r.contexts == 0 && r.lockId == 0 && r.lockCount == 0
         && r.status == Uninitialised && r.protocol == Undefined && r.power == PowerOff && r.polled == NotStarted
         && r.atrLength > AtrHandler.MAX_ATR_SIZE && r.calls == []
  {
    i := FindVacant(s.readers);
  }
}
