/** What every step of the server keeps, and what the end of a context does. */
module ServerLaws {
  import opened Wrappers
  import opened ReaderState
  import opened ReaderLaws
  import opened ServerState

  // ---- the invariant ----

  ghost predicate AllSound(rs: seq<Reader>) {
    forall i :: 0 <= i < |rs| ==> Sound(rs[i])
  }

  /** No two readers know the same handle. */
  ghost predicate Disjoint(rs: seq<Reader>) {
    forall i, j, c :: 0 <= i < |rs| && 0 <= j < |rs| && i != j && Holds(rs[i], c) ==> !Holds(rs[j], c)
  }

  ghost predicate Listed(clients: map<int, Client>, c: int) {
    exists id :: id in clients && c in clients[id].cards
  }

  /** Every handle of a live reader is in the list of some client. */
  ghost predicate AllListed(rs: seq<Reader>, clients: map<int, Client>) {
    forall i, c :: 0 <= i < |rs| && Holds(rs[i], c) ==> Listed(clients, c)
  }

  ghost predicate Inv(s: Server) {
    && s.maxHandles >= 1
    && AllSound(s.readers) && Disjoint(s.readers) && AllListed(s.readers, s.clients)
    && forall id :: id in s.clients && s.clients[id].hContext == 0 ==> s.clients[id].cards == []
  }

  lemma FoundUnique(rs: seq<Reader>, i: nat, h: int)
    requires Disjoint(rs) && i < |rs| && Holds(rs[i], h)
    ensures FindById(rs, h) == i
  {
  }

  /** A reader that gains no handle can be replaced. */
  lemma ReplaceKeeps(rs: seq<Reader>, i: nat, r: Reader)
    requires AllSound(rs) && Disjoint(rs) && i < |rs| && Sound(r)
    requires forall c :: Holds(r, c) ==> Holds(rs[i], c)
    ensures AllSound(rs[i := r]) && Disjoint(rs[i := r])
  {
  }

  lemma ReplaceKeepsListed(rs: seq<Reader>, i: nat, r: Reader, clients: map<int, Client>)
    requires AllListed(rs, clients) && i < |rs|
    requires forall c :: Holds(r, c) ==> Holds(rs[i], c)
    ensures AllListed(rs[i := r], clients)
  {
  }

  /** A new handle, unknown to every reader. */
  lemma AttachKeeps(rs: seq<Reader>, i: nat, r: Reader, h: int)
    requires AllSound(rs) && Disjoint(rs) && i < |rs| && Sound(r) && Unused(rs, h)
    requires forall c :: Holds(r, c) ==> c == h || Holds(rs[i], c)
    ensures AllSound(rs[i := r]) && Disjoint(rs[i := r])
  {
  }

  // ---- the end of a context ----

  /** What releasing cards does to one reader. */
  ghost predicate Released(r: Reader, s: Reader, cards: seq<int>) {
    && Sound(s) && s.live == r.live && s.name == r.name
    && (forall c :: Has(s.handles, c) == (Has(r.handles, c) && c !in cards))
    && s.lockId == (if r.lockId in cards then 0 else r.lockId)
    && (r.lockId !in cards ==> s.lockCount == r.lockCount)
    && (r.lockId !in cards && r.lockId != 0 ==> FewerHandles(r, s))
  }

  /** Only the list of handles and its count differ. */
  ghost predicate FewerHandles(r: Reader, s: Reader) {
    s == r.(handles := s.handles, contexts := s.contexts, sharing := s.sharing)
  }

  /** The handles that stay are told of a reset exactly when there was one. */
  ghost predicate Told(r: Reader, s: Reader) {
    && r.calls <= s.calls
    && forall c :: Has(s.handles, c) ==>
         EventOf(s.handles, c) == if Disturbed(r, s) then Some(ResetEvent) else EventOf(r.handles, c)
  }

  lemma ReleasedTransitive(r: Reader, s: Reader, t: Reader, h: int, rest: seq<int>)
    requires Released(r, s, [h]) && Released(s, t, rest)
    ensures Released(r, t, [h] + rest)
  {
    assert forall c :: c in [h] + rest <==> c == h || c in rest;
    assert 0 in rest ==> s.lockId in rest || s.lockId != 0;
  }

  lemma DisturbedTransitive(r: Reader, s: Reader, t: Reader)
    requires r.calls <= s.calls <= t.calls
    ensures r.calls <= t.calls && Disturbed(r, t) == (Disturbed(r, s) || Disturbed(s, t))
  {
    var a := s.calls[|r.calls|..];
    var b := t.calls[|s.calls|..];
    assert t.calls[|r.calls|..] == a + b;
  }

  lemma ToldTransitive(r: Reader, s: Reader, t: Reader)
    requires Told(r, s) && Told(s, t) && forall c :: Has(t.handles, c) ==> Has(s.handles, c)
    ensures Told(r, t)
  {
    DisturbedTransitive(r, s, t);
  }

  /** The card is reset when the list has the owner of its lock, unless the owner was told of a reset or a removal
      and has not come back. */
  ghost predicate ResetAtEnd(r: Reader, s: Reader, cards: seq<int>) {
    Disturbed(r, s) <==>
      r.lockId != 0 && r.lockId in cards && (r.atrLength > AtrHandler.MAX_ATR_SIZE || EventOf(r.handles, r.lockId) == Some(NoEvent))
  }

  lemma ResetAtEndTransitive(r: Reader, s: Reader, t: Reader, h: int, rest: seq<int>)
    requires Released(r, s, [h]) && Told(r, s) && ResetAtEnd(r, s, [h])
    requires Released(s, t, rest) && Told(s, t) && ResetAtEnd(s, t, rest)
    ensures ResetAtEnd(r, t, [h] + rest)
  {
    DisturbedTransitive(r, s, t);
    assert forall c :: c in [h] + rest <==> c == h || c in rest;
    if r.lockId != 0 && r.lockId != h {
      assert FewerHandles(r, s) && Has(s.handles, r.lockId);
    }
  }

  lemma NothingReleased(r: Reader, cards: seq<int>)
    requires Sound(r) && forall c :: c in cards ==> !Has(r.handles, c)
    ensures Released(r, r, cards) && Told(r, r) && ResetAtEnd(r, r, cards)
  {
  }

  /** The power state stays while handles remain. */
  predicate StaysPowered(r: Reader, s: Reader) {
    s.contexts != 0 ==> r.contexts != 0 && s.power == r.power
  }

  ghost predicate AllReleased(rs: seq<Reader>, ss: seq<Reader>, cards: seq<int>)
    requires |rs| == |ss|
  {
    forall i :: 0 <= i < |rs| ==>
      Released(rs[i], ss[i], cards) && Told(rs[i], ss[i]) && StaysPowered(rs[i], ss[i]) && ResetAtEnd(rs[i], ss[i], cards)
  }

  lemma AllReleasedTransitive(rs: seq<Reader>, ss: seq<Reader>, ts: seq<Reader>, cards: seq<int>)
    requires |rs| == |ss| == |ts| && cards != [] && AllReleased(rs, ss, [cards[0]]) && AllReleased(ss, ts, cards[1..])
    ensures AllReleased(rs, ts, cards)
  {
    assert [cards[0]] + cards[1..] == cards;
    forall i | 0 <= i < |rs|
      ensures Released(rs[i], ts[i], cards) && Told(rs[i], ts[i]) && StaysPowered(rs[i], ts[i]) && ResetAtEnd(rs[i], ts[i], cards)
    {
      ResetAtEndTransitive(rs[i], ss[i], ts[i], cards[0], cards[1..]);
      ReleasedTransitive(rs[i], ss[i], ts[i], cards[0], cards[1..]);
      ToldTransitive(rs[i], ss[i], ts[i]);
    }
  }

  /** Card h is released: nothing else on any reader is. */
  lemma ReleaseOneLaw(rs: seq<Reader>, h: int, d: Driver)
    requires AllSound(rs) && Disjoint(rs)
    ensures var rs' := ReleaseOne(rs, h, d); AllSound(rs') && Disjoint(rs') && AllReleased(rs, rs', [h])
  {
    var rs' := ReleaseOne(rs, h, d);
    var k := FindById(rs, h);
    if k < |rs| {
      ReleaseCardLaw(rs[k], h, d);
      ReleaseCardEvents(rs[k], h, d);
      ReplaceKeeps(rs, k, rs'[k]);
    }
    forall i | 0 <= i < |rs|
      ensures Released(rs[i], rs'[i], [h]) && Told(rs[i], rs'[i]) && StaysPowered(rs[i], rs'[i]) && ResetAtEnd(rs[i], rs'[i], [h])
    {
      if i != k {
        assert !Holds(rs[i], h);
        NothingReleased(rs[i], [h]);
      }
    }
  }

  /** MSGRemoveContext: every reader keeps exactly the handles that are not in the list of cards; a lock
      goes exactly when its owner is in the list; a reader whose lock stays differs in nothing else. The card
      of a lock that goes is reset, and the handles that stay are told, unless its owner was told before. */
  lemma {:induction false} ReleaseAllLaw(rs: seq<Reader>, cards: seq<int>, answers: Answers, k: nat)
    requires AllSound(rs) && Disjoint(rs)
    ensures var rs' := ReleaseAll(rs, cards, answers, k); AllSound(rs') && Disjoint(rs') && AllReleased(rs, rs', cards)
    decreases cards
  {
    if cards == [] {
      forall i | 0 <= i < |rs|
        ensures Released(rs[i], rs[i], cards) && Told(rs[i], rs[i]) && StaysPowered(rs[i], rs[i]) && ResetAtEnd(rs[i], rs[i], cards)
      {
        NothingReleased(rs[i], cards);
      }
    } else {
      var one := ReleaseOne(rs, cards[0], answers(k));
      ReleaseOneLaw(rs, cards[0], answers(k));
      ReleaseAllLaw(one, cards[1..], answers, k + 1);
      AllReleasedTransitive(rs, one, ReleaseAll(rs, cards, answers, k), cards);
    }
  }

  // ---- every step keeps the invariant ----

  lemma ReleaseKeepsInv(s: Server, id: int, answers: Answers, clients: map<int, Client>)
    requires Inv(s) && id in s.clients && clients.Keys <= s.clients.Keys
    requires forall x :: x in s.clients && x != id ==> x in clients && clients[x] == s.clients[x]
    requires id in clients ==> clients[id] == Client(0, [])
    ensures Inv(s.(readers := ReleaseAll(s.readers, s.clients[id].cards, answers, 0), clients := clients))
  {
    var cards := s.clients[id].cards;
    ReleaseAllLaw(s.readers, cards, answers, 0);
    var rs := ReleaseAll(s.readers, cards, answers, 0);
    forall i, c | 0 <= i < |rs| && Holds(rs[i], c) ensures Listed(clients, c) {
      assert Released(s.readers[i], rs[i], cards);
      assert Holds(s.readers[i], c) && c !in cards;
      assert Listed(s.clients, c);
      var x :| x in s.clients && c in s.clients[x].cards;
    }
  }

  lemma CleanupKeepsInv(s: Server, id: int, answers: Answers)
    requires Inv(s) && id in s.clients
    ensures Inv(Cleanup(s, id, answers))
  {
    if s.clients[id].hContext != 0 {
      ReleaseKeepsInv(s, id, answers, s.clients - {id});
    } else {
      forall i, c | 0 <= i < |s.readers| && Holds(s.readers[i], c) ensures Listed(s.clients - {id}, c) {
        assert Listed(s.clients, c);
        var x :| x in s.clients && c in s.clients[x].cards;
        assert x in s.clients - {id};
      }
    }
  }

  lemma {:induction false} DropFirstKeeps(cards: seq<int>, h: int)
    ensures forall c :: c != h && c in cards ==> c in DropFirst(cards, h)
    ensures forall c :: c in DropFirst(cards, h) ==> c in cards
  {
    if cards != [] && cards[0] != h {
      DropFirstKeeps(cards[1..], h);
    }
  }

  lemma ServeHandleKeepsInv(s: Server, id: int, h: int, op: Operation, d: Driver)
    requires Inv(s) && id in s.clients && Associated(s.clients[id], h)
    ensures Inv(ServeHandle(s, id, h, op, d).server)
  {
    var i := FindById(s.readers, h);
    var served := ServeHandle(s, id, h, op, d);
    var rs := served.server.readers;
    if h != 0 && Arguments(op) == Success && i < |s.readers| {
      ApplyKeepsSound(s.readers[i], h, op, d);
      ReplaceKeeps(s.readers, i, rs[i]);
      ReplaceKeepsListed(s.readers, i, rs[i], s.clients);
    }
    if op.DoDisconnect? && served.reply == Success {
      DropFirstKeeps(s.clients[id].cards, h);
      forall j, c | 0 <= j < |rs| && Holds(rs[j], c) ensures Listed(served.server.clients, c) {
        assert c != h;
        assert Listed(s.clients, c);
        var x :| x in s.clients && c in s.clients[x].cards;
        assert x in served.server.clients && c in served.server.clients[x].cards;
      }
    }
  }

  lemma AbandonLaw(rs: seq<Reader>, h: int, d: Driver)
    requires AllSound(rs) && Disjoint(rs)
    ensures AllSound(Abandon(rs, h, d)) && Disjoint(Abandon(rs, h, d))
    ensures forall i, c :: 0 <= i < |rs| && Holds(Abandon(rs, h, d)[i], c) ==> c != h && Holds(rs[i], c)
  {
    var k := FindById(rs, h);
    if k < |rs| {
      DisconnectLaw(rs[k], h, Leave, d);
      ReplaceKeeps(rs, k, Abandon(rs, h, d)[k]);
    }
  }

  /** The readers after a connect at reader i, before and after it is given up. */
  lemma ConnectedReaders(rs: seq<Reader>, i: nat, mode: Mode, q: ReaderState.Request, card: int, max: nat, d: Driver)
    requires AllSound(rs) && Disjoint(rs) && i < |rs| && rs[i].live && Unused(rs, card) && max >= 1
    ensures var o := Connect(rs[i], mode, q, card, max, d);
      var ss := rs[i := o.reader];
      && AllSound(ss) && Disjoint(ss)
      && (forall j, c :: 0 <= j < |rs| && Holds(ss[j], c) ==> Holds(rs[j], c) || (c == card && o.reply == Success))
  {
    var o := Connect(rs[i], mode, q, card, max, d);
    ConnectLaw(rs[i], mode, q, card, max, d);
    AddedLaw(rs[i].handles, card, NoEvent);
    AttachKeeps(rs, i, o.reader, card);
  }

  lemma ServeConnectKeepsInv(s: Server, id: int, ctx: int, name: string, mode: Mode, q: ReaderState.Request, card: int, d: Driver)
    requires Inv(s) && id in s.clients
    ensures Inv(ServeConnect(s, id, ctx, name, mode, q, card, d).server)
  {
    hide Connect, AllSound, Disjoint, AllListed;
    var i := FindByName(s.readers, name);
    var t := ServeConnect(s, id, ctx, name, mode, q, card, d).server;
    if ConnectArguments(mode, q) == Success && i < |s.readers| && Unused(s.readers, card) {
      ConnectedReaders(s.readers, i, mode, q, card, s.maxHandles, d);
      AbandonLaw(s.readers[i := Connect(s.readers[i], mode, q, card, s.maxHandles, d).reader], card, d);
      ConnectedListed(s, id, t, card);
    }
  }

  /** The lists still cover the readers when the only new handle is in the list of its client. */
  lemma ConnectedListed(s: Server, id: int, t: Server, card: int)
    requires Inv(s) && id in s.clients && |t.readers| == |s.readers| && t.maxHandles == s.maxHandles
    requires AllSound(t.readers) && Disjoint(t.readers)
    requires t.clients == s.clients || (s.clients[id].hContext != 0 &&
               t.clients == s.clients[id := s.clients[id].(cards := s.clients[id].cards + [card])])
    requires forall i, c :: 0 <= i < |t.readers| && Holds(t.readers[i], c) ==>
               Holds(s.readers[i], c) || (c == card && t.clients != s.clients)
    ensures Inv(t)
  {
    forall i, c | 0 <= i < |t.readers| && Holds(t.readers[i], c) ensures Listed(t.clients, c) {
      if Holds(s.readers[i], c) {
        assert Listed(s.clients, c);
        var x :| x in s.clients && c in s.clients[x].cards;
        assert x in t.clients && c in t.clients[x].cards;
      } else {
        assert id in t.clients && c in t.clients[id].cards;
      }
    }
  }

  lemma ServeKeepsInv(s: Server, id: int, command: Command, answers: Answers)
    requires Inv(s) && id in s.clients
    ensures Inv(Serve(s, id, command, answers).server)
  {
    match command
    case Establish(ctx) =>
      if ctx != 0 { RelabelKeepsInv(s, s.clients[id := s.clients[id].(hContext := ctx)]); }
    case ReleaseContext(ctx) =>
      if s.clients[id].hContext != 0 && s.clients[id].hContext == ctx {
        ReleaseKeepsInv(s, id, answers, s.clients[id := Client(0, [])]);
      }
    case ConnectTo(ctx, name, mode, q, card) => ServeConnectKeepsInv(s, id, ctx, name, mode, q, card, answers(0));
    case OnHandle(h, op) =>
      if Associated(s.clients[id], h) {
        ServeHandleKeepsInv(s, id, h, op, answers(0));
      } else {
        CleanupKeepsInv(s, id, answers);
      }
  }

  /** More clients, with the same cards in the lists. */
  lemma RelabelKeepsInv(s: Server, clients: map<int, Client>)
    requires Inv(s) && s.clients.Keys <= clients.Keys
    requires forall id :: id in s.clients ==> clients[id].cards == s.clients[id].cards
    requires forall id :: id in clients && clients[id].hContext == 0 ==> clients[id].cards == []
    ensures Inv(s.(clients := clients))
  {
    forall i, c | 0 <= i < |s.readers| && Holds(s.readers[i], c) ensures Listed(clients, c) {
      assert Listed(s.clients, c);
      var x :| x in s.clients && c in s.clients[x].cards;
      assert x in clients && c in clients[x].cards;
    }
  }

  lemma ReaderStepKeepsInv(s: Server, i: nat, r: Reader)
    requires Inv(s) && i < |s.readers| && Sound(r) && (r.live ==> s.readers[i].live)
    requires forall c :: Has(r.handles, c) ==> Has(s.readers[i].handles, c)
    ensures Inv(s.(readers := s.readers[i := r]))
  {
    ReplaceKeeps(s.readers, i, r);
    ReplaceKeepsListed(s.readers, i, r, s.clients);
  }

  lemma AddReaderKeepsInv(s: Server, name: string)
    requires Inv(s)
    ensures Inv(s.(readers := AddReader(s.readers, name)))
  {
    var i := FindVacant(s.readers);
    var room := if i == |s.readers| then s.readers + MoreEntries else s.readers;
    var rs := AddReader(s.readers, name);
    assert rs == room[i := Vacant.(live := true, name := name)];
    assert forall j, c :: 0 <= j < |rs| && Holds(rs[j], c) ==> j < |s.readers| && rs[j] == s.readers[j];
  }

  /** The invariant holds from the start and through every run: contexts counts the handles or is -1
      for a single one, a lock has an owner among the handles of its reader, no handle is on two
      readers, every handle is in the list of some client. */
  lemma NextKeepsInv(s: Server, step: Step)
    requires Inv(s)
    ensures Inv(Next(s, step))
  {
    match step
    case Arrives(id) => if id !in s.clients { RelabelKeepsInv(s, s.clients[id := Client(0, [])]); }
    case Serves(id, command, answers) => if id in s.clients { ServeKeepsInv(s, id, command, answers); }
    case Dies(id, answers) => if id in s.clients { CleanupKeepsInv(s, id, answers); }
    case StartsPolling(i, sees, d) =>
      if i < |s.readers| && s.readers[i].live {
        PollRestKeepsSound(s.readers[i], sees, d);
        ReaderStepKeepsInv(s, i, PollStart(s.readers[i], sees, d));
      }
    case PollsCard(i, sees, d) =>
      if i < |s.readers| && s.readers[i].live {
        PollStatusLaw(s.readers[i], sees, d);
        ReaderStepKeepsInv(s, i, PollStatus(s.readers[i], sees, d));
      }
    case PollsPower(i) =>
      if i < |s.readers| && s.readers[i].live {
        var r := PollPower(s.readers[i]);
        assert Sound(r) && r.handles == s.readers[i].handles;
        ReaderStepKeepsInv(s, i, r);
      }
    case AddsReader(name) => AddReaderKeepsInv(s, name);
    case RemovesReader(i) => if i < |s.readers| { ReaderStepKeepsInv(s, i, Vacant); }
  }

  lemma {:induction false} RunKeepsInv(s: Server, steps: seq<Step>)
    requires Inv(s)
    ensures Inv(Run(s, steps))
    decreases steps
  {
    if steps != [] {
      NextKeepsInv(s, steps[0]);
      RunKeepsInv(Next(s, steps[0]), steps[1..]);
    }
  }

  lemma StartedInv(maxHandles: nat, maxCards: nat)
    requires maxHandles >= 1
    ensures Inv(Started(maxHandles, maxCards))
  {
  }
}
