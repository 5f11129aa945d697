/** The client threads of src/winscard_svc.c over the reader table, in place. */
module Service {
  import opened ReaderState
  import opened ServerState
  import opened ReaderContexts

  lemma FoundById(rs: seq<Reader>, h: int, k: nat)
    requires k <= |rs| && (forall j :: 0 <= j < k ==> !Holds(rs[j], h)) && (k < |rs| ==> Holds(rs[k], h))
    ensures FindById(rs, h) == k
  {
  }

  lemma FoundByName(rs: seq<Reader>, name: string, k: nat)
    requires k <= |rs| && (forall j :: 0 <= j < k ==> !Named(rs[j], name)) && (k < |rs| ==> Named(rs[k], name))
    ensures FindByName(rs, name) == k
  {
  }

  lemma FoundVacant(rs: seq<Reader>, k: nat)
    requires k <= |rs| && (forall j :: 0 <= j < k ==> rs[j].live) && (k < |rs| ==> !rs[k].live)
    ensures FindVacant(rs) == k
  {
  }

  class Daemon {
    var table: seq<ReaderContext>          // sReadersContexts
    var clients: map<int, Client>          // contextsList
    const maxHandles: nat
    const maxCards: nat

    ghost predicate Valid()
      reads this`table
    {
      forall i, j :: 0 <= i < j < |table| ==> table[i] != table[j]
    }

    ghost function Readers(): (rs: seq<Reader>)
      reads this`table, table
      ensures |rs| == |table|
    {
      var t := table;
      seq(|t|, i reads t requires 0 <= i < |t| => t[i].View())
    }

    ghost function View(): Server
      reads this, table
    {
      Server(Readers(), clients, maxHandles, maxCards)
    }

    twostate lemma OneChanged(i: nat)
      requires old(Valid()) && table == old(table) && i < |table|
      requires forall j :: 0 <= j < |table| && j != i ==> table[j].View() == old(table[j].View())
      ensures Readers() == old(Readers())[i := table[i].View()]
    {
    }

    /** RFReaderInfoById: the position of the reader, the length of the table when there is none. */
    method InfoById(h: int) returns (i: nat)
      ensures i == FindById(Readers(), h) && i <= |table|
    {
      i := 0;
      while i < |table|
        invariant i <= |table| && forall j :: 0 <= j < i ==> !Holds(Readers()[j], h)
      {
        if table[i].live {
          var k := table[i].Seek(h);
          SeekLaw(table[i].handles, h, k);
          if k < |table[i].handles| { break; }
        }
        i := i + 1;
      }
      FoundById(Readers(), h, i);
    }

    /** RFReaderInfo */
    method InfoByName(name: string) returns (i: nat)
      ensures i == FindByName(Readers(), name) && i <= |table|
    {
      i := 0;
      while i < |table| && !(table[i].live && table[i].name == name)
        invariant i <= |table| && forall j :: 0 <= j < i ==> !Named(Readers()[j], name)
      {
        i := i + 1;
      }
      FoundByName(Readers(), name, i);
    }

    /** The body of the loop of MSGRemoveContext. */
    method ReleaseCardOf(h: int, d: Driver)
      requires Valid()
      modifies table
      ensures Readers() == ReleaseOne(old(Readers()), h, d)
    {
      var i := InfoById(h);
      if i < |table| {
        table[i].Release(h, d);
        OneChanged(i);
      }
    }

    /** The loop of MSGRemoveContext: the cards of client id, from the first. */
    method ReleaseCards(id: int, answers: Answers)
      requires Valid() && id in clients
      modifies this`clients, table
      ensures Readers() == ReleaseAll(old(Readers()), old(clients[id].cards), answers, 0)
      ensures clients == old(clients)[id := old(clients[id]).(cards := [])]
    {
      hide ReleaseOne;
      var k := 0;
      while clients[id].cards != []
        invariant id in clients && Valid() && table == old(table)
        invariant clients == old(clients)[id := old(clients[id]).(cards := clients[id].cards)]
        invariant ReleaseAll(Readers(), clients[id].cards, answers, k) == ReleaseAll(old(Readers()), old(clients[id].cards), answers, 0)
        decreases |clients[id].cards|
      {
        var c := clients[id];
        ReleaseCardOf(c.cards[0], answers(k));
        clients := clients[id := c.(cards := c.cards[1..])];
        k := k + 1;
      }
    }

    /** MSGRemoveContext, once the context is found to be the one of the thread. */
    method RemoveContext(id: int, answers: Answers)
      requires Valid() && id in clients
      modifies this`clients, table
      ensures View() == old(View()).(readers := ReleaseAll(old(Readers()), old(clients[id].cards), answers, 0),
                                     clients := old(clients)[id := Client(0, [])])
    {
      ReleaseCards(id, answers);
      clients := clients[id := Client(0, [])];
    }

    /** MSGCleanupClient */
    method CleanupClient(id: int, answers: Answers)
      requires Valid() && id in clients
      modifies this`clients, table
      ensures View() == Cleanup(old(View()), id, answers)
    {
      if clients[id].hContext != 0 { RemoveContext(id, answers); }
      clients := clients - {id};
    }

    /** MSGAddHandle */
    method AddHandle(id: int, ctx: int, card: int) returns (rv: Reply)
      requires id in clients
      modifies this`clients
      ensures rv == AddHandleReply(old(clients[id]), ctx, maxCards)
      ensures clients == if rv == Success then old(clients)[id := old(clients[id]).(cards := old(clients[id]).cards + [card])]
                         else old(clients)
    {
      var c := clients[id];
      if c.hContext == 0 { return InvalidHandle; }
      if c.hContext != ctx { return InvalidValue; }
      if |c.cards| >= maxCards { return NoMemory; }
      clients := clients[id := c.(cards := c.cards + [card])];
      return Success;
    }

    /** list_delete on cardsList, for MSGRemoveHandle. */
    method RemoveHandle(id: int, h: int)
      requires id in clients
      modifies this`clients
      ensures clients == old(clients)[id := old(clients[id]).(cards := DropFirst(old(clients[id]).cards, h))]
    {
      var c := clients[id];
      var k := 0;
      while k < |c.cards| && c.cards[k] != h
        invariant k <= |c.cards| && forall j :: 0 <= j < k ==> c.cards[j] != h
      {
        k := k + 1;
      }
      DroppedAt(c.cards, h, k);
      clients := clients[id := c.(cards := if k < |c.cards| then c.cards[..k] + c.cards[k + 1..] else c.cards)];
    }

    /** SCardConnect on the reader found by name. */
    method ConnectAt(i: nat, mode: Mode, q: ReaderState.Request, card: int, d: Driver) returns (rv: Reply)
      requires Valid() && i < |table|
      modifies table[i]
      ensures var o := Connect(old(Readers())[i], mode, q, card, maxHandles, d);
        rv == o.reply && Readers() == old(Readers())[i := o.reader]
    {
      rv := table[i].SCardConnect(mode, q, card, maxHandles, d);
      OneChanged(i);
    }

    /** SCardDisconnect(card, SCARD_LEAVE_CARD) */
    method AbandonCard(card: int, d: Driver)
      requires Valid()
      modifies table
      ensures Readers() == Abandon(old(Readers()), card, d)
    {
      var i := InfoById(card);
      if i < |table| {
        var _ := table[i].SCardDisconnect(card, Leave, d);
        OneChanged(i);
      }
    }

    /** SCARD_CONNECT */
    method DoConnect(id: int, ctx: int, name: string, mode: Mode, q: ReaderState.Request, card: int, d: Driver) returns (rv: Reply)
      requires Valid() && id in clients
      modifies this`clients, table
      ensures Served(View(), rv) == ServeConnect(old(View()), id, ctx, name, mode, q, card, d)
    {
      hide Connect, Abandon, AddHandleReply;
      if !d.authorized { return SecurityViolation; }
      rv := ConnectArguments(mode, q);
      if rv != Success { return; }
      var i := InfoByName(name);
      if i == |table| { return UnknownReader; }
      var known := InfoById(card);
      if card == 0 || known < |table| { return Waiting; }
      rv := ConnectAt(i, mode, q, card, d);
      if rv == Success { rv := ListOrAbandon(id, ctx, card, d); }
    }

    method ListOrAbandon(id: int, ctx: int, card: int, d: Driver) returns (rv: Reply)
      requires Valid() && id in clients
      modifies this`clients, table
      ensures rv == AddHandleReply(old(clients[id]), ctx, maxCards)
      ensures Readers() == if rv == Success then old(Readers()) else Abandon(old(Readers()), card, d)
      ensures clients == if rv == Success then old(clients)[id := old(clients[id]).(cards := old(clients[id]).cards + [card])]
                         else old(clients)
    {
      rv := AddHandle(id, ctx, card);
      if rv != Success { AbandonCard(card, d); }
    }

    method CallAt(i: nat, h: int, op: Operation, d: Driver) returns (rv: Reply)
      requires Valid() && i < |table|
      modifies table[i]
      ensures var o := Apply(old(Readers())[i], h, op, d);
        rv == o.reply && Readers() == old(Readers())[i := o.reader]
    {
      rv := table[i].Call(h, op, d);
      OneChanged(i);
    }

    /** A call on a handle, whose reader is looked up by RFReaderInfoById. */
    method CallOnHandle(h: int, op: Operation, d: Driver) returns (rv: Reply)
      requires Valid()
      modifies table
      ensures Called(Readers(), rv) == CallHandle(old(Readers()), h, op, d)
    {
      if h == 0 { return InvalidHandle; }
      rv := Arguments(op);
      if rv != Success { return; }
      var i := InfoById(h);
      if i == |table| {
        rv := if op.DoDisconnect? then Success else InvalidValue;
      } else {
        rv := CallAt(i, h, op, d);
      }
    }

    /** A call on a handle, and MSGRemoveHandle after a disconnect. */
    method DoOnHandle(id: int, h: int, op: Operation, d: Driver) returns (rv: Reply)
      requires Valid() && id in clients
      modifies this`clients, table
      ensures Served(View(), rv) == ServeHandle(old(View()), id, h, op, d)
    {
      rv := CallOnHandle(h, op, d);
      if op.DoDisconnect? && rv == Success { RemoveHandle(id, h); }
    }

    /** One command of a client thread; a client that names a handle of others is cut off. */
    method Execute(id: int, command: Command, answers: Answers) returns (rv: Reply)
      requires Valid() && id in clients
      modifies this`clients, table
      ensures Served(View(), rv) == Serve(old(View()), id, command, answers)
    {
      match command
      case Establish(ctx) =>
        if ctx == 0 { return Waiting; }
        clients := clients[id := clients[id].(hContext := ctx)];
        rv := Success;
      case ReleaseContext(ctx) =>
        if clients[id].hContext == 0 { return InvalidHandle; }
        if clients[id].hContext != ctx { return InvalidValue; }
        RemoveContext(id, answers);
        rv := Success;
      case ConnectTo(ctx, name, mode, q, card) =>
        rv := DoConnect(id, ctx, name, mode, q, card, answers(0));
      case OnHandle(h, op) =>
        if clients[id].hContext == 0 || h !in clients[id].cards {
          CleanupClient(id, answers);
          return InvalidHandle;
        }
        rv := DoOnHandle(id, h, op, answers(0));
    }

    /** A turn of the polling thread of reader i: a look at the card, then the wait, then the power state. */
    method PollTurn(i: nat, sees: Observation, d: Driver)
      requires Valid() && i < |table|
      modifies table[i]
      ensures Readers() == old(Readers())[i := PollPower(PollStatus(old(Readers())[i], sees, d))]
    {
      table[i].PollOnce(sees, d);
      table[i].TickPower();
      OneChanged(i);
    }

    /** The first vacant entry; the table grows by two when there is none. */
    method FreeEntry() returns (i: nat)
      requires Valid()
      modifies this`table
      ensures Valid() && i < |table| && (forall r :: r in table ==> r in old(table) || fresh(r))
      ensures i == FindVacant(old(Readers()))
      ensures Readers() == old(Readers()) + if i == |old(table)| then MoreEntries else []
    {
      i := 0;
      while i < |table| && table[i].live
        invariant i <= |table| && forall j :: 0 <= j < i ==> Readers()[j].live
      {
        i := i + 1;
      }
      FoundVacant(Readers(), i);
      if i == |table| {
        var a := new ReaderContext(Vacant);
        var b := new ReaderContext(Vacant);
        table := table + [a, b];
      }
    }

    /** RFAddReader, for a reader with one slot and a driver of its own. */
    method AddReader(name: string)
      requires Valid()
      modifies this`table, table
      ensures Valid() && View() == old(View()).(readers := ServerState.AddReader(old(Readers()), name))
    {
      var i := FreeEntry();
      ghost var room := Readers();
      var r := new ReaderContext(Vacant.(live := true, name := name));
      table := table[i := r];
      assert Readers() == room[i := r.View()];
    }

    /** RFRemoveReader and removeReader. */
    method RemoveReader(i: nat)
      requires Valid()
      modifies this`table
      ensures Valid() && View() == old(View()).(readers := if i < |old(table)| then old(Readers())[i := Vacant] else old(Readers()))
    {
      if i < |table| {
        var r := new ReaderContext(Vacant);
        table := table[i := r];
      }
    }
  }

  lemma {:induction false} DroppedAt(cards: seq<int>, h: int, k: nat)
    requires k <= |cards| && (forall j :: 0 <= j < k ==> cards[j] != h) && (k < |cards| ==> cards[k] == h)
    ensures DropFirst(cards, h) == if k < |cards| then cards[..k] + cards[k + 1..] else cards
  {
    if cards != [] && k > 0 {
      DroppedAt(cards[1..], h, k - 1);
      assert cards == [cards[0]] + cards[1..];
      if k < |cards| {
        assert cards[1..][..k - 1] == cards[1..k] && cards[1..][k..] == cards[k + 1..];
        assert [cards[0]] + cards[1..k] == cards[..k];
      }
    }
  }
}
