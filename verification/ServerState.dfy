/** The server as a value: the table of readers, the client threads with the handles they opened, and
    one step for each command of src/winscard_svc.c, for each turn of a polling thread and for each
    reader that comes or goes. */
module ServerState {
  import opened Wrappers
  import opened ReaderState

  /** SCONTEXT */
  datatype Client = Client(hContext: int, cards: seq<int>)

  datatype Server = Server(
    readers: seq<Reader>,          // sReadersContexts
    clients: map<int, Client>,     // contextsList, by dwClientID
    maxHandles: nat,               // maxReaderHandles
    maxCards: nat)                 // contextMaxCardHandles

  function NoAtr(): AtrBuffer { seq(AtrHandler.MAX_ATR_SIZE + 4, i => 0) }

  /** An entry of the reader table that holds no reader. */
  const Vacant := Reader(false, "", [], 0, 0, 0, Uninitialised, Undefined, NoAtr(), READER_NOT_INITIALIZED, 0, 0,
                         PowerOff, NotStarted, 0, [])

  /** INITIAL_MAX_READERS_CONTEXTS entries, at the start and whenever the table grows. */
  const MoreEntries := [Vacant, Vacant]

  /** The driver's answers, one for each card a command touches. */
  type Answers = nat -> Driver

  datatype Command =
    | Establish(ctx: int)               // ctx is the number SCardEstablishContext drew
    | ReleaseContext(ctx: int)
    | ConnectTo(ctx: int, name: string, mode: Mode, request: ReaderState.Request, card: int)   // card: the number drawn
    | OnHandle(card: int, op: Operation)

  datatype Step =
    | Arrives(id: int)
    | Serves(id: int, command: Command, answers: Answers)
    | Dies(id: int, answers: Answers)
    | StartsPolling(i: nat, sees: Observation, d: Driver)
    | PollsCard(i: nat, sees: Observation, d: Driver)
    | PollsPower(i: nat)
    | AddsReader(name: string)
    | RemovesReader(i: nat)

  predicate Holds(r: Reader, h: int) {
    r.live && Has(r.handles, h)
  }

  /** RFReaderInfoById: the first live reader that knows the handle, |rs| when there is none. */
  function FindById(rs: seq<Reader>, h: int): (i: nat)
    ensures i <= |rs| && (i < |rs| ==> Holds(rs[i], h)) && forall j :: 0 <= j < i ==> !Holds(rs[j], h)
  {
    FirstWhere(rs, (r: Reader) => Holds(r, h))
  }

  predicate Named(r: Reader, name: string) {
    r.live && r.name == name
  }

  /** RFReaderInfo */
  function FindByName(rs: seq<Reader>, name: string): (i: nat)
    ensures i <= |rs| && (i < |rs| ==> Named(rs[i], name)) && forall j :: 0 <= j < i ==> !Named(rs[j], name)
  {
    FirstWhere(rs, (r: Reader) => Named(r, name))
  }

  /** The first vacant entry. */
  function FindVacant(rs: seq<Reader>): (i: nat)
    ensures i <= |rs| && (i < |rs| ==> !rs[i].live) && forall j :: 0 <= j < i ==> rs[j].live
  {
    FirstWhere(rs, (r: Reader) => !r.live)
  }

  /** list_delete on cardsList */
  function DropFirst(cards: seq<int>, h: int): seq<int> {
    if cards == [] then [] else if cards[0] == h then cards[1..] else [cards[0]] + DropFirst(cards[1..], h)
  }

  /** MSGRemoveContext for one entry of cardsList. */
  function ReleaseOne(rs: seq<Reader>, h: int, d: Driver): (r: seq<Reader>)
    ensures |r| == |rs|
  {
    var i := FindById(rs, h);
    if i == |rs| then rs else rs[i := ReleaseCard(rs[i], h, d)]
  }

  /** The loop of MSGRemoveContext. */
  function ReleaseAll(rs: seq<Reader>, cards: seq<int>, answers: Answers, k: nat): (r: seq<Reader>)
    ensures |r| == |rs|
    decreases cards
  {
    if cards == [] then rs else ReleaseAll(ReleaseOne(rs, cards[0], answers(k)), cards[1..], answers, k + 1)
  }

  /** SCardDisconnect(card, SCARD_LEAVE_CARD) when MSGAddHandle refuses a new handle. */
  function Abandon(rs: seq<Reader>, h: int, d: Driver): (r: seq<Reader>)
    ensures |r| == |rs|
  {
    var i := FindById(rs, h);
    if i == |rs| then rs else rs[i := Disconnect(rs[i], h, Leave, d).reader]
  }

  datatype Served = Served(server: Server, reply: Reply)

  /** MSGCleanupClient */
  function Cleanup(s: Server, id: int, answers: Answers): Server
    requires id in s.clients
  {
    var c := s.clients[id];
    s.(readers := if c.hContext != 0 then ReleaseAll(s.readers, c.cards, answers, 0) else s.readers,
       clients := s.clients - {id})
  }

  /** MSGAddHandle */
  function AddHandleReply(c: Client, ctx: int, maxCards: nat): Reply {
    if c.hContext == 0 then InvalidHandle
    else if c.hContext != ctx then InvalidValue
    else if |c.cards| >= maxCards then NoMemory
    else Success
  }

  /** RFCreateReaderHandle draws until no live reader knows the number. */
  predicate Unused(rs: seq<Reader>, h: int) {
    h != 0 && FindById(rs, h) == |rs|
  }

  function ServeConnect(s: Server, id: int, ctx: int, name: string, mode: Mode, q: ReaderState.Request, card: int, d: Driver): Served
    requires id in s.clients
  {
    var i := FindByName(s.readers, name);
    if !d.authorized then Served(s, SecurityViolation)
    else if ConnectArguments(mode, q) != Success then Served(s, ConnectArguments(mode, q))
    else if i == |s.readers| then Served(s, UnknownReader)
    else if !Unused(s.readers, card) then Served(s, Waiting)
    else
      var o := Connect(s.readers[i], mode, q, card, s.maxHandles, d);
      var rs := s.readers[i := o.reader];
      var c := s.clients[id];
      if o.reply != Success then Served(s.(readers := rs), o.reply)
      else if AddHandleReply(c, ctx, s.maxCards) != Success then
        Served(s.(readers := Abandon(rs, card, d)), AddHandleReply(c, ctx, s.maxCards))
      else Served(s.(readers := rs, clients := s.clients[id := c.(cards := c.cards + [card])]), Success)
  }

  datatype Called = Called(readers: seq<Reader>, reply: Reply)

  /** A call on a handle: the reader is looked up once the arguments are found good. */
  function CallHandle(rs: seq<Reader>, h: int, op: Operation, d: Driver): (r: Called)
    ensures |r.readers| == |rs|
  {
    var i := FindById(rs, h);
    if h == 0 then Called(rs, InvalidHandle)
    else if Arguments(op) != Success then Called(rs, Arguments(op))
    else if i == |rs| then Called(rs, if op.DoDisconnect? then Success else InvalidValue)
    else
      var o := Apply(rs[i], h, op, d);
      Called(rs[i := o.reader], o.reply)
  }

  /** A call on a handle the client is associated with; the handle goes when it is disconnected. */
  function ServeHandle(s: Server, id: int, h: int, op: Operation, d: Driver): Served
    requires id in s.clients
  {
    var o := CallHandle(s.readers, h, op, d);
    var c := s.clients[id];
    var cs := if op.DoDisconnect? && o.reply == Success then s.clients[id := c.(cards := DropFirst(c.cards, h))] else s.clients;
    Served(s.(readers := o.readers, clients := cs), o.reply)
  }

  /** MSGCheckHandleAssociation */
  predicate Associated(c: Client, h: int) {
    c.hContext != 0 && h in c.cards
  }

  /** One command of client id. A client that names a handle it does not own is cut off. */
  function Serve(s: Server, id: int, command: Command, answers: Answers): Served
    requires id in s.clients
  {
    var c := s.clients[id];
    match command
    case Establish(ctx) =>
      if ctx == 0 then Served(s, Waiting) else Served(s.(clients := s.clients[id := c.(hContext := ctx)]), Success)
    case ReleaseContext(ctx) =>
      if c.hContext == 0 then Served(s, InvalidHandle)
      else if c.hContext != ctx then Served(s, InvalidValue)
      else Served(s.(readers := ReleaseAll(s.readers, c.cards, answers, 0), clients := s.clients[id := Client(0, [])]), Success)
    case ConnectTo(ctx, name, mode, q, card) => ServeConnect(s, id, ctx, name, mode, q, card, answers(0))
    case OnHandle(h, op) =>
      if !Associated(c, h) then Served(Cleanup(s, id, answers), InvalidHandle) else ServeHandle(s, id, h, op, answers(0))
  }

  /** RFAddReader for a reader of its own with one slot; the table grows when it is full. */
  function AddReader(rs: seq<Reader>, name: string): seq<Reader> {
    var i := FindVacant(rs);
    var room := if i == |rs| then rs + MoreEntries else rs;
    room[i := Vacant.(live := true, name := name)]
  }

  function Next(s: Server, step: Step): Server {
    match step
    case Arrives(id) => if id in s.clients then s else s.(clients := s.clients[id := Client(0, [])])
    case Serves(id, command, answers) => if id in s.clients then Serve(s, id, command, answers).server else s
    case Dies(id, answers) => if id in s.clients then Cleanup(s, id, answers) else s
    case StartsPolling(i, sees, d) =>
      if i < |s.readers| && s.readers[i].live then s.(readers := s.readers[i := PollStart(s.readers[i], sees, d)]) else s
    case PollsCard(i, sees, d) =>
      if i < |s.readers| && s.readers[i].live then s.(readers := s.readers[i := PollStatus(s.readers[i], sees, d)]) else s
    case PollsPower(i) =>
      if i < |s.readers| && s.readers[i].live then s.(readers := s.readers[i := PollPower(s.readers[i])]) else s
    case AddsReader(name) => s.(readers := AddReader(s.readers, name))
    case RemovesReader(i) => if i < |s.readers| then s.(readers := s.readers[i := Vacant]) else s
  }

  function Run(s: Server, steps: seq<Step>): Server
    decreases steps
  {
    if steps == [] then s else Run(Next(s, steps[0]), steps[1..])
  }

  /** The server as it starts. */
  function Started(maxHandles: nat, maxCards: nat): Server {
    Server(MoreEntries, map[], maxHandles, maxCards)
  }
}
