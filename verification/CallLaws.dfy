/** What each call answers and does, exactly, in terms of the reader it finds: when it succeeds, what it asks of
    the driver, and what the reader is afterwards. */
module CallLaws {
  import opened Wrappers
  import opened AtrHandler
  import opened ReaderState
  import opened ReaderLaws
  import opened ServerState
  import opened ServerLaws
  import P = ProtHandler

  predicate Unlocked(r: Reader, h: int) {
    r.lockId == 0 || r.lockId == h
  }

  /** The handle may use the card: nobody else holds the lock, the reader answers and the handle was not told of
      a reset or a removal. */
  predicate Usable(r: Reader, h: int) {
    Unlocked(r, h) && r.status != Unknown && EventOf(r.handles, h) == Some(NoEvent)
  }

  /** What a reset, or a power cycle, leaves of what is known of the card. */
  predicate JustReset(s: Reader, d: Driver) {
    && s.protocol == Undefined && s.atr == d.atr && s.atrLength == (if d.power == PowerDone then d.atrLength else 0)
    && (s.status == Ready <==> d.power == PowerDone) && (s.status == Absent <==> d.power == CardGone)
    && (s.status == Mute <==> d.power == PowerFailed)
  }

  // ---- transactions ----

  /** A begin succeeds exactly when the handle may use the card, and takes the lock or goes one level deeper. */
  lemma BeginExactly(r: Reader, h: int, d: Driver)
    requires Sound(r) && Has(r.handles, h)
    ensures var o := Apply(r, h, DoBegin, d);
      && (o.reply == Success <==> Usable(r, h))
      && o.reader == (if Usable(r, h) then r.(lockId := h, lockCount := r.lockCount + 1) else r)
      && (r.status != Unknown && EventOf(r.handles, h) == Some(NoEvent) && !Unlocked(r, h) ==> o.reply == SharingViolation)
  {
  }

  /** The calls to the driver with which SCardEndTransaction and SCardReconnect carry a disposition out. */
  predicate Cycled(more: seq<Call>, disposition: Disposition) {
    && (disposition == Leave ==> more == []) && (disposition == Reset ==> more == [WarmReset])
    && (disposition == Unpower ==> more == [PowerDown, PowerUp]) && (disposition == EjectCard ==> more == [Eject])
  }

  /** An end reaches the card as its disposition says, and succeeds exactly when the driver does and there is a
      level of the lock to give back; the last one of an exclusive connection is not. */
  lemma EndExactly(r: Reader, h: int, finish: Disposition, d: Driver) returns (more: seq<Call>)
    requires Sound(r) && Has(r.handles, h) && finish != BadDisposition
    ensures var o := Apply(r, h, DoEnd(finish), d);
      && o.reader.calls == r.calls + more
      && (EventOf(r.handles, h) != Some(NoEvent) || (finish != Leave && !Unlocked(r, h)) ==> o.reader == r && o.reply != Success)
      && (EventOf(r.handles, h) == Some(NoEvent) && Unlocked(r, h) ==>
            && Cycled(more, finish) && (finish == Reset || finish == Unpower ==> JustReset(o.reader, d))
            && (o.reply == Success <==>
                  && (finish == Leave || (if finish == EjectCard then d.accepts else d.power == PowerDone))
                  && r.lockCount > 0 && !(r.contexts == -1 && r.lockCount == 1))
            && o.reader.lockCount == (if r.lockCount == 0 || (r.contexts == -1 && r.lockCount == 1) then r.lockCount else r.lockCount - 1)
            && o.reader.lockId == (if o.reader.lockCount == 0 then 0 else r.lockId))
  {
    more := if !(EventOf(r.handles, h) == Some(NoEvent) && Unlocked(r, h)) then []
            else match finish case Leave => [] case Reset => [WarmReset] case Unpower => [PowerDown, PowerUp] case _ => [Eject];
    assert Apply(r, h, DoEnd(finish), d).reader.calls == r.calls + more;
  }

  // ---- connections ----

  /** A disconnect waits while another holds the lock, unless it leaves the card alone, and else succeeds; the
      driver is asked for what its disposition says. */
  lemma DisconnectExactly(r: Reader, h: int, disposition: Disposition, d: Driver) returns (more: seq<Call>)
    requires Sound(r) && Has(r.handles, h) && disposition != BadDisposition
    ensures var o := Apply(r, h, DoDisconnect(disposition), d); var s := o.reader;
      if disposition != Leave && !Unlocked(r, h) then o == Outcome(r, Waiting)
      else
        && o.reply == Success && s.calls == r.calls + more
        && (disposition == Leave ==> more == [] && s.status == r.status && s.protocol == r.protocol && s.atrLength == r.atrLength)
        && (disposition == Reset ==> more == [WarmReset] && JustReset(s, d))
        && (disposition == EjectCard ==> more == [Eject] && s.status == r.status && s.protocol == r.protocol)
        && (disposition == Unpower ==>
              && more == [PowerDown] && s.power == PowerOff && s.protocol == Undefined
              && s.status == match d.power case PowerDone => Unpowered case CardGone => Absent case PowerFailed => Mute)
  {
    more := match disposition case Leave => [] case Reset => [WarmReset] case Unpower => [PowerDown] case _ => [Eject];
    if disposition == Leave || Unlocked(r, h) {
      assert Apply(r, h, DoDisconnect(disposition), d).reader.calls == r.calls + more;
    }
  }

  /** The client asks for some protocol. */
  predicate Asks(q: Request) {
    T0 in q.protocols || T1 in q.protocols || q.raw || q.any
  }

  /** The protocol section lets the connection through: the raw protocol and a direct connection need none, a chosen
      one must be named, and else one is negotiated from the ATR. */
  predicate Agreed(protocol: Active, atr: AtrBuffer, length: nat, mode: Mode, q: Request, d: Driver) {
    q.raw || mode == Direct ||
    (if protocol == Undefined
     then P.Negotiated(atr, length, if q.any then {T0, T1} else q.protocols, d.first, d.second).Selected?
     else protocol.Chosen? && protocol.protocol in q.protocols)
  }

  /** And this is the protocol of the reader afterwards. */
  predicate Settled(protocol: Active, atr: AtrBuffer, length: nat, mode: Mode, q: Request, d: Driver, after: Active) {
    if q.raw then after == Raw
    else if mode == Direct || protocol != Undefined then after == protocol
    else
      var n := P.Negotiated(atr, length, if q.any then {T0, T1} else q.protocols, d.first, d.second);
      n.Selected? && after == if n.protocol.Some? then Chosen(n.protocol.value) else Undefined
  }

  predicate CardThere(r: Reader) {
    r.status == Unpowered || r.status == Mute || r.status == Ready
  }

  /** A connect succeeds exactly under these conditions, and then makes the connection what it asked for. */
  lemma ConnectExactly(r: Reader, mode: Mode, q: Request, h: int, max: nat, d: Driver)
    requires Sound(r) && r.live && h != 0 && !Has(r.handles, h) && max >= 1 && mode != BadMode
    ensures var o := Connect(r, mode, q, h, max, d); var s := o.reader; var up := r.power == PowerOff;
      var atr, length := if up then d.atr else r.atr, if up then d.atrLength else r.atrLength;
      && (o.reply == Success <==>
            && r.status != Unknown && r.contexts != -1 && r.lockId == 0
            && (mode == Direct || (CardThere(r) && (r.status == Ready || (up && d.power == PowerDone))))
            && Agreed(r.protocol, atr, length, mode, q, d)
            && (if mode == Exclusive then r.handles == [] else |r.handles| < max))
      && (o.reply == Success ==>
            && s.handles == r.handles + [Handle(h, NoEvent)] && s.contexts == (if mode == Exclusive then -1 else |s.handles|)
            && s.sharing == s.contexts && s.lockId == (if mode == Exclusive then h else 0) && s.lockCount == (if mode == Exclusive then 1 else 0)
            && Settled(r.protocol, atr, length, mode, q, d, s.protocol)
            && (mode != Direct ==> s.power == InUse && s.status == Ready && s.atr == atr && s.atrLength == length))
  {
    hide P.Negotiated, P.Asked;
    var awake := if mode == Direct then r else Awaken(r, d);
    var used := if mode == Direct then awake else awake.(power := InUse);
    var talking := SetProtocol(used, mode, q, d);
    if ConnectRefusal(r, mode) == Success && (mode == Direct || awake.status == Ready) {
      SetProtocolExactly(used, mode, q, d);
      SetProtocolKeeps(used, mode, q, d);
      if talking.reply == Success { AttachLaw(talking.reader, mode, h, max); AttachedAs(talking.reader, mode, h, max); }
    }
  }

  lemma SetProtocolExactly(r: Reader, mode: Mode, q: Request, d: Driver)
    ensures var o := SetProtocol(r, mode, q, d);
      && (o.reply == Success <==> Agreed(r.protocol, r.atr, r.atrLength, mode, q, d))
      && (o.reply == Success ==> Settled(r.protocol, r.atr, r.atrLength, mode, q, d, o.reader.protocol))
      && o.reader == r.(protocol := o.reader.protocol, calls := o.reader.calls)
  {
    hide P.Negotiated, P.Asked;
  }

  lemma AttachedAs(r: Reader, mode: Mode, h: int, max: nat)
    requires Sound(r) && r.lockId == 0 && r.contexts != EXCLUSIVE_CONTEXT
    ensures var o := Attach(r, mode, h, max); var s := o.reader;
      o.reply == Success ==>
        && s.contexts == (if mode == Exclusive then -1 else |s.handles|) && s.lockCount == (if mode == Exclusive then 1 else 0)
        && s == r.(handles := s.handles, contexts := s.contexts, sharing := s.contexts, lockId := s.lockId, lockCount := s.lockCount)
  {
  }

  /** The calls of a connect: it powers the card up when it is off, and the rest are attempts to set the protocol. */
  lemma ConnectCalls(r: Reader, mode: Mode, q: Request, h: int, max: nat, d: Driver) returns (pts: seq<Call>)
    requires ConnectRefusal(r, mode) == Success
    ensures |pts| <= 2 && forall c :: c in pts ==> c == Pts
    ensures Connect(r, mode, q, h, max, d).reader.calls
         == r.calls + (if mode != Direct && r.power == PowerOff then [PowerUp] else []) + pts
  {
    hide P.Negotiated, P.Asked, Attach;
    var awake := if mode == Direct then r else Awaken(r, d);
    pts := [];
    if mode == Direct || awake.status == Ready {
      var used := if mode == Direct then awake else awake.(power := InUse);
      pts := if q.raw || mode == Direct || used.protocol != Undefined then []
             else PtsCalls(P.Asked(used.atr, used.atrLength, Wanted(q), d.first));
      assert SetProtocol(used, mode, q, d).reader.calls == used.calls + pts;
      AttachShape(SetProtocol(used, mode, q, d).reader, mode, h, max);
    }
  }

  /** Why a connect is refused before it reaches the card. */
  lemma ConnectRefused(r: Reader, mode: Mode, q: Request, h: int, max: nat, d: Driver)
    ensures var o := Connect(r, mode, q, h, max, d);
      && (r.status == Unknown ==> o == Outcome(r, ReaderUnavailable))
      && (r.status != Unknown && r.contexts == -1 ==> o == Outcome(r, SharingViolation))
      && (r.status != Unknown && r.contexts != -1 && r.lockId != 0 ==> o == Outcome(r, Waiting))
      && (r.status != Unknown && r.contexts != -1 && r.lockId == 0 && mode != Direct && !CardThere(r) ==> o == Outcome(r, NoSmartcard))
  {
  }

  /** A reconnect succeeds exactly when the handle is let at the reader, the card is there or comes up again, the
      protocol is agreed on, and an exclusive connection is the only one. It takes its event back, and changes
      the mode: to exclusive with a level of the lock, from exclusive with all levels but one given back. */
  lemma ReconnectExactly(r: Reader, h: int, mode: Mode, q: Request, init: Disposition, d: Driver)
    requires Sound(r) && Has(r.handles, h) && (init == Leave || init == Reset || init == Unpower)
    ensures var o := Apply(r, h, DoReconnect(mode, q, init), d); var s := o.reader; var left := init == Leave;
      var protocol := if left then r.protocol else Undefined;
      var atr := if left then r.atr else d.atr;
      var length := if left then r.atrLength else if d.power == PowerDone then d.atrLength else 0;
      && (o.reply == Success <==>
            && r.status != Unknown && Unlocked(r, h)
            && (if left then r.status != Absent && r.status != Mute else d.power == PowerDone)
            && Agreed(protocol, atr, length, mode, q, d)
            && (mode == Exclusive ==> |r.handles| == 1))
      && (o.reply == Success ==>
            && EventOf(s.handles, h) == Some(NoEvent) && Settled(protocol, atr, length, mode, q, d, s.protocol)
            && s.status == (if left then r.status else Ready) && s.power == (if q.raw || mode == Direct then r.power else InUse)
            && ModeChanged(r, s, h, mode))
  {
    hide P.Negotiated, P.Asked, Initialise, Resume, Settled, Agreed;
    InitialiseExactly(r, init, d);
    var ready := Initialise(r, init, d);
    if r.status != Unknown && Unlocked(r, h) && ready.reply == Success {
      InitialiseKeeps(r, init, d);
      SameSharingKeepsSound(r, ready.reader);
      assert Has(ready.reader.handles, h);
      ResumeExactly(ready.reader, h, mode, q, d);
    }
  }

  lemma InitialiseExactly(r: Reader, init: Disposition, d: Driver)
    requires init == Leave || init == Reset || init == Unpower
    ensures var o := Initialise(r, init, d); var s := o.reader;
      && (o.reply == Success <==> if init == Leave then r.status != Absent && r.status != Mute else d.power == PowerDone)
      && s.contexts == r.contexts && s.lockId == r.lockId && s.lockCount == r.lockCount && s.power == r.power && |s.handles| == |r.handles|
      && (if init == Leave then s == r else JustReset(s, d))
  {
  }

  lemma ResumeExactly(r: Reader, h: int, mode: Mode, q: Request, d: Driver)
    requires Sound(r) && Has(r.handles, h) && Unlocked(r, h)
    ensures var o := Resume(r, h, mode, q, d); var s := o.reader;
      && (o.reply == Success <==> Agreed(r.protocol, r.atr, r.atrLength, mode, q, d) && (mode == Exclusive ==> |r.handles| == 1))
      && (o.reply == Success ==>
            && EventOf(s.handles, h) == Some(NoEvent) && Settled(r.protocol, r.atr, r.atrLength, mode, q, d, s.protocol)
            && s.status == r.status && s.power == (if q.raw || mode == Direct then r.power else InUse)
            && ModeChanged(r, s, h, mode))
  {
    hide SetProtocol, Settled, Agreed;
    SetProtocolExactly(r, mode, q, d);
    ClearedLaw(r.handles, h);
  }

  /** The mode of a connection before and after a successful reconnect. */
  predicate ModeChanged(r: Reader, s: Reader, h: int, mode: Mode) {
    && s.contexts == (if mode == Exclusive then -1 else |s.handles|) && s.sharing == s.contexts
    && if mode == Exclusive
       then s.lockId == (if r.contexts == -1 then r.lockId else h) && s.lockCount == r.lockCount + if r.contexts == -1 then 0 else 1
       else s.lockId == r.lockId && s.lockCount == if r.contexts == -1 && r.lockCount > 1 then r.lockCount - 1 else r.lockCount
  }

  lemma SetProtocolCalls(r: Reader, mode: Mode, q: Request, d: Driver)
    ensures SetProtocol(r, mode, q, d).reader.calls
         == r.calls + if q.raw || mode == Direct || r.protocol != Undefined then []
                      else PtsCalls(P.Asked(r.atr, r.atrLength, Wanted(q), d.first))
  {
    hide P.Negotiated, P.Asked;
  }

  /** What a reconnect asks of the driver: the initialisation, and then attempts to set the protocol. */
  lemma ReconnectCalls(r: Reader, h: int, mode: Mode, q: Request, init: Disposition, d: Driver) returns (more: seq<Call>, pts: seq<Call>)
    requires init == Leave || init == Reset || init == Unpower
    ensures |pts| <= 2 && forall c :: c in pts ==> c == Pts
    ensures Apply(r, h, DoReconnect(mode, q, init), d).reader.calls == r.calls + more + pts
    ensures if r.status != Unknown && Unlocked(r, h) then Cycled(more, init) else more == [] == pts
  {
    hide P.Negotiated, P.Asked, Adopt, SetProtocol;
    more, pts := [], [];
    if r.status != Unknown && Unlocked(r, h) {
      more := match init case Leave => [] case Reset => [WarmReset] case _ => [PowerDown, PowerUp];
      var ready := Initialise(r, init, d);
      assert ready.reader.calls == r.calls + more;
      if ready.reply == Success {
        pts := if q.raw || mode == Direct || ready.reader.protocol != Undefined then []
               else PtsCalls(P.Asked(ready.reader.atr, ready.reader.atrLength, Wanted(q), d.first));
        SetProtocolCalls(ready.reader, mode, q, d);
        var talking := SetProtocol(ready.reader, mode, q, d);
        AdoptShape(if q.raw || mode == Direct then talking.reader else talking.reader.(power := InUse), h, mode);
      }
    }
  }

  // ---- calls that go through ----

  /** These calls reach the driver, or succeed, exactly when the handle may use the card and the rest is as they
      need it. */
  lemma StatusExactly(r: Reader, h: int, d: Driver)
    ensures Apply(r, h, DoStatus, d).reader == r
    ensures Apply(r, h, DoStatus, d).reply == Success <==> Usable(r, h) && r.atrLength <= MAX_ATR_SIZE
  {
  }

  /** The driver does it, or the daemon knows the name of the device itself and the client has room for it. */
  predicate Answered(r: Reader, attribute: Attribute, d: Driver) {
    d.attribute == AttributeDone
    || (d.attribute == AttributeUnknown && attribute.Read? && attribute.friendly && |r.name| < attribute.room)
  }

  lemma AttribExactly(r: Reader, h: int, attribute: Attribute, d: Driver)
    ensures var o := Apply(r, h, DoAttrib(attribute), d);
      && o.reader == (if Usable(r, h) then r.(calls := r.calls + [AttributeCall]) else r)
      && (o.reply == Success <==> Usable(r, h) && Answered(r, attribute, d))
  {
  }

  /** SCardControl needs no card and asks for no event. */
  lemma ControlExactly(r: Reader, h: int, empty: bool, d: Driver)
    ensures var o := Apply(r, h, DoControl(empty), d);
      var reaches := Unlocked(r, h) && r.status != Unknown && (d.version == Version3 || (d.version == Version2 && !empty));
      && o.reader == (if reaches then r.(calls := r.calls + [Escape]) else r)
      && (o.reply == Success <==> reaches && d.accepts)
  {
  }

  /** A transmission reaches the card exactly when the handle may use it and the protocol fits, and succeeds when
      the answer fits as well. When the driver finds the card gone the reader forgets it, and no handle is told. */
  lemma TransmitExactly(r: Reader, h: int, pci: Pci, room: nat, d: Driver)
    ensures var o := Apply(r, h, DoTransmit(pci, room), d);
      var fits := match pci
                  case PciRaw => true
                  case PciAny => r.status != Absent
                  case PciUndefined => r.status != Absent && r.protocol == Undefined
                  case PciOf(p) => r.status != Absent && r.protocol == Chosen(p);
      var call := if pci == PciRaw && d.version == Version2 then Escape else Transmission;
      var lost := !d.accepts && d.cardLost;
      && o.reader.calls == (if Usable(r, h) && fits then r.calls + [call] else r.calls)
      && (o.reply == Success <==> Usable(r, h) && fits && d.accepts && d.received <= room && d.received <= 4 + 3 + 65536 + 3 + 2)
      && o.reader == if Usable(r, h) && fits && lost
                     then r.(calls := o.reader.calls, status := Absent, atrLength := 0, protocol := Undefined)
                     else r.(calls := o.reader.calls)
  {
  }

  // ---- why a call fails ----

  /** What a handle that may not use the card is told, by the calls that ask for the lock first. */
  lemma UseRefused(r: Reader, h: int, op: Operation, d: Driver)
    requires Has(r.handles, h) && !Usable(r, h) && (op.DoAttrib? || op.DoTransmit?)
    ensures Apply(r, h, op, d) == Outcome(r, if !Unlocked(r, h) then SharingViolation
                                             else if r.status == Unknown then ReaderUnavailable
                                             else if EventOf(r.handles, h) == Some(ResetEvent) then ResetCard
                                             else RemovedCard)
  {
  }

  /** A begin asks for the lock last. */
  lemma BeginRefused(r: Reader, h: int, d: Driver)
    requires Has(r.handles, h) && !Usable(r, h)
    ensures Apply(r, h, DoBegin, d) == Outcome(r, if r.status == Unknown then ReaderUnavailable
                                                  else if EventOf(r.handles, h) == Some(ResetEvent) then ResetCard
                                                  else if EventOf(r.handles, h) == Some(RemovedEvent) then RemovedCard
                                                  else SharingViolation)
  {
  }

  /** SCardStatus finds an unknown ATR before the event, and the event before an unknown reader. */
  lemma StatusFails(r: Reader, h: int, d: Driver)
    requires Has(r.handles, h)
    ensures var reply := Apply(r, h, DoStatus, d).reply; var e := EventOf(r.handles, h).value; var short := r.atrLength <= MAX_ATR_SIZE;
      && (reply == SharingViolation <==> !Unlocked(r, h))
      && (reply == InternalError <==> Unlocked(r, h) && !short)
      && (reply == ResetCard <==> Unlocked(r, h) && short && e == ResetEvent)
      && (reply == RemovedCard <==> Unlocked(r, h) && short && e == RemovedEvent)
      && (reply == ReaderUnavailable <==> Unlocked(r, h) && short && e == NoEvent && r.status == Unknown)
  {
  }

  /** Once a call has reached the card, the reply is the driver's: a card that has gone, a card that does not answer, or
      an error. */
  lemma EndFails(r: Reader, h: int, finish: Disposition, d: Driver)
    requires Sound(r) && Has(r.handles, h) && finish != BadDisposition && EventOf(r.handles, h) == Some(NoEvent) && Unlocked(r, h)
    ensures var reply := Apply(r, h, DoEnd(finish), d).reply; var cycles := finish == Reset || finish == Unpower;
      && (reply == RemovedCard <==> cycles && d.power == CardGone)
      && (reply == DriverError <==> (cycles && d.power == PowerFailed) || (finish == EjectCard && !d.accepts))
      && (reply != Success && reply != RemovedCard && reply != DriverError ==> reply == NotTransacted)
  {
  }

  /** The reply when the protocol section does not let a connection through. */
  predicate Disagreed(reply: Reply, protocol: Active, atr: AtrBuffer, length: nat, q: Request, d: Driver) {
    reply == if protocol == Undefined
                && P.Negotiated(atr, length, if q.any then {T0, T1} else q.protocols, d.first, d.second) == P.PpsFailed
             then UnresponsiveCard else ProtoMismatch
  }

  lemma SetProtocolFails(r: Reader, mode: Mode, q: Request, d: Driver)
    ensures var o := SetProtocol(r, mode, q, d); o.reply != Success ==> Disagreed(o.reply, r.protocol, r.atr, r.atrLength, q, d)
  {
    hide P.Negotiated, P.Asked;
  }

  /** A reconnect fails for the reader, the lock, the card, its protocol or the mode, in this order. */
  lemma ReconnectFails(r: Reader, h: int, mode: Mode, q: Request, init: Disposition, d: Driver)
    requires Sound(r) && Has(r.handles, h) && (init == Leave || init == Reset || init == Unpower)
    ensures var reply := Apply(r, h, DoReconnect(mode, q, init), d).reply; var left := init == Leave;
      var protocol := if left then r.protocol else Undefined;
      var atr := if left then r.atr else d.atr;
      var length := if left then r.atrLength else if d.power == PowerDone then d.atrLength else 0;
      if r.status == Unknown then reply == ReaderUnavailable
      else if !Unlocked(r, h) then reply == SharingViolation
      else if (if left then r.status == Absent else d.power == CardGone) then reply == NoSmartcard
      else if (if left then r.status == Mute else d.power == PowerFailed) then reply == UnresponsiveCard
      else if !Agreed(protocol, atr, length, mode, q, d) then Disagreed(reply, protocol, atr, length, q, d)
      else reply == if mode == Exclusive && |r.handles| > 1 then SharingViolation else Success
  {
    hide P.Negotiated, P.Asked, Initialise, Resume, SetProtocol, Disagreed, Agreed, Settled;
    InitialiseExactly(r, init, d);
    InitialiseFails(r, init, d);
    var ready := Initialise(r, init, d);
    if r.status != Unknown && Unlocked(r, h) && ready.reply == Success {
      InitialiseKeeps(r, init, d);
      SameSharingKeepsSound(r, ready.reader);
      assert Has(ready.reader.handles, h);
      ResumeExactly(ready.reader, h, mode, q, d);
      ResumeFails(ready.reader, h, mode, q, d);
    }
  }

  lemma InitialiseFails(r: Reader, init: Disposition, d: Driver)
    requires init == Leave || init == Reset || init == Unpower
    ensures var o := Initialise(r, init, d);
      && (o.reply == NoSmartcard <==> if init == Leave then r.status == Absent else d.power == CardGone)
      && (o.reply == UnresponsiveCard <==> if init == Leave then r.status == Mute else d.power == PowerFailed)
  {
  }

  lemma ResumeFails(r: Reader, h: int, mode: Mode, q: Request, d: Driver)
    requires Sound(r) && Has(r.handles, h)
    ensures var reply := Resume(r, h, mode, q, d).reply;
      if Agreed(r.protocol, r.atr, r.atrLength, mode, q, d) then reply == Success || (mode == Exclusive && reply == SharingViolation)
      else Disagreed(reply, r.protocol, r.atr, r.atrLength, q, d)
  {
    hide SetProtocol, Agreed, Settled, Disagreed;
    SetProtocolExactly(r, mode, q, d);
    SetProtocolFails(r, mode, q, d);
  }

  lemma AttribFails(r: Reader, h: int, attribute: Attribute, d: Driver)
    requires Usable(r, h) && !Answered(r, attribute, d)
    ensures var reply := Apply(r, h, DoAttrib(attribute), d).reply;
      && (reply == UnsupportedFeature <==> d.attribute == AttributeUnknown && (attribute.Write? || !attribute.friendly))
      && (reply == InsufficientBuffer <==>
            attribute.Read? && (d.attribute == AttributeTooLong || (d.attribute == AttributeUnknown && attribute.friendly)))
      && (reply != UnsupportedFeature && reply != InsufficientBuffer ==> reply == NotTransacted)
  {
  }

  lemma ControlFails(r: Reader, h: int, empty: bool, d: Driver)
    ensures var reply := Apply(r, h, DoControl(empty), d).reply; var noCommand := d.version == Version2 && empty;
      && (reply == SharingViolation <==> !Unlocked(r, h))
      && (reply == InvalidParameter <==> Unlocked(r, h) && noCommand)
      && (reply == ReaderUnavailable <==> Unlocked(r, h) && !noCommand && r.status == Unknown)
      && (reply == UnsupportedFeature <==> Unlocked(r, h) && r.status != Unknown && d.version == OtherVersion)
      && (reply == DriverError <==> Unlocked(r, h) && !noCommand && r.status != Unknown && d.version != OtherVersion && !d.accepts)
  {
  }

  lemma TransmitFails(r: Reader, h: int, pci: Pci, room: nat, d: Driver)
    requires Usable(r, h)
    ensures var reply := Apply(r, h, DoTransmit(pci, room), d).reply;
      var absent := pci != PciRaw && r.status == Absent;
      var other := (pci == PciUndefined && r.protocol != Undefined) || (pci.PciOf? && r.protocol != Chosen(pci.protocol));
      && (reply == ProtoMismatch <==> !absent && other)
      && (reply == NoSmartcard <==> absent || (!other && !d.accepts && d.cardLost))
      && (reply == DriverError <==> !absent && !other && !d.accepts && !d.cardLost)
      && (reply != Success && reply != ProtoMismatch && reply != NoSmartcard && reply != DriverError ==> reply == InsufficientBuffer)
  {
  }

  /** A connect that was let at the card fails for its power, its protocol, the mode or the throttle, in this order. */
  lemma ConnectFails(r: Reader, mode: Mode, q: Request, h: int, max: nat, d: Driver)
    requires Sound(r) && r.live && h != 0 && !Has(r.handles, h) && max >= 1 && mode != BadMode
    requires r.status != Unknown && r.contexts != -1 && r.lockId == 0 && (mode == Direct || CardThere(r))
    ensures var reply := Connect(r, mode, q, h, max, d).reply; var up := r.power == PowerOff;
      var atr, length := if up then d.atr else r.atr, if up then d.atrLength else r.atrLength;
      if mode != Direct && r.status != Ready && !(up && d.power == PowerDone) then reply == UnpoweredCard
      else if !Agreed(r.protocol, atr, length, mode, q, d) then Disagreed(reply, r.protocol, atr, length, q, d)
      else if mode == Exclusive then reply == if r.handles != [] then SharingViolation else Success
      else reply == if |r.handles| >= max then InternalError else Success
  {
    hide SetProtocol, Agreed, Settled, Disagreed, Attach;
    var awake := if mode == Direct then r else Awaken(r, d);
    var used := if mode == Direct then awake else awake.(power := InUse);
    var talking := SetProtocol(used, mode, q, d);
    if mode == Direct || awake.status == Ready {
      SetProtocolExactly(used, mode, q, d);
      SetProtocolFails(used, mode, q, d);
      AnyAtrWhenDirect(r.protocol, used, mode, q, d);
      if talking.reply == Success { AttachLaw(talking.reader, mode, h, max); AttachReplies(talking.reader, mode, h, max); }
    }
  }

  lemma AnyAtrWhenDirect(protocol: Active, r: Reader, mode: Mode, q: Request, d: Driver)
    ensures mode == Direct ==> forall atr, length {:trigger Agreed(protocol, atr, length, mode, q, d)} :: Agreed(protocol, atr, length, mode, q, d)
  {
  }

  lemma AttachReplies(r: Reader, mode: Mode, h: int, max: nat)
    ensures var reply := Attach(r, mode, h, max).reply; reply == Success || reply == SharingViolation || reply == InternalError
  {
  }

  // ---- the polling thread ----

  /** The counter of the events of a reader has 16 bits. */
  predicate Counted(before: nat, after: nat) {
    after == (before + 1) % 0x10000
  }

  /** A card that comes is powered up, and what the driver says of it is what the reader knows; a card that goes
      leaves nothing; both are counted, an error is not. */
  lemma LookExactly(r: Reader, o: Observation, d: Driver)
    requires Sound(r) && r.polled != NotStarted
    ensures var s := PollStatus(r, o, d);
      && s.polled == (match o case SeesPresent => SawPresent case SeesAbsent => SawAbsent case SeesError => SawError)
      && s.sharing == s.contexts == r.contexts == s.polledSharing
      && (o == SeesPresent && r.polled != SawPresent ==>
            && s.calls == r.calls + [PowerUp] && s.atr == d.atr && s.protocol == Undefined && Counted(r.eventCounter, s.eventCounter)
            && (if d.power == PowerDone then s.status == Ready && s.power == Powered && s.atrLength == d.atrLength
                else s.status == Mute && s.power == PowerOff && s.atrLength == 0))
      && (o == SeesAbsent && r.polled != SawAbsent ==>
            && s.calls == r.calls && s.status == Absent && s.atrLength == 0 && s.protocol == Undefined && s.power == r.power
            && Counted(r.eventCounter, s.eventCounter))
      && (o == SeesError ==>
            && s.calls == r.calls && s.status == Unknown && s.atrLength == 0 && s.protocol == Undefined && s.power == r.power
            && s.eventCounter == r.eventCounter)
  {
  }

  /** The first look counts nothing. */
  lemma FirstLookExactly(r: Reader, o: Observation, d: Driver)
    requires r.polled == NotStarted
    ensures var s := PollStart(r, o, d);
      && s.eventCounter == r.eventCounter && s.handles == r.handles && s.sharing == s.contexts == r.contexts == s.polledSharing
      && s.protocol == Undefined
      && if o == SeesPresent
         then s.polled == SawPresent && s.calls == r.calls + [PowerUp] && s.atr == d.atr && s.atrLength == d.atrLength
              && s.status == (if d.power == PowerDone then Ready else Mute) && s.power == if d.power == PowerDone then Powered else PowerOff
         else s.polled == SawAbsent && s.calls == r.calls && s.status == Absent && s.atrLength == 0 && s.power == r.power
  {
  }
}
