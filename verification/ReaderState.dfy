/** One reader as a value: what the calls of src/winscard.c and the locks, handles and events of
    src/readerfactory.c do to it. Each function is one call, taken as one step. */
module ReaderState {
  import opened Wrappers
  import opened AtrHandler
  import P = ProtHandler

  /** dwEventStatus: 0, SCARD_RESET, SCARD_REMOVED */
  datatype Event = NoEvent | ResetEvent | RemovedEvent

  /** RDR_CLIHANDLES */
  datatype Handle = Handle(card: int, event: Event)

  /** The combinations of flags that readerState.readerState takes: 0, UNKNOWN, ABSENT, PRESENT,
      PRESENT|SWALLOWED, PRESENT|POWERED|NEGOTIABLE. */
  datatype Status = Uninitialised | Unknown | Absent | Unpowered | Mute | Ready

  /** POWER_STATE_UNPOWERED < POWERED < GRACE_PERIOD < IN_USE */
  datatype Power = PowerOff | Powered | GracePeriod | InUse

  /** cardProtocol */
  datatype Active = Undefined | Raw | Chosen(protocol: Protocol)

  /** What the polling thread saw last (dwCurrentState). */
  datatype Polled = NotStarted | SawAbsent | SawPresent | SawError

  /** Calls to the driver that act on the card. */
  datatype Call = PowerUp | PowerDown | WarmReset | AutoPowerDown | Eject | Pts | Transmission | Escape | AttributeCall

  type AtrBuffer = b: seq<bv8> | |b| == MAX_ATR_SIZE + 4 witness seq(MAX_ATR_SIZE + 4, i => 0)

  const READER_NOT_INITIALIZED := MAX_ATR_SIZE + 1
  const EXCLUSIVE_CONTEXT := -1
  const MAX_EVENT_COUNTER := 0xFFFF

  datatype Reader = Reader(
    live: bool,                 // vHandle != 0
    name: string,
    handles: seq<Handle>,       // handlesList
    contexts: int,              // -1: exclusive
    lockId: int,                // hLockId, 0: none
    lockCount: nat,
    status: Status,
    protocol: Active,
    atr: AtrBuffer,
    atrLength: nat,
    sharing: int,               // readerState.readerSharing
    eventCounter: nat,
    power: Power,
    polled: Polled,
    polledSharing: int,         // the polling thread's copy of contexts
    calls: seq<Call>)           // every call to the driver so far

  datatype Mode = Exclusive | Shared | Direct | BadMode

  /** dwPreferredProtocols: T=0, T=1, T=15, SCARD_PROTOCOL_RAW, SCARD_PROTOCOL_ANY_OLD. */
  datatype Request = Request(protocols: set<Protocol>, raw: bool, any: bool)

  datatype Disposition = Leave | Reset | Unpower | EjectCard | BadDisposition

  datatype Reply =
    | Success | Waiting | InvalidHandle | InvalidValue | ProtoMismatch | ReaderUnavailable | UnknownReader
    | SharingViolation | NoSmartcard | UnpoweredCard | UnresponsiveCard | InternalError
    | RemovedCard | ResetCard | NotTransacted | NoMemory | InvalidParameter | UnsupportedFeature | InsufficientBuffer
    | SecurityViolation | DriverError

  /** The answers of IFDPowerICC; CardGone is SCARD_W_REMOVED_CARD. */
  datatype PowerCode = PowerDone | CardGone | PowerFailed

  /** IFD_SUCCESS, IFD_ERROR_TAG, IFD_ERROR_INSUFFICIENT_BUFFER, anything else. */
  datatype AttributeCode = AttributeDone | AttributeUnknown | AttributeTooLong | AttributeFailed

  /** IFD_HVERSION_2_0, IFD_HVERSION_3_0. */
  datatype Version = Version2 | Version3 | OtherVersion

  /** What a call finds outside the daemon: the driver's version and answers, and polkit's. */
  datatype Driver = Driver(power: PowerCode, atr: AtrBuffer, atrLength: nat, first: P.PtsReply, second: P.PtsReply,
                           accepts: bool, cardLost: bool, received: nat, attribute: AttributeCode, version: Version,
                           authorized: bool)

  datatype Outcome = Outcome(reader: Reader, reply: Reply)

  // ---- handlesList ----

  /** The dwEventStatus RFCheckReaderEventState reads; None when the handle is not in the list. */
  function EventOf(hs: seq<Handle>, h: int): Option<Event> {
    if hs == [] then None else if hs[0].card == h then Some(hs[0].event) else EventOf(hs[1..], h)
  }

  predicate Has(hs: seq<Handle>, h: int) {
    EventOf(hs, h).Some?
  }

  /** RFRemoveReaderHandle */
  function Without(hs: seq<Handle>, h: int): seq<Handle> {
    if hs == [] then [] else if hs[0].card == h then hs[1..] else [hs[0]] + Without(hs[1..], h)
  }

  /** The loop of RFSetReaderEventState. */
  function Marked(hs: seq<Handle>, e: Event): (r: seq<Handle>)
    ensures |r| == |hs|
  {
    seq(|hs|, j requires 0 <= j < |hs| => hs[j].(event := e))
  }

  /** RFClearReaderEventState */
  function Cleared(hs: seq<Handle>, h: int): (r: seq<Handle>)
    ensures |r| == |hs|
  {
    if hs == [] then []
    else if hs[0].card == h then [hs[0].(event := NoEvent)] + hs[1..]
    else [hs[0]] + Cleared(hs[1..], h)
  }

  // ---- sharing, events, status ----

  /** RFCheckSharing succeeds */
  predicate MayUse(r: Reader, h: int) {
    r.lockId == 0 || r.lockId == h
  }

  /** RFLockSharing */
  function Lock(r: Reader, h: int): Outcome {
    if MayUse(r, h) then Outcome(r.(lockId := h, lockCount := r.lockCount + 1), Success)
    else Outcome(r, SharingViolation)
  }

  /** RFUnlockSharing. An exclusive connection keeps its last lock. */
  function Unlock(r: Reader, h: int): Outcome {
    if !MayUse(r, h) then Outcome(r, SharingViolation)
    else if r.lockCount == 0 || (r.contexts == EXCLUSIVE_CONTEXT && r.lockCount == 1) then Outcome(r, NotTransacted)
    else Outcome(r.(lockCount := r.lockCount - 1, lockId := if r.lockCount == 1 then 0 else r.lockId), Success)
  }

  /** RFUnlockAllSharing */
  function UnlockAll(r: Reader, h: int): Outcome {
    if MayUse(r, h) then Outcome(r.(lockId := 0, lockCount := 0), Success) else Outcome(r, SharingViolation)
  }

  /** RFSetReaderEventState(SCARD_RESET) */
  function NotifyReset(r: Reader): Reader {
    r.(handles := Marked(r.handles, ResetEvent))
  }

  /** RFSetReaderEventState(SCARD_REMOVED) */
  function NotifyRemoved(r: Reader): Reader {
    r.(handles := Marked(r.handles, RemovedEvent), lockId := 0, lockCount := 0)
  }

  /** RFCheckReaderEventState */
  function EventReply(r: Reader, h: int): Reply {
    match EventOf(r.handles, h)
    case None => InvalidHandle
    case Some(NoEvent) => Success
    case Some(ResetEvent) => ResetCard
    case Some(RemovedEvent) => RemovedCard
  }

  // ---- SCardConnect ----

  predicate Nothing(q: Request) {
    T0 !in q.protocols && T1 !in q.protocols && !q.raw && !q.any
  }

  predicate CardPresent(r: Reader) {
    r.status == Unpowered || r.status == Mute || r.status == Ready
  }

  /** The power-up of a card that is not powered. */
  function Awaken(r: Reader, d: Driver): Reader {
    if r.power != PowerOff then r
    else r.(atr := d.atr, atrLength := d.atrLength, calls := r.calls + [PowerUp],
            status := if d.power == PowerDone then Ready else r.status)
  }

  /** SCARD_PROTOCOL_ANY_OLD stands for T=0 and T=1 while no protocol is set. */
  function Wanted(q: Request): set<Protocol> {
    if q.any then {T0, T1} else q.protocols
  }

  /** n attempts to set the protocol. */
  function PtsCalls(n: nat): (c: seq<Call>)
    requires n <= 2
    ensures |c| == n && forall x :: x in c ==> x == Pts
  {
    if n == 0 then [] else if n == 1 then [Pts] else [Pts, Pts]
  }

  /** The protocol section of SCardConnect and SCardReconnect. */
  function SetProtocol(r: Reader, mode: Mode, q: Request, d: Driver): Outcome {
    if q.raw then Outcome(r.(protocol := Raw), Success)
    else if mode == Direct then Outcome(r, Success)
    else if r.protocol == Undefined then
      var tried := r.(calls := r.calls + PtsCalls(P.Asked(r.atr, r.atrLength, Wanted(q), d.first)));
      match P.Negotiated(r.atr, r.atrLength, Wanted(q), d.first, d.second)
      case PpsFailed => Outcome(tried, UnresponsiveCard)
      case WrongArgument => Outcome(tried, ProtoMismatch)
      case Selected(p) => Outcome(tried.(protocol := if p.Some? then Chosen(p.value) else Undefined), Success)
    else if r.protocol.Chosen? && r.protocol.protocol in q.protocols then Outcome(r, Success)
    else Outcome(r, ProtoMismatch)
  }

  /** The checks of SCardConnect that leave the reader alone. */
  function ConnectRefusal(r: Reader, mode: Mode): Reply {
    if r.status == Unknown then ReaderUnavailable
    else if r.contexts == EXCLUSIVE_CONTEXT then SharingViolation
    else if r.lockId != 0 then Waiting
    else if mode != Direct && !CardPresent(r) then NoSmartcard
    else Success
  }

  /** The checks of SCardConnect on its own arguments, made before the reader is looked up. */
  function ConnectArguments(mode: Mode, q: Request): Reply {
    if mode != Direct && Nothing(q) then ProtoMismatch else if mode == BadMode then InvalidValue else Success
  }

  function Connect(r: Reader, mode: Mode, q: Request, card: int, max: nat, d: Driver): Outcome {
    if ConnectRefusal(r, mode) != Success then Outcome(r, ConnectRefusal(r, mode))
    else
      var awake := if mode == Direct then r else Awaken(r, d);
      if mode != Direct && awake.status != Ready then Outcome(awake, UnpoweredCard)
      else
        var used := if mode == Direct then awake else awake.(power := InUse);
        var talking := SetProtocol(used, mode, q, d);
        if talking.reply != Success then talking else Attach(talking.reader, mode, card, max)
  }

  /** The exclusivity section of SCardConnect and the new entry in handlesList. */
  function Attach(r: Reader, mode: Mode, h: int, max: nat): Outcome {
    if mode == Exclusive && r.contexts != 0 then Outcome(r, SharingViolation)
    else
      var counted := if mode == Exclusive then Lock(r.(contexts := EXCLUSIVE_CONTEXT), h).reader
                     else r.(contexts := r.contexts + 1);
      if |counted.handles| >= max then
        Outcome(counted.(contexts := if counted.contexts == EXCLUSIVE_CONTEXT then 0
                                     else if counted.contexts > 0 then counted.contexts - 1
                                     else counted.contexts), InternalError)
      else
        Outcome(counted.(handles := counted.handles + [Handle(h, NoEvent)], sharing := counted.contexts), Success)
  }

  // ---- SCardReconnect ----

  function ReconnectArguments(mode: Mode, q: Request, init: Disposition): Reply {
    if init == EjectCard || init == BadDisposition then InvalidValue
    else if mode == BadMode then InvalidValue
    else if mode != Direct && Nothing(q) then ProtoMismatch
    else Success
  }

  function PowerCycle(disposition: Disposition): seq<Call> {
    if disposition == Reset then [WarmReset] else [PowerDown, PowerUp]
  }

  /** The state a reset of the card leaves. */
  function AfterReset(r: Reader, d: Driver): Reader {
    r.(protocol := Undefined, atr := d.atr,
       atrLength := if d.power == PowerDone then d.atrLength else 0,
       status := match d.power case PowerDone => Ready case CardGone => Absent case PowerFailed => Mute)
  }

  /** The card initialisation SCardReconnect asks for. */
  function Initialise(r: Reader, init: Disposition, d: Driver): Outcome {
    if init == Leave then
      Outcome(r, if r.status == Absent then NoSmartcard else if r.status == Mute then UnresponsiveCard else Success)
    else
      var reset := AfterReset(NotifyReset(r).(calls := r.calls + PowerCycle(init)), d);
      Outcome(reset, match d.power case PowerDone => Success case CardGone => NoSmartcard case PowerFailed => UnresponsiveCard)
  }

  /** The sharing section of SCardReconnect. */
  function ChangeMode(r: Reader, h: int, mode: Mode): Outcome {
    if mode == Exclusive then
      if r.contexts == EXCLUSIVE_CONTEXT then Outcome(r, Success)
      else if r.contexts == 1 then Outcome(Lock(r.(contexts := EXCLUSIVE_CONTEXT), h).reader, Success)
      else Outcome(r, SharingViolation)
    else if r.contexts != EXCLUSIVE_CONTEXT then Outcome(r, Success)
    else Outcome(Unlock(r, h).reader.(contexts := 1), Success)
  }

  /** The end of SCardReconnect: the new mode, and the event of the handle cleared. */
  function Adopt(r: Reader, h: int, mode: Mode): Outcome {
    var changed := ChangeMode(r, h, mode);
    if changed.reply != Success then changed
    else Outcome(changed.reader.(handles := Cleared(changed.reader.handles, h),
                                 sharing := changed.reader.contexts), Success)
  }

  /** SCardReconnect once the card is initialised. */
  function Resume(r: Reader, h: int, mode: Mode, q: Request, d: Driver): Outcome {
    var talking := SetProtocol(r, mode, q, d);
    if talking.reply != Success then talking
    else Adopt(if q.raw || mode == Direct then talking.reader else talking.reader.(power := InUse), h, mode)
  }

  function Reconnect(r: Reader, h: int, mode: Mode, q: Request, init: Disposition, d: Driver): Outcome {
    if r.status == Unknown then Outcome(r, ReaderUnavailable)
    else if !MayUse(r, h) then Outcome(r, SharingViolation)
    else
      var ready := Initialise(r, init, d);
      if ready.reply != Success then ready else Resume(ready.reader, h, mode, q, d)
  }

  // ---- SCardDisconnect ----

  /** What the disposition of SCardDisconnect does to the card. */
  function Dispose(r: Reader, disposition: Disposition, d: Driver): Reader {
    match disposition
    case Reset => AfterReset(NotifyReset(r).(calls := r.calls + [WarmReset]), d)
    case Unpower =>
      NotifyReset(r).(calls := r.calls + [PowerDown], power := PowerOff, protocol := Undefined,
                      status := match d.power case PowerDone => Unpowered case CardGone => Absent case PowerFailed => Mute)
    case EjectCard => r.(calls := r.calls + [Eject])
    case _ => r
  }

  /** The end of SCardDisconnect: one handle less. */
  function Detach(r: Reader, h: int): Reader {
    var n := if r.contexts == EXCLUSIVE_CONTEXT || r.contexts - 1 < 0 then 0 else r.contexts - 1;
    r.(handles := Without(r.handles, h), contexts := n, sharing := n,
       power := if n == 0 && r.power != PowerOff then GracePeriod else r.power)
  }

  function Disconnect(r: Reader, h: int, disposition: Disposition, d: Driver): Outcome {
    if disposition != Leave && !MayUse(r, h) then Outcome(r, Waiting)
    else Outcome(Detach(Dispose(UnlockAll(r, h).reader, disposition, d), h), Success)
  }

  // ---- SCardBeginTransaction, SCardEndTransaction ----

  function Begin(r: Reader, h: int): Outcome {
    if r.status == Unknown then Outcome(r, ReaderUnavailable)
    else if EventReply(r, h) != Success then Outcome(r, EventReply(r, h))
    else Lock(r, h)
  }

  /** What the disposition of SCardEndTransaction does to the card. */
  function Conclude(r: Reader, disposition: Disposition, d: Driver): Outcome {
    match disposition
    case Leave => Outcome(r, Success)
    case BadDisposition => Outcome(r, Success)
    case EjectCard => Outcome(r.(calls := r.calls + [Eject]), if d.accepts then Success else DriverError)
    case _ =>
      Outcome(AfterReset(NotifyReset(r).(calls := r.calls + PowerCycle(disposition)), d),
              match d.power case PowerDone => Success case CardGone => RemovedCard case PowerFailed => DriverError)
  }

  function End(r: Reader, h: int, disposition: Disposition, d: Driver): Outcome {
    if EventReply(r, h) != Success then Outcome(r, EventReply(r, h))
    else if disposition != Leave && !MayUse(r, h) then Outcome(r, SharingViolation)
    else
      var done := Conclude(r, disposition, d);
      var freed := Unlock(done.reader, h);
      Outcome(freed.reader, if done.reply == Success then freed.reply else done.reply)
  }

  // ---- calls that only go through ----

  /** SCardStatus */
  function StatusReply(r: Reader, h: int): Reply {
    if !MayUse(r, h) then SharingViolation
    else if r.atrLength > MAX_ATR_SIZE then InternalError
    else if EventReply(r, h) != Success then EventReply(r, h)
    else if r.status == Unknown then ReaderUnavailable
    else Success
  }

  /** SCardGetAttrib, SCardSetAttrib and SCardTransmit ask this first. */
  function UseReply(r: Reader, h: int): Reply {
    if !MayUse(r, h) then SharingViolation
    else if r.status == Unknown then ReaderUnavailable
    else EventReply(r, h)
  }

  /** An attribute to read, with the room in the client's buffer, or one to set. friendly: the attribute is
      a name of the device, which the daemon knows as well. */
  datatype Attribute = Read(friendly: bool, room: nat) | Write

  /** The reply to SCardGetAttrib or SCardSetAttrib once the driver has answered. */
  function AttribReply(r: Reader, attribute: Attribute, d: Driver): Reply {
    match d.attribute
    case AttributeDone => Success
    case AttributeUnknown =>
      if attribute == Write || !attribute.friendly then UnsupportedFeature
      else if |r.name| + 1 > attribute.room then InsufficientBuffer
      else Success
    case AttributeTooLong => if attribute.Read? then InsufficientBuffer else NotTransacted
    case AttributeFailed => NotTransacted
  }

  function Attrib(r: Reader, h: int, attribute: Attribute, d: Driver): Outcome {
    if UseReply(r, h) != Success then Outcome(r, UseReply(r, h))
    else Outcome(r.(calls := r.calls + [AttributeCall]), AttribReply(r, attribute, d))
  }

  /** SCardControl asks for no event. A version 2 driver wants a command, empty says that there is none. */
  function Control(r: Reader, h: int, empty: bool, d: Driver): Outcome {
    if !MayUse(r, h) then Outcome(r, SharingViolation)
    else if d.version == Version2 && empty then Outcome(r, InvalidParameter)
    else if r.status == Unknown then Outcome(r, ReaderUnavailable)
    else if d.version == OtherVersion then Outcome(r, UnsupportedFeature)
    else Outcome(r.(calls := r.calls + [Escape]), if d.accepts then Success else DriverError)
  }

  /** pioSendPci->dwProtocol */
  datatype Pci = PciRaw | PciAny | PciUndefined | PciOf(protocol: Protocol)

  function TransmitReply(r: Reader, h: int, pci: Pci): Reply {
    if UseReply(r, h) != Success then UseReply(r, h)
    else if pci != PciRaw && r.status == Absent then NoSmartcard
    else if (pci.PciOf? && r.protocol != Chosen(pci.protocol)) || (pci == PciUndefined && r.protocol != Undefined) then ProtoMismatch
    else Success
  }

  /** The daemon's buffer for an answer. */
  const MAX_BUFFER_SIZE_EXTENDED := 4 + 3 + 0x10000 + 3 + 2

  /** size is the room for the answer; the driver may send more. */
  function Transmit(r: Reader, h: int, pci: Pci, size: nat, d: Driver): Outcome {
    if size < 2 then Outcome(r, InsufficientBuffer)
    else if TransmitReply(r, h, pci) != Success then Outcome(r, TransmitReply(r, h, pci))
    else
      var sent := r.(calls := r.calls + [if pci == PciRaw && d.version == Version2 then Escape else Transmission]);
      if d.accepts then Outcome(sent, if size < d.received then InsufficientBuffer else Success)
      else if d.cardLost then Outcome(sent.(atrLength := 0, protocol := Undefined, status := Absent), NoSmartcard)
      else Outcome(sent, DriverError)
  }

  /** The daemon transmits with its own buffer, and only then finds that the client's is too small. */
  function ServeTransmit(r: Reader, h: int, pci: Pci, room: nat, d: Driver): Outcome {
    var o := Transmit(r, h, pci, MAX_BUFFER_SIZE_EXTENDED, d);
    Outcome(o.reader, if o.reply == Success && room < d.received then InsufficientBuffer else o.reply)
  }

  // ---- one client request on a handle ----

  datatype Operation =
    | DoReconnect(mode: Mode, request: Request, init: Disposition)
    | DoDisconnect(disposition: Disposition)
    | DoBegin
    | DoEnd(finish: Disposition)
    | DoStatus
    | DoControl(empty: bool)
    | DoAttrib(attribute: Attribute)
    | DoTransmit(pci: Pci, room: nat)

  /** The checks an operation makes on its own arguments, before it looks up the reader. */
  function Arguments(op: Operation): Reply {
    match op
    case DoReconnect(mode, q, init) => ReconnectArguments(mode, q, init)
    case DoDisconnect(disposition) => if disposition == BadDisposition then InvalidValue else Success
    case DoEnd(finish) => if finish == BadDisposition then InvalidValue else Success
    case _ => Success
  }

  /** What operation op through handle h does to the reader of h. */
  function Apply(r: Reader, h: int, op: Operation, d: Driver): Outcome {
    match op
    case DoReconnect(mode, q, init) => Reconnect(r, h, mode, q, init, d)
    case DoDisconnect(disposition) => Disconnect(r, h, disposition, d)
    case DoBegin => Begin(r, h)
    case DoEnd(finish) => End(r, h, finish, d)
    case DoStatus => Outcome(r, StatusReply(r, h))
    case DoControl(empty) => Control(r, h, empty, d)
    case DoAttrib(attribute) => Attrib(r, h, attribute, d)
    case DoTransmit(pci, room) => ServeTransmit(r, h, pci, room, d)
  }

  /** MSGRemoveContext for one card: the owner of the lock has it cleared first, and the card is reset
      unless its handle has already been told of a reset or a removal. */
  function ReleaseCard(r: Reader, h: int, d: Driver): Reader {
    if r.lockId == 0 || r.lockId != h then Disconnect(r, h, Leave, d).reader
    else
      var open := r.(lockId := 0);
      var told := StatusReply(open, h) == ResetCard || StatusReply(open, h) == RemovedCard;
      Disconnect(open, h, if told then Leave else Reset, d).reader
  }

  // ---- the polling thread of src/eventhandler.c ----

  /** IFDStatusICC */
  datatype Observation = SeesAbsent | SeesPresent | SeesError

  function PowerOn(r: Reader, d: Driver): Reader {
    r.(atr := d.atr, calls := r.calls + [PowerUp], protocol := Undefined, polled := SawPresent,
       status := if d.power == PowerDone then Ready else Mute,
       power := if d.power == PowerDone then Powered else PowerOff)
  }

  function Tick(n: nat): nat {
    if n + 1 > MAX_EVENT_COUNTER then 0 else n + 1
  }

  /** The thread before its loop: no event, no count. */
  function PollStart(r: Reader, o: Observation, d: Driver): Reader {
    if r.polled != NotStarted then r
    else
      var seen := if o == SeesPresent then PowerOn(r, d).(atrLength := d.atrLength)
                  else r.(status := Absent, atrLength := 0, protocol := Undefined, polled := SawAbsent);
      seen.(sharing := r.contexts, polledSharing := r.contexts)
  }

  function PollCard(r: Reader, o: Observation, d: Driver): Reader {
    match o
    case SeesError => r.(status := Unknown, atrLength := 0, protocol := Undefined, polled := SawError)
    case SeesAbsent =>
      if r.polled == SawAbsent then r
      else NotifyRemoved(r).(atrLength := 0, protocol := Undefined, status := Absent, polled := SawAbsent,
                             eventCounter := Tick(r.eventCounter))
    case SeesPresent =>
      if r.polled == SawPresent then r
      else PowerOn(r, d).(atrLength := if d.power == PowerDone then d.atrLength else 0,
                          eventCounter := Tick(r.eventCounter))
  }

  /** One look at the card, and the sharing passed on. */
  function PollStatus(r: Reader, o: Observation, d: Driver): Reader {
    if r.polled == NotStarted then r
    else
      var seen := PollCard(r, o, d);
      if seen.polledSharing != seen.contexts then seen.(polledSharing := seen.contexts, sharing := seen.contexts) else seen
  }

  /** The power state after the wait: powered and not in use goes down, in use before goes to powered. */
  function PollPower(r: Reader): Reader {
    if r.polled == NotStarted then r
    else match r.power
      case Powered => r.(power := PowerOff, protocol := Undefined, calls := r.calls + [AutoPowerDown])
      case GracePeriod => r.(power := Powered)
      case _ => r
  }
}
