/** READER_CONTEXT: the fields of one reader, changed in place by the RF functions of
    src/readerfactory.c, the calls of src/winscard.c and the polling thread of src/eventhandler.c. */
module ReaderContexts {
  import opened Wrappers
  import opened AtrHandler
  import P = ProtHandler
  import opened ReaderState

  lemma {:induction false} SeekLaw(hs: seq<Handle>, h: int, k: nat)
    requires k <= |hs| && (forall j :: 0 <= j < k ==> hs[j].card != h) && (k < |hs| ==> hs[k].card == h)
    ensures EventOf(hs, h) == if k < |hs| then Some(hs[k].event) else None
    ensures k < |hs| ==> Without(hs, h) == hs[..k] + hs[k + 1..] && Cleared(hs, h) == hs[k := hs[k].(event := NoEvent)]
    ensures k == |hs| ==> Without(hs, h) == hs && Cleared(hs, h) == hs
  {
    if hs != [] && k > 0 {
      SeekLaw(hs[1..], h, k - 1);
      assert hs == [hs[0]] + hs[1..];
      if k < |hs| {
        assert hs[1..][..k - 1] == hs[1..k] && hs[1..][k..] == hs[k + 1..];
        assert [hs[0]] + hs[1..k] == hs[..k];
      }
    }
  }

  class ReaderContext {
    var live: bool
    var name: string
    var handles: seq<Handle>
    var contexts: int
    var lockId: int
    var lockCount: nat
    var status: Status
    var protocol: Active
    var atr: AtrBuffer
    var atrLength: nat
    var sharing: int
    var eventCounter: nat
    var power: Power
    var polled: Polled
    var polledSharing: int
    var calls: seq<Call>

    /** A vacant entry of the reader table. */
    constructor (vacant: Reader)
      ensures View() == vacant
    {
      live, name, handles, contexts := vacant.live, vacant.name, vacant.handles, vacant.contexts;
      lockId, lockCount, status, protocol := vacant.lockId, vacant.lockCount, vacant.status, vacant.protocol;
      atr, atrLength, sharing, eventCounter := vacant.atr, vacant.atrLength, vacant.sharing, vacant.eventCounter;
      power, polled, polledSharing, calls := vacant.power, vacant.polled, vacant.polledSharing, vacant.calls;
    }

    ghost function View(): Reader
      reads this
    {
      Reader(live, name, handles, contexts, lockId, lockCount, status, protocol, atr, atrLength, sharing, eventCounter,
             power, polled, polledSharing, calls)
    }

    // ---- src/readerfactory.c ----

    /** list_seek on handlesList */
    method Seek(h: int) returns (k: nat)
      ensures k <= |handles| && (k < |handles| ==> handles[k].card == h)
      ensures forall j :: 0 <= j < k ==> handles[j].card != h
    {
      k := 0;
      while k < |handles| && handles[k].card != h
        invariant k <= |handles| && forall j :: 0 <= j < k ==> handles[j].card != h
      {
        k := k + 1;
      }
    }

    method CheckSharing(h: int) returns (ok: bool)
      ensures ok == MayUse(View(), h)
    {
      ok := lockId == 0 || lockId == h;
    }

    method LockSharing(h: int) returns (rv: Reply)
      modifies this`lockId, this`lockCount
      ensures Outcome(View(), rv) == Lock(old(View()), h)
    {
      var ok := CheckSharing(h);
      if ok {
        lockCount := lockCount + 1;
        lockId := h;
        return Success;
      }
      return SharingViolation;
    }

    method UnlockSharing(h: int) returns (rv: Reply)
      modifies this`lockId, this`lockCount
      ensures Outcome(View(), rv) == Unlock(old(View()), h)
    {
      var ok := CheckSharing(h);
      if !ok { return SharingViolation; }
      if contexts == EXCLUSIVE_CONTEXT {
        if lockCount > 1 { lockCount := lockCount - 1; } else { return NotTransacted; }
      } else if lockCount > 0 {
        lockCount := lockCount - 1;
        if lockCount == 0 { lockId := 0; }
      } else {
        return NotTransacted;
      }
      return Success;
    }

    method UnlockAllSharing(h: int) returns (rv: Reply)
      modifies this`lockId, this`lockCount
      ensures Outcome(View(), rv) == UnlockAll(old(View()), h)
    {
      var ok := CheckSharing(h);
      if !ok { return SharingViolation; }
      lockCount := 0;
      lockId := 0;
      return Success;
    }

    method AddHandle(h: int, max: nat) returns (ok: bool)
      modifies this`handles
      ensures ok == (|old(handles)| < max)
      ensures handles == if ok then old(handles) + [Handle(h, NoEvent)] else old(handles)
    {
      ok := |handles| < max;
      if ok { handles := handles + [Handle(h, NoEvent)]; }
    }

    method RemoveHandle(h: int)
      modifies this`handles
      ensures handles == Without(old(handles), h)
    {
      var k := Seek(h);
      SeekLaw(handles, h, k);
      if k < |handles| { handles := handles[..k] + handles[k + 1..]; }
    }

    method SetEventState(e: Event)
      modifies this`handles, this`lockId, this`lockCount
      ensures handles == Marked(old(handles), e)
      ensures lockId == (if e == RemovedEvent then 0 else old(lockId))
      ensures lockCount == (if e == RemovedEvent then 0 else old(lockCount))
    {
      var k := 0;
      while k < |handles|
        invariant 0 <= k <= |handles| == |old(handles)|
        invariant forall j :: 0 <= j < k ==> handles[j] == old(handles)[j].(event := e)
        invariant forall j :: k <= j < |handles| ==> handles[j] == old(handles)[j]
        invariant lockId == old(lockId) && lockCount == old(lockCount)
      {
        handles := handles[k := handles[k].(event := e)];
        k := k + 1;
      }
      assert handles == Marked(old(handles), e);
      if e == RemovedEvent {
        lockId := 0;
        lockCount := 0;
      }
    }

    method CheckEventState(h: int) returns (rv: Reply)
      ensures rv == EventReply(View(), h)
    {
      var k := Seek(h);
      SeekLaw(handles, h, k);
      if k == |handles| { return InvalidHandle; }
      match handles[k].event
      case NoEvent => return Success;
      case RemovedEvent => return RemovedCard;
      case ResetEvent => return ResetCard;
    }

    method ClearEventState(h: int)
      modifies this`handles
      ensures handles == Cleared(old(handles), h)
    {
      var k := Seek(h);
      SeekLaw(handles, h, k);
      if k < |handles| { handles := handles[k := handles[k].(event := NoEvent)]; }
    }

    // ---- src/winscard.c ----

    /** The protocol section of SCardConnect and SCardReconnect. */
    method SelectProtocol(mode: Mode, q: Request, d: Driver) returns (rv: Reply)
      modifies this`protocol, this`calls
      ensures Outcome(View(), rv) == SetProtocol(old(View()), mode, q, d)
    {
      if q.raw {
        protocol := Raw;
      } else if mode != Direct {
        hide P.Negotiated, P.Asked;
        if protocol == Undefined {
          var wanted := if q.any then {T0, T1} else q.protocols;
          var result, tried := P.Negotiate(atr, atrLength, wanted, k => if k == 0 then d.first else d.second);
          calls := calls + PtsCalls(|tried|);
          match result
          case PpsFailed => return UnresponsiveCard;
          case WrongArgument => return ProtoMismatch;
          case Selected(p) => protocol := if p.Some? then Chosen(p.value) else Undefined;
        } else {
          if !(protocol.Chosen? && protocol.protocol in q.protocols) { return ProtoMismatch; }
        }
      }
      return Success;
    }

    /** Powers the card up if it is not, and takes it into use. */
    method TakeIntoUse(d: Driver) returns (rv: Reply)
      modifies this`status, this`atr, this`atrLength, this`power, this`calls
      ensures var awake := Awaken(old(View()), d);
        Outcome(View(), rv) == if awake.status == Ready then Outcome(awake.(power := InUse), Success) else Outcome(awake, UnpoweredCard)
    {
      if power == PowerOff {
        calls := calls + [PowerUp];
        atr, atrLength := d.atr, d.atrLength;
        if d.power == PowerDone { status := Ready; }
      }
      if status != Ready { return UnpoweredCard; }
      power := InUse;
      return Success;
    }

    /** The end of SCardConnect. */
    method AttachHandle(mode: Mode, h: int, max: nat) returns (rv: Reply)
      modifies this`contexts, this`lockId, this`lockCount, this`handles, this`sharing
      ensures Outcome(View(), rv) == Attach(old(View()), mode, h, max)
    {
      if mode == Exclusive {
        if contexts != 0 { return SharingViolation; }
        contexts := EXCLUSIVE_CONTEXT;
        var _ := LockSharing(h);
      } else {
        contexts := contexts + 1;
      }
      var ok := AddHandle(h, max);
      if !ok {
        if contexts == EXCLUSIVE_CONTEXT { contexts := 0; }
        else if contexts > 0 { contexts := contexts - 1; }
        return InternalError;
      }
      sharing := contexts;
      return Success;
    }

    method SCardConnect(mode: Mode, q: Request, h: int, max: nat, d: Driver) returns (rv: Reply)
      modifies this
      ensures Outcome(View(), rv) == Connect(old(View()), mode, q, h, max, d)
    {
      hide Awaken, SetProtocol, Attach;
      if status == Unknown { return ReaderUnavailable; }
      if contexts == EXCLUSIVE_CONTEXT { return SharingViolation; }
      if lockId != 0 { return Waiting; }
      if mode != Direct {
        if !(status == Unpowered || status == Mute || status == Ready) { return NoSmartcard; }
        rv := TakeIntoUse(d);
        if rv != Success { return; }
      }
      rv := SelectProtocol(mode, q, d);
      if rv != Success { return; }
      rv := AttachHandle(mode, h, max);
    }

    /** What a reset, or a power-down and power-up, leaves of the card. */
    method NoteReset(d: Driver)
      modifies this`status, this`atr, this`atrLength, this`protocol
      ensures View() == AfterReset(old(View()), d)
    {
      atr := d.atr;
      protocol := Undefined;
      if d.power == PowerDone {
        atrLength := d.atrLength;
        status := Ready;
      } else {
        atrLength := 0;
        status := if d.power == CardGone then Absent else Mute;
      }
    }

    method InitialiseCard(init: Disposition, d: Driver) returns (rv: Reply)
      modifies this
      ensures Outcome(View(), rv) == Initialise(old(View()), init, d)
    {
      if init != Leave {
        SetEventState(ResetEvent);
        calls := calls + PowerCycle(init);
        NoteReset(d);
        match d.power
        case PowerDone => return Success;
        case CardGone => return NoSmartcard;
        case PowerFailed => return UnresponsiveCard;
      }
      if status == Absent { return NoSmartcard; }
      if status == Mute { return UnresponsiveCard; }
      return Success;
    }

    /** The sharing section of SCardReconnect and its end. */
    method AdoptMode(h: int, mode: Mode) returns (rv: Reply)
      modifies this`contexts, this`lockId, this`lockCount, this`handles, this`sharing
      ensures Outcome(View(), rv) == Adopt(old(View()), h, mode)
    {
      if mode == Exclusive {
        if contexts != EXCLUSIVE_CONTEXT {
          if contexts != 1 { return SharingViolation; }
          contexts := EXCLUSIVE_CONTEXT;
          var _ := LockSharing(h);
        }
      } else if contexts == EXCLUSIVE_CONTEXT {
        var _ := UnlockSharing(h);
        contexts := 1;
      }
      ClearEventState(h);
      sharing := contexts;
      return Success;
    }

    method SCardReconnect(h: int, mode: Mode, q: Request, init: Disposition, d: Driver) returns (rv: Reply)
      modifies this
      ensures Outcome(View(), rv) == Reconnect(old(View()), h, mode, q, init, d)
    {
      hide Initialise, SetProtocol, Adopt;
      if status == Unknown { return ReaderUnavailable; }
      var ok := CheckSharing(h);
      if !ok { return SharingViolation; }
      rv := InitialiseCard(init, d);
      if rv != Success { return; }
      rv := SelectProtocol(mode, q, d);
      if rv != Success { return; }
      if !q.raw && mode != Direct { power := InUse; }
      rv := AdoptMode(h, mode);
    }

    method PowerDownCard(d: Driver)
      modifies this`calls, this`power, this`protocol, this`status
      ensures View() == old(View()).(calls := old(calls) + [PowerDown], power := PowerOff, protocol := Undefined, status :=
                match d.power case PowerDone => Unpowered case CardGone => Absent case PowerFailed => Mute)
    {
      calls := calls + [PowerDown];
      power := PowerOff;
      protocol := Undefined;
      status := match d.power case PowerDone => Unpowered case CardGone => Absent case PowerFailed => Mute;
    }

    method DisposeCard(disposition: Disposition, d: Driver)
      modifies this
      ensures View() == Dispose(old(View()), disposition, d)
    {
      hide AfterReset;
      match disposition
      case Reset =>
        SetEventState(ResetEvent);
        calls := calls + [WarmReset];
        NoteReset(d);
      case Unpower =>
        SetEventState(ResetEvent);
        PowerDownCard(d);
      case EjectCard => calls := calls + [Eject];
      case _ =>
    }

    method DetachHandle(h: int)
      modifies this`handles, this`contexts, this`sharing, this`power
      ensures View() == Detach(old(View()), h)
    {
      RemoveHandle(h);
      if contexts == EXCLUSIVE_CONTEXT {
        contexts := 0;
      } else {
        contexts := contexts - 1;
        if contexts < 0 { contexts := 0; }
      }
      if contexts == 0 && power != PowerOff { power := GracePeriod; }
      sharing := contexts;
    }

    method SCardDisconnect(h: int, disposition: Disposition, d: Driver) returns (rv: Reply)
      modifies this
      ensures Outcome(View(), rv) == Disconnect(old(View()), h, disposition, d)
    {
      if disposition != Leave && lockId != 0 && lockId != h { return Waiting; }
      var _ := UnlockAllSharing(h);
      DisposeCard(disposition, d);
      DetachHandle(h);
      return Success;
    }

    method SCardBeginTransaction(h: int) returns (rv: Reply)
      modifies this`lockId, this`lockCount
      ensures Outcome(View(), rv) == Begin(old(View()), h)
    {
      if status == Unknown { return ReaderUnavailable; }
      rv := CheckEventState(h);
      if rv != Success { return; }
      rv := LockSharing(h);
    }

    method ConcludeCard(disposition: Disposition, d: Driver) returns (rv: Reply)
      modifies this
      ensures Outcome(View(), rv) == Conclude(old(View()), disposition, d)
    {
      rv := Success;
      if disposition == Reset || disposition == Unpower {
        calls := calls + PowerCycle(disposition);
        SetEventState(ResetEvent);
        NoteReset(d);
        rv := match d.power case PowerDone => Success case CardGone => RemovedCard case PowerFailed => DriverError;
      } else if disposition == EjectCard {
        calls := calls + [Eject];
        rv := if d.accepts then Success else DriverError;
      }
    }

    method SCardEndTransaction(h: int, disposition: Disposition, d: Driver) returns (rv: Reply)
      modifies this
      ensures Outcome(View(), rv) == End(old(View()), h, disposition, d)
    {
      rv := CheckEventState(h);
      if rv != Success { return; }
      if disposition != Leave && lockId != 0 && lockId != h { return SharingViolation; }
      rv := ConcludeCard(disposition, d);
      var rv2 := UnlockSharing(h);
      if rv == Success { rv := rv2; }
    }

    method SCardStatus(h: int) returns (rv: Reply)
      ensures rv == StatusReply(View(), h)
    {
      var ok := CheckSharing(h);
      if !ok { return SharingViolation; }
      if atrLength > MAX_ATR_SIZE { return InternalError; }
      rv := CheckEventState(h);
      if rv != Success { return; }
      if status == Unknown { return ReaderUnavailable; }
    }

    /** MSGRemoveContext of src/winscard_svc.c for a card of this reader. */
    method Release(h: int, d: Driver)
      modifies this
      ensures View() == ReleaseCard(old(View()), h, d)
    {
      if lockId == 0 || h != lockId {
        var _ := SCardDisconnect(h, Leave, d);
      } else {
        lockId := 0;
        var rv := SCardStatus(h);
        var _ := SCardDisconnect(h, if rv == ResetCard || rv == RemovedCard then Leave else Reset, d);
      }
    }

    /** A call on a handle of this reader. */
    method Call(h: int, op: Operation, d: Driver) returns (rv: Reply)
      modifies this
      ensures Outcome(View(), rv) == Apply(old(View()), h, op, d)
    {
      match op
      case DoReconnect(mode, q, init) => rv := SCardReconnect(h, mode, q, init, d);
      case DoDisconnect(disposition) => rv := SCardDisconnect(h, disposition, d);
      case DoBegin => rv := SCardBeginTransaction(h);
      case DoEnd(finish) => rv := SCardEndTransaction(h, finish, d);
      case DoStatus => rv := SCardStatus(h);
      case DoControl(empty) => rv := SCardControl(h, empty, d);
      case DoAttrib(attribute) => rv := SCardAttrib(h, attribute, d);
      case DoTransmit(pci, room) =>
        rv := SCardTransmit(h, pci, MAX_BUFFER_SIZE_EXTENDED, d);
        if rv == Success && room < d.received { rv := InsufficientBuffer; }
    }

    /** What SCardGetAttrib, SCardSetAttrib and SCardTransmit check first. */
    method CheckUse(h: int) returns (rv: Reply)
      ensures rv == UseReply(View(), h)
    {
      var ok := CheckSharing(h);
      if !ok { return SharingViolation; }
      if status == Unknown { return ReaderUnavailable; }
      rv := CheckEventState(h);
    }

    /** SCardGetAttrib and SCardSetAttrib */
    method SCardAttrib(h: int, attribute: Attribute, d: Driver) returns (rv: Reply)
      modifies this`calls
      ensures Outcome(View(), rv) == Attrib(old(View()), h, attribute, d)
    {
      rv := CheckUse(h);
      if rv != Success { return; }
      calls := calls + [AttributeCall];
      match d.attribute
      case AttributeDone => rv := Success;
      case AttributeUnknown =>
        if attribute.Read? && attribute.friendly {
          var len := |name| + 1;
          rv := if len > attribute.room then InsufficientBuffer else Success;
        } else {
          rv := UnsupportedFeature;
        }
      case AttributeTooLong => rv := if attribute.Read? then InsufficientBuffer else NotTransacted;
      case AttributeFailed => rv := NotTransacted;
    }

    method SCardControl(h: int, empty: bool, d: Driver) returns (rv: Reply)
      modifies this`calls
      ensures Outcome(View(), rv) == Control(old(View()), h, empty, d)
    {
      var ok := CheckSharing(h);
      if !ok { return SharingViolation; }
      if d.version == Version2 && empty { return InvalidParameter; }
      if status == Unknown { return ReaderUnavailable; }
      if d.version == OtherVersion { return UnsupportedFeature; }
      calls := calls + [Escape];
      rv := if d.accepts then Success else DriverError;
    }

    method SCardTransmit(h: int, pci: Pci, size: nat, d: Driver) returns (rv: Reply)
      modifies this`calls, this`atrLength, this`protocol, this`status
      ensures Outcome(View(), rv) == Transmit(old(View()), h, pci, size, d)
    {
      if size < 2 { return InsufficientBuffer; }
      rv := CheckUse(h);
      if rv != Success { return; }
      if pci != PciRaw && status == Absent { return NoSmartcard; }
      if pci.PciOf? && protocol != Chosen(pci.protocol) { return ProtoMismatch; }
      if pci == PciUndefined && protocol != Undefined { return ProtoMismatch; }
      calls := calls + [if pci == PciRaw && d.version == Version2 then Escape else Transmission];
      if !d.accepts {
        if d.cardLost {
          atrLength, protocol, status := 0, Undefined, Absent;
          return NoSmartcard;
        }
        return DriverError;
      }
      if size < d.received { return InsufficientBuffer; }
      return Success;
    }

    // ---- the polling thread ----

    method PowerOnCard(d: Driver)
      modifies this`atr, this`calls, this`protocol, this`status, this`power, this`polled
      ensures View() == PowerOn(old(View()), d)
    {
      calls := calls + [PowerUp];
      atr := d.atr;
      protocol := Undefined;
      status := if d.power == PowerDone then Ready else Mute;
      power := if d.power == PowerDone then Powered else PowerOff;
      polled := SawPresent;
    }

    /** EHStatusHandlerThread before its loop. */
    method StartPolling(o: Observation, d: Driver)
      modifies this
      ensures View() == PollStart(old(View()), o, d)
    {
      hide PowerOn;
      if polled != NotStarted { return; }
      if o == SeesPresent {
        PowerOnCard(d);
        atrLength := d.atrLength;
      } else {
        NoteAbsence();
      }
      sharing, polledSharing := contexts, contexts;
    }

    method NoteAbsence()
      modifies this`status, this`atrLength, this`protocol, this`polled
      ensures View() == old(View()).(status := Absent, atrLength := 0, protocol := Undefined, polled := SawAbsent)
    {
      status, atrLength, protocol, polled := Absent, 0, Undefined, SawAbsent;
    }

    method CountEvent()
      modifies this`eventCounter
      ensures eventCounter == Tick(old(eventCounter))
    {
      eventCounter := eventCounter + 1;
      if eventCounter > MAX_EVENT_COUNTER { eventCounter := 0; }
    }

    method NoteRemoval()
      modifies this
      ensures View() == NotifyRemoved(old(View())).(atrLength := 0, protocol := Undefined, status := Absent, polled := SawAbsent,
                                                    eventCounter := Tick(old(eventCounter)))
    {
      SetEventState(RemovedEvent);
      atrLength, protocol, status, polled := 0, Undefined, Absent, SawAbsent;
      CountEvent();
    }

    method NoteInsertion(d: Driver)
      modifies this
      ensures View() == PowerOn(old(View()), d).(atrLength := if d.power == PowerDone then d.atrLength else 0,
                                                 eventCounter := Tick(old(eventCounter)))
    {
      PowerOnCard(d);
      atrLength := if d.power == PowerDone then d.atrLength else 0;
      CountEvent();
    }

    method NoteError()
      modifies this`status, this`atrLength, this`protocol, this`polled
      ensures View() == old(View()).(status := Unknown, atrLength := 0, protocol := Undefined, polled := SawError)
    {
      status, atrLength, protocol, polled := Unknown, 0, Undefined, SawError;
    }

    method PassSharing()
      modifies this`sharing, this`polledSharing
      ensures View() == if old(polledSharing) != contexts then old(View()).(polledSharing := contexts, sharing := contexts) else old(View())
    {
      if polledSharing != contexts {
        polledSharing := contexts;
        sharing := polledSharing;
      }
    }

    /** One turn of the loop of EHStatusHandlerThread, up to the wait. */
    method PollOnce(o: Observation, d: Driver)
      modifies this
      ensures View() == PollStatus(old(View()), o, d)
    {
      hide PowerOn, NotifyRemoved, Tick;
      if polled == NotStarted { return; }
      if o == SeesError { NoteError(); }
      if o == SeesAbsent {
        if polled == SawPresent || polled == SawError { NoteRemoval(); }
      } else if o == SeesPresent {
        if polled == SawAbsent || polled == SawError { NoteInsertion(d); }
      }
      PassSharing();
    }

    /** The power state after the wait. */
    method TickPower()
      modifies this`power, this`protocol, this`calls
      ensures View() == PollPower(old(View()))
    {
      if polled == NotStarted { return; }
      if power == Powered {
        calls := calls + [AutoPowerDown];
        power := PowerOff;
        protocol := Undefined;
      }
      if power == GracePeriod { power := Powered; }
    }
  }
}
