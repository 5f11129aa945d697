/** Protocol selection: PHSetProtocol of src/prothandler.c and its use by SCardConnect and
    SCardReconnect (src/winscard.c). PPS is section 7.2 of ISO/IEC 7816-3:1997. */
module ProtHandler {
  import opened Wrappers
  import opened AtrHandler

  /** IFDSetPTS: IFD_SUCCESS; IFD_PROTOCOL_NOT_SUPPORTED or IFD_ERROR_NOT_SUPPORTED;
      IFD_NOT_SUPPORTED; anything else. */
  datatype PtsReply = PtsDone | ProtocolRefused | CommandUnknown | PtsError

  /** A protocol (None is SCARD_PROTOCOL_UNDEFINED), or SET_PROTOCOL_WRONG_ARGUMENT, or SET_PROTOCOL_PPS_FAILED. */
  datatype Selection = Selected(protocol: Option<Protocol>) | WrongArgument | PpsFailed

  function AsSet(p: Option<Protocol>): set<Protocol> {
    if p.Some? then {p.value} else {}
  }

  /** T=1 is tried before T=0. */
  function FirstChoice(wanted: set<Protocol>): Option<Protocol> {
    if T1 in wanted then Some(T1) else if T0 in wanted then Some(T0) else None
  }

  /** The outcome, for the driver's answers to the first and to the second attempt. */
  function SelectionFor(preferred: set<Protocol>, available: set<Protocol>, default: Option<Protocol>,
                        first: PtsReply, second: PtsReply): Selection
  {
    var wanted := preferred * available;
    if FirstChoice(wanted) == None then WrongArgument
    else match first
      case PtsDone => Selected(FirstChoice(wanted))
      case CommandUnknown => Selected(default)
      case PtsError => PpsFailed
      case ProtocolRefused =>
        if AsSet(default) == wanted then PpsFailed
        else if default == None || default.value !in wanted then WrongArgument
        else match second
          case PtsDone => Selected(default)
          case CommandUnknown => Selected(default)
          case ProtocolRefused => PpsFailed
          case PtsError => PpsFailed
  }

  /** How often the driver is asked: not at all, once, or a second time for the card's own protocol. */
  function Attempts(preferred: set<Protocol>, available: set<Protocol>, default: Option<Protocol>, first: PtsReply): (n: nat)
    ensures n <= 2
  {
    var wanted := preferred * available;
    if FirstChoice(wanted) == None then 0
    else if first == ProtocolRefused && AsSet(default) != wanted && default.Some? && default.value in wanted then 2
    else 1
  }

  /** PHSetProtocol. The driver answers attempt k with replies(k); tried lists the protocols asked for. */
  method SetProtocol(preferred0: set<Protocol>, available: set<Protocol>, default: Option<Protocol>, replies: nat -> PtsReply)
    returns (result: Selection, tried: seq<Protocol>)
    ensures result == SelectionFor(preferred0, available, default, replies(0), replies(1))
    ensures |tried| == Attempts(preferred0, available, default, replies(0))
    ensures forall p | p in tried :: p in preferred0 && p in available
    ensures T1 in preferred0 * available ==> |tried| >= 1 && tried[0] == T1
    ensures T1 !in preferred0 * available && T0 in preferred0 * available ==> |tried| >= 1 && tried[0] == T0
    ensures |tried| == 2 ==> Some(tried[1]) == default && replies(0) == ProtocolRefused
  {
    tried := [];
    if preferred0 == {} { return WrongArgument, tried; }
    if preferred0 * available == {} { return WrongArgument, tried; }
    var protocol := default;
    var preferred := preferred0 * available;
    var chosen: Protocol;
    if T1 in preferred { chosen := T1; }
    else if T0 in preferred { chosen := T0; }
    else { return WrongArgument, tried; }
    var again := true;
    result := Selected(protocol);
    while again
      invariant |tried| <= 2 && (tried == [] ==> again)
      invariant forall p | p in tried :: p in preferred0 && p in available
      invariant again ==> |tried| <= 1 && chosen in preferred0 * available && protocol == default
      invariant again && tried == [] ==> preferred == preferred0 * available && Some(chosen) == FirstChoice(preferred)
      invariant again && |tried| == 1 ==> replies(0) == ProtocolRefused && Some(chosen) == default && preferred == {chosen}
                                          && AsSet(default) != preferred0 * available
      invariant |tried| >= 1 ==> Some(tried[0]) == FirstChoice(preferred0 * available)
      invariant |tried| == 2 ==> Some(tried[1]) == default && replies(0) == ProtocolRefused
      invariant !again ==> |tried| == Attempts(preferred0, available, default, replies(0))
      invariant !again ==> result == SelectionFor(preferred0, available, default, replies(0), replies(1))
      decreases 2 - |tried|, again
    {
      var rv := replies(|tried|);
      tried := tried + [chosen];
      again := false;
      match rv
      case PtsDone => result := Selected(Some(chosen));
      case ProtocolRefused =>
        if AsSet(protocol) != preferred {
          if protocol.Some? && protocol.value in preferred {
            chosen := protocol.value;
            preferred := {chosen};
            again := true;
          } else {
            result := WrongArgument;
          }
        } else {
          result := PpsFailed;
        }
      case CommandUnknown => result := Selected(protocol);
      case PtsError => result := PpsFailed;
    }
  }

  /** Exactly when a protocol is selected: T=1 before T=0 when the driver does the first attempt; the card's own when
      it has no PTS command, or does the second attempt, or has none then. */
  lemma SelectedExactly(preferred: set<Protocol>, available: set<Protocol>, default: Option<Protocol>,
                        first: PtsReply, second: PtsReply, p: Protocol)
    ensures var wanted := preferred * available;
      SelectionFor(preferred, available, default, first, second) == Selected(Some(p))
      <==> (T0 in wanted || T1 in wanted) &&
           (match first
            case PtsDone => p == if T1 in wanted then T1 else T0
            case CommandUnknown => default == Some(p)
            case ProtocolRefused =>
              default == Some(p) && p in wanted && wanted != {p} && (second == PtsDone || second == CommandUnknown)
            case PtsError => false)
  {
  }

  /** How often the driver is asked, exactly. */
  lemma AttemptsExactly(preferred: set<Protocol>, available: set<Protocol>, default: Option<Protocol>, first: PtsReply)
    ensures var wanted := preferred * available; var n := Attempts(preferred, available, default, first);
      && (n == 0 <==> T0 !in wanted && T1 !in wanted)
      && (n == 2 <==> n > 0 && first == ProtocolRefused && default.Some? && default.value in wanted && wanted != {default.value})
  {
  }

  /** The connection asked for something, with the reader still in SCARD_PROTOCOL_UNDEFINED. */
  function Negotiated(atr: seq<bv8>, length: nat, requested: set<Protocol>, first: PtsReply, second: PtsReply): Selection
    requires MAX_ATR_SIZE + 4 <= |atr|
  {
    var d := Meaning(atr, length);
    SelectionFor(requested, d.available * requested, d.current, first, second)
  }

  function Asked(atr: seq<bv8>, length: nat, requested: set<Protocol>, first: PtsReply): (n: nat)
    requires MAX_ATR_SIZE + 4 <= |atr|
    ensures n <= 2
  {
    var d := Meaning(atr, length);
    Attempts(requested, d.available * requested, d.current, first)
  }

  /** The common part of SCardConnect and SCardReconnect: decode the ATR, keep what was requested, negotiate. */
  method Negotiate(atr: seq<bv8>, length: nat, requested: set<Protocol>, replies: nat -> PtsReply)
    returns (result: Selection, tried: seq<Protocol>)
    requires MAX_ATR_SIZE + 4 <= |atr|
    ensures result == Negotiated(atr, length, requested, replies(0), replies(1))
    ensures |tried| == Asked(atr, length, requested, replies(0))
    ensures forall p | p in tried :: p in requested && p in Meaning(atr, length).available
  {
    var d := DecodeAtr(atr, length);
    result, tried := SetProtocol(requested, d.available * requested, d.current, replies);
  }

  /** Asking for T=0 or T=1 of a card with a good ATR ends in a protocol the card offers or in a PPS
      failure, whatever the driver answers. */
  lemma AnyProtocolSucceedsOrFailsPps(atr: seq<bv8>, length: nat, first: PtsReply, second: PtsReply)
    requires MAX_ATR_SIZE + 4 <= |atr| && Meaning(atr, length).verdict == Accepted
    ensures var r := Negotiated(atr, length, {T0, T1}, first, second);
      r == PpsFailed || (r.Selected? && r.protocol.Some? && r.protocol.value != T15
                         && r.protocol.value in Meaning(atr, length).available)
  {
    AcceptedCurrentIsOffered(atr, length);
    var d := Meaning(atr, length);
    assert d.current.value in {T0, T1} * (d.available * {T0, T1});
  }

  /** For any other request: WRONG_ARGUMENT exactly when nothing usable was asked for, or the driver
      refuses the one attempt and the card's own protocol was not asked for. */
  lemma WrongArgumentExactly(preferred: set<Protocol>, available: set<Protocol>, default: Option<Protocol>,
                             first: PtsReply, second: PtsReply)
    ensures SelectionFor(preferred, available, default, first, second) == WrongArgument
       <==> FirstChoice(preferred * available) == None
            || (first == ProtocolRefused && (default == None || default.value !in preferred * available))
  {
  }

  /** A protocol outside the request is chosen exactly when the driver has no PTS command and the
      card's own protocol was not asked for. */
  lemma OutsideRequestExactly(preferred: set<Protocol>, available: set<Protocol>, default: Option<Protocol>,
                              first: PtsReply, second: PtsReply)
    ensures var r := SelectionFor(preferred, available, default, first, second);
      (r.Selected? && (r.protocol == None || r.protocol.value !in preferred * available))
      <==> (FirstChoice(preferred * available) != None && first == CommandUnknown
            && (default == None || default.value !in preferred * available))
  {
  }

  /** Such a case: T=1 is asked for, the card defaults to T=0 and offers both. */
  lemma OutsideRequestHappens()
    ensures SelectionFor({T1}, {T0, T1} * {T1}, Some(T0), CommandUnknown, PtsDone) == Selected(Some(T0))
  {
    assert T1 in {T1} * ({T0, T1} * {T1});
  }
}
