/** What the calls of one reader keep, for every state that satisfies Sound. */
module ReaderLaws {
  import opened Wrappers
  import opened AtrHandler
  import opened ReaderState
  import P = ProtHandler

  // ---- handlesList as a partial map from cards to events ----

  predicate Unique(hs: seq<Handle>) {
    hs == [] || (!Has(hs[1..], hs[0].card) && Unique(hs[1..]))
  }

  lemma {:induction false} WithoutLaw(hs: seq<Handle>, h: int)
    requires Unique(hs)
    ensures Unique(Without(hs, h)) && |Without(hs, h)| == |hs| - (if Has(hs, h) then 1 else 0)
    ensures forall c :: EventOf(Without(hs, h), c) == if c == h then None else EventOf(hs, c)
  {
    if hs != [] && hs[0].card != h {
      WithoutLaw(hs[1..], h);
      assert Without(hs, h)[1..] == Without(hs[1..], h);
    }
  }

  lemma {:induction false} MarkedLaw(hs: seq<Handle>, e: Event)
    requires Unique(hs)
    ensures Unique(Marked(hs, e))
    ensures forall c :: EventOf(Marked(hs, e), c) == if Has(hs, c) then Some(e) else None
  {
    if hs != [] {
      MarkedLaw(hs[1..], e);
      assert Marked(hs, e)[1..] == Marked(hs[1..], e);
    }
  }

  lemma {:induction false} ClearedLaw(hs: seq<Handle>, h: int)
    requires Unique(hs)
    ensures Unique(Cleared(hs, h))
    ensures forall c :: EventOf(Cleared(hs, h), c) == if c == h && Has(hs, h) then Some(NoEvent) else EventOf(hs, c)
  {
    if hs != [] {
      if hs[0].card == h {
        assert Cleared(hs, h)[1..] == hs[1..];
      } else {
        ClearedLaw(hs[1..], h);
        assert Cleared(hs, h)[1..] == Cleared(hs[1..], h);
      }
    }
  }

  lemma {:induction false} AddedLaw(hs: seq<Handle>, h: int, e: Event)
    requires Unique(hs) && !Has(hs, h)
    ensures Unique(hs + [Handle(h, e)])
    ensures forall c :: EventOf(hs + [Handle(h, e)], c) == if c == h then Some(e) else EventOf(hs, c)
  {
    var all := hs + [Handle(h, e)];
    if hs == [] {
      assert all == [Handle(h, e)];
    } else {
      AddedLaw(hs[1..], h, e);
      assert all[1..] == hs[1..] + [Handle(h, e)];
    }
  }

  lemma {:induction false} TwoHandles(hs: seq<Handle>, h: int, k: int)
    requires Has(hs, h) && Has(hs, k) && h != k
    ensures |hs| >= 2
  {
    assert Has(hs[1..], h) || Has(hs[1..], k);
  }

  // ---- the invariant of a reader ----

  /** contexts counts the handles or is -1 for a single one; the lock has an owner among them. */
  ghost predicate Sound(r: Reader) {
    && Unique(r.handles) && !Has(r.handles, 0)
    && (r.contexts == |r.handles| || (r.contexts == EXCLUSIVE_CONTEXT && |r.handles| == 1))
    && r.sharing == r.contexts
    && (r.lockId != 0 <==> r.lockCount > 0)
    && (r.lockId != 0 ==> Has(r.handles, r.lockId))
    && r.eventCounter <= MAX_EVENT_COUNTER
    && (!r.live ==> r.handles == [])
  }

  /** Nothing but the card and what is known of it differs, and handles carry the same cards. */
  ghost predicate SameSharing(r: Reader, s: Reader) {
    && Unique(s.handles) && |s.handles| == |r.handles|
    && (forall c :: Has(s.handles, c) == Has(r.handles, c))
    && s.contexts == r.contexts && s.sharing == r.sharing && s.lockId == r.lockId && s.lockCount == r.lockCount
    && s.eventCounter == r.eventCounter && s.live == r.live && s.name == r.name
  }

  lemma SameSharingKeepsSound(r: Reader, s: Reader)
    requires Sound(r) && SameSharing(r, s)
    ensures Sound(s)
  {
    assert Has(s.handles, 0) == Has(r.handles, 0);
    assert Has(s.handles, r.lockId) == Has(r.handles, r.lockId);
    assert !r.live ==> |s.handles| == 0;
  }

  lemma NotifyKeeps(r: Reader)
    requires Unique(r.handles)
    ensures SameSharing(r, NotifyReset(r))
  {
    MarkedLaw(r.handles, ResetEvent);
  }

  lemma SetProtocolKeeps(r: Reader, mode: Mode, q: Request, d: Driver)
    requires Unique(r.handles)
    ensures SameSharing(r, SetProtocol(r, mode, q, d).reader) && SetProtocol(r, mode, q, d).reader.handles == r.handles
  {
  }

  lemma InitialiseKeeps(r: Reader, init: Disposition, d: Driver)
    requires Unique(r.handles)
    ensures SameSharing(r, Initialise(r, init, d).reader)
  {
    NotifyKeeps(r);
  }

  lemma DisposeKeeps(r: Reader, disposition: Disposition, d: Driver)
    requires Unique(r.handles)
    ensures SameSharing(r, Dispose(r, disposition, d))
  {
    NotifyKeeps(r);
  }

  lemma ConcludeKeeps(r: Reader, disposition: Disposition, d: Driver)
    requires Unique(r.handles)
    ensures SameSharing(r, Conclude(r, disposition, d).reader)
  {
    NotifyKeeps(r);
  }

  lemma UnlockKeepsSound(r: Reader, h: int)
    requires Sound(r)
    ensures Sound(Unlock(r, h).reader)
  {
  }

  lemma ChangeModeKeepsSound(r: Reader, h: int, mode: Mode)
    requires Sound(r) && Has(r.handles, h) && MayUse(r, h)
    ensures var s := ChangeMode(r, h, mode).reader;
      Sound(s.(sharing := s.contexts)) && s.handles == r.handles && s.live == r.live && s.name == r.name
      && (ChangeMode(r, h, mode).reply != Success ==> s == r)
  {
    assert h != 0;
  }

  lemma AdoptKeepsSound(r: Reader, h: int, mode: Mode)
    requires Sound(r) && Has(r.handles, h) && MayUse(r, h)
    ensures var s := Adopt(r, h, mode).reader;
      Sound(s) && s.live == r.live && s.name == r.name && (forall c :: Has(s.handles, c) == Has(r.handles, c))
  {
    ChangeModeKeepsSound(r, h, mode);
    ClearedLaw(r.handles, h);
  }

  lemma ResumeKeepsSound(r: Reader, h: int, mode: Mode, q: Request, d: Driver)
    requires Sound(r) && Has(r.handles, h) && MayUse(r, h)
    ensures var s := Resume(r, h, mode, q, d).reader;
      Sound(s) && s.live == r.live && s.name == r.name && (forall c :: Has(s.handles, c) == Has(r.handles, c))
  {
    var talking := SetProtocol(r, mode, q, d);
    SetProtocolKeeps(r, mode, q, d);
    SameSharingKeepsSound(r, talking.reader);
    if talking.reply == Success {
      var used := if q.raw || mode == Direct then talking.reader else talking.reader.(power := InUse);
      assert Has(used.handles, h);
      AdoptKeepsSound(used, h, mode);
    }
  }

  lemma ReconnectKeepsSound(r: Reader, h: int, mode: Mode, q: Request, init: Disposition, d: Driver)
    requires Sound(r) && Has(r.handles, h)
    ensures var s := Reconnect(r, h, mode, q, init, d).reader;
      Sound(s) && s.live == r.live && s.name == r.name && (forall c :: Has(s.handles, c) == Has(r.handles, c))
  {
    if r.status != Unknown && MayUse(r, h) {
      var ready := Initialise(r, init, d);
      InitialiseKeeps(r, init, d);
      SameSharingKeepsSound(r, ready.reader);
      if ready.reply == Success {
        ResumeKeepsSound(ready.reader, h, mode, q, d);
      }
    }
  }

  lemma DetachKeepsSound(r: Reader, h: int)
    requires Sound(r) && Has(r.handles, h) && r.lockId != h
    ensures var s := Detach(r, h);
      && Sound(s) && s.live == r.live && s.name == r.name && s.lockId == r.lockId && s.lockCount == r.lockCount
      && (forall c :: EventOf(s.handles, c) == if c == h then None else EventOf(r.handles, c))
      && (r.lockId != 0 ==> s == r.(handles := Without(r.handles, h), contexts := r.contexts - 1, sharing := r.contexts - 1))
  {
    WithoutLaw(r.handles, h);
    assert h != 0;
    if r.lockId != 0 {
      TwoHandles(r.handles, h, r.lockId);
    }
  }

  /** A disconnect takes away exactly its own handle, and the lock with it when that handle held it. */
  lemma DisconnectLaw(r: Reader, h: int, disposition: Disposition, d: Driver)
    requires Sound(r) && Has(r.handles, h) && (disposition == Leave || MayUse(r, h))
    ensures var s := Disconnect(r, h, disposition, d).reader;
      && Sound(s) && s.live == r.live && s.name == r.name
      && (forall c :: Has(s.handles, c) == (c != h && Has(r.handles, c)))
      && s.lockId == (if r.lockId == h then 0 else r.lockId)
      && (r.lockId != h ==> s.lockCount == r.lockCount)
      && |s.handles| == |r.handles| - 1
  {
    var u := UnlockAll(r, h).reader;
    var v := Dispose(u, disposition, d);
    DisposeKeeps(u, disposition, d);
    SameSharingKeepsSound(u, v);
    assert Has(v.handles, h);
    DetachKeepsSound(v, h);
    WithoutLaw(v.handles, h);
  }

  /** The count after a disconnect is the number of handles left; it never falls below 0, so that the
      source's correction of a negative count does nothing. */
  lemma DisconnectCounts(r: Reader, h: int, disposition: Disposition, d: Driver)
    requires Sound(r) && Has(r.handles, h) && (disposition == Leave || MayUse(r, h))
    ensures var s := Disconnect(r, h, disposition, d).reader;
      && s.contexts == |s.handles| == |r.handles| - 1
      && (r.contexts == EXCLUSIVE_CONTEXT || (r.contexts - 1 >= 0 && s.contexts == r.contexts - 1))
  {
    var u := UnlockAll(r, h).reader;
    var v := Dispose(u, disposition, d);
    DisposeKeeps(u, disposition, d);
    assert Has(v.handles, h);
    WithoutLaw(v.handles, h);
  }

  lemma EndKeepsSound(r: Reader, h: int, disposition: Disposition, d: Driver)
    requires Sound(r) && Has(r.handles, h)
    ensures var s := End(r, h, disposition, d).reader;
      Sound(s) && s.live == r.live && s.name == r.name && (forall c :: Has(s.handles, c) == Has(r.handles, c))
  {
    var done := Conclude(r, disposition, d);
    ConcludeKeeps(r, disposition, d);
    SameSharingKeepsSound(r, done.reader);
    UnlockKeepsSound(done.reader, h);
  }

  /** Every request keeps the invariant, and only a successful disconnect removes a handle: its own. */
  lemma ApplyKeepsSound(r: Reader, h: int, op: Operation, d: Driver)
    requires Sound(r) && Has(r.handles, h)
    ensures var o := Apply(r, h, op, d);
      && Sound(o.reader) && o.reader.live == r.live && o.reader.name == r.name
      && forall c :: Has(o.reader.handles, c) == (Has(r.handles, c) && !(c == h && op.DoDisconnect? && o.reply == Success))
  {
    match op
    case DoReconnect(mode, q, init) => ReconnectKeepsSound(r, h, mode, q, init, d);
    case DoDisconnect(disposition) => if disposition == Leave || MayUse(r, h) { DisconnectLaw(r, h, disposition, d); }
    case DoBegin => assert h != 0;
    case DoEnd(finish) => EndKeepsSound(r, h, finish, d);
    case _ =>
  }

  // ---- SCardConnect ----

  lemma AttachLaw(r: Reader, mode: Mode, h: int, max: nat)
    requires Sound(r) && r.live && h != 0 && !Has(r.handles, h) && r.lockId == 0 && r.contexts != EXCLUSIVE_CONTEXT && max >= 1
    ensures var o := Attach(r, mode, h, max);
      && Sound(o.reader) && o.reader.live && o.reader.name == r.name
      && (o.reply == Success ==> o.reader.handles == r.handles + [Handle(h, NoEvent)]
                                 && o.reader.lockId == if mode == Exclusive then h else 0)
      && (o.reply != Success ==> o.reader == r)
      && (o.reply == SharingViolation <==> mode == Exclusive && r.contexts > 0)
      && (o.reply == InternalError <==> mode != Exclusive && |r.handles| >= max)
      && (o.reply == Success ==> (mode == Exclusive ==> r.handles == []))
  {
    AddedLaw(r.handles, h, NoEvent);
  }

  /** A connect adds its handle exactly when it succeeds, and adds nothing else. The handle throttle
      never refuses an exclusive connect, so its roll-back never leaves a lock without a handle. */
  lemma ConnectLaw(r: Reader, mode: Mode, q: Request, h: int, max: nat, d: Driver)
    requires Sound(r) && r.live && h != 0 && !Has(r.handles, h) && max >= 1
    ensures var o := Connect(r, mode, q, h, max, d);
      && Sound(o.reader) && o.reader.live && o.reader.name == r.name
      && o.reader.handles == (if o.reply == Success then r.handles + [Handle(h, NoEvent)] else r.handles)
      && (o.reply == InternalError ==> mode != Exclusive && |r.handles| >= max)
      && o.reader.lockId == (if o.reply == Success && mode == Exclusive then h else r.lockId)
      && (o.reply == Success ==> r.lockId == 0 && r.contexts != EXCLUSIVE_CONTEXT)
      && (r.lockId != 0 ==> o.reader == r && o.reply != Success)
  {
    if ConnectRefusal(r, mode) == Success {
      var awake := if mode == Direct then r else Awaken(r, d);
      if mode == Direct || awake.status == Ready {
        var used := if mode == Direct then awake else awake.(power := InUse);
        var talking := SetProtocol(used, mode, q, d);
        SetProtocolKeeps(used, mode, q, d);
        if talking.reply == Success {
          AttachLaw(talking.reader, mode, h, max);
        }
      }
    }
  }

  // ---- a transaction shuts the others out ----

  /** While one handle holds the lock, a request through another handle is refused or blocked and
      changes nothing, or is that handle leaving. */
  lemma LockedOut(r: Reader, h: int, op: Operation, d: Driver)
    requires Sound(r) && Has(r.handles, h) && r.lockId != 0 && r.lockId != h
    ensures var o := Apply(r, h, op, d);
      if op == DoDisconnect(Leave) then
        o == Outcome(r.(handles := Without(r.handles, h), contexts := r.contexts - 1, sharing := r.contexts - 1), Success)
        && r.contexts > 1
      else o.reader == r && o.reply != Success
  {
    if op == DoDisconnect(Leave) {
      DetachKeepsSound(r, h);
      TwoHandles(r.handles, h, r.lockId);
    }
  }

  /** The owner of the lock may begin again and end what it began; anything else it does is not
      hindered by the lock. */
  lemma OwnTransaction(r: Reader, h: int, d: Driver)
    requires Sound(r) && r.lockId == h && Has(r.handles, h) && EventOf(r.handles, h) == Some(NoEvent) && r.status != Unknown
    ensures Apply(r, h, DoBegin, d) == Outcome(r.(lockCount := r.lockCount + 1), Success)
    ensures r.lockCount > 1 ==> Apply(r, h, DoEnd(Leave), d) == Outcome(r.(lockCount := r.lockCount - 1), Success)
    ensures r.lockCount == 1 && r.contexts != EXCLUSIVE_CONTEXT ==>
              Apply(r, h, DoEnd(Leave), d) == Outcome(r.(lockCount := 0, lockId := 0), Success)
    ensures r.lockCount == 1 && r.contexts == EXCLUSIVE_CONTEXT ==>
              Apply(r, h, DoEnd(Leave), d) == Outcome(r, NotTransacted)
  {
    assert h != 0;
  }

  /** Leaving the exclusive mode by SCardReconnect, whatever is done to the card, does not give up a
      single lock: the release is refused while the connection is still exclusive, so the others stay
      shut out until the handle ends a transaction it did not begin. */
  lemma DowngradeKeepsLock(r: Reader, h: int, mode: Mode, q: Request, init: Disposition, d: Driver)
    requires Sound(r) && r.lockId == h && Has(r.handles, h) && r.contexts == EXCLUSIVE_CONTEXT
    requires (mode == Shared || mode == Direct) && Reconnect(r, h, mode, q, init, d).reply == Success
    ensures var s := Reconnect(r, h, mode, q, init, d).reader;
      s.contexts == 1 && s.lockId == h && s.lockCount == (if r.lockCount == 1 then 1 else r.lockCount - 1)
  {
    var ready := Initialise(r, init, d);
    SetProtocolKeeps(ready.reader, mode, q, d);
  }

  // ---- when an exclusive connection holds its lock ----

  /** Of the requests after which a connection is still exclusive, none takes its lock, and only a
      begin gives it one. */
  lemma ExclusiveRequest(r: Reader, h: int, op: Operation, d: Driver)
    requires Sound(r) && Has(r.handles, h) && r.contexts == EXCLUSIVE_CONTEXT
    requires Apply(r, h, op, d).reader.contexts == EXCLUSIVE_CONTEXT
    ensures var o := Apply(r, h, op, d);
      o.reader.lockId != 0 <==> r.lockId != 0 || (op.DoBegin? && o.reply == Success)
  {
    match op
    case DoReconnect(mode, q, init) => ExclusiveReconnect(r, h, mode, q, init, d);
    case DoDisconnect(disposition) => if disposition == Leave || MayUse(r, h) { DisconnectCounts(r, h, disposition, d); }
    case _ => assert h != 0;
  }

  lemma ExclusiveReconnect(r: Reader, h: int, mode: Mode, q: Request, init: Disposition, d: Driver)
    requires Sound(r) && Has(r.handles, h) && r.contexts == EXCLUSIVE_CONTEXT
    requires Reconnect(r, h, mode, q, init, d).reader.contexts == EXCLUSIVE_CONTEXT
    ensures Reconnect(r, h, mode, q, init, d).reader.lockId == r.lockId
  {
    var ready := Initialise(r, init, d);
    InitialiseKeeps(r, init, d);
    SetProtocolKeeps(ready.reader, mode, q, d);
  }

  predicate RemovalSeen(r: Reader, o: Observation) {
    o == SeesAbsent && (r.polled == SawPresent || r.polled == SawError)
  }

  /** The polling thread never ends an exclusive connection, and takes its lock exactly when it notices
      that the card has gone. */
  lemma RemovalKeepsExclusive(r: Reader, o: Observation, d: Driver)
    requires Sound(r) && r.contexts == EXCLUSIVE_CONTEXT
    ensures var s := PollStatus(r, o, d);
      s.contexts == EXCLUSIVE_CONTEXT && (s.lockId != 0 <==> r.lockId != 0 && !RemovalSeen(r, o))
  {
  }

  // ---- MSGRemoveContext, one card ----

  /** The handle holds the lock and has not been told of a reset or a removal, or nobody knows its card. */
  predicate LeavesDirty(r: Reader, h: int) {
    r.lockId == h && (r.atrLength > MAX_ATR_SIZE || EventOf(r.handles, h) == Some(NoEvent))
  }

  lemma ReleaseIsDisconnect(r: Reader, h: int, d: Driver) returns (free: Reader, disposition: Disposition)
    requires Sound(r) && Has(r.handles, h)
    ensures Sound(free) && free == if r.lockId == h then r.(lockId := 0, lockCount := 0) else r
    ensures ReleaseCard(r, h, d) == Disconnect(free, h, disposition, d).reader
    ensures disposition == if LeavesDirty(r, h) then Reset else Leave
  {
    assert h != 0;
    if r.lockId == 0 || r.lockId != h {
      free, disposition := r, Leave;
    } else {
      var open := r.(lockId := 0);
      free := r.(lockId := 0, lockCount := 0);
      var told := StatusReply(open, h) == ResetCard || StatusReply(open, h) == RemovedCard;
      disposition := if told then Leave else Reset;
      assert UnlockAll(open, h).reader == free == UnlockAll(free, h).reader;
    }
  }

  lemma ReleaseCardLaw(r: Reader, h: int, d: Driver)
    requires Sound(r) && Has(r.handles, h)
    ensures var s := ReleaseCard(r, h, d);
      && Sound(s) && s.live == r.live && s.name == r.name
      && (forall c :: Has(s.handles, c) == (c != h && Has(r.handles, c)))
      && s.lockId == (if r.lockId == h then 0 else r.lockId)
      && (r.lockId != h ==> s.lockCount == r.lockCount)
      && (r.lockId != h && r.lockId != 0 ==>
            s == r.(handles := Without(r.handles, h), contexts := r.contexts - 1, sharing := r.contexts - 1))
  {
    var free, disposition := ReleaseIsDisconnect(r, h, d);
    DisconnectLaw(free, h, disposition, d);
    if r.lockId != h && r.lockId != 0 { LockedOut(r, h, DoDisconnect(Leave), d); }
  }

  // ---- resets and removals reach every handle ----

  /** Between r and s the driver was asked to reset the card or to power it down for a client. */
  predicate Disturbed(r: Reader, s: Reader) {
    |r.calls| <= |s.calls| && (WarmReset in s.calls[|r.calls|..] || PowerDown in s.calls[|r.calls|..])
  }

  /** The handle whose event a request takes back. */
  predicate Reconnected(h: int, op: Operation, reply: Reply, c: int) {
    c == h && op.DoReconnect? && reply == Success
  }

  ghost predicate EventsAfter(r: Reader, s: Reader, h: int, op: Operation, reply: Reply) {
    && r.calls <= s.calls
    && forall c :: Has(s.handles, c) ==>
         EventOf(s.handles, c) == if Reconnected(h, op, reply, c) then Some(NoEvent)
                                  else if Disturbed(r, s) then Some(ResetEvent)
                                  else EventOf(r.handles, c)
  }

  predicate Disturbing(more: seq<Call>) {
    WarmReset in more || PowerDown in more
  }

  lemma DisturbedBy(r: Reader, s: Reader, more: seq<Call>)
    requires s.calls == r.calls + more
    ensures r.calls <= s.calls && Disturbed(r, s) == Disturbing(more)
  {
    assert s.calls[|r.calls|..] == more;
  }

  predicate Resets(r: Reader, h: int, init: Disposition) {
    r.status != Unknown && MayUse(r, h) && init != Leave
  }

  lemma SetProtocolShape(r: Reader, mode: Mode, q: Request, d: Driver) returns (more: seq<Call>)
    ensures var s := SetProtocol(r, mode, q, d).reader;
      s == r.(protocol := s.protocol, calls := r.calls + more) && !Disturbing(more)
  {
    more := if q.raw || mode == Direct || r.protocol != Undefined then []
            else PtsCalls(P.Asked(r.atr, r.atrLength, Wanted(q), d.first));
    var s := SetProtocol(r, mode, q, d).reader;
    assert s.calls == r.calls + more;
  }

  lemma AdoptShape(r: Reader, h: int, mode: Mode)
    ensures var o := Adopt(r, h, mode);
      && o.reader.handles == (if o.reply == Success then Cleared(r.handles, h) else r.handles)
      && o.reader.calls == r.calls && o.reader.power == r.power && o.reader.polled == r.polled
  {
  }

  lemma ResumeShape(r: Reader, h: int, mode: Mode, q: Request, d: Driver) returns (more: seq<Call>)
    ensures var o := Resume(r, h, mode, q, d);
      && o.reader.handles == (if o.reply == Success then Cleared(r.handles, h) else r.handles)
      && o.reader.calls == r.calls + more && !Disturbing(more)
      && (o.reader.power == r.power || o.reader.power == InUse) && o.reader.polled == r.polled
  {
    var talking := SetProtocol(r, mode, q, d);
    more := SetProtocolShape(r, mode, q, d);
    if talking.reply == Success {
      AdoptShape(if q.raw || mode == Direct then talking.reader else talking.reader.(power := InUse), h, mode);
    }
  }

  lemma InitialiseShape(r: Reader, init: Disposition, d: Driver)
    ensures var s := Initialise(r, init, d).reader;
      && s.handles == (if init != Leave then Marked(r.handles, ResetEvent) else r.handles)
      && s.calls == r.calls + (if init != Leave then PowerCycle(init) else []) && s.power == r.power && s.polled == r.polled
  {
  }

  lemma Regroup(a: seq<Call>, b: seq<Call>, c: seq<Call>)
    ensures a + b + c == a + (b + c)
    ensures Disturbing(b + c) == (Disturbing(b) || Disturbing(c))
  {
  }

  lemma ReconnectShape(r: Reader, h: int, mode: Mode, q: Request, init: Disposition, d: Driver) returns (more: seq<Call>)
    ensures var o := Reconnect(r, h, mode, q, init, d);
      var marked := if Resets(r, h, init) then Marked(r.handles, ResetEvent) else r.handles;
      && o.reader.handles == (if o.reply == Success then Cleared(marked, h) else marked)
      && o.reader.calls == r.calls + more && Disturbing(more) == Resets(r, h, init)
      && (o.reader.power == r.power || o.reader.power == InUse) && o.reader.polled == r.polled
  {
    var ready := Initialise(r, init, d);
    InitialiseShape(r, init, d);
    more := if Resets(r, h, init) then PowerCycle(init) else [];
    if r.status != Unknown && MayUse(r, h) && ready.reply == Success {
      var rest := ResumeShape(ready.reader, h, mode, q, d);
      Regroup(r.calls, more, rest);
      more := more + rest;
    }
  }

  lemma ReconnectEvents(r: Reader, h: int, mode: Mode, q: Request, init: Disposition, d: Driver)
    requires Sound(r) && Has(r.handles, h)
    ensures var o := Reconnect(r, h, mode, q, init, d); EventsAfter(r, o.reader, h, DoReconnect(mode, q, init), o.reply)
  {
    var o := Reconnect(r, h, mode, q, init, d);
    var more := ReconnectShape(r, h, mode, q, init, d);
    DisturbedBy(r, o.reader, more);
    MarkedLaw(r.handles, ResetEvent);
    ClearedLaw(r.handles, h);
    ClearedLaw(Marked(r.handles, ResetEvent), h);
  }

  lemma DisconnectEvents(r: Reader, h: int, disposition: Disposition, d: Driver)
    requires Sound(r) && Has(r.handles, h)
    ensures var o := Disconnect(r, h, disposition, d); EventsAfter(r, o.reader, h, DoDisconnect(disposition), o.reply)
  {
    var s := Disconnect(r, h, disposition, d).reader;
    MarkedLaw(r.handles, ResetEvent);
    WithoutLaw(r.handles, h);
    WithoutLaw(Marked(r.handles, ResetEvent), h);
    var more := if disposition != Leave && !MayUse(r, h) then []
                else match disposition case Reset => [WarmReset] case Unpower => [PowerDown] case EjectCard => [Eject] case _ => [];
    assert s.calls == r.calls + more;
    DisturbedBy(r, s, more);
  }

  lemma EndEvents(r: Reader, h: int, finish: Disposition, d: Driver)
    requires Sound(r) && Has(r.handles, h)
    ensures var o := End(r, h, finish, d); EventsAfter(r, o.reader, h, DoEnd(finish), o.reply)
  {
    var s := End(r, h, finish, d).reader;
    MarkedLaw(r.handles, ResetEvent);
    var more := if EventReply(r, h) != Success || (finish != Leave && !MayUse(r, h)) then []
                else match finish case Reset => [WarmReset] case Unpower => [PowerDown, PowerUp] case EjectCard => [Eject] case _ => [];
    assert s.calls == r.calls + more;
    DisturbedBy(r, s, more);
  }

  /** No reset is missed: a request that resets or powers down the card marks every handle but the one
      whose successful reconnect it is, no other request touches an event, and none is taken back
      except by such a reconnect. */
  lemma EventLaw(r: Reader, h: int, op: Operation, d: Driver)
    requires Sound(r) && Has(r.handles, h)
    ensures var o := Apply(r, h, op, d); EventsAfter(r, o.reader, h, op, o.reply)
  {
    var s := Apply(r, h, op, d).reader;
    match op
    case DoReconnect(mode, q, init) => ReconnectEvents(r, h, mode, q, init, d);
    case DoDisconnect(disposition) => DisconnectEvents(r, h, disposition, d);
    case DoEnd(finish) => EndEvents(r, h, finish, d);
    case DoTransmit(pci, room) =>
      var more := if s.calls == r.calls then [] else if pci == PciRaw && d.version == Version2 then [Escape] else [Transmission];
      assert s.calls == r.calls + more;
      DisturbedBy(r, s, more);
    case _ =>
      var more := if s.calls == r.calls then [] else if op.DoControl? then [Escape] else [AttributeCall];
      assert s.calls == r.calls + more;
      DisturbedBy(r, s, more);
  }

  /** A handle that was told of a reset or a removal can do nothing with the card until it reconnects. */
  lemma ToldIsRefused(r: Reader, h: int, op: Operation, d: Driver)
    requires EventOf(r.handles, h) == Some(ResetEvent) || EventOf(r.handles, h) == Some(RemovedEvent)
    requires op.DoBegin? || op.DoEnd? || op.DoStatus? || op.DoAttrib? || op.DoTransmit?
    ensures var o := Apply(r, h, op, d);
      && o.reader == r && o.reply != Success
      && (MayUse(r, h) && r.status != Unknown && r.atrLength <= MAX_ATR_SIZE ==>
            o.reply == if EventOf(r.handles, h) == Some(ResetEvent) then ResetCard else RemovedCard)
  {
  }

  // ---- power ----

  /** A card in use stays in use unless the last handle leaves or one asks for it to be powered down. */
  lemma InUseLaw(r: Reader, h: int, op: Operation, d: Driver)
    requires Sound(r) && Has(r.handles, h) && r.power == InUse
    ensures var o := Apply(r, h, op, d);
      o.reader.power == (if !(op.DoDisconnect? && o.reply == Success) then InUse
                         else if o.reader.contexts == 0 then (if op.disposition == Unpower then PowerOff else GracePeriod)
                         else if op.disposition == Unpower then PowerOff
                         else InUse)
  {
    match op
    case DoReconnect(mode, q, init) => var _ := ReconnectShape(r, h, mode, q, init, d);
    case _ =>
  }

  /** A card that is in use or off is in use or off after every request that leaves a connection. */
  lemma CalmLaw(r: Reader, h: int, op: Operation, d: Driver)
    requires Sound(r) && Has(r.handles, h) && Calm(r.power) && Apply(r, h, op, d).reader.contexts != 0
    ensures Calm(Apply(r, h, op, d).reader.power)
  {
    match op
    case DoReconnect(mode, q, init) => var _ := ReconnectShape(r, h, mode, q, init, d);
    case _ =>
  }

  /** The power states that a tick of the polling thread leaves alone. */
  predicate Calm(p: Power) {
    p == InUse || p == PowerOff
  }

  /** A connect disturbs nobody and leaves the power state alone or the card in use; a successful connect
      that is not direct leaves the card in use. */
  lemma ConnectDisturbsNobody(r: Reader, mode: Mode, q: Request, h: int, max: nat, d: Driver)
    requires Sound(r) && r.live && h != 0 && !Has(r.handles, h) && max >= 1
    ensures var o := Connect(r, mode, q, h, max, d);
      && r.calls <= o.reader.calls && !Disturbed(r, o.reader)
      && (forall c :: Has(r.handles, c) ==> EventOf(o.reader.handles, c) == EventOf(r.handles, c))
      && (o.reader.power == r.power || o.reader.power == InUse)
      && (o.reply == Success && mode != Direct ==> o.reader.power == InUse)
  {
    ConnectLaw(r, mode, q, h, max, d);
    AddedLaw(r.handles, h, NoEvent);
    var more := ConnectShape(r, mode, q, h, max, d);
    DisturbedBy(r, Connect(r, mode, q, h, max, d).reader, more);
  }

  lemma AttachShape(r: Reader, mode: Mode, h: int, max: nat)
    ensures var o := Attach(r, mode, h, max); o.reader.calls == r.calls && o.reader.power == r.power
  {
  }

  lemma ConnectShape(r: Reader, mode: Mode, q: Request, h: int, max: nat, d: Driver) returns (more: seq<Call>)
    ensures var o := Connect(r, mode, q, h, max, d);
      && o.reader.calls == r.calls + more && !Disturbing(more)
      && (o.reader.power == r.power || o.reader.power == InUse)
      && (o.reply == Success && mode != Direct ==> o.reader.power == InUse)
  {
    more := [];
    if ConnectRefusal(r, mode) == Success {
      var awake := if mode == Direct then r else Awaken(r, d);
      more := if mode == Direct || r.power != PowerOff then [] else [PowerUp];
      assert awake.calls == r.calls + more;
      if mode == Direct || awake.status == Ready {
        var used := if mode == Direct then awake else awake.(power := InUse);
        var talking := SetProtocol(used, mode, q, d);
        var rest := SetProtocolShape(used, mode, q, d);
        Regroup(r.calls, more, rest);
        more := more + rest;
        AttachShape(talking.reader, mode, h, max);
      }
    }
  }

  /** What the end of a context does to the other handles of a reader, and to the card: the driver is asked to
      reset it exactly when the handle holds the lock and its owner has used it, or may have, since the
      last reset. */
  lemma ReleaseCardEvents(r: Reader, h: int, d: Driver)
    requires Sound(r) && Has(r.handles, h)
    ensures var s := ReleaseCard(r, h, d);
      && r.calls <= s.calls
      && (forall c :: c != h && Has(r.handles, c) ==>
            EventOf(s.handles, c) == if Disturbed(r, s) then Some(ResetEvent) else EventOf(r.handles, c))
      && (s.contexts != 0 ==> s.power == r.power)
      && s.calls == r.calls + (if LeavesDirty(r, h) then [WarmReset] else [])
      && (Disturbed(r, s) <==> LeavesDirty(r, h))
      && (LeavesDirty(r, h) ==> s.protocol == Undefined && (s.status == Ready <==> d.power == PowerDone))
  {
    var free, disposition := ReleaseIsDisconnect(r, h, d);
    DisconnectEvents(free, h, disposition, d);
    PowerAfterDisconnect(free, h, disposition, d);
    DisconnectLaw(free, h, disposition, d);
    DisturbedBy(r, ReleaseCard(r, h, d), if LeavesDirty(r, h) then [WarmReset] else []);
  }

  lemma PowerAfterDisconnect(r: Reader, h: int, disposition: Disposition, d: Driver)
    requires disposition != Unpower
    ensures var s := Disconnect(r, h, disposition, d).reader;
      s.contexts != 0 ==> s.power == r.power
  {
  }

  // ---- the polling thread ----

  lemma PollCardLaw(r: Reader, o: Observation, d: Driver)
    requires Sound(r)
    ensures Sound(PollCard(r, o, d)) && PollCard(r, o, d).live == r.live && PollCard(r, o, d).name == r.name
    ensures forall c :: EventOf(PollCard(r, o, d).handles, c) ==
              if Has(r.handles, c) && o == SeesAbsent && r.polled != SawAbsent then Some(RemovedEvent) else EventOf(r.handles, c)
    ensures o == SeesAbsent && r.polled != SawAbsent ==> PollCard(r, o, d).lockId == 0
    ensures !(o == SeesAbsent && r.polled != SawAbsent) ==> PollCard(r, o, d).lockId == r.lockId && PollCard(r, o, d).lockCount == r.lockCount
  {
    if o == SeesAbsent {
      MarkedLaw(r.handles, RemovedEvent);
      assert Has(Marked(r.handles, RemovedEvent), 0) == Has(r.handles, 0);
      assert r.handles == [] ==> Marked(r.handles, RemovedEvent) == [];
    }
  }

  /** A removal that the thread notices marks every handle and takes the lock; nothing else it notices
      marks a handle or touches the lock. */
  lemma PollStatusLaw(r: Reader, o: Observation, d: Driver)
    requires Sound(r)
    ensures var s := PollStatus(r, o, d);
      var removed := o == SeesAbsent && (r.polled == SawPresent || r.polled == SawError);
      && Sound(s) && s.live == r.live && s.name == r.name
      && (forall c :: EventOf(s.handles, c) == if Has(r.handles, c) && removed then Some(RemovedEvent) else EventOf(r.handles, c))
      && (if removed then s.lockId == 0 else s.lockId == r.lockId && s.lockCount == r.lockCount)
  {
    PollCardLaw(r, o, d);
  }

  lemma PollRestKeepsSound(r: Reader, o: Observation, d: Driver)
    requires Sound(r)
    ensures Sound(PollStart(r, o, d)) && PollStart(r, o, d).handles == r.handles
    ensures PollStart(r, o, d).live == r.live && PollStart(r, o, d).name == r.name
    ensures PollStart(r, o, d).lockId == r.lockId && PollStart(r, o, d).lockCount == r.lockCount
    ensures Sound(PollPower(r)) && PollPower(r).handles == r.handles && PollPower(r).live == r.live && PollPower(r).name == r.name
    ensures PollPower(r).lockId == r.lockId && PollPower(r).lockCount == r.lockCount
  {
  }

  /** While a card in use stays in place the polling thread leaves reader and card as they are, except
      that it passes the sharing on. */
  lemma QuietPolling(r: Reader, o: Observation, d: Driver)
    requires Sound(r) && r.polled == SawPresent && r.power == InUse
    ensures PollStart(r, o, d) == r == PollPower(r)
    ensures PollStatus(r, SeesPresent, d) == r.(polledSharing := r.contexts)
  {
  }

  /** The grace period: the first tick after the last disconnect only moves to powered, a second one
      powers the card down. */
  lemma GraceTicks(r: Reader, h: int, disposition: Disposition, d: Driver)
    requires Sound(r) && Has(r.handles, h) && |r.handles| == 1 && r.power != PowerOff && r.polled != NotStarted
    requires disposition != Unpower && (disposition == Leave || MayUse(r, h))
    ensures var s := Disconnect(r, h, disposition, d).reader;
      && s.power == GracePeriod && PollPower(s) == s.(power := Powered)
      && PollPower(PollPower(s)).power == PowerOff && PollPower(PollPower(s)).calls == s.calls + [AutoPowerDown]
  {
    DisconnectLaw(r, h, disposition, d);
  }

  // ---- what turns of the polling thread do to a card in use and to a locked reader ----

  /** The polling thread finds a card where it last saw none, or an error, and powers it up. */
  predicate FindsCard(r: Reader, o: Observation) {
    o == SeesPresent && (r.polled == SawAbsent || r.polled == SawError)
  }

  /** A turn takes a card out of use exactly when it powers it up again. */
  lemma TurnTakesPower(r: Reader, o: Observation, d: Driver)
    requires r.power == InUse
    ensures PollPower(PollStatus(r, o, d)).power != InUse <==> FindsCard(r, o)
  {
  }

  /** A communication error within a connection: once the card answers again it is powered up and, as it no
      longer counts as used, powered down in the same turn, under a connection that is told nothing. */
  lemma RecoveryPowersDown(r: Reader, d: Driver, e: Driver)
    requires Sound(r) && r.power == InUse && r.contexts != 0 && r.polled == SawPresent && e.power == PowerDone
    ensures var s := PollPower(PollStatus(PollPower(PollStatus(r, SeesError, d)), SeesPresent, e));
      s.power == PowerOff && s.calls == r.calls + [PowerUp, AutoPowerDown] && s.contexts == r.contexts && s.handles == r.handles
  {
    var up := PollStatus(PollPower(PollStatus(r, SeesError, d)), SeesPresent, e);
    assert up.calls == r.calls + [PowerUp];
    assert PollPower(up).calls == r.calls + [PowerUp] + [AutoPowerDown];
  }

  /** Turns of the polling thread, each with its look at the card and its tick. */
  datatype Turn = Turn(sees: Observation, d: Driver)

  function Turns(r: Reader, turns: seq<Turn>): Reader
    decreases turns
  {
    if turns == [] then r else Turns(PollPower(PollStatus(r, turns[0].sees, turns[0].d)), turns[1..])
  }

  predicate FindsNoCard(r: Reader, turns: seq<Turn>)
    decreases turns
  {
    turns == [] ||
    (!FindsCard(r, turns[0].sees) && FindsNoCard(PollPower(PollStatus(r, turns[0].sees, turns[0].d)), turns[1..]))
  }

  /** So a card in use stays so, connected or not, through any number of turns that find no card anew. */
  lemma {:induction false} TurnsKeepInUse(r: Reader, turns: seq<Turn>)
    requires r.power == InUse && FindsNoCard(r, turns)
    ensures Turns(r, turns).power == InUse
    decreases turns
  {
    if turns != [] {
      TurnTakesPower(r, turns[0].sees, turns[0].d);
      TurnsKeepInUse(PollPower(PollStatus(r, turns[0].sees, turns[0].d)), turns[1..]);
    }
  }

  /** A look at the card leaves everything but the sharing as it is. */
  predicate LooksQuietly(r: Reader, o: Observation) {
    match o
    case SeesPresent => r.polled == NotStarted || r.polled == SawPresent
    case SeesAbsent => r.polled == NotStarted || r.polled == SawAbsent
    case SeesError =>
      r.polled == NotStarted || (r.polled == SawError && r.status == Unknown && r.atrLength == 0 && r.protocol == Undefined)
  }

  predicate TicksQuietly(r: Reader) {
    r.polled == NotStarted || (r.power != Powered && r.power != GracePeriod)
  }

  lemma QuietLook(r: Reader, o: Observation, d: Driver)
    requires Sound(r)
    ensures PollStatus(r, o, d) == r.(polledSharing := PollStatus(r, o, d).polledSharing) <==> LooksQuietly(r, o)
    ensures PollPower(r) == r <==> TicksQuietly(r)
    ensures PollStart(r, o, d) == r <==> r.polled != NotStarted
  {
    if !LooksQuietly(r, o) && o == SeesPresent { assert |r.calls + [PowerUp]| == |r.calls| + 1; }
  }

  // ---- where the code does less than one may expect ----

  /** A failed connect leaves the card in use exactly when it was, or when the connect got as far as a
      powered card: whatever refuses it after that, the power state stays. */
  lemma FailedConnectPower(r: Reader, mode: Mode, q: Request, h: int, max: nat, d: Driver)
    requires Connect(r, mode, q, h, max, d).reply != Success
    ensures Connect(r, mode, q, h, max, d).reader.power == InUse
       <==> r.power == InUse || (mode != Direct && ConnectRefusal(r, mode) == Success && Awaken(r, d).status == Ready)
  {
    if ConnectRefusal(r, mode) == Success {
      var awake := if mode == Direct then r else Awaken(r, d);
      var used := if mode == Direct then awake else awake.(power := InUse);
      var _ := SetProtocolShape(used, mode, q, d);
      AttachShape(SetProtocol(used, mode, q, d).reader, mode, h, max);
    }
  }

  /** On a reader without connections this is a card in use for nobody, and stays so through any number of
      turns of the polling thread that find no card anew. */
  lemma FailedConnectKeepsPower(r: Reader, mode: Mode, q: Request, h: int, max: nat, d: Driver, turns: seq<Turn>)
    requires Sound(r) && r.live && r.handles == [] && h != 0 && max >= 1
    requires Connect(r, mode, q, h, max, d).reply != Success
    ensures var s := Connect(r, mode, q, h, max, d).reader;
      && s.handles == [] && s.contexts == 0
      && (s.power == InUse <==> r.power == InUse || (mode != Direct && ConnectRefusal(r, mode) == Success && Awaken(r, d).status == Ready))
      && (s.power == InUse && FindsNoCard(s, turns) ==> Turns(s, turns).power == InUse)
  {
    ConnectLaw(r, mode, q, h, max, d);
    FailedConnectPower(r, mode, q, h, max, d);
    var s := Connect(r, mode, q, h, max, d).reader;
    if s.power == InUse && FindsNoCard(s, turns) { TurnsKeepInUse(s, turns); }
  }

  /** Two such connects: the card fails its PPS, or has another protocol than the one asked for. */
  lemma FailedConnects(r: Reader, h: int, max: nat, d: Driver)
    requires Sound(r) && r.live && r.handles == [] && h != 0 && max >= 1 && r.status == Ready && r.power == GracePeriod
    ensures r.protocol == Undefined && P.Negotiated(r.atr, r.atrLength, {T0}, d.first, d.second) == P.PpsFailed ==>
              var o := Connect(r, Shared, Request({T0}, false, false), h, max, d);
              o.reply == UnresponsiveCard && o.reader.power == InUse
    ensures r.protocol == Chosen(T0) ==>
              var o := Connect(r, Shared, Request({T1}, false, false), h, max, d);
              o.reply == ProtoMismatch && o.reader.power == InUse
  {
  }

  /** The polling thread powers a card up exactly when it finds one where it last saw none or an error,
      and then tells no handle. Those there when the card went were told before, but an error alone
      tells nobody. */
  lemma PowerUpUntold(r: Reader, o: Observation, d: Driver)
    requires Sound(r)
    ensures var s := PollStatus(r, o, d);
      && (s.calls == r.calls + [PowerUp] <==> o == SeesPresent && (r.polled == SawAbsent || r.polled == SawError))
      && (s.calls != r.calls ==> s.calls == r.calls + [PowerUp] && s.handles == r.handles && s.protocol == Undefined)
      && (o == SeesError ==> s.handles == r.handles)
  {
    assert |r.calls + [PowerUp]| == |r.calls| + 1;
  }

  /** After a communication error the card is powered up again without any handle being told, even if
      it is another card. */
  lemma RecoveryTellsNobody(r: Reader, d: Driver, e: Driver)
    requires Sound(r) && r.polled == SawPresent
    ensures var s := PollStatus(PollStatus(r, SeesError, e), SeesPresent, d);
      s.handles == r.handles && s.protocol == Undefined && PowerUp in s.calls && s.lockId == r.lockId
  {
    var broken := PollStatus(r, SeesError, e);
    var s := PollStatus(broken, SeesPresent, d);
    assert s.calls == r.calls + [PowerUp];
    assert s.calls[|r.calls|] == PowerUp;
  }

  // ---- the protocol of a connection ----

  /** A shared connect, or an exclusive one to a reader without connections. */
  predicate Admitted(r: Reader, mode: Mode) {
    (mode == Shared || (mode == Exclusive && r.handles == [])) && ConnectRefusal(r, mode) == Success
  }

  /** A connect to a powered card whose protocol is already chosen, by a client that does not ask for the
      raw protocol, succeeds exactly when it names that protocol; SCARD_PROTOCOL_ANY_OLD stands for no
      protocol here. It does not negotiate again. */
  lemma SecondConnect(r: Reader, mode: Mode, q: Request, h: int, max: nat, d: Driver)
    requires Sound(r) && r.live && h != 0 && !Has(r.handles, h) && |r.handles| < max
    requires Admitted(r, mode) && Awaken(r, d).status == Ready && r.protocol.Chosen? && !q.raw
    ensures var o := Connect(r, mode, q, h, max, d);
      && (o.reply == Success <==> r.protocol.protocol in q.protocols)
      && (o.reply != Success ==> o.reply == ProtoMismatch)
      && o.reader.protocol == r.protocol && o.reader.calls == Awaken(r, d).calls
  {
  }

  /** A first connect that accepts T=0 and T=1 is never refused for its protocol by a card with a good
      ATR, whether the card was powered or the connect powers it up: it gets a protocol the card
      offers, or the card fails the PPS. */
  lemma FirstConnect(r: Reader, mode: Mode, q: Request, h: int, max: nat, d: Driver)
    requires Sound(r) && r.live && h != 0 && !Has(r.handles, h) && |r.handles| < max
    requires Admitted(r, mode) && Awaken(r, d).status == Ready && r.protocol == Undefined && !q.raw && Wanted(q) == {T0, T1}
    requires Meaning(Awaken(r, d).atr, Awaken(r, d).atrLength).verdict == Accepted
    ensures var o := Connect(r, mode, q, h, max, d);
      && (o.reply == Success || o.reply == UnresponsiveCard)
      && (o.reply == Success ==>
            o.reader.protocol.Chosen? && o.reader.protocol.protocol in Meaning(Awaken(r, d).atr, Awaken(r, d).atrLength).available)
  {
    P.AnyProtocolSucceedsOrFailsPps(Awaken(r, d).atr, Awaken(r, d).atrLength, d.first, d.second);
  }
}
