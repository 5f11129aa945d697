/** From the daemon to the application: what a reader publishes (READER_STATE) and whether
    SCardGetStatusChange tells of a card that the polling thread has seen come or go. */
module Notification {
  import opened Wrappers
  import R = ReaderState
  import L = ReaderLaws
  import opened StatusChange

  /** The bits of readerState.readerState. */
  function FlagsOf(s: R.Status): set<ReaderFlag> {
    match s
    case Uninitialised => {}
    case Unknown => {ReaderUnknown}
    case Absent => {ReaderAbsent}
    case Unpowered => {ReaderPresent}
    case Mute => {ReaderPresent, ReaderSwallowed}
    case Ready => {ReaderPresent, ReaderPowered, ReaderNegotiable}
  }

  function Publish(r: R.Reader): Published {
    Published(FlagsOf(r.status), r.sharing, r.eventCounter)
  }

  lemma PublishesSanely(r: R.Reader)
    requires L.Sound(r)
    ensures WellFormed(Publish(r))
  {
  }

  predicate CardMoved(r: R.Reader, o: R.Observation) {
    (o == R.SeesAbsent && (r.polled == R.SawPresent || r.polled == R.SawError))
    || (o == R.SeesPresent && (r.polled == R.SawAbsent || r.polled == R.SawError))
  }

  lemma PollPublishes(r: R.Reader, o: R.Observation, d: R.Driver)
    requires L.Sound(r) && CardMoved(r, o)
    ensures var s := R.PollStatus(r, o, d);
      && s.sharing == r.sharing && s.eventCounter == R.Tick(r.eventCounter) && s.eventCounter != r.eventCounter
      && s.status == if o == R.SeesAbsent then R.Absent else if d.power == R.PowerDone then R.Ready else R.Mute
  {
  }

  /** What the movement of a card means to an application whose current state is e. */
  predicate MovementNews(r: R.Reader, o: R.Observation, after: Published, e: State) {
    || e.counter != 0 || Unavailable in e.flags
    || (if o == R.SeesAbsent then Present in e.flags
        else Empty in e.flags || (ReaderSwallowed in after.flags <==> Mute !in e.flags))
    || (o == R.SeesPresent && r.sharing >= 1 && Exclusive in e.flags)
  }

  /** An application whose current state is e is not told of anything, be it between two calls or waiting in
      one. This says exactly when it is told of a movement of the card, wherever e comes from. */
  lemma MovementIsTold(r: R.Reader, o: R.Observation, d: R.Driver, e: State, e1: State)
    requires L.Sound(r) && CardMoved(r, o) && !Breaks(e, Some(Publish(r))) && Changed !in e1.flags
    ensures var after := Publish(R.PollStatus(r, o, d));
      && (Breaks(e, Some(after)) <==> MovementNews(r, o, after, e))
      && (Changed in EventOf(e, e1, Some(after)).flags <==> Breaks(e, Some(after)))
  {
    hide EventOf, R.PollStatus;
    var after := Publish(R.PollStatus(r, o, d));
    PollPublishes(r, o, d);
    ChangedMeansBreak(e, e1, Some(after));
    if Breaks(e, Some(after)) { BreakMeansChanged(e, e1, Some(after)); }
  }

  /** For a reader that had been polled: the application is told unless the reader looks the same to it and the
      counter it has been given is 0, as happens when a transmission had already found the card gone. */
  lemma PolledMovementIsTold(r: R.Reader, o: R.Observation, d: R.Driver, c: State, e0: State, seen: Option<Published>)
    requires L.Sound(r) && CardMoved(r, o) && r.status != R.Uninitialised
    requires Sane(seen) && LookOf(seen) != Nothing && !Breaks(EventOf(c, e0, seen), Some(Publish(r)))
    ensures var e := EventOf(c, e0, seen);
      var before, after := Some(Publish(r)), Some(Publish(R.PollStatus(r, o, d)));
      Breaks(e, after) <==> LookOf(before) != LookOf(after) || e.counter != 0
  {
    hide EventOf, R.PollStatus;
    var before, after := Some(Publish(r)), Some(Publish(R.PollStatus(r, o, d)));
    PollPublishes(r, o, d);
    PublishesSanely(r);
    L.PollStatusLaw(r, o, d);
    PublishesSanely(R.PollStatus(r, o, d));
    Tells(c, e0, seen);
    Complete(c, e0, seen, before);
    Complete(c, e0, seen, after);
  }

  /** An application that was given the event of a reader not polled yet is told of no card that comes or goes,
      but of a mute one. */
  lemma UnpolledMovement(r: R.Reader, o: R.Observation, d: R.Driver)
    requires L.Sound(r) && CardMoved(r, o)
    ensures var e := EventOf(UNAWARE, UNAWARE, Some(Published({}, 0, 0)));
      Breaks(e, Some(Publish(R.PollStatus(r, o, d)))) <==> o == R.SeesPresent && d.power != R.PowerDone
  {
    hide EventOf, R.PollStatus;
    PollPublishes(r, o, d);
    L.PollStatusLaw(r, o, d);
    PublishesSanely(R.PollStatus(r, o, d));
    UnpolledBlind(Some(Publish(R.PollStatus(r, o, d))));
  }

  /** Such a case: the first card goes, a transmission is the first to find out and an application is told of
      that, and the removal the polling thread then sees is not told. */
  lemma FoundGoneFirst(r: R.Reader, h: int, d: R.Driver, e: R.Driver, c: State, e0: State)
    requires L.Sound(r) && r.status == R.Ready && r.polled == R.SawPresent && r.eventCounter == 0
    requires R.TransmitReply(r, h, R.PciAny) == R.Success && !d.accepts && d.cardLost
    ensures var s := R.Transmit(r, h, R.PciAny, 2, d).reader;
      var before, after := Some(Publish(s)), Some(Publish(R.PollStatus(s, R.SeesAbsent, e)));
      CardMoved(s, R.SeesAbsent) && !Breaks(EventOf(c, e0, before), after)
  {
    var s := R.Transmit(r, h, R.PciAny, 2, d).reader;
    PollPublishes(s, R.SeesAbsent, e);
    PublishesSanely(s);
    Stable(c, e0, Some(Publish(s)));
    Tells(c, e0, Some(Publish(s)));
    PolledMovementIsTold(s, R.SeesAbsent, e, c, e0, Some(Publish(s)));
  }
}
