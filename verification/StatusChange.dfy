/** SCardGetStatusChange of src/winscard_clnt.c: what one pass makes of the state an application has
    of a reader (dwCurrentState) and the state the daemon publishes. */
module StatusChange {
  import opened Wrappers

  /** The SCARD_STATE_* bits; Other stands for the bits of the lower word without a name. */
  datatype Flag = Ignore | Changed | Unknown | Unavailable | Empty | Present | AtrMatch | Exclusive | InUse | Mute | Other(bit: nat)

  /** dwCurrentState or dwEventState: the event counter in the upper word, and the bits of the lower. */
  datatype State = State(counter: nat, flags: set<Flag>)

  /** SCARD_STATE_UNAWARE */
  const UNAWARE := State(0, {})

  /** The bits of readerState. */
  datatype ReaderFlag = ReaderUnknown | ReaderAbsent | ReaderPresent | ReaderSwallowed | ReaderPowered | ReaderNegotiable

  /** READER_STATE: readerState, readerSharing, eventCounter. */
  datatype Published = Published(flags: set<ReaderFlag>, sharing: int, counter: nat)

  function Mark(e: State, changed: bool): State {
    if changed then e.(flags := e.flags + {Changed}) else e
  }

  // ---- the conditions that make the application's state out of date ----

  predicate CounterMoved(c: State, r: Published) {
    c.counter != 0 && r.counter != c.counter
  }

  predicate AvailabilityMoved(c: State, r: Published) {
    ReaderUnknown in r.flags <==> Unavailable !in c.flags
  }

  predicate PresenceMoved(c: State, r: Published) {
    if ReaderAbsent in r.flags then Present in c.flags
    else ReaderPresent in r.flags && (Empty in c.flags || (ReaderSwallowed in r.flags <==> Mute !in c.flags))
  }

  predicate SharingMoved(c: State, r: Published) {
    if r.sharing == -1 then InUse in c.flags
    else if r.sharing >= 1 then ReaderPresent in r.flags && Exclusive in c.flags
    else r.sharing == 0 && (InUse in c.flags || Exclusive in c.flags)
  }

  /** The break flag. */
  predicate Breaks(c: State, reader: Option<Published>) {
    match reader
    case None => Unknown !in c.flags
    case Some(r) =>
      Unknown in c.flags || CounterMoved(c, r) || AvailabilityMoved(c, r) || PresenceMoved(c, r) || SharingMoved(c, r) || c == UNAWARE
  }

  // ---- dwEventState ----

  function Counted(e: State, c: State, r: Published): State {
    var seen := if Unknown in c.flags then e.flags - {Unknown} else e.flags;
    Mark(State(r.counter, seen), Unknown in c.flags || CounterMoved(c, r))
  }

  /** The state of a reader in error replaces everything noted so far. */
  function Availability(e: State, c: State, r: Published): State {
    if ReaderUnknown in r.flags then Mark(State(0, {Unavailable}), AvailabilityMoved(c, r))
    else if Unavailable in c.flags then Mark(e.(flags := e.flags - {Unavailable}), true)
    else e
  }

  function Presence(e: State, c: State, r: Published): State {
    if ReaderAbsent in r.flags then
      Mark(e.(flags := e.flags - {Present, Ignore, Unknown, Unavailable, AtrMatch, Mute, InUse} + {Empty}), PresenceMoved(c, r))
    else if ReaderPresent in r.flags then
      Mark(e.(flags := e.flags - {Empty, Ignore, Unknown, Unavailable, Mute} + {Present}
                       + if ReaderSwallowed in r.flags then {Mute} else {}), PresenceMoved(c, r))
    else e
  }

  function Sharing(e: State, c: State, r: Published): State {
    if r.sharing == -1 then Mark(e.(flags := e.flags - {InUse} + {Exclusive}), SharingMoved(c, r))
    else if r.sharing >= 1 then
      if ReaderPresent in r.flags then Mark(e.(flags := e.flags - {Exclusive} + {InUse}), SharingMoved(c, r)) else e
    else if r.sharing == 0 then Mark(e.(flags := e.flags - {InUse, Exclusive}), SharingMoved(c, r))
    else e
  }

  /** dwEventState after a pass that found e in it. */
  function EventOf(c: State, e: State, reader: Option<Published>): State {
    match reader
    case None => Mark(State(0, {Unknown, Unavailable}), Unknown !in c.flags)
    case Some(r) => Mark(Sharing(Presence(Availability(Counted(e, c, r), c, r), c, r), c, r), c == UNAWARE)
  }

  /** The pass over one reader that is not ignored; reader is None when its name is not published. */
  method Pass(c: State, e0: State, reader: Option<Published>) returns (e: State, breakFlag: bool)
    ensures e == EventOf(c, e0, reader) && breakFlag == Breaks(c, reader)
  {
    e, breakFlag := e0, false;
    match reader
    case None =>
      e := State(0, {Unknown, Unavailable});
      if Unknown !in c.flags {
        e := Mark(e, true);
        breakFlag := true;
      }
    case Some(r) =>
      if Unknown in c.flags {
        e := Mark(e, true);
        e := e.(flags := e.flags - {Unknown});
        breakFlag := true;
      }
      if c.counter != 0 {
        if r.counter != c.counter {
          e := Mark(e, true);
          breakFlag := true;
        }
      }
      e := e.(counter := r.counter);
      assert e == Counted(e0, c, r);
      var b;
      e, b := PassAvailability(e, c, r);
      breakFlag := breakFlag || b;
      e, b := PassPresence(e, c, r);
      breakFlag := breakFlag || b;
      e, b := PassSharing(e, c, r);
      breakFlag := breakFlag || b;
      if c == UNAWARE {
        e := Mark(e, true);
        breakFlag := true;
      }
  }

  method PassAvailability(e0: State, c: State, r: Published) returns (e: State, breakFlag: bool)
    ensures e == Availability(e0, c, r) && breakFlag == AvailabilityMoved(c, r)
  {
    e, breakFlag := e0, false;
    if ReaderUnknown in r.flags {
      e := State(0, {Unavailable});
      if Unavailable !in c.flags {
        e := Mark(e, true);
        breakFlag := true;
      }
    } else if Unavailable in c.flags {
      e := e.(flags := e.flags - {Unavailable});
      e := Mark(e, true);
      breakFlag := true;
    }
  }

  method PassPresence(e0: State, c: State, r: Published) returns (e: State, breakFlag: bool)
    ensures e == Presence(e0, c, r) && breakFlag == PresenceMoved(c, r)
  {
    e, breakFlag := e0, false;
    if ReaderAbsent in r.flags {
      e := e.(flags := e.flags + {Empty} - {Present, Ignore, Unknown, Unavailable, AtrMatch, Mute, InUse});
      if Present in c.flags {
        e := Mark(e, true);
        breakFlag := true;
      }
    } else if ReaderPresent in r.flags {
      e := e.(flags := e.flags + {Present} - {Empty, Ignore, Unknown, Unavailable, Mute});
      if Empty in c.flags {
        e := Mark(e, true);
        breakFlag := true;
      }
      if ReaderSwallowed in r.flags {
        e := e.(flags := e.flags + {Mute});
        if Mute !in c.flags {
          e := Mark(e, true);
          breakFlag := true;
        }
      } else if Mute in c.flags {
        e := Mark(e, true);
        breakFlag := true;
      }
    }
  }

  method PassSharing(e0: State, c: State, r: Published) returns (e: State, breakFlag: bool)
    ensures e == Sharing(e0, c, r) && breakFlag == SharingMoved(c, r)
  {
    e, breakFlag := e0, false;
    if r.sharing == -1 {
      e := e.(flags := e.flags + {Exclusive} - {InUse});
      breakFlag := InUse in c.flags;
    } else if r.sharing >= 1 {
      if ReaderPresent in r.flags {
        e := e.(flags := e.flags + {InUse} - {Exclusive});
        breakFlag := Exclusive in c.flags;
      }
    } else if r.sharing == 0 {
      e := e.(flags := e.flags - {InUse, Exclusive});
      breakFlag := InUse in c.flags || Exclusive in c.flags;
    }
    if breakFlag { e := Mark(e, true); }
  }

  /** A round over all readers of the call: those the application ignores are left alone. */
  method Round(c: seq<State>, events: array<State>, readers: seq<Option<Published>>) returns (breakFlag: bool)
    requires |c| == events.Length == |readers|
    modifies events
    ensures forall j :: 0 <= j < |c| ==>
              events[j] == if Ignore in c[j].flags then old(events[j]) else EventOf(c[j], old(events[j]), readers[j])
    ensures breakFlag <==> exists j :: 0 <= j < |c| && Ignore !in c[j].flags && Breaks(c[j], readers[j])
  {
    breakFlag := false;
    var j := 0;
    while j < |c|
      invariant 0 <= j <= |c|
      invariant forall k :: 0 <= k < j ==>
                  events[k] == if Ignore in c[k].flags then old(events[k]) else EventOf(c[k], old(events[k]), readers[k])
      invariant forall k :: j <= k < |c| ==> events[k] == old(events[k])
      invariant breakFlag <==> exists k :: 0 <= k < j && Ignore !in c[k].flags && Breaks(c[k], readers[k])
    {
      if Ignore !in c[j].flags {
        var e, b := Pass(c[j], events[j], readers[j]);
        events[j] := e;
        breakFlag := breakFlag || b;
      }
      j := j + 1;
    }
  }

  // ---- a whole call ----

  /** dwEventState after rounds in which the reader was published as looks says; it is empty at the start. */
  function EventAfter(c: State, looks: seq<Option<Published>>): State {
    if looks == [] then UNAWARE else EventOf(c, EventAfter(c, looks[..|looks| - 1]), looks[|looks| - 1])
  }

  /** What the first n rounds have published of reader j. */
  function Column(rounds: seq<seq<Option<Published>>>, n: nat, j: nat): (looks: seq<Option<Published>>)
    requires n <= |rounds| && forall k :: 0 <= k < n ==> j < |rounds[k]|
    ensures |looks| == n
  {
    if n == 0 then [] else Column(rounds, n - 1, j) + [rounds[n - 1][j]]
  }

  predicate AllIgnored(c: seq<State>) {
    forall j :: 0 <= j < |c| ==> Ignore in c[j].flags
  }

  predicate SomeBreak(c: seq<State>, round: seq<Option<Published>>)
    requires |c| == |round|
  {
    exists j :: 0 <= j < |c| && Ignore !in c[j].flags && Breaks(c[j], round[j])
  }

  /** The event of a call for one reader. */
  function EventIn(c: State, looks: seq<Option<Published>>): State {
    if Ignore in c.flags then UNAWARE else EventAfter(c, looks)
  }

  /** What SCardGetStatusChange returns; Interrupted is a timeout, a cancellation or another error. */
  datatype CallResult = CallSuccess | UnknownReader | Interrupted

  /** SCardGetStatusChange. rounds are the states the daemon publishes when the call asks for them, up to its
      interruption. n is the number of rounds used. */
  method SCardGetStatusChange(c: seq<State>, events: array<State>, rounds: seq<seq<Option<Published>>>)
    returns (rv: CallResult, n: nat)
    requires |c| == events.Length && |rounds| >= 1 && forall k :: 0 <= k < |rounds| ==> |rounds[k]| == |c|
    modifies events
    ensures AllIgnored(c) ==> rv == CallSuccess && n == 0 && events[..] == old(events[..])
    ensures rv == UnknownReader <==> !AllIgnored(c) && None in rounds[0]
    ensures rv == UnknownReader ==> n == 0 && events[..] == old(events[..])
    ensures n <= |rounds| && (n == 0 <==> AllIgnored(c) || None in rounds[0])
    ensures n > 0 ==> forall j :: 0 <= j < |c| ==> events[j] == EventIn(c[j], Column(rounds, n, j))
    ensures n > 0 ==> (rv == CallSuccess <==> SomeBreak(c, rounds[n - 1])) && forall k :: 0 <= k < n - 1 ==> !SomeBreak(c, rounds[k])
    ensures rv == Interrupted ==> n == |rounds|
  {
    hide EventIn, Breaks, SomeBreak;
    n := 0;
    if AllIgnored(c) { return CallSuccess, 0; }
    if None in rounds[0] { return UnknownReader, 0; }
    Clear(events);
    forall j | 0 <= j < |c| ensures events[j] == EventIn(c[j], Column(rounds, 0, j)) { NoRound(c[j]); }
    var breakFlag := false;
    while n < |rounds| && !breakFlag
      invariant n <= |rounds| && (breakFlag ==> n > 0)
      invariant forall j :: 0 <= j < |c| ==> events[j] == EventIn(c[j], Column(rounds, n, j))
      invariant n > 0 ==> (breakFlag <==> SomeBreak(c, rounds[n - 1])) && forall k :: 0 <= k < n - 1 ==> !SomeBreak(c, rounds[k])
    {
      breakFlag := NextRound(c, events, rounds, n);
      n := n + 1;
    }
    rv := if breakFlag then CallSuccess else Interrupted;
  }

  method NextRound(c: seq<State>, events: array<State>, rounds: seq<seq<Option<Published>>>, n: nat) returns (breakFlag: bool)
    requires |c| == events.Length && n < |rounds| && forall k :: 0 <= k < |rounds| ==> |rounds[k]| == |c|
    requires forall j :: 0 <= j < |c| ==> events[j] == EventIn(c[j], Column(rounds, n, j))
    modifies events
    ensures forall j :: 0 <= j < |c| ==> events[j] == EventIn(c[j], Column(rounds, n + 1, j))
    ensures breakFlag <==> SomeBreak(c, rounds[n])
  {
    hide EventOf, Breaks;
    breakFlag := Round(c, events, rounds[n]);
    forall j | 0 <= j < |c| ensures events[j] == EventIn(c[j], Column(rounds, n + 1, j)) {
      OneMore(c[j], Column(rounds, n, j), rounds[n][j]);
    }
  }

  lemma NoRound(c: State)
    ensures EventIn(c, []) == UNAWARE
  {
  }

  method Clear(events: array<State>)
    modifies events
    ensures forall j :: 0 <= j < events.Length ==> events[j] == UNAWARE
  {
    for j := 0 to events.Length
      invariant forall k :: 0 <= k < j ==> events[k] == UNAWARE
    {
      events[j] := UNAWARE;
    }
  }

  lemma OneMore(c: State, looks: seq<Option<Published>>, look: Option<Published>)
    ensures EventAfter(c, looks + [look]) == EventOf(c, EventAfter(c, looks), look)
  {
    assert (looks + [look])[..|looks|] == looks;
  }

  // ---- what the application can rely on ----

  /** The combinations of bits the daemon publishes. */
  predicate WellFormed(r: Published) {
    && (r.flags == {} || r.flags == {ReaderUnknown} || r.flags == {ReaderAbsent} || r.flags == {ReaderPresent}
        || r.flags == {ReaderPresent, ReaderSwallowed} || r.flags == {ReaderPresent, ReaderPowered, ReaderNegotiable})
    && r.sharing >= -1
  }

  predicate Sane(reader: Option<Published>) {
    reader.Some? ==> WellFormed(reader.value)
  }

  /** No pass tells of a card that is both there and not there. */
  lemma NeverPresentAndEmpty(c: State, e: State, reader: Option<Published>)
    requires !(Present in e.flags && Empty in e.flags)
    ensures var f := EventOf(c, e, reader).flags; !(Present in f && Empty in f)
  {
  }

  /** Nor does a call. */
  lemma {:induction false} CallNeverPresentAndEmpty(c: State, looks: seq<Option<Published>>)
    ensures var f := EventAfter(c, looks).flags; !(Present in f && Empty in f)
  {
    if looks != [] {
      CallNeverPresentAndEmpty(c, looks[..|looks| - 1]);
      NeverPresentAndEmpty(c, EventAfter(c, looks[..|looks| - 1]), looks[|looks| - 1]);
    }
  }

  /** When the pass breaks, the event says so - except that the state of a reader in error wipes out
      that it has come back or that its counter has moved. */
  predicate Wiped(c: State, reader: Option<Published>) {
    reader.Some? && ReaderUnknown in reader.value.flags && Unavailable in c.flags
    && !PresenceMoved(c, reader.value) && !SharingMoved(c, reader.value)
  }

  lemma BreakMeansChanged(c: State, e: State, reader: Option<Published>)
    requires Breaks(c, reader)
    ensures Changed in EventOf(c, e, reader).flags <==> !Wiped(c, reader)
  {
  }

  lemma ChangedMeansBreak(c: State, e: State, reader: Option<Published>)
    ensures Changed in EventOf(c, e, reader).flags ==> Changed in e.flags || Breaks(c, reader)
  {
  }

  /** The event a call returns after rounds of silence says that a reader has changed exactly when the last
      round breaks for it and nothing wipes that out. */
  lemma ReturnedChanged(c: State, looks: seq<Option<Published>>)
    requires looks != [] && forall k :: 0 <= k < |looks| - 1 ==> !Breaks(c, looks[k])
    ensures var last := looks[|looks| - 1];
      Changed in EventAfter(c, looks).flags <==> Breaks(c, last) && !Wiped(c, last)
  {
    var last := looks[|looks| - 1];
    var e := EventAfter(c, looks[..|looks| - 1]);
    SilentRounds(c, looks[..|looks| - 1]);
    ChangedMeansBreak(c, e, last);
    if Breaks(c, last) { BreakMeansChanged(c, e, last); }
  }

  lemma {:induction false} SilentRounds(c: State, looks: seq<Option<Published>>)
    requires forall k :: 0 <= k < |looks| ==> !Breaks(c, looks[k])
    ensures Changed !in EventAfter(c, looks).flags
  {
    if looks != [] {
      SilentRounds(c, looks[..|looks| - 1]);
      ChangedMeansBreak(c, EventAfter(c, looks[..|looks| - 1]), looks[|looks| - 1]);
    }
  }

  /** A reader goes away and comes back in error: the call returns, without a change in its event. */
  lemma ReturnInErrorIsSilent(counter: nat)
    ensures var gone := EventOf(State(0, {Present}), UNAWARE, None);
      var back := Some(Published({ReaderUnknown}, 0, counter));
      Breaks(gone, back) && EventOf(gone, UNAWARE, back) == State(0, {Unavailable})
  {
    assert EventOf(State(0, {Present}), UNAWARE, None).flags == {Unknown, Unavailable, Changed};
  }

  /** What an application sees of a reader. */
  datatype Look = Missing | InError | Vacant | Normal | Silent | Nothing

  function LookOf(reader: Option<Published>): Look {
    match reader
    case None => Missing
    case Some(r) =>
      if ReaderUnknown in r.flags then InError
      else if ReaderAbsent in r.flags then Vacant
      else if ReaderPresent in r.flags then (if ReaderSwallowed in r.flags then Silent else Normal)
      else Nothing
  }

  predicate HasCard(look: Look) { look == Normal || look == Silent }

  // ---- what an event tells, whatever earlier rounds have left in it ----

  lemma Tells(c: State, e0: State, reader: Option<Published>)
    requires Sane(reader) && LookOf(reader) != Nothing
    ensures var e := EventOf(c, e0, reader); var look := LookOf(reader);
      && (Unknown in e.flags <==> look == Missing)
      && (Unavailable in e.flags <==> look == Missing || look == InError)
      && e.counter == if look == Missing || look == InError then 0 else reader.value.counter
  {
  }

  lemma TellsCard(c: State, e0: State, reader: Option<Published>)
    requires Sane(reader) && LookOf(reader) != Nothing
    ensures var e := EventOf(c, e0, reader); var look := LookOf(reader);
      (Empty in e.flags <==> look == Vacant) && (Present in e.flags <==> HasCard(look)) && (Mute in e.flags <==> look == Silent)
  {
  }

  /** Exclusive use shows, and a use that has been exclusive still shows without a card when it is shared. */
  predicate ShowsExclusive(e0: State, reader: Option<Published>) {
    reader.Some? && (reader.value.sharing == -1
      || (reader.value.sharing >= 1 && (LookOf(reader) == Vacant || LookOf(reader) == Nothing) && Exclusive in e0.flags))
  }

  predicate ShowsInUse(reader: Option<Published>) {
    reader.Some? && reader.value.sharing >= 1 && HasCard(LookOf(reader))
  }

  lemma TellsExclusive(c: State, e0: State, reader: Option<Published>)
    requires Sane(reader)
    ensures Exclusive in EventOf(c, e0, reader).flags <==> ShowsExclusive(e0, reader)
  {
  }

  lemma TellsInUse(c: State, e0: State, reader: Option<Published>)
    requires Sane(reader) && LookOf(reader) != Nothing
    ensures InUse in EventOf(c, e0, reader).flags <==> ShowsInUse(reader)
  {
  }

  /** The bits that no look sets: they stay from earlier rounds as far as the look does not clear them. */
  lemma TellsRest(c: State, e0: State, reader: Option<Published>, bit: nat)
    requires Sane(reader)
    ensures var f := EventOf(c, e0, reader).flags; var look := LookOf(reader);
      && (Ignore in f <==> look == Nothing && Ignore in e0.flags)
      && (AtrMatch in f <==> (look == Nothing || HasCard(look)) && AtrMatch in e0.flags)
      && (Other(bit) in f <==> look != Missing && look != InError && Other(bit) in e0.flags)
  {
    hide EventOf;
    KeepsIgnore(c, e0, reader);
    KeepsAtrMatch(c, e0, reader);
    KeepsOther(c, e0, reader, bit);
  }

  lemma KeepsIgnore(c: State, e0: State, reader: Option<Published>)
    requires Sane(reader)
    ensures Ignore in EventOf(c, e0, reader).flags <==> LookOf(reader) == Nothing && Ignore in e0.flags
  {
  }

  lemma KeepsAtrMatch(c: State, e0: State, reader: Option<Published>)
    requires Sane(reader)
    ensures AtrMatch in EventOf(c, e0, reader).flags
       <==> (LookOf(reader) == Nothing || HasCard(LookOf(reader))) && AtrMatch in e0.flags
  {
  }

  lemma KeepsOther(c: State, e0: State, reader: Option<Published>, bit: nat)
    requires Sane(reader)
    ensures Other(bit) in EventOf(c, e0, reader).flags
       <==> LookOf(reader) != Missing && LookOf(reader) != InError && Other(bit) in e0.flags
  {
  }

  /** Of a reader that has not been polled yet an event tells the counter and what was in it before. */
  lemma TellsNothing(c: State, e0: State, reader: Option<Published>)
    requires Sane(reader) && LookOf(reader) == Nothing
    ensures var e := EventOf(c, e0, reader);
      && (Unknown in e.flags <==> Unknown in e0.flags && Unknown !in c.flags)
      && (Unavailable in e.flags <==> Unavailable in e0.flags && Unavailable !in c.flags)
      && (Empty in e.flags <==> Empty in e0.flags) && (Present in e.flags <==> Present in e0.flags) && (Mute in e.flags <==> Mute in e0.flags)
      && (InUse in e.flags <==> reader.value.sharing >= 1 && InUse in e0.flags)
      && e.counter == reader.value.counter
  {
  }

  /** A stale bit: the use was exclusive in a first, silent round; then the card goes while the use is shared. */
  lemma StaleExclusive(counter: nat)
    ensures var c := State(0, {Present, Exclusive});
      var first := Some(Published({ReaderPresent}, -1, counter));
      var later := Some(Published({ReaderAbsent}, 1, counter));
      !Breaks(c, first) && Breaks(c, later) && Exclusive in EventAfter(c, [first, later]).flags
  {
    hide EventOf;
    var c := State(0, {Present, Exclusive});
    var first := Some(Published({ReaderPresent}, -1, counter));
    var later := Some(Published({ReaderAbsent}, 1, counter));
    assert [first, later][..1] == [first] && [first][..0] == [];
    OneMore(c, [first], later);
    assert [first] + [later] == [first, later];
    OneMore(c, [], first);
    assert [] + [first] == [first];
    TellsExclusive(c, UNAWARE, first);
    TellsExclusive(c, EventOf(c, UNAWARE, first), later);
  }

  // ---- the next call ----

  /** Stability: an event fed back as the current state, with the reader unchanged, does not break, except for a
      reader that has not been polled yet and an event that is empty or says of it what the earlier rounds
      left. */
  lemma Stable(c: State, e0: State, reader: Option<Published>)
    requires Sane(reader)
    ensures var e := EventOf(c, e0, reader);
      && (Breaks(e, reader) <==> ToldAgain(e, reader))
      && forall e1: State :: Changed !in e1.flags ==> (Changed in EventOf(e, e1, reader).flags <==> Breaks(e, reader))
  {
    hide EventOf;
    var e := EventOf(c, e0, reader);
    TellsExclusive(c, e0, reader);
    if LookOf(reader) == Nothing {
      TellsNothing(c, e0, reader);
    } else {
      Tells(c, e0, reader);
      TellsCard(c, e0, reader);
      TellsInUse(c, e0, reader);
    }
    forall e1: State | Changed !in e1.flags ensures Changed in EventOf(e, e1, reader).flags <==> Breaks(e, reader) {
      ChangedMeansBreak(e, e1, reader);
      if Breaks(e, reader) { BreakMeansChanged(e, e1, reader); }
    }
  }

  /** An event that is told again: it is of a reader that has not been polled yet, and is empty or says of it
      what earlier rounds left. */
  predicate ToldAgain(e: State, reader: Option<Published>) {
    LookOf(reader) == Nothing && (Unknown in e.flags || Unavailable in e.flags || e == UNAWARE)
  }

  /** So a call that starts from what the last one returned waits, however long, while the reader is as it was,
      or breaks at once where Stable says so. */
  lemma CallStable(c: State, looks: seq<Option<Published>>, again: seq<Option<Published>>)
    requires looks != [] && Sane(looks[|looks| - 1])
    requires forall k :: 0 <= k < |again| ==> again[k] == looks[|looks| - 1]
    ensures var e := EventAfter(c, looks);
      && (forall k :: 0 <= k < |again| ==> (Breaks(e, again[k]) <==> ToldAgain(e, again[k])))
      && (!ToldAgain(e, looks[|looks| - 1]) ==> Changed !in EventAfter(e, again).flags)
  {
    Stable(c, EventAfter(c, looks[..|looks| - 1]), looks[|looks| - 1]);
    if !ToldAgain(EventAfter(c, looks), looks[|looks| - 1]) { SilentRounds(EventAfter(c, looks), again); }
  }

  /** An event that is empty, and so not stable: an application that kept the change bit looks at a reader
      that has not been polled yet. */
  lemma EmptyEvent()
    ensures var unpolled := Some(Published({}, 0, 0)); var e := EventOf(State(0, {Changed}), UNAWARE, unpolled);
      e == UNAWARE && Breaks(e, unpolled) && EventOf(e, UNAWARE, unpolled) == State(0, {Changed})
  {
    var unpolled := Some(Published({}, 0, 0));
    assert EventOf(State(0, {Changed}), UNAWARE, unpolled).flags == {};
    assert EventOf(UNAWARE, UNAWARE, unpolled).flags == {Changed};
  }

  predicate LooksNew(before: Look, after: Look) {
    before != after && !(after == Nothing && (before == Vacant || HasCard(before)))
  }

  predicate CounterNew(before: Option<Published>, after: Option<Published>) {
    before.Some? && after.Some? && LookOf(before) != InError && before.value.counter != 0 && before.value.counter != after.value.counter
  }

  predicate SharingNew(e0: State, before: Option<Published>, after: Option<Published>) {
    after.Some? &&
    if after.value.sharing == -1 then ShowsInUse(before)
    else if after.value.sharing >= 1 then HasCard(LookOf(after)) && ShowsExclusive(e0, before)
    else ShowsInUse(before) || ShowsExclusive(e0, before)
  }

  /** What the event of a reader that had not been polled yet makes of the next look: the reader has gone, or a
      bit that an earlier round left, or the lack of one, is out of date. */
  predicate UnpolledNew(c: State, e0: State, before: Published, after: Option<Published>) {
    var gone := Unknown in e0.flags && Unknown !in c.flags;
    var failing := Unavailable in e0.flags && Unavailable !in c.flags;
    match after
    case None => !gone
    case Some(a) =>
      || gone || (before.counter != 0 && a.counter != before.counter)
      || (ReaderUnknown in a.flags <==> !failing)
      || (if LookOf(after) == Vacant then Present in e0.flags
          else HasCard(LookOf(after)) && (Empty in e0.flags || (LookOf(after) == Silent <==> Mute !in e0.flags)))
      || UnpolledSharingNew(e0, before, a)
      || EventOf(c, e0, Some(before)) == UNAWARE
  }

  predicate UnpolledSharingNew(e0: State, before: Published, a: Published) {
    var inUse := before.sharing >= 1 && InUse in e0.flags;
    if a.sharing == -1 then inUse
    else if a.sharing >= 1 then HasCard(LookOf(Some(a))) && ShowsExclusive(e0, Some(before))
    else inUse || ShowsExclusive(e0, Some(before))
  }

  /** Completeness, exactly: given the event of any pass as the current state, a pass breaks when the reader
      looks different, when its counter, published before and not 0, has moved, or when a use that showed
      has ended or changed its kind. Of a reader that had not been polled yet the event says less, and a
      change of presence may go untold. */
  lemma Complete(c: State, e0: State, before: Option<Published>, after: Option<Published>)
    requires Sane(before) && Sane(after)
    ensures Breaks(EventOf(c, e0, before), after) <==>
              if LookOf(before) == Nothing then UnpolledNew(c, e0, before.value, after)
              else LooksNew(LookOf(before), LookOf(after)) || CounterNew(before, after) || SharingNew(e0, before, after)
  {
    hide EventOf;
    TellsExclusive(c, e0, before);
    if LookOf(before) == Nothing {
      TellsNothing(c, e0, before);
    } else {
      Tells(c, e0, before);
      TellsCard(c, e0, before);
      TellsInUse(c, e0, before);
    }
  }

  /** And the event then says so, unless a reader in error wipes it out: one that was missing, or that had not
      been polled and is in error in the event already. */
  lemma CompleteChanged(c: State, e0: State, before: Option<Published>, after: Option<Published>, e1: State)
    requires Sane(before) && Sane(after) && Changed !in e1.flags
    ensures var e := EventOf(c, e0, before);
      Changed in EventOf(e, e1, after).flags <==>
        Breaks(e, after) &&
        !(LookOf(after) == InError &&
          (LookOf(before) == Missing || (LookOf(before) == Nothing && Unavailable in e.flags && !SharingMoved(e, after.value))))
  {
    hide EventOf;
    var e := EventOf(c, e0, before);
    Complete(c, e0, before, after);
    TellsExclusive(c, e0, before);
    if LookOf(before) != Nothing {
      Tells(c, e0, before);
      TellsCard(c, e0, before);
      TellsInUse(c, e0, before);
    }
    ChangedMeansBreak(e, e1, after);
    if Breaks(e, after) { BreakMeansChanged(e, e1, after); }
  }

  /** What an application that knows nothing is given for a reader that has a name but has not been polled yet
      leaves it blind: it is then told of an error, of a mute card and of the reader going, but not of a card
      that is there, comes or goes, whatever the counter. */
  lemma UnpolledBlind(p: Option<Published>)
    requires Sane(p)
    ensures var e := EventOf(UNAWARE, UNAWARE, Some(Published({}, 0, 0)));
      e == State(0, {Changed}) && (Breaks(e, p) <==> LookOf(p) == Missing || LookOf(p) == InError || LookOf(p) == Silent)
  {
    var e := EventOf(UNAWARE, UNAWARE, Some(Published({}, 0, 0)));
    assert e.flags == {Changed};
  }

  /** Changes of the sharing alone, with a card in the reader: the end of a use is told, and the change
      between shared and exclusive, but not the beginning of a use. */
  lemma SharingTold(c: State, e0: State, before: Published, after: Published)
    requires WellFormed(before) && after == before.(sharing := after.sharing) && after.sharing >= -1
    requires HasCard(LookOf(Some(before)))
    ensures Breaks(EventOf(c, e0, Some(before)), Some(after))
       <==> before.sharing != 0 && (after.sharing == 0 || (before.sharing == -1) != (after.sharing == -1))
  {
    Complete(c, e0, Some(before), Some(after));
  }
}
