/** ATRDecodeAtr of src/atrhandler.c: the interface bytes of an answer to reset
    (section 8.2.3 of ISO/IEC 7816-3:2006) and the protocols they announce. */
module AtrHandler {
  import opened Wrappers

  const MAX_ATR_SIZE := 33

  /** SCARD_PROTOCOL_T0, SCARD_PROTOCOL_T1 and SCARD_PROTOCOL_T15; a bit mask of them is a set. */
  datatype Protocol = T0 | T1 | T15

  /** The return values 0, -1, ..., -5. */
  datatype Verdict = Accepted | TooShort | BadInitial | BadFirstProtocol | BadSpecificProtocol | TooLong

  datatype Decoded = Decoded(verdict: Verdict, current: Option<Protocol>, available: set<Protocol>)

  /** The interface bytes TAi, TBi, TCi and TDi that one indicator announces. */
  datatype Group = Group(ta: Option<bv8>, tb: Option<bv8>, tc: Option<bv8>, td: Option<bv8>)

  /** groups ends where the chain ends, or with the first group that reaches past MAX_ATR_SIZE. */
  datatype Chain = Chain(groups: seq<Group>, complete: bool)

  function High(b: bv8): bv8 { b >> 4 }

  function Low(b: bv8): bv8 { b & 0x0F }

  function Bit(y: bv8, mask: bv8): nat {
    if y & mask != 0 then 1 else 0
  }

  /** Number of interface bytes the indicator y announces. */
  function Width(y: bv8): nat {
    Bit(y, 1) + Bit(y, 2) + Bit(y, 4) + Bit(y, 8)
  }

  function GroupAt(atr: seq<bv8>, p: nat, y: bv8): Group
    requires p + 4 <= |atr|
  {
    var b := p + Bit(y, 1);
    var c := b + Bit(y, 2);
    var d := c + Bit(y, 4);
    Group(if y & 1 != 0 then Some(atr[p]) else None,
          if y & 2 != 0 then Some(atr[b]) else None,
          if y & 4 != 0 then Some(atr[c]) else None,
          if y & 8 != 0 then Some(atr[d]) else None)
  }

  /** The indicator of the group after g; 0 when there is none. */
  function NextIndicator(g: Group): bv8 {
    if g.td.Some? then High(g.td.value) else 0
  }

  /** The chain of groups from position p on: each TDi announces the next group. */
  function ChainFrom(atr: seq<bv8>, p: nat, y: bv8): (r: Chain)
    requires MAX_ATR_SIZE + 4 <= |atr| && p <= MAX_ATR_SIZE
    ensures |r.groups| > 0
    decreases MAX_ATR_SIZE - p
  {
    var g := GroupAt(atr, p, y);
    var q := p + Width(y);
    if q > MAX_ATR_SIZE then Chain([g], false)
    else if NextIndicator(g) == 0 then Chain([g], true)
    else
      assert y & 8 != 0;
      var rest := ChainFrom(atr, q, NextIndicator(g));
      Chain([g] + rest.groups, rest.complete)
  }

  function ProtocolOf(t: bv8): Option<Protocol> {
    if t == 0 then Some(T0) else if t == 1 then Some(T1) else if t == 15 then Some(T15) else None
  }

  /** The protocols the TDi of some groups announce. */
  function Announced(gs: seq<Group>): set<Protocol> {
    set k | 0 <= k < |gs| && gs[k].td.Some? && ProtocolOf(Low(gs[k].td.value)).Some?
      :: ProtocolOf(Low(gs[k].td.value)).value
  }

  /** TA2 selects the specific mode. */
  predicate Specific(gs: seq<Group>) {
    |gs| >= 2 && gs[1].ta.Some?
  }

  predicate BadFirst(gs: seq<Group>) {
    |gs| >= 1 && gs[0].td.Some? && Low(gs[0].td.value) > 1
  }

  predicate BadSpecific(gs: seq<Group>) {
    Specific(gs) && Low(gs[1].ta.value) > 1
  }

  /** The protocol TA2 imposes, else the one TD1 names, else none. */
  function Selected(gs: seq<Group>): Option<Protocol> {
    if Specific(gs) then ProtocolOf(Low(gs[1].ta.value))
    else if |gs| >= 1 && gs[0].td.Some? then ProtocolOf(Low(gs[0].td.value))
    else None
  }

  /** What TA2 imposes and later TDi add, or what all TDi announce. */
  function Offered(gs: seq<Group>): set<Protocol> {
    if Specific(gs) then
      (if ProtocolOf(Low(gs[1].ta.value)).Some? then {ProtocolOf(Low(gs[1].ta.value)).value} else {})
      + Announced(gs[2..])
    else Announced(gs)
  }

  function Conclusion(c: Chain): Decoded {
    var gs := c.groups;
    if BadFirst(gs) then Decoded(BadFirstProtocol, None, {})
    else if BadSpecific(gs) then Decoded(BadSpecificProtocol, Selected(gs[..1]), Announced(gs[..2]))
    else if !c.complete then Decoded(TooLong, Selected(gs), Offered(gs))
    else if Selected(gs) == None then Decoded(Accepted, Some(T0), Offered(gs) + {T0})
    else Decoded(Accepted, Selected(gs), Offered(gs))
  }

  /** The meaning of an ATR. Callers read current and available whatever the verdict is. */
  function Meaning(atr: seq<bv8>, length: nat): Decoded
    requires MAX_ATR_SIZE + 4 <= |atr|
  {
    if length < 2 then Decoded(TooShort, None, {})
    else if atr[0] != 0x3F && atr[0] != 0x3B then Decoded(BadInitial, None, {})
    else
      Conclusion(ChainFrom(atr, 2, High(atr[1])))
  }

  /** An accepted ATR runs T=0 or T=1, and that protocol is among those it offers. */
  lemma AcceptedCurrentIsOffered(atr: seq<bv8>, length: nat)
    requires MAX_ATR_SIZE + 4 <= |atr|
    requires Meaning(atr, length).verdict == Accepted
    ensures var d := Meaning(atr, length);
      d.current.Some? && (d.current.value == T0 || d.current.value == T1) && d.current.value in d.available
  {
    var gs := ChainFrom(atr, 2, High(atr[1])).groups;
    if !Specific(gs) && gs[0].td.Some? {
      assert ProtocolOf(Low(gs[0].td.value)).value in Announced(gs);
    }
  }

  /** The protocol one TDi adds to the mask. */
  function Adds(g: Group): set<Protocol> {
    if g.td.Some? && ProtocolOf(Low(g.td.value)).Some? then {ProtocolOf(Low(g.td.value)).value} else {}
  }

  lemma AnnouncedSnoc(gs: seq<Group>, g: Group)
    ensures Announced(gs + [g]) == Announced(gs) + Adds(g)
  {
    var hs := gs + [g];
    forall x | x in Announced(gs) ensures x in Announced(hs) {
      var k :| 0 <= k < |gs| && gs[k].td.Some? && ProtocolOf(Low(gs[k].td.value)) == Some(x);
      assert hs[k] == gs[k];
    }
    assert hs[|gs|] == g;
  }

  /** What one more group does to the outcome so far. */
  lemma OfferedSnoc(gs: seq<Group>, g: Group)
    requires !BadFirst(gs) && !BadSpecific(gs)
    ensures |gs| == 1 && g.ta.Some? ==>
              Offered(gs + [g]) == if ProtocolOf(Low(g.ta.value)).Some? then {ProtocolOf(Low(g.ta.value)).value} else {}
    ensures !(|gs| == 1 && g.ta.Some?) ==> Offered(gs + [g]) == Offered(gs) + Adds(g)
    ensures |gs| >= 1 && !(|gs| == 1 && g.ta.Some?) ==> Selected(gs + [g]) == Selected(gs)
  {
    AnnouncedSnoc(gs, g);
    if |gs| >= 2 {
      AnnouncedSnoc(gs[2..], g);
      assert (gs + [g])[2..] == gs[2..] + [g];
    }
  }

  /** Reads the interface bytes y announces, one by one. */
  method ReadGroup(atr: seq<bv8>, p0: nat, y: bv8) returns (p: nat, ta: Option<bv8>, td: Option<bv8>)
    requires p0 + 4 <= |atr|
    ensures p == p0 + Width(y) && ta == GroupAt(atr, p0, y).ta && td == GroupAt(atr, p0, y).td
  {
    p, ta, td := p0, None, None;
    if y & 0x01 != 0 { ta, p := Some(atr[p]), p + 1; }
    if y & 0x02 != 0 { p := p + 1; }
    if y & 0x04 != 0 { p := p + 1; }
    if y & 0x08 != 0 { td, p := Some(atr[p]), p + 1; }
  }

  /** The body of the loop after the bytes are read: false when the ATR is refused. */
  method TakeGroup(ghost gs: seq<Group>, ghost g: Group, i: nat, ta: Option<bv8>, td: Option<bv8>,
                   current0: Option<Protocol>, available0: set<Protocol>)
    returns (verdict: Verdict, current: Option<Protocol>, available: set<Protocol>)
    requires i == |gs| + 1 && ta == g.ta && td == g.td && (|gs| >= 1 ==> gs[0].td.Some?)
    requires !BadFirst(gs) && !BadSpecific(gs) && current0 == Selected(gs) && available0 == Offered(gs)
    ensures verdict == (if BadFirst(gs + [g]) then BadFirstProtocol
                        else if BadSpecific(gs + [g]) then BadSpecificProtocol else Accepted)
    ensures verdict == Accepted ==> current == Selected(gs + [g]) && available == Offered(gs + [g])
    ensures verdict == BadFirstProtocol ==> current == None && available == {}
    ensures verdict == BadSpecificProtocol ==> current == Selected((gs + [g])[..1]) && available == Announced((gs + [g])[..2])
  {
    OfferedSnoc(gs, g);
    AnnouncedSnoc(gs, g);
    assert |gs| == 1 ==> (gs + [g])[..1] == gs && (gs + [g])[..2] == gs + [g];
    current, available := current0, available0;
    if td.Some? {
      var t := Low(td.value);
      if current == None {
        if t == 0 { current := Some(T0); }
        else if t == 1 { current := Some(T1); }
        else { return BadFirstProtocol, current, available; }
      }
      if t == 0 { available := available + {T0}; }
      else if t == 1 { available := available + {T1}; }
      else if t == 15 { available := available + {T15}; }
    }
    if i == 2 && ta.Some? {
      var t := Low(ta.value);
      if t == 0 { current, available := Some(T0), {T0}; }
      else if t == 1 { current, available := Some(T1), {T1}; }
      else { return BadSpecificProtocol, current, available; }
    }
    return Accepted, current, available;
  }

  lemma ChainStarts(atr: seq<bv8>, p: nat, y: bv8, gs: seq<Group>)
    requires MAX_ATR_SIZE + 4 <= |atr| && p <= MAX_ATR_SIZE
    ensures var g := GroupAt(atr, p, y);
      var q := p + Width(y);
      var all := gs + ChainFrom(atr, p, y).groups;
      && gs + [g] <= all
      && (q > MAX_ATR_SIZE ==> all == gs + [g] && !ChainFrom(atr, p, y).complete)
      && (q <= MAX_ATR_SIZE && NextIndicator(g) == 0 ==> all == gs + [g] && ChainFrom(atr, p, y).complete)
      && (q <= MAX_ATR_SIZE && NextIndicator(g) != 0 ==>
            p < q && all == gs + [g] + ChainFrom(atr, q, NextIndicator(g)).groups
            && ChainFrom(atr, p, y).complete == ChainFrom(atr, q, NextIndicator(g)).complete)
  {
    var g := GroupAt(atr, p, y);
    if p + Width(y) <= MAX_ATR_SIZE && NextIndicator(g) != 0 {
      var rest := ChainFrom(atr, p + Width(y), NextIndicator(g)).groups;
      assert gs + ([g] + rest) == gs + [g] + rest;
    }
  }

  /** A refusal of the first or of the specific protocol is decided by the groups read so far. */
  lemma RefusedByPrefix(gs: seq<Group>, all: seq<Group>)
    requires gs <= all
    ensures BadFirst(gs) ==> BadFirst(all)
    ensures BadSpecific(gs) ==> BadSpecific(all) && gs[..1] == all[..1] && gs[..2] == all[..2]
    ensures |gs| >= 1 ==> BadFirst(gs) == BadFirst(all)
  {
  }

  /** One iteration of the loop over the interface bytes; final when the ATR is refused in it. */
  method DecodeGroup(atr: seq<bv8>, p0: nat, y0: bv8, i: nat, current0: Option<Protocol>, available0: set<Protocol>,
                     ghost gs: seq<Group>, ghost whole: Chain)
    returns (p: nat, y: bv8, d: Decoded)
    requires MAX_ATR_SIZE + 4 <= |atr| && p0 <= MAX_ATR_SIZE && i == |gs| + 1
    requires whole.groups == gs + ChainFrom(atr, p0, y0).groups && whole.complete == ChainFrom(atr, p0, y0).complete
    requires !BadFirst(gs) && !BadSpecific(gs) && current0 == Selected(gs) && available0 == Offered(gs)
    requires |gs| >= 1 ==> gs[0].td.Some?
    ensures d.verdict != Accepted ==> d == Conclusion(whole)
    ensures d.verdict == Accepted ==> p <= MAX_ATR_SIZE
    ensures var hs := gs + [GroupAt(atr, p0, y0)];
      d.verdict == Accepted ==>
        && !BadFirst(hs) && !BadSpecific(hs) && d.current == Selected(hs) && d.available == Offered(hs)
        && (y != 0 ==> p0 < p && hs[0].td.Some? && whole.groups == hs + ChainFrom(atr, p, y).groups
                       && whole.complete == ChainFrom(atr, p, y).complete)
        && (y == 0 ==> whole == Chain(hs, true))
  {
    hide ChainFrom, Announced;
    ghost var g := GroupAt(atr, p0, y0);
    ChainStarts(atr, p0, y0, gs);
    RefusedByPrefix(gs + [g], whole.groups);
    var ta, td;
    p, ta, td := ReadGroup(atr, p0, y0);
    var verdict, current, available := TakeGroup(gs, g, i, ta, td, current0, available0);
    y := if td.Some? then High(td.value) else 0;
    if verdict == Accepted && p > MAX_ATR_SIZE { verdict := TooLong; }
    d := Decoded(verdict, current, available);
  }

  method DecodeAtr(atr: seq<bv8>, length: nat) returns (d: Decoded)
    requires MAX_ATR_SIZE + 4 <= |atr|
    ensures d == Meaning(atr, length)
  {
    if length < 2 { return Decoded(TooShort, None, {}); }
    if atr[0] != 0x3F && atr[0] != 0x3B { return Decoded(BadInitial, None, {}); }
    var y := High(atr[1]);
    var p, i := 2, 1;
    ghost var whole := ChainFrom(atr, 2, y);
    ghost var gs: seq<Group> := [];
    var more := true;
    d := Decoded(Accepted, None, {});
    while more
      invariant i == |gs| + 1 && 0 <= p <= MAX_ATR_SIZE
      invariant more ==> whole.groups == gs + ChainFrom(atr, p, y).groups && whole.complete == ChainFrom(atr, p, y).complete
      invariant !more ==> whole == Chain(gs, true)
      invariant !BadFirst(gs) && !BadSpecific(gs) && d == Decoded(Accepted, Selected(gs), Offered(gs))
      invariant |gs| >= 1 && more ==> gs[0].td.Some?
      decreases more, MAX_ATR_SIZE - p
    {
      ghost var g := GroupAt(atr, p, y);
      p, y, d := DecodeGroup(atr, p, y, i, d.current, d.available, gs, whole);
      if d.verdict != Accepted { return; }
      gs := gs + [g];
      i := i + 1;
      more := y != 0;
    }
    if d.current == None {
      d := Decoded(Accepted, Some(T0), d.available + {T0});
    }
  }

  /** The indicator that announces exactly the bytes of g. */
  function Indicator(g: Group): bv8 {
    (if g.ta.Some? then 1 else 0) | (if g.tb.Some? then 2 else 0) | (if g.tc.Some? then 4 else 0) | (if g.td.Some? then 8 else 0)
  }

  function Byte(b: Option<bv8>): seq<bv8> {
    if b.Some? then [b.value] else []
  }

  function GroupBytes(g: Group): seq<bv8> {
    Byte(g.ta) + Byte(g.tb) + Byte(g.tc) + Byte(g.td)
  }

  function ChainBytes(gs: seq<Group>): seq<bv8> {
    if gs == [] then [] else GroupBytes(gs[0]) + ChainBytes(gs[1..])
  }

  /** Each TDi announces the group after it, and the last one announces nothing. */
  ghost predicate WellChained(gs: seq<Group>) {
    |gs| > 0 && if |gs| == 1 then NextIndicator(gs[0]) == 0
                else NextIndicator(gs[0]) == Indicator(gs[1]) != 0 && WellChained(gs[1..])
  }

  lemma GroupRoundTrip(atr: seq<bv8>, p: nat, g: Group)
    requires p + 4 <= |atr| && GroupBytes(g) <= atr[p..]
    ensures GroupAt(atr, p, Indicator(g)) == g && Width(Indicator(g)) == |GroupBytes(g)|
  {
    IndicatorBits(g);
    var b := |Byte(g.ta)|;
    var c := b + |Byte(g.tb)|;
    var d := c + |Byte(g.tc)|;
    assert g.ta.Some? ==> atr[p] == atr[p..][0] == GroupBytes(g)[0];
    assert g.tb.Some? ==> atr[p + b] == atr[p..][b] == GroupBytes(g)[b];
    assert g.tc.Some? ==> atr[p + c] == atr[p..][c] == GroupBytes(g)[c];
    assert g.td.Some? ==> atr[p + d] == atr[p..][d] == GroupBytes(g)[d];
  }

  lemma PrefixSplit(a: seq<bv8>, b: seq<bv8>, s: seq<bv8>)
    requires a + b <= s
    ensures a <= s && b <= s[|a|..]
  {
    assert (a + b)[|a|..] == b;
  }

  lemma IndicatorBits(g: Group)
    ensures (Indicator(g) & 1 != 0) == g.ta.Some? && (Indicator(g) & 2 != 0) == g.tb.Some?
    ensures (Indicator(g) & 4 != 0) == g.tc.Some? && (Indicator(g) & 8 != 0) == g.td.Some?
  {
  }

  lemma ChainStep(atr: seq<bv8>, p: nat, y: bv8, g: Group, q: nat)
    requires MAX_ATR_SIZE + 4 <= |atr| && p <= MAX_ATR_SIZE
    requires GroupAt(atr, p, y) == g && p + Width(y) == q <= MAX_ATR_SIZE
    ensures NextIndicator(g) == 0 ==> ChainFrom(atr, p, y) == Chain([g], true)
    ensures NextIndicator(g) != 0 ==>
              var rest := ChainFrom(atr, q, NextIndicator(g));
              ChainFrom(atr, p, y) == Chain([g] + rest.groups, rest.complete)
  {
  }

  lemma ChainConses(atr: seq<bv8>, p: nat, y: bv8, gs: seq<Group>, q: nat)
    requires MAX_ATR_SIZE + 4 <= |atr| && p <= MAX_ATR_SIZE && WellChained(gs)
    requires GroupAt(atr, p, y) == gs[0] && p + Width(y) == q <= MAX_ATR_SIZE
    requires |gs| > 1 ==> ChainFrom(atr, q, NextIndicator(gs[0])) == Chain(gs[1..], true)
    ensures ChainFrom(atr, p, y) == Chain(gs, true)
  {
    ChainStep(atr, p, y, gs[0], q);
    assert gs == [gs[0]] + gs[1..];
  }

  /** Reading back the bytes of a well-formed chain gives the chain: the recursive definition inverts
      the layout the standard prescribes. */
  lemma {:induction false} ChainRoundTrip(atr: seq<bv8>, p: nat, gs: seq<Group>)
    requires MAX_ATR_SIZE + 4 <= |atr| && WellChained(gs)
    requires p + |ChainBytes(gs)| <= MAX_ATR_SIZE && ChainBytes(gs) <= atr[p..]
    ensures ChainFrom(atr, p, Indicator(gs[0])) == Chain(gs, true)
    decreases gs
  {
    var n := |GroupBytes(gs[0])|;
    PrefixSplit(GroupBytes(gs[0]), ChainBytes(gs[1..]), atr[p..]);
    GroupRoundTrip(atr, p, gs[0]);
    if |gs| > 1 {
      assert atr[p..][n..] == atr[p + n..];
      ChainRoundTrip(atr, p + n, gs[1..]);
    }
    ChainConses(atr, p, Indicator(gs[0]), gs, p + n);
  }
}
