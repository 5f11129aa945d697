/** What the bytes of an answer to reset say, without the groups of AtrHandler: where its TDi stand, which
    protocols they name, and exactly which bytes ATRDecodeAtr accepts. */
module AtrBytes {
  import opened Wrappers
  import opened AtrHandler

  /** b announces one of the bytes TAi, TBi, TCi, TDi: the mask is 0x10, 0x20, 0x40 or 0x80. */
  function One(b: bv8, mask: bv8): nat {
    if b & mask != 0 then 1 else 0
  }

  /** Where TD of the bytes stands that b announces and that begin at p, and where they end. */
  function TdPosition(p: nat, b: bv8): nat {
    p + One(b, 0x10) + One(b, 0x20) + One(b, 0x40)
  }

  function EndPosition(p: nat, b: bv8): nat {
    TdPosition(p, b) + One(b, 0x80)
  }

  /** The position of TDi when the bytes that b announces begin at p and i counts from there. It is None when the
      chain has no such byte. Nothing is read past a group that ends beyond MAX_ATR_SIZE. */
  function TdFrom(atr: seq<bv8>, p: nat, b: bv8, i: nat): Option<nat>
    requires MAX_ATR_SIZE + 4 <= |atr| && p <= MAX_ATR_SIZE
    decreases i
  {
    var q := TdPosition(p, b);
    if i == 0 || b & 0x80 == 0 then None
    else if i == 1 then Some(q)
    else if q >= MAX_ATR_SIZE then None
    else TdFrom(atr, q + 1, atr[q], i - 1)
  }

  lemma {:induction false} TdInside(atr: seq<bv8>, p: nat, b: bv8, i: nat)
    requires MAX_ATR_SIZE + 4 <= |atr| && p <= MAX_ATR_SIZE && TdFrom(atr, p, b, i).Some?
    ensures i >= 1 && TdFrom(atr, p, b, i).value <= MAX_ATR_SIZE + 3
    decreases i
  {
    if i > 1 {
      var q := TdPosition(p, b);
      TdInside(atr, q + 1, atr[q], i - 1);
    }
  }

  /** TDi, the T0 byte at position 1 announcing the first bytes. */
  function Td(atr: seq<bv8>, i: nat): (td: Option<bv8>)
    requires MAX_ATR_SIZE + 4 <= |atr|
  {
    var q := TdFrom(atr, 2, atr[1], i);
    if q.None? then None else (TdInside(atr, 2, atr[1], i); Some(atr[q.value]))
  }

  /** TA2, which follows TD1 at once. */
  function Ta2(atr: seq<bv8>): (ta: Option<bv8>)
    requires MAX_ATR_SIZE + 4 <= |atr|
  {
    var q := TdFrom(atr, 2, atr[1], 1);
    if q.Some? && q.value < MAX_ATR_SIZE && atr[q.value] & 0x10 != 0 then Some(atr[q.value + 1]) else None
  }

  /** Some TDi from the n-th on has this low half. */
  ghost predicate Names(atr: seq<bv8>, n: nat, low: bv8)
    requires MAX_ATR_SIZE + 4 <= |atr|
  {
    exists i: nat :: i >= n && NamedAt(atr, i, low)
  }

  predicate NamedAt(atr: seq<bv8>, i: nat, low: bv8)
    requires MAX_ATR_SIZE + 4 <= |atr|
  {
    Td(atr, i).Some? && Td(atr, i).value & 0x0F == low
  }

  /** The bytes that TDi announces end in time. */
  predicate EndsInside(atr: seq<bv8>, p: nat, b: bv8, i: nat)
    requires MAX_ATR_SIZE + 4 <= |atr| && p <= MAX_ATR_SIZE
  {
    var q := TdFrom(atr, p, b, i);
    q.Some? ==> (TdInside(atr, p, b, i); EndPosition(q.value + 1, atr[q.value]) <= MAX_ATR_SIZE)
  }

  ghost predicate AllInside(atr: seq<bv8>, p: nat, b: bv8)
    requires MAX_ATR_SIZE + 4 <= |atr| && p <= MAX_ATR_SIZE
  {
    forall i: nat :: EndsInside(atr, p, b, i)
  }

  // ---- the groups are these bytes ----

  lemma Halves(b: bv8)
    ensures Bit(High(b), 1) == One(b, 0x10) && Bit(High(b), 2) == One(b, 0x20)
    ensures Bit(High(b), 4) == One(b, 0x40) && Bit(High(b), 8) == One(b, 0x80)
    ensures (High(b) & 8 != 0) == (b & 0x80 != 0) && (High(b) & 1 != 0) == (b & 0x10 != 0)
    ensures High(b) == 0 ==> b & 0x80 == 0 && b & 0x10 == 0
  {
  }

  lemma GroupTd(atr: seq<bv8>, p: nat, b: bv8)
    requires MAX_ATR_SIZE + 4 <= |atr| && p <= MAX_ATR_SIZE
    ensures var g := GroupAt(atr, p, High(b)); var q := TdPosition(p, b);
      && g.td == (if b & 0x80 != 0 then Some(atr[q]) else None) && g.ta == (if b & 0x10 != 0 then Some(atr[p]) else None)
      && p + Width(High(b)) == EndPosition(p, b)
      && NextIndicator(g) == if b & 0x80 != 0 then High(atr[q]) else 0
  {
    Halves(b);
  }

  /** The chain goes on with what TD announces, or ends. */
  lemma ChainGoesOn(atr: seq<bv8>, p: nat, b: bv8)
    requires MAX_ATR_SIZE + 4 <= |atr| && p <= MAX_ATR_SIZE
    ensures var c := ChainFrom(atr, p, High(b)); var q := TdPosition(p, b);
      && c.groups[0] == GroupAt(atr, p, High(b))
      && if b & 0x80 != 0 && q < MAX_ATR_SIZE && High(atr[q]) != 0
         then c.groups[1..] == ChainFrom(atr, q + 1, High(atr[q])).groups && c.complete == ChainFrom(atr, q + 1, High(atr[q])).complete
         else |c.groups| == 1 && c.complete == (EndPosition(p, b) <= MAX_ATR_SIZE)
  {
    GroupTd(atr, p, b);
    hide GroupAt, Width, NextIndicator, High;
  }

  lemma Silent(atr: seq<bv8>, p: nat, b: bv8, i: nat)
    requires MAX_ATR_SIZE + 4 <= |atr| && p <= MAX_ATR_SIZE && High(b) == 0
    ensures TdFrom(atr, p, b, i).None? && EndPosition(p, b) == p && b & 0x10 == 0
  {
    Halves(b);
  }

  lemma {:induction false} ChainTd(atr: seq<bv8>, p: nat, b: bv8, i: nat)
    requires MAX_ATR_SIZE + 4 <= |atr| && p <= MAX_ATR_SIZE && i >= 1
    ensures var gs := ChainFrom(atr, p, High(b)).groups; var q := TdFrom(atr, p, b, i);
      && (q.Some? <==> i <= |gs| && gs[i - 1].td.Some?)
      && (q.Some? ==> q.value < |atr| && gs[i - 1].td == Some(atr[q.value]))
    decreases i
  {
    hide GroupAt, Width, NextIndicator, High, ChainFrom, EndPosition;
    var q := TdPosition(p, b);
    GroupTd(atr, p, b);
    ChainGoesOn(atr, p, b);
    if i > 1 && b & 0x80 != 0 && q < MAX_ATR_SIZE {
      if High(atr[q]) == 0 { Silent(atr, q + 1, atr[q], i - 1); } else { ChainTd(atr, q + 1, atr[q], i - 1); }
    }
  }

  /** What TD announces is inside, and so is everything after it. */
  lemma InsideGoesOn(atr: seq<bv8>, p: nat, b: bv8, q: nat)
    requires MAX_ATR_SIZE + 4 <= |atr| && p <= MAX_ATR_SIZE && b & 0x80 != 0 && q == TdPosition(p, b) < MAX_ATR_SIZE
    ensures AllInside(atr, p, b) <==> EndPosition(q + 1, atr[q]) <= MAX_ATR_SIZE && AllInside(atr, q + 1, atr[q])
  {
    hide EndPosition;
    var p1, b1 := q + 1, atr[q];
    assert TdFrom(atr, p, b, 1) == Some(q);
    if AllInside(atr, p, b) {
      assert EndsInside(atr, p, b, 1);
      forall i: nat ensures EndsInside(atr, p1, b1, i) {
        if i >= 1 { assert EndsInside(atr, p, b, i + 1); }
      }
    } else {
      var i: nat :| !EndsInside(atr, p, b, i);
      if i > 1 { assert !EndsInside(atr, q + 1, atr[q], i - 1); }
    }
  }

  lemma {:induction false} ChainEnds(atr: seq<bv8>, p: nat, b: bv8)
    requires MAX_ATR_SIZE + 4 <= |atr| && p <= MAX_ATR_SIZE
    ensures ChainFrom(atr, p, High(b)).complete <==> EndPosition(p, b) <= MAX_ATR_SIZE && AllInside(atr, p, b)
    decreases MAX_ATR_SIZE - p
  {
    hide GroupAt, Width, NextIndicator, High, ChainFrom, EndsInside;
    var q := TdPosition(p, b);
    ChainGoesOn(atr, p, b);
    if b & 0x80 == 0 {
      NothingAnnounced(atr, p, b);
    } else if q < MAX_ATR_SIZE {
      InsideGoesOn(atr, p, b, q);
      if High(atr[q]) == 0 {
        Halves(atr[q]);
        NothingAnnounced(atr, q + 1, atr[q]);
      } else {
        ChainEnds(atr, q + 1, atr[q]);
      }
    }
  }

  lemma NothingAnnounced(atr: seq<bv8>, p: nat, b: bv8)
    requires MAX_ATR_SIZE + 4 <= |atr| && p <= MAX_ATR_SIZE && b & 0x80 == 0
    ensures AllInside(atr, p, b)
  {
  }

  // ---- what ATRDecodeAtr makes of them ----

  lemma GroupsOfBytes(atr: seq<bv8>, gs: seq<Group>)
    requires MAX_ATR_SIZE + 4 <= |atr| && gs == ChainFrom(atr, 2, High(atr[1])).groups
    ensures forall i :: i >= 1 ==> Td(atr, i) == if i <= |gs| then gs[i - 1].td else None
    ensures Ta2(atr) == if |gs| >= 2 then gs[1].ta else None
  {
    hide TdFrom;
    forall i | i >= 1 ensures Td(atr, i) == if i <= |gs| then gs[i - 1].td else None {
      ChainTd(atr, 2, atr[1], i);
    }
    SecondTa(atr, gs);
  }

  lemma SecondTa(atr: seq<bv8>, gs: seq<Group>)
    requires MAX_ATR_SIZE + 4 <= |atr| && gs == ChainFrom(atr, 2, High(atr[1])).groups
    ensures Ta2(atr) == if |gs| >= 2 then gs[1].ta else None
  {
    hide GroupAt, Width, NextIndicator, High, ChainFrom;
    ChainGoesOn(atr, 2, atr[1]);
    var q := TdPosition(2, atr[1]);
    if atr[1] & 0x80 != 0 && q < MAX_ATR_SIZE {
      Halves(atr[q]);
      GroupTd(atr, q + 1, atr[q]);
      ChainGoesOn(atr, q + 1, atr[q]);
    }
  }

  lemma ConclusionVerdict(c: Chain)
    ensures Conclusion(c).verdict == if BadFirst(c.groups) then BadFirstProtocol
                                     else if BadSpecific(c.groups) then BadSpecificProtocol
                                     else if !c.complete then TooLong else Accepted
  {
  }

  lemma BadBytes(atr: seq<bv8>, gs: seq<Group>)
    requires MAX_ATR_SIZE + 4 <= |atr| && gs == ChainFrom(atr, 2, High(atr[1])).groups
    ensures BadFirst(gs) <==> Unusable(Td(atr, 1))
    ensures BadSpecific(gs) <==> Unusable(Ta2(atr))
  {
    hide ChainFrom, High, Td, Ta2;
    GroupsOfBytes(atr, gs);
  }

  predicate Unusable(b: Option<bv8>) {
    b.Some? && b.value & 0x0F > 1
  }

  /** Exactly which answers to reset are accepted, and why the others are refused. */
  lemma VerdictOfBytes(atr: seq<bv8>, length: nat)
    requires MAX_ATR_SIZE + 4 <= |atr|
    ensures var v := Meaning(atr, length).verdict; var starts := length >= 2 && (atr[0] == 0x3B || atr[0] == 0x3F);
      && (v == TooShort <==> length < 2)
      && (v == BadInitial <==> length >= 2 && !starts)
      && (v == BadFirstProtocol <==> starts && Unusable(Td(atr, 1)))
      && (v == BadSpecificProtocol <==> starts && !Unusable(Td(atr, 1)) && Unusable(Ta2(atr)))
      && (v == Accepted <==> starts && !Unusable(Td(atr, 1)) && !Unusable(Ta2(atr)) && AllInside(atr, 2, atr[1]))
  {
    hide ChainFrom, High, Td, Ta2, AllInside, Conclusion, BadFirst, BadSpecific;
    var c := ChainFrom(atr, 2, High(atr[1]));
    ChainEnds(atr, 2, atr[1]);
    BadBytes(atr, c.groups);
    ConclusionVerdict(c);
  }

  predicate Finished(v: Verdict) {
    v == Accepted || v == TooLong
  }

  /** The protocol the card runs: what TA2 names, else what TD1 names, else T=0 if the answer is accepted. */
  lemma CurrentOfBytes(atr: seq<bv8>, length: nat)
    requires MAX_ATR_SIZE + 4 <= |atr| && Finished(Meaning(atr, length).verdict)
    ensures var named := if Ta2(atr).Some? then Ta2(atr) else Td(atr, 1); var d := Meaning(atr, length);
      && (d.current == Some(T0) <==> if named.Some? then named.value & 0x0F == 0 else d.verdict == Accepted)
      && (d.current == Some(T1) <==> named.Some? && named.value & 0x0F == 1)
  {
    hide ChainFrom, High, Td, Ta2;
    GroupsOfBytes(atr, ChainFrom(atr, 2, High(atr[1])).groups);
  }

  /** The protocols it offers: those some TDi names, T=0 when there is no TD1 and the answer is accepted; or, when
      there is a TA2, the one it names and those some TDi from TD3 on names. */
  lemma AvailableOfBytes(atr: seq<bv8>, length: nat)
    requires MAX_ATR_SIZE + 4 <= |atr| && Finished(Meaning(atr, length).verdict)
    ensures var d := Meaning(atr, length); var ta := Ta2(atr);
      if ta.Some? then
        && (T0 in d.available <==> ta.value & 0x0F == 0 || Names(atr, 3, 0))
        && (T1 in d.available <==> ta.value & 0x0F == 1 || Names(atr, 3, 1))
        && (T15 in d.available <==> Names(atr, 3, 15))
      else
        && (T0 in d.available <==> (Td(atr, 1).None? && d.verdict == Accepted) || Names(atr, 1, 0))
        && (T1 in d.available <==> Names(atr, 1, 1))
        && (T15 in d.available <==> Names(atr, 1, 15))
  {
    hide ChainFrom, High, Td, Ta2, Announced, Names;
    var gs := ChainFrom(atr, 2, High(atr[1])).groups;
    GroupsOfBytes(atr, gs);
    assert gs[0..] == gs;
    AnnouncedNames(atr, gs, 0);
    if |gs| >= 2 { AnnouncedNames(atr, gs, 2); }
  }

  lemma AnnouncedNames(atr: seq<bv8>, gs: seq<Group>, n: nat)
    requires MAX_ATR_SIZE + 4 <= |atr| && n <= |gs|
    requires forall i :: i >= 1 ==> Td(atr, i) == if i <= |gs| then gs[i - 1].td else None
    ensures T0 in Announced(gs[n..]) <==> Names(atr, n + 1, 0)
    ensures T1 in Announced(gs[n..]) <==> Names(atr, n + 1, 1)
    ensures T15 in Announced(gs[n..]) <==> Names(atr, n + 1, 15)
  {
    NamesOne(atr, gs, n, T0, 0);
    NamesOne(atr, gs, n, T1, 1);
    NamesOne(atr, gs, n, T15, 15);
  }

  lemma NamesOne(atr: seq<bv8>, gs: seq<Group>, n: nat, t: Protocol, low: bv8)
    requires MAX_ATR_SIZE + 4 <= |atr| && n <= |gs|
    requires forall i :: i >= 1 ==> Td(atr, i) == if i <= |gs| then gs[i - 1].td else None
    requires low < 16 && forall x: bv8 :: ProtocolOf(x) == Some(t) <==> x == low
    ensures t in Announced(gs[n..]) <==> Names(atr, n + 1, low)
  {
    hide Td, ProtocolOf;
    var hs := gs[n..];
    if t in Announced(hs) {
      var k :| 0 <= k < |hs| && hs[k].td.Some? && ProtocolOf(Low(hs[k].td.value)) == Some(t);
      assert hs[k] == gs[n + k];
      assert NamedAt(atr, n + k + 1, low);
    }
    if Names(atr, n + 1, low) {
      var i: nat :| i >= n + 1 && NamedAt(atr, i, low);
      assert hs[i - 1 - n] == gs[i - 1];
      assert ProtocolOf(Low(hs[i - 1 - n].td.value)) == Some(t);
    }
  }
}
