/** RFSetReaderName of src/readerfactory.c: readers of one driver are told apart by a digit printed into
    their names, read back from there, and turned into the slot number given to the driver. */
module ReaderNames {
  import opened Wrappers

  const MAX_READERNAME := 128
  const HP_BASE_PORT: bv32 := 0x200000

  /** A UCHAR. */
  type Byte = n: nat | n <= 255

  datatype Reader = Reader(live: bool, library: string, port: bv32, name: string, slot: nat)

  /** parent is None for -1. */
  datatype Naming = Named(parent: Option<nat>, name: string, slot: nat) | MaxReaders | TooManyChannels

  // ---- printf("%02X") and strtol(, 16) ----

  function HexChar(d: nat): char
    requires d < 16
  {
    if d < 10 then '0' + d as char else 'A' + (d - 10) as char
  }

  function HexValue(c: char): Option<nat> {
    if '0' <= c <= '9' then Some(c as nat - '0' as nat)
    else if 'A' <= c <= 'F' then Some(c as nat - 'A' as nat + 10)
    else if 'a' <= c <= 'f' then Some(c as nat - 'a' as nat + 10)
    else None
  }

  function HexDigits(d: nat): (s: string)
    ensures |s| >= 1
  {
    if d < 16 then [HexChar(d)] else HexDigits(d / 16) + [HexChar(d % 16)]
  }

  /** %02X */
  function Hex(d: nat): (s: string)
    ensures |s| >= 2
  {
    if d < 16 then "0" + HexDigits(d) else HexDigits(d)
  }

  /** strtol in base 16 on a string without sign: blanks are skipped, the first other character ends it. */
  function Strtol(s: string): nat {
    if s != [] && s[0] == ' ' then Strtol(s[1..]) else Accumulate(s, 0)
  }

  function Accumulate(s: string, acc: nat): nat {
    if s == [] || HexValue(s[0]) == None then acc else Accumulate(s[1..], 16 * acc + HexValue(s[0]).value)
  }

  /** The last five characters of a name hold its digit. */
  function Digit(name: string): nat {
    if |name| < 5 then 0 else Strtol(name[|name| - 5..])
  }

  function FullName(base: string, digit: nat, j: nat): string {
    base + " " + Hex(digit) + " " + Hex(j)
  }

  lemma HexCharValue(d: nat)
    requires d < 16
    ensures HexValue(HexChar(d)) == Some(d) && HexChar(d) != ' '
  {
  }

  lemma HexTwo(d: Byte)
    ensures Hex(d) == [HexChar(d / 16), HexChar(d % 16)]
  {
    if d >= 16 { assert HexDigits(d / 16) == [HexChar(d / 16)]; }
  }

  lemma Trailing(d: nat)
    ensures var s := Hex(d); s[|s| - 2..] == [HexChar((d / 16) % 16), HexChar(d % 16)]
  {
    if d < 16 {
      assert Hex(d) == [HexChar(0), HexChar(d)];
    } else {
      var t := HexDigits(d / 16);
      assert t[|t| - 1] == HexChar((d / 16) % 16);
      assert Hex(d)[|t| - 1..] == [t[|t| - 1], HexChar(d % 16)];
    }
  }

  lemma ReadTwo(a: nat, b: nat, rest: string)
    requires a < 16 && b < 16
    ensures Strtol([HexChar(a), HexChar(b)] + " " + rest) == 16 * a + b
  {
    HexCharValue(a);
    HexCharValue(b);
    var s := [HexChar(a), HexChar(b)] + " " + rest;
    assert s[1..] == [HexChar(b)] + " " + rest;
    assert s[1..][1..] == " " + rest;
    assert Accumulate(s, 0) == Accumulate(s[1..], a) == Accumulate(s[1..][1..], 16 * a + b);
  }

  lemma LastPart(a: string, s: string, b: string)
    requires |s| >= 2 && |b| == 3
    ensures var all := a + s + b; all[|all| - 5..] == s[|s| - 2..] + b
  {
  }

  /** What is read back of a digit: its last two hexadecimal places. */
  lemma DigitRead(base: string, digit: nat, j: Byte)
    ensures Digit(FullName(base, digit, j)) == digit % 256
  {
    var name := FullName(base, digit, j);
    HexTwo(j);
    Trailing(digit);
    hide Hex, Strtol;
    var s := Hex(digit);
    LastPart(base + " ", s, " " + Hex(j));
    assert name == base + " " + s + (" " + Hex(j));
    var two := [HexChar((digit / 16) % 16), HexChar(digit % 16)];
    assert two + (" " + Hex(j)) == two + " " + Hex(j);
    ReadTwo((digit / 16) % 16, digit % 16, Hex(j));
  }

  /** A digit is read back as it was printed exactly when it has two places. */
  lemma DigitRoundTrip(base: string, digit: nat, j: Byte)
    ensures Digit(FullName(base, digit, j)) == digit <==> digit <= 255
  {
    DigitRead(base, digit, j);
  }

  /** The name fits: RFAddReader has cut its base to MAX_READERNAME - sizeof(" 00 00") characters. */
  lemma NameFits(base: string, digit: Byte, j: Byte)
    requires |base| <= MAX_READERNAME - 7
    ensures |FullName(base, digit, j)| < MAX_READERNAME
  {
    HexTwo(digit);
    HexTwo(j);
  }

  // ---- the digits in use ----

  predicate Hotplug(port: bv32) {
    port & 0xFFFF0000 == HP_BASE_PORT
  }

  /** The driver's answer to TAG_IFD_SIMULTANEOUS_ACCESS, None when it has none. */
  function Channels(tag: Option<Byte>): nat {
    if tag.Some? && tag.value > 1 then tag.value else 1
  }

  predicate Sibling(r: Reader, library: string) {
    r.live && r.library == library
  }

  /** A reader of the same driver whose digit counts. */
  predicate Clone(r: Reader, library: string, port: bv32, tag: Option<Byte>) {
    Sibling(r, library) && ((Hotplug(r.port) && r.port != port) || Channels(tag) > 1)
  }

  function Used(rs: seq<Reader>, library: string, port: bv32, tags: nat -> Option<Byte>, k: nat): (u: set<nat>)
    requires k <= |rs|
    ensures |u| <= k
  {
    if k == 0 then {}
    else if Clone(rs[k - 1], library, port, tags(k - 1)) then Used(rs, library, port, tags, k - 1) + {Digit(rs[k - 1].name)}
    else Used(rs, library, port, tags, k - 1)
  }

  /** The last clone. */
  function Parent(rs: seq<Reader>, library: string, port: bv32, tags: nat -> Option<Byte>, k: nat): Option<nat>
    requires k <= |rs|
  {
    if k == 0 then None
    else if Clone(rs[k - 1], library, port, tags(k - 1)) then Some(k - 1)
    else Parent(rs, library, port, tags, k - 1)
  }

  /** The answer for the last reader of the driver. */
  function Supported(rs: seq<Reader>, library: string, tags: nat -> Option<Byte>, k: nat): nat
    requires k <= |rs|
  {
    if k == 0 then 0
    else if Sibling(rs[k - 1], library) then Channels(tags(k - 1))
    else Supported(rs, library, tags, k - 1)
  }

  lemma {:induction false} UsedIff(rs: seq<Reader>, library: string, port: bv32, tags: nat -> Option<Byte>, k: nat, d: nat)
    requires k <= |rs|
    ensures d in Used(rs, library, port, tags, k)
       <==> exists j :: 0 <= j < k && Clone(rs[j], library, port, tags(j)) && Digit(rs[j].name) == d
  {
    hide Clone, Digit;
    if k > 0 {
      UsedIff(rs, library, port, tags, k - 1, d);
      if d in Used(rs, library, port, tags, k) && d !in Used(rs, library, port, tags, k - 1) {
        assert Clone(rs[k - 1], library, port, tags(k - 1)) && Digit(rs[k - 1].name) == d;
      }
    }
  }

  lemma {:induction false} SlackOfVacant(rs: seq<Reader>, library: string, port: bv32, tags: nat -> Option<Byte>, k: nat, v: nat)
    requires v < k <= |rs| && !rs[v].live
    ensures |Used(rs, library, port, tags, k)| < k
  {
    if v < k - 1 { SlackOfVacant(rs, library, port, tags, k - 1, v); }
  }

  lemma {:induction false} Covering(u: set<nat>, n: nat)
    requires forall i :: 0 <= i < n ==> i in u
    ensures |u| >= n
  {
    if n > 0 {
      Covering(u - {n - 1}, n - 1);
    }
  }

  /** The first digit from k on that is not in use, n when there is none below n. */
  function FirstFree(u: set<nat>, k: nat, n: nat): (d: nat)
    requires k <= n
    ensures k <= d <= n && (d < n ==> d !in u) && forall i :: k <= i < d ==> i in u
    decreases n - k
  {
    if k == n || k !in u then k else FirstFree(u, k + 1, n)
  }

  /** Pigeonhole: a table with a vacant entry has a digit left. */
  lemma DigitLeft(rs: seq<Reader>, library: string, port: bv32, tags: nat -> Option<Byte>, v: nat)
    requires v < |rs| && !rs[v].live
    ensures FirstFree(Used(rs, library, port, tags, |rs|), 0, |rs|) < |rs|
  {
    var u := Used(rs, library, port, tags, |rs|);
    SlackOfVacant(rs, library, port, tags, |rs|, v);
    if FirstFree(u, 0, |rs|) == |rs| { Covering(u, |rs|); }
  }

  /** The digit of a new reader. */
  function DigitOf(rs: seq<Reader>, library: string, port: bv32, tags: nat -> Option<Byte>): nat {
    if Parent(rs, library, port, tags, |rs|) == None then 0 else FirstFree(Used(rs, library, port, tags, |rs|), 0, |rs|)
  }

  function NamingOf(rs: seq<Reader>, base: string, library: string, port: bv32, tags: nat -> Option<Byte>): Naming {
    var parent := Parent(rs, library, port, tags, |rs|);
    var d := DigitOf(rs, library, port, tags);
    if parent.Some? && d == |rs| then MaxReaders
    else if parent.Some? && d >= Supported(rs, library, tags, |rs|) then TooManyChannels
    else Named(parent, base + " " + Hex(d) + " 00", d * 0x10000)
  }

  /** RFSetReaderName. The digits in the names index an array as long as the table: see RunBounded. */
  method SetReaderName(rs: seq<Reader>, base: string, library: string, port: bv32, tags: nat -> Option<Byte>) returns (r: Naming)
    requires Bounded(rs)
    ensures r == NamingOf(rs, base, library, port, tags)
  {
    var usedDigits, parent, supportedChannels := MarkUsed(rs, library, port, tags);
    var i := 0;
    if parent.Some? {
      while i < |rs| && usedDigits[i]
        invariant 0 <= i <= |rs| && forall d :: 0 <= d < i ==> usedDigits[d]
      {
        i := i + 1;
      }
      FreeIs(Used(rs, library, port, tags, |rs|), i, |rs|);
      if i == |rs| { return MaxReaders; }
      if i >= supportedChannels { return TooManyChannels; }
    }
    r := Named(parent, base + " " + Hex(i) + " 00", i * 0x10000);
  }

  /** The loop over the readers of the driver. */
  method MarkUsed(rs: seq<Reader>, library: string, port: bv32, tags: nat -> Option<Byte>)
    returns (usedDigits: array<bool>, parent: Option<nat>, supportedChannels: nat)
    requires Bounded(rs)
    ensures usedDigits.Length == |rs|
    ensures forall d :: 0 <= d < |rs| ==> usedDigits[d] == (d in Used(rs, library, port, tags, |rs|))
    ensures parent == Parent(rs, library, port, tags, |rs|) && supportedChannels == Supported(rs, library, tags, |rs|)
  {
    hide Digit, Hotplug, Used, Parent, Supported;
    MarkStart(rs, library, port, tags);
    usedDigits := new bool[|rs|](i => false);
    parent, supportedChannels := None, 0;
    var i := 0;
    while i < |rs|
      invariant 0 <= i <= |rs| && usedDigits.Length == |rs|
      invariant forall d :: 0 <= d < |rs| ==> usedDigits[d] == (d in Used(rs, library, port, tags, i))
      invariant parent == Parent(rs, library, port, tags, i) && supportedChannels == Supported(rs, library, tags, i)
    {
      MarkStep(rs, library, port, tags, i);
      if rs[i].live && rs[i].library == library {
        supportedChannels := Channels(tags(i));
        if (Hotplug(rs[i].port) && rs[i].port != port) || supportedChannels > 1 {
          parent := Some(i);
          var currentDigit := Digit(rs[i].name);
          usedDigits[currentDigit] := true;
        }
      }
      i := i + 1;
    }
  }

  lemma MarkStart(rs: seq<Reader>, library: string, port: bv32, tags: nat -> Option<Byte>)
    ensures Used(rs, library, port, tags, 0) == {} && Parent(rs, library, port, tags, 0) == None && Supported(rs, library, tags, 0) == 0
  {
  }

  lemma MarkStep(rs: seq<Reader>, library: string, port: bv32, tags: nat -> Option<Byte>, i: nat)
    requires i < |rs|
    ensures var counts := Sibling(rs[i], library) && ((Hotplug(rs[i].port) && rs[i].port != port) || Channels(tags(i)) > 1);
      && Used(rs, library, port, tags, i + 1)
         == Used(rs, library, port, tags, i) + (if counts then {Digit(rs[i].name)} else {})
      && Parent(rs, library, port, tags, i + 1) == (if counts then Some(i) else Parent(rs, library, port, tags, i))
      && Supported(rs, library, tags, i + 1) == if Sibling(rs[i], library) then Channels(tags(i)) else Supported(rs, library, tags, i)
  {
    hide Digit, Hotplug, Channels;
  }

  lemma FreeIs(u: set<nat>, i: nat, n: nat)
    requires i <= n && (forall d :: 0 <= d < i ==> d in u) && (i < n ==> i !in u)
    ensures FirstFree(u, 0, n) == i
  {
  }

  // ---- the name of a new reader ----

  /** A reader whose digit counts for a new one at this port: one of the same driver at another hotplug port, or one
      whose driver has several channels. */
  predicate Counts(r: Reader, library: string, port: bv32, tag: Option<Byte>) {
    r.live && r.library == library && ((r.port & 0xFFFF0000 == 0x200000 && r.port != port) || (tag.Some? && tag.value > 1))
  }

  /** Some reader that counts has digit d. */
  ghost predicate Taken(rs: seq<Reader>, library: string, port: bv32, tags: nat -> Option<Byte>, d: nat) {
    exists j :: 0 <= j < |rs| && Counts(rs[j], library, port, tags(j)) && Digit(rs[j].name) == d
  }

  lemma TakenIsUsed(rs: seq<Reader>, library: string, port: bv32, tags: nat -> Option<Byte>, d: nat)
    ensures Taken(rs, library, port, tags, d) <==> d in Used(rs, library, port, tags, |rs|)
  {
    hide Digit;
    UsedIff(rs, library, port, tags, |rs|, d);
    assert forall j :: 0 <= j < |rs| ==> Counts(rs[j], library, port, tags(j)) == Clone(rs[j], library, port, tags(j));
  }

  /** p is the last reader that counts. */
  ghost predicate LastCounting(rs: seq<Reader>, library: string, port: bv32, tags: nat -> Option<Byte>, p: Option<nat>, k: nat)
    requires k <= |rs|
  {
    && (p.Some? ==> p.value < k && Counts(rs[p.value], library, port, tags(p.value)))
    && forall j :: 0 <= j < k && (p.Some? ==> p.value < j) ==> !Counts(rs[j], library, port, tags(j))
  }

  lemma {:induction false} ParentIsLast(rs: seq<Reader>, library: string, port: bv32, tags: nat -> Option<Byte>, k: nat)
    requires k <= |rs|
    ensures LastCounting(rs, library, port, tags, Parent(rs, library, port, tags, k), k)
  {
    if k > 0 {
      assert Counts(rs[k - 1], library, port, tags(k - 1)) == Clone(rs[k - 1], library, port, tags(k - 1));
      ParentIsLast(rs, library, port, tags, k - 1);
    }
  }

  lemma {:induction false} SupportedIsLast(rs: seq<Reader>, library: string, tags: nat -> Option<Byte>, k: nat, i: nat)
    requires i < k <= |rs| && Sibling(rs[i], library) && forall j :: i < j < k ==> !Sibling(rs[j], library)
    ensures Supported(rs, library, tags, k) == if tags(i).Some? && tags(i).value > 1 then tags(i).value else 1
  {
    if i < k - 1 { SupportedIsLast(rs, library, tags, k - 1, i); }
  }

  /** The first reader of a driver has digit 0. Any other has the least digit that no reader that counts has, the
      last one of them as its parent, and is refused exactly when all digits below the channel count are taken;
      last is the last reader of the driver, whose answer is the channel count. */
  lemma NamingExactly(rs: seq<Reader>, base: string, library: string, port: bv32, tags: nat -> Option<Byte>, v: nat, last: nat, channels: nat)
    requires v < |rs| && !rs[v].live
    requires last < |rs| && rs[last].live && rs[last].library == library
    requires forall j :: last < j < |rs| ==> !(rs[j].live && rs[j].library == library)
    requires channels == if tags(last).Some? && tags(last).value > 1 then tags(last).value else 1
    ensures var n := NamingOf(rs, base, library, port, tags);
      && (n == TooManyChannels <==>
            !LastCounting(rs, library, port, tags, None, |rs|) && forall e :: 0 <= e < channels ==> Taken(rs, library, port, tags, e))
      && (n.Named? ==> LastCounting(rs, library, port, tags, n.parent, |rs|) && NamedBy(rs, base, library, port, tags, n))
      && n != MaxReaders
  {
    hide Parent, Supported, Hex, LastCounting, Taken, DigitOf, Places;
    SupportedIsLast(rs, library, tags, |rs|, last);
    LeastDigit(rs, library, port, tags, v);
    var d := DigitOf(rs, library, port, tags);
    SlotParts(d, 0);
    if d <= 255 { PlacesText(d); }
  }

  lemma LeastDigit(rs: seq<Reader>, library: string, port: bv32, tags: nat -> Option<Byte>, v: nat)
    requires v < |rs| && !rs[v].live
    ensures var d := DigitOf(rs, library, port, tags); var p := Parent(rs, library, port, tags, |rs|);
      && LastCounting(rs, library, port, tags, p, |rs|) && d < |rs|
      && (p == None ==> d == 0)
      && (p.Some? ==>
            && !LastCounting(rs, library, port, tags, None, |rs|)
            && !Taken(rs, library, port, tags, d) && forall e :: 0 <= e < d ==> Taken(rs, library, port, tags, e))
  {
    hide Digit, Used, Parent, Counts;
    ParentIsLast(rs, library, port, tags, |rs|);
    DigitLeft(rs, library, port, tags, v);
    forall e: nat ensures Taken(rs, library, port, tags, e) <==> e in Used(rs, library, port, tags, |rs|) {
      TakenIsUsed(rs, library, port, tags, e);
    }
  }

  const HexText := "0123456789ABCDEF"

  /** A number in two places. */
  function Places(d: Byte): string {
    [HexText[d / 16], HexText[d % 16]]
  }

  lemma PlacesText(d: Byte)
    ensures Hex(d) == Places(d)
  {
    HexTwo(d);
  }

  /** When no reader counts, a new one is never refused and is the first of its kind. */
  lemma FirstOfDriver(rs: seq<Reader>, base: string, library: string, port: bv32, tags: nat -> Option<Byte>)
    requires LastCounting(rs, library, port, tags, None, |rs|)
    ensures NamingOf(rs, base, library, port, tags) == Named(None, base + " 00 00", 0)
  {
    hide Clone, Counts, Supported;
    ParentIsLast(rs, library, port, tags, |rs|);
    PlacesText(0);
    assert base + " " + "00" + " 00" == base + " 00 00";
  }

  /** The digit of the name and of the slot number: the least that is not taken, 0 when no reader counts. */
  ghost predicate NamedBy(rs: seq<Reader>, base: string, library: string, port: bv32, tags: nat -> Option<Byte>, n: Naming)
    requires n.Named?
  {
    var d := n.slot / 0x10000;
    && n.slot % 0x10000 == 0 && d <= 255 && n.name == base + " " + Places(d) + " 00"
    && if n.parent == None then d == 0
       else !Taken(rs, library, port, tags, d) && forall e :: 0 <= e < d ==> Taken(rs, library, port, tags, e)
  }

  // ---- all readers of a driver, over time ----

  /** INITIAL_MAX_READERS_CONTEXTS more entries. */
  const MoreEntries := [Reader(false, "", 0, "", 0), Reader(false, "", 0, "", 0)]

  function Vacant(rs: seq<Reader>): (v: nat)
    ensures v <= |rs| && (v < |rs| ==> !rs[v].live)
  {
    FirstWhere(rs, (r: Reader) => !r.live)
  }

  /** The table with a vacant entry. */
  function Room(rs: seq<Reader>): (r: seq<Reader>)
    ensures rs <= r && Vacant(rs) < |r| && !r[Vacant(rs)].live
    ensures forall k :: |rs| <= k < |r| ==> !r[k].live
  {
    if Vacant(rs) == |rs| then rs + MoreEntries else rs
  }

  /** The slots j, ..., n - 1 of a reader: each takes a vacant entry. */
  function PlaceSlots(rs: seq<Reader>, base: string, library: string, port: bv32, digit: nat, j: nat, n: nat): seq<Reader>
    decreases n - j
  {
    if j >= n then rs
    else PlaceSlots(Room(rs)[Vacant(rs) := Reader(true, library, port, FullName(base, digit, j), digit * 0x10000 + j)],
                    base, library, port, digit, j + 1, n)
  }

  datatype Change =
    | Add(base: string, library: string, port: bv32, slots: Byte, tags: nat -> Option<Byte>)
    | Remove(i: nat)

  function Next(rs: seq<Reader>, change: Change): seq<Reader> {
    match change
    case Add(base, library, port, slots, tags) =>
      var naming := NamingOf(Room(rs), base, library, port, tags);
      if naming.Named? then
        PlaceSlots(Room(rs), base, library, port, naming.slot / 0x10000, 0, SlotsOf(change))
      else Room(rs)
    case Remove(i) => if i < |rs| then rs[i := rs[i].(live := false)] else rs
  }

  function Run(rs: seq<Reader>, changes: seq<Change>): seq<Reader>
    decreases changes
  {
    if changes == [] then rs else Run(Next(rs, changes[0]), changes[1..])
  }

  /** The readers of one driver have their digit in the name and in the upper half of the slot number,
      and no two of them have the same slot number. */
  ghost predicate Distinct(rs: seq<Reader>, library: string) {
    && (forall i :: 0 <= i < |rs| && Sibling(rs[i], library) ==>
          Digit(rs[i].name) < |rs| && rs[i].slot / 0x10000 == Digit(rs[i].name))
    && (forall i, k :: 0 <= i < k < |rs| && Sibling(rs[i], library) && Sibling(rs[k], library) ==> rs[i].slot != rs[k].slot)
  }

  lemma RoomKeeps(rs: seq<Reader>, library: string)
    requires Distinct(rs, library)
    ensures Distinct(Room(rs), library)
  {
  }

  /** Reader r has one of the slot numbers j, ..., n - 1 of a digit. */
  predicate SlotTaken(r: Reader, library: string, digit: nat, j: nat, n: nat) {
    Sibling(r, library) && r.slot / 0x10000 == digit && j <= r.slot % 0x10000 < n
  }

  /** Slots of one digit that start at j can be placed if no reader of the driver has a slot number among them. */
  lemma {:induction false} PlacedDistinct(rs: seq<Reader>, base: string, library: string, port: bv32, digit: nat, j: nat, n: nat, of: string)
    requires Distinct(rs, of) && n <= 255 && digit <= 255 && digit < |rs|
    requires library == of ==> forall i :: 0 <= i < |rs| ==> !SlotTaken(rs[i], of, digit, j, n)
    ensures Distinct(PlaceSlots(rs, base, library, port, digit, j, n), of)
    decreases n - j
  {
    hide Vacant, Hex, Strtol;
    if j < n {
      DigitRoundTrip(base, digit, j);
      RoomKeeps(rs, of);
      var r := Reader(true, library, port, FullName(base, digit, j), digit * 0x10000 + j);
      var next := Room(rs)[Vacant(rs) := r];
      assert forall i :: 0 <= i < |next| && i != Vacant(rs) && next[i].live ==> i < |rs| && next[i] == rs[i];
      SlotParts(digit, j);
      PlacedDistinct(next, base, library, port, digit, j + 1, n, of);
    }
  }

  lemma SlotParts(digit: nat, j: nat)
    requires j < 0x10000
    ensures (digit * 0x10000 + j) / 0x10000 == digit && (digit * 0x10000 + j) % 0x10000 == j
  {
  }

  /** The driver gives a fixed number of channels above 1 whenever it is asked. */
  ghost predicate Fixed(change: Change, library: string) {
    change.Add? && change.library == library ==> exists c: Byte :: c > 1 && forall i: nat :: change.tags(i) == Some(c)
  }

  /** For such a driver every reader counts: a new digit is none of theirs. */
  lemma NewDigit(rs: seq<Reader>, library: string, port: bv32, tags: nat -> Option<Byte>, c: Byte)
    requires c > 1 && (forall i: nat :: tags(i) == Some(c)) && DigitOf(rs, library, port, tags) < |rs|
    ensures forall i :: 0 <= i < |rs| && Sibling(rs[i], library) ==> Digit(rs[i].name) != DigitOf(rs, library, port, tags)
  {
    var d := DigitOf(rs, library, port, tags);
    forall i | 0 <= i < |rs| && Sibling(rs[i], library) ensures Digit(rs[i].name) != d {
      assert Clone(rs[i], library, port, tags(i));
      UsedIff(rs, library, port, tags, |rs|, Digit(rs[i].name));
      ParentIff(rs, library, port, tags, |rs|, i);
    }
  }

  lemma {:induction false} ParentIff(rs: seq<Reader>, library: string, port: bv32, tags: nat -> Option<Byte>, k: nat, i: nat)
    requires i < k <= |rs| && Clone(rs[i], library, port, tags(i))
    ensures Parent(rs, library, port, tags, k).Some?
  {
    if i < k - 1 { ParentIff(rs, library, port, tags, k - 1, i); }
  }

  lemma {:induction false} SupportedBound(rs: seq<Reader>, library: string, tags: nat -> Option<Byte>, k: nat)
    requires k <= |rs|
    ensures Supported(rs, library, tags, k) <= 255
  {
    if k > 0 { SupportedBound(rs, library, tags, k - 1); }
  }

  lemma {:induction false} PlacedKeeps(rs: seq<Reader>, base: string, library: string, port: bv32, digit: nat, j: nat, n: nat, x: nat)
    requires x < |rs| && rs[x].live
    ensures var t := PlaceSlots(rs, base, library, port, digit, j, n); x < |t| && t[x] == rs[x]
    decreases n - j
  {
    if j < n {
      var next := Room(rs)[Vacant(rs) := Reader(true, library, port, FullName(base, digit, j), digit * 0x10000 + j)];
      PlacedKeeps(next, base, library, port, digit, j + 1, n, x);
    }
  }

  /** The reader that is slot i of a digit: both are printed with two places after the name, and the slot number has the
      digit in its upper half. */
  predicate IsSlot(r: Reader, base: string, library: string, port: bv32, digit: Byte, i: Byte) {
    && r.live && r.library == library && r.port == port && r.slot == digit * 0x10000 + i
    && r.name == base + " " + Places(digit) + " " + Places(i)
  }

  lemma NewSlot(base: string, library: string, port: bv32, digit: Byte, j: Byte)
    ensures IsSlot(Reader(true, library, port, FullName(base, digit, j), digit * 0x10000 + j), base, library, port, digit, j)
  {
    hide Hex, Places;
    PlacesText(digit);
    PlacesText(j);
  }

  lemma {:induction false} SlotsPlaced(rs: seq<Reader>, base: string, library: string, port: bv32, digit: Byte, j: nat, n: nat, i: nat)
    requires j <= i < n <= 255
    ensures exists r :: r in PlaceSlots(rs, base, library, port, digit, j, n) && IsSlot(r, base, library, port, digit, i)
    decreases n - j
  {
    hide IsSlot, FullName, Hex, Vacant;
    var v := Vacant(rs);
    var next := Room(rs)[v := Reader(true, library, port, FullName(base, digit, j), digit * 0x10000 + j)];
    if i == j {
      NewSlot(base, library, port, digit, j);
      PlacedKeeps(next, base, library, port, digit, j + 1, n, v);
      assert next[v] in PlaceSlots(rs, base, library, port, digit, j, n);
    } else {
      SlotsPlaced(next, base, library, port, digit, j + 1, n, i);
    }
  }

  /** A reader that is named gets all its slots, the readers there were stay, and a refused one changes nothing. */
  lemma AddsAllSlots(rs: seq<Reader>, change: Change, i: nat)
    requires change.Add? && i < SlotsOf(change)
    ensures var t := Next(rs, change);
      match NamingOf(Room(rs), change.base, change.library, change.port, change.tags)
      case Named(parent, name, slot) =>
        && slot / 0x10000 <= 255
        && (exists r :: r in t && IsSlot(r, change.base, change.library, change.port, slot / 0x10000, i))
        && forall x :: 0 <= x < |rs| && rs[x].live ==> x < |t| && t[x] == rs[x]
      case _ => t == Room(rs)
  {
    hide PlaceSlots, DigitOf, IsSlot;
    var room := Room(rs);
    var n := NamingOf(room, change.base, change.library, change.port, change.tags);
    if n.Named? {
      var d := DigitOf(room, change.library, change.port, change.tags);
      SmallDigit(room, change.base, change.library, change.port, change.tags);
      SlotParts(d, 0);
      SlotsPlaced(room, change.base, change.library, change.port, d, 0, SlotsOf(change), i);
      forall x | 0 <= x < |rs| && rs[x].live ensures x < |Next(rs, change)| && Next(rs, change)[x] == rs[x] {
        PlacedKeeps(room, change.base, change.library, change.port, d, 0, SlotsOf(change), x);
      }
    }
  }

  lemma SameNumber(rs: seq<Reader>, library: string, x: nat, y: nat)
    requires x < |rs| && y < |rs| && x != y && Sibling(rs[x], library) && Sibling(rs[y], library) && rs[x].slot == rs[y].slot
    ensures !Distinct(rs, library)
  {
    assert x < y || y < x;
  }

  /** A reader that has one of the slot numbers ends up with a namesake in number. */
  lemma {:induction false} PlacedClash(rs: seq<Reader>, base: string, library: string, port: bv32, digit: nat, j: nat, n: nat, x: nat)
    requires x < |rs| && SlotTaken(rs[x], library, digit, j, n) && n <= 255
    ensures !Distinct(PlaceSlots(rs, base, library, port, digit, j, n), library)
    decreases n - j
  {
    hide Distinct, Digit;
    var v := Vacant(rs);
    var next := Room(rs)[v := Reader(true, library, port, FullName(base, digit, j), digit * 0x10000 + j)];
    assert next[x] == rs[x] && x != v;
    if rs[x].slot % 0x10000 == j {
      assert next[v].slot == rs[x].slot;
      PlacedKeeps(next, base, library, port, digit, j + 1, n, x);
      PlacedKeeps(next, base, library, port, digit, j + 1, n, v);
      SameNumber(PlaceSlots(rs, base, library, port, digit, j, n), library, x, v);
    } else {
      PlacedClash(next, base, library, port, digit, j + 1, n, x);
    }
  }

  function SlotsOf(change: Change): nat
    requires change.Add?
  {
    if change.slots == 0 then 1 else change.slots
  }

  /** For every driver: the readers of a driver still have distinct slot numbers after another is added
      exactly when none of them has one of the numbers the new slots get. */
  lemma AddDistinctExactly(rs: seq<Reader>, change: Change)
    requires change.Add? && Distinct(rs, change.library)
    requires NamingOf(Room(rs), change.base, change.library, change.port, change.tags).Named?
    ensures var d := DigitOf(Room(rs), change.library, change.port, change.tags);
      Distinct(Next(rs, change), change.library)
      <==> forall i :: 0 <= i < |rs| ==> !SlotTaken(rs[i], change.library, d, 0, SlotsOf(change))
  {
    hide Distinct, DigitOf, Digit, Hex, FullName;
    var room := Room(rs);
    var d := DigitOf(room, change.library, change.port, change.tags);
    RoomKeeps(rs, change.library);
    SlotParts(d, 0);
    SmallDigit(room, change.base, change.library, change.port, change.tags);
    if x :| 0 <= x < |rs| && SlotTaken(rs[x], change.library, d, 0, SlotsOf(change)) {
      assert room[x] == rs[x];
      PlacedClash(room, change.base, change.library, change.port, d, 0, SlotsOf(change), x);
    } else {
      PlacedDistinct(room, change.base, change.library, change.port, d, 0, SlotsOf(change), change.library);
    }
  }

  // ---- the array of used digits ----

  /** Every digit in a name is a position of the table. */
  predicate Bounded(rs: seq<Reader>) {
    forall i :: 0 <= i < |rs| && rs[i].live ==> Digit(rs[i].name) < |rs|
  }

  lemma {:induction false} PlacedBounded(rs: seq<Reader>, base: string, library: string, port: bv32, digit: nat, j: nat, n: nat)
    requires Bounded(rs) && n <= 255 && digit <= 255 && digit < |rs|
    ensures Bounded(PlaceSlots(rs, base, library, port, digit, j, n))
    decreases n - j
  {
    hide Digit, Vacant, Hex;
    if j < n {
      DigitRoundTrip(base, digit, j);
      var next := Room(rs)[Vacant(rs) := Reader(true, library, port, FullName(base, digit, j), digit * 0x10000 + j)];
      assert forall i :: 0 <= i < |next| && i != Vacant(rs) && next[i].live ==> i < |rs| && next[i] == rs[i];
      PlacedBounded(next, base, library, port, digit, j + 1, n);
    }
  }

  lemma NextBounded(rs: seq<Reader>, change: Change)
    requires Bounded(rs)
    ensures Bounded(Next(rs, change))
  {
    hide Digit, DigitOf, FullName, Hex;
    if change.Add? {
      var room := Room(rs);
      assert Bounded(room);
      if NamingOf(room, change.base, change.library, change.port, change.tags).Named? {
        SlotParts(DigitOf(room, change.library, change.port, change.tags), 0);
        SmallDigit(room, change.base, change.library, change.port, change.tags);
        PlacedBounded(room, change.base, change.library, change.port, DigitOf(room, change.library, change.port, change.tags),
                      0, SlotsOf(change));
      }
    }
  }

  /** Over every history of every driver the digits stay inside the array that marks them, which is as long
      as the table. */
  lemma {:induction false} RunBounded(rs: seq<Reader>, changes: seq<Change>)
    requires Bounded(rs)
    ensures Bounded(Run(rs, changes))
    decreases changes
  {
    if changes != [] {
      NextBounded(rs, changes[0]);
      RunBounded(Next(rs, changes[0]), changes[1..]);
    }
  }

  lemma NoClash(rs: seq<Reader>, library: string, d: nat)
    requires Distinct(rs, library) && forall i :: 0 <= i < |rs| && Sibling(rs[i], library) ==> Digit(rs[i].name) != d
    ensures forall i :: 0 <= i < |rs| && Sibling(rs[i], library) ==> rs[i].slot / 0x10000 != d
  {
  }

  lemma RemovedDistinct(rs: seq<Reader>, i: nat, library: string)
    requires Distinct(rs, library) && i < |rs|
    ensures Distinct(rs[i := rs[i].(live := false)], library)
  {
  }

  /** However readers come and go, the live readers of a driver with a fixed number of channels above 1
      keep distinct slot numbers. */
  lemma NextDistinct(rs: seq<Reader>, change: Change, library: string)
    requires Distinct(rs, library) && Fixed(change, library)
    ensures Distinct(Next(rs, change), library)
  {
    hide Distinct, DigitOf;
    if change.Add? {
      var room := Room(rs);
      RoomKeeps(rs, library);
      var naming := NamingOf(room, change.base, change.library, change.port, change.tags);
      if naming.Named? {
        var d := DigitOf(room, change.library, change.port, change.tags);
        SlotParts(d, 0);
        SmallDigit(room, change.base, change.library, change.port, change.tags);
        if change.library == library {
          var c: Byte :| c > 1 && forall i: nat :: change.tags(i) == Some(c);
          NewDigit(room, change.library, change.port, change.tags, c);
        }
        if change.library == library { NoClash(room, library, d); }
        PlacedDistinct(room, change.base, change.library, change.port, d, 0, SlotsOf(change), library);
      }
    } else if change.i < |rs| {
      RemovedDistinct(rs, change.i, library);
    }
  }

  lemma SmallDigit(rs: seq<Reader>, base: string, library: string, port: bv32, tags: nat -> Option<Byte>)
    requires NamingOf(rs, base, library, port, tags).Named? && |rs| > 0
    ensures DigitOf(rs, library, port, tags) < |rs| && DigitOf(rs, library, port, tags) <= 255
  {
    SupportedBound(rs, library, tags, |rs|);
  }

  lemma {:induction false} RunDistinct(rs: seq<Reader>, changes: seq<Change>, library: string)
    requires Distinct(rs, library) && forall k :: 0 <= k < |changes| ==> Fixed(changes[k], library)
    ensures Distinct(Run(rs, changes), library)
    decreases changes
  {
    if changes != [] {
      NextDistinct(rs, changes[0], library);
      RunDistinct(Next(rs, changes[0]), changes[1..], library);
    }
  }

  /** The name never fails for want of a digit: there is room before one is looked for. */
  lemma NeverMaxReaders(rs: seq<Reader>, base: string, library: string, port: bv32, tags: nat -> Option<Byte>)
    ensures NamingOf(Room(rs), base, library, port, tags) != MaxReaders
  {
    DigitLeft(Room(rs), library, port, tags, Vacant(rs));
  }

  /** Such a clash: with a single channel and no hotplug port the readers of a driver do not count, so that
      two of them get the number 0. */
  lemma SingleChannelClash(library: string, port: bv32, tags: nat -> Option<Byte>)
    requires !Hotplug(port) && forall i: nat :: tags(i) == None
    ensures var rs := [Reader(true, library, port, FullName("A", 0, 0), 0), Reader(false, "", 0, "", 0)];
      Distinct(rs, library) && !Distinct(Next(rs, Add("B", library, port, 1, tags)), library)
  {
    DigitRoundTrip("A", 0, 0);
    var rs := [Reader(true, library, port, FullName("A", 0, 0), 0), Reader(false, "", 0, "", 0)];
    assert rs[1..][0] == rs[1] && Vacant(rs) == 1 && Room(rs) == rs;
    assert !Clone(rs[0], library, port, tags(0)) && !Clone(rs[1], library, port, tags(1));
    assert Parent(rs, library, port, tags, 1) == Parent(rs, library, port, tags, 0);
    AddDistinctExactly(rs, Add("B", library, port, 1, tags));
    assert SlotTaken(rs[0], library, 0, 0, 1);
  }
}
