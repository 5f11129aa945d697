/** The counters that readers of one driver share (src/readerfactory.c): pFeeds and pMutex are pointers
    to counters, and the driver is unloaded with its last reader. */
module ReaderTable {
  import opened Wrappers

  /** What pFeeds and pMutex point to. */
  class Counter {
    var n: int

    constructor (n: int)
      ensures this.n == n
    {
      this.n := n;
    }
  }

  /** What tells a reader from others: name stands for its name without the numbers together with its
      port, file for its device file. Two readers with the same of both are duplicates; removal goes
      by name and port alone. */
  datatype Device = Device(name: int, file: int)

  /** The fields of one slot of the reader table. */
  datatype Entry = Entry(handle: nat, feeds: Counter?, mutex: Counter?, reference: int, device: Device)

  ghost function Blank(): Entry {
    Entry(0, null, null, 0, Device(0, 0))
  }

  class Slot {
    var vHandle: nat           // 0: NULL; each successful DYN_LoadLibrary has a number of its own
    var feeds: Counter?
    var mutex: Counter?
    var reference: int
    var device: Device

    constructor ()
      ensures Get() == Blank()
    {
      vHandle, feeds, mutex, reference, device := 0, null, null, 0, Device(0, 0);
    }

    ghost function Get(): Entry
      reads this
    {
      Entry(vHandle, feeds, mutex, reference, device)
    }
  }

  // ---- the table as a sequence of entries ----

  ghost function Feeds(v: seq<Entry>): (s: seq<Counter?>)
    ensures |s| == |v|
  {
    seq(|v|, i requires 0 <= i < |v| => if v[i].handle != 0 then v[i].feeds else null)
  }

  ghost function Mutexes(v: seq<Entry>): (s: seq<Counter?>)
    ensures |s| == |v|
  {
    seq(|v|, i requires 0 <= i < |v| => if v[i].handle != 0 then v[i].mutex else null)
  }

  ghost function Handles(v: seq<Entry>): (s: seq<nat>)
    ensures |s| == |v|
  {
    seq(|v|, i requires 0 <= i < |v| => v[i].handle)
  }

  ghost function Cells(v: seq<Entry>): set<Counter?> {
    (set c | c in Feeds(v) + Mutexes(v)) - {null}
  }

  /** Live readers have both counters; feed counters are no mutex counters; readers share the feed
      counter exactly when they use the same load of a library. */
  ghost predicate Shape(v: seq<Entry>) {
    && (forall i :: 0 <= i < |v| && v[i].handle != 0 ==> v[i].feeds != null && v[i].mutex != null)
    && (forall i, j :: 0 <= i < |v| && 0 <= j < |v| && v[i].handle != 0 && v[j].handle != 0 ==>
          v[i].feeds != v[j].mutex && (v[i].feeds == v[j].feeds <==> v[i].handle == v[j].handle))
  }

  /** Every counter is the number of live readers that share it. */
  ghost predicate Counted(cells: seq<Counter?>)
    reads cells
  {
    forall c: Counter | c in cells :: c.n == multiset(cells)[c]
  }

  /** Each load is closed exactly once as soon as no live reader uses it, and never before. */
  ghost predicate ClosedOnce(loaded: seq<nat>, loads: nat, closed: seq<nat>) {
    && (forall t :: t in loaded ==> t <= loads)
    && (forall t :: 1 <= t <= loads ==> multiset(closed)[t] == if t in loaded then 0 else 1)
    && (forall t :: t in closed ==> 1 <= t <= loads)
  }

  // ---- one entry changes ----

  lemma Emptied(v: seq<Entry>, i: nat, e: Entry)
    requires Shape(v) && i < |v| && e.handle == 0
    ensures var w := v[i := e];
      Shape(w) && Feeds(w) == Feeds(v)[i := null] && Mutexes(w) == Mutexes(v)[i := null] && Handles(w) == Handles(v)[i := 0]
  {
  }

  lemma Filled(v: seq<Entry>, i: nat, e: Entry)
    requires Shape(v) && i < |v| && v[i].handle == 0 && e.handle != 0 && e.feeds != null && e.mutex != null
    requires e.feeds !in Mutexes(v) && e.mutex !in Feeds(v) && e.feeds != e.mutex
    requires forall j :: 0 <= j < |v| && v[j].handle != 0 ==> (v[j].feeds == e.feeds <==> v[j].handle == e.handle)
    ensures var w := v[i := e];
      Shape(w) && Feeds(w) == Feeds(v)[i := e.feeds] && Mutexes(w) == Mutexes(v)[i := e.mutex] && Handles(w) == Handles(v)[i := e.handle]
  {
    assert forall j :: 0 <= j < |v| && v[j].handle != 0 ==> Feeds(v)[j] == v[j].feeds && Mutexes(v)[j] == v[j].mutex;
  }

  lemma Separate(v: seq<Entry>, i: nat)
    requires Shape(v) && i < |v| && v[i].handle != 0
    ensures Feeds(v)[i] == v[i].feeds && Mutexes(v)[i] == v[i].mutex
    ensures v[i].feeds !in Mutexes(v) && v[i].mutex !in Feeds(v) && v[i].feeds != null && v[i].mutex != null
  {
  }

  lemma Sharers(v: seq<Entry>, p: nat)
    requires Shape(v) && p < |v| && v[p].handle != 0 && Counted(Feeds(v)) && Counted(Mutexes(v))
    ensures v[p].handle in Handles(v)
    ensures forall j :: 0 <= j < |v| && v[j].handle != 0 ==> (v[j].feeds == v[p].feeds <==> v[j].handle == v[p].handle)
    ensures v[p].feeds != null && v[p].feeds.n == multiset(Feeds(v))[v[p].feeds]
    ensures v[p].mutex != null && v[p].mutex.n == multiset(Mutexes(v))[v[p].mutex]
  {
    assert Feeds(v)[p] == v[p].feeds && Mutexes(v)[p] == v[p].mutex && Handles(v)[p] == v[p].handle;
  }

  /** The feed counter is 1 exactly when no other live reader uses the library. */
  lemma LastFeed(v: seq<Entry>, i: nat)
    requires Shape(v) && i < |v| && v[i].handle != 0 && Counted(Feeds(v))
    ensures v[i].feeds.n == 1 <==> v[i].handle !in Handles(v)[i := 0]
  {
    var c := v[i].feeds;
    var h := v[i].handle;
    assert Feeds(v)[i] == c;
    CountOne(Feeds(v), i, null);
    if c in Feeds(v)[i := null] {
      var j :| 0 <= j < |v| && Feeds(v)[i := null][j] == c;
      assert Handles(v)[i := 0][j] == h;
    }
    if h in Handles(v)[i := 0] {
      var j :| 0 <= j < |v| && Handles(v)[i := 0][j] == h;
      assert Feeds(v)[i := null][j] == c;
    }
  }

  lemma ClosedByLast(loaded: seq<nat>, loads: nat, closed: seq<nat>, i: nat)
    requires ClosedOnce(loaded, loads, closed) && i < |loaded| && loaded[i] != 0
    ensures ClosedOnce(loaded[i := 0], loads, if loaded[i] in loaded[i := 0] then closed else closed + [loaded[i]])
  {
    var h := loaded[i];
    assert h in loaded;
    forall t: nat | t != h && t != 0 ensures t in loaded[i := 0] <==> t in loaded {
      if t in loaded {
        var j :| 0 <= j < |loaded| && loaded[j] == t;
        assert loaded[i := 0][j] == t;
      }
    }
    var after := loaded[i := 0];
    var done := if h in after then closed else closed + [h];
    assert h !in after ==> multiset(done) == multiset(closed) + multiset{h};
    forall t: nat | 1 <= t <= loads ensures multiset(done)[t] == if t in after then 0 else 1 {
      assert t != h ==> (t in after <==> t in loaded);
    }
    assert forall t :: t in after ==> t in loaded || t == 0;
    assert forall t :: t in done ==> t in closed || t == h;
  }

  lemma OpenedAgain(loaded: seq<nat>, loads: nat, closed: seq<nat>, i: nat, h: nat)
    requires ClosedOnce(loaded, loads, closed) && i < |loaded| && loaded[i] == 0 && h != 0
    requires h in loaded || h == loads + 1
    ensures ClosedOnce(loaded[i := h], if h in loaded then loads else loads + 1, closed)
  {
    var after := loaded[i := h];
    forall t: nat | t != 0 ensures t in after <==> t in loaded || t == h {
      if t in loaded {
        var j :| 0 <= j < |loaded| && loaded[j] == t;
        assert after[j] == t;
      }
      assert after[i] == h;
    }
    assert forall t :: t in after ==> t in loaded || t == h;
    var n := if h in loaded then loads else loads + 1;
    forall t: nat | 1 <= t <= n ensures multiset(closed)[t] == if t in after then 0 else 1 {
      assert t in multiset(closed) <==> t in closed;
    }
  }

  lemma CountZero<T>(s: seq<T>, x: T)
    ensures x in s <==> multiset(s)[x] > 0
  {
    assert x in multiset(s) <==> x in s;
  }

  lemma CountReplaced<T>(s: seq<T>, i: nat, x: T)
    requires i < |s| && x != s[i]
    ensures forall c :: multiset(s[i := x])[c] == multiset(s)[c] - (if c == s[i] then 1 else 0) + if c == x then 1 else 0
    ensures forall c :: c in s[i := x] ==> c in s || c == x
  {
    assert multiset(s[i := x]) == multiset(s) - multiset{s[i]} + multiset{x};
    assert s[i] in multiset(s);
  }

  lemma CountOne<T>(s: seq<T>, i: nat, x: T)
    requires i < |s| && x != s[i]
    ensures multiset(s)[s[i]] >= 1 && (multiset(s)[s[i]] == 1 <==> s[i] !in s[i := x])
  {
    assert multiset(s[i := x]) == multiset(s) - multiset{s[i]} + multiset{x};
    assert s[i] in s[i := x] <==> s[i] in multiset(s[i := x]);
  }

  /** What RFRemoveReader makes of one entry. */
  ghost predicate Dropped(e: Entry, d: Entry, name: int) {
    && d.device == e.device
    && (e.handle == 0 || e.device.name != name ==> d.handle == e.handle && d.reference == e.reference)
    && (e.handle != 0 && e.device.name == name ==>
          && d.reference == e.reference - (if e.reference == 0 then 0 else 1)
          && (d.handle == 0 <==> e.reference == 1) && (d.handle != 0 ==> d.handle == e.handle))
    && (d.handle != 0 ==> d.feeds == e.feeds && d.mutex == e.mutex)
  }

  /** The outcomes of RFAddReader. */
  datatype Added = AllSlots | DuplicateReader | NotLoaded | NotOpened

  /** Live readers stay exactly as they were. */
  ghost predicate Kept(v: seq<Entry>, w: seq<Entry>) {
    |v| <= |w| && forall x :: 0 <= x < |v| && v[x].handle != 0 ==> w[x] == v[x]
  }

  /** The readers of that name and port have lost a reference, and nobody is new. */
  ghost predicate FailedAdd(v: seq<Entry>, w: seq<Entry>, name: int) {
    && |v| <= |w|
    && (forall x :: 0 <= x < |v| && v[x].handle != 0 ==> Dropped(v[x], w[x], name))
    && (forall x :: 0 <= x < |w| && w[x].handle != 0 ==> x < |v| && v[x].handle != 0)
  }

  /** Every live reader is referenced. */
  ghost predicate Referenced(v: seq<Entry>) {
    forall x :: 0 <= x < |v| && v[x].handle != 0 ==> v[x].reference >= 1
  }

  /** A failed attempt to add a reader touches another one exactly when a live reader has the same name
      and port but another device file. */
  lemma FailedAddTouches(v: seq<Entry>, w: seq<Entry>, device: Device)
    requires FailedAdd(v, w, device.name) && Gone(v, device) && Referenced(v)
    ensures Referenced(w)
    ensures !Kept(v, w)
       <==> exists x :: 0 <= x < |v| && v[x].handle != 0 && v[x].device.name == device.name && v[x].device.file != device.file
  {
    if !Kept(v, w) {
      var x :| 0 <= x < |v| && v[x].handle != 0 && w[x] != v[x];
      assert v[x].device.name == device.name;
    }
    if x :| 0 <= x < |v| && v[x].handle != 0 && v[x].device.name == device.name && v[x].device.file != device.file {
      assert w[x].reference == v[x].reference - 1;
    }
  }

  /** A reader that is added is referenced as well. */
  lemma AddedReferenced(v: seq<Entry>, w: seq<Entry>, device: Device, taken: seq<nat>)
    requires Adding(v, w, device, taken) && Referenced(v)
    ensures Referenced(w)
  {
    forall x | 0 <= x < |w| && w[x].handle != 0 ensures w[x].reference >= 1 {
      if x in taken {
        var k :| 0 <= k < |taken| && taken[k] == x;
        assert w[taken[k]].device == device;
      }
    }
  }

  /** Such a case: it is torn down. */
  lemma NamesakeLost(f: Counter, m: Counter, w: seq<Entry>)
    requires FailedAdd([Entry(1, f, m, 1, Device(7, 1)), Blank()], w, 7)
    ensures Gone([Entry(1, f, m, 1, Device(7, 1)), Blank()], Device(7, 2)) && w[0].handle == 0
  {
    var v := [Entry(1, f, m, 1, Device(7, 1)), Blank()];
    assert Dropped(v[0], w[0], 7);
  }

  /** A reader has been put at position i and nowhere else. */
  ghost predicate Placed(v: seq<Entry>, w: seq<Entry>, i: nat) {
    && i < |w| && (i < |v| ==> v[i].handle == 0) && Kept(v, w)
    && forall x :: 0 <= x < |w| && x != i && w[x].handle != 0 ==> x < |v| && v[x].handle != 0
  }

  lemma PlacedAt(v: seq<Entry>, w: seq<Entry>, i: nat, e: Entry)
    requires w == v || w == v + [Blank(), Blank()]
    requires i < |w| && w[i].handle == 0
    ensures Placed(v, w[i := e], i)
  {
  }

  ghost predicate Gone(v: seq<Entry>, device: Device) {
    forall x :: 0 <= x < |v| && v[x].handle != 0 ==> v[x].device != device
  }

  /** The live readers of a device are those at the positions in taken, all of one load, with one reference. */
  ghost predicate Taken(v: seq<Entry>, device: Device, h: nat, taken: seq<nat>) {
    && (forall x :: 0 <= x < |v| && v[x].handle != 0 && v[x].device == device ==> x in taken && v[x].reference == 1)
    && (forall k :: 0 <= k < |taken| ==> taken[k] < |v| && v[taken[k]].handle == h && v[taken[k]].device == device)
    && (forall k, l :: 0 <= k < l < |taken| ==> taken[k] != taken[l])
  }

  predicate IsParent(v: seq<Entry>, parent: Option<nat>) {
    parent.Some? ==> parent.value < |v| && v[parent.value].handle != 0
  }

  /** The load a new reader uses: its parent's, a new one, or none. */
  function LoadOf(v: seq<Entry>, parent: Option<nat>, found: bool, loads: nat): nat
    requires IsParent(v, parent)
  {
    if parent.Some? then v[parent.value].handle else if found then loads + 1 else 0
  }

  ghost predicate Opened(v: seq<Entry>, w: seq<Entry>, i: nat, h: nat) {
    && i < |v| == |w| && w == v[i := w[i]]
    && w[i].device == v[i].device && w[i].reference == v[i].reference && w[i].handle == h
  }

  ghost predicate Begun(v: seq<Entry>, w: seq<Entry>, i: nat, device: Device, h: nat) {
    && i < |v| == |w| && w == v[i := w[i]]
    && w[i].device == device && w[i].reference == 1 && w[i].handle == h
  }

  lemma BegunAfter(v: seq<Entry>, u: seq<Entry>, w: seq<Entry>, i: nat, device: Device, parent: Option<nat>, found: bool, loads: nat)
    requires i < |v| && u == v[i := v[i].(reference := 1, device := device)] && v[i].handle == 0 && IsParent(v, parent)
    requires IsParent(u, parent) && Opened(u, w, i, LoadOf(u, parent, found, loads))
    ensures Begun(v, w, i, device, LoadOf(v, parent, found, loads))
    ensures forall m, alone :: Locked(u, m, parent, alone) ==> Locked(v, m, parent, alone)
  {
    assert forall x :: 0 <= x < |v| && v[x].handle != 0 ==> u[x] == v[x];
  }

  /** m is the mutex counter of no live reader. */
  ghost predicate Apart(v: seq<Entry>, m: Counter?) {
    forall x :: 0 <= x < |v| && v[x].handle != 0 ==> v[x].mutex != m
  }

  /** The mutex counter of a new reader: its parent's, unless it has no parent or the driver is thread safe. */
  ghost predicate Locked(v: seq<Entry>, m: Counter?, parent: Option<nat>, alone: bool) {
    if parent.Some? && !alone then parent.value < |v| && m == v[parent.value].mutex else Apart(v, m)
  }

  /** The mutex counters of the slots of a new reader: the first slot has its parent's or one of its own, and the
      others each have one of their own if the slots are thread safe, else that of the first. */
  ghost predicate Guarded(v: seq<Entry>, w: seq<Entry>, parent: Option<nat>, alone: bool, slotAlone: bool, taken: seq<nat>) {
    && |taken| >= 1 && taken[0] < |w| && Locked(v, w[taken[0]].mutex, parent, alone)
    && forall k :: 1 <= k < |taken| ==>
         (taken[k] < |w|
          && if slotAlone then forall x :: 0 <= x < |w| && x != taken[k] && w[x].handle != 0 ==> w[x].mutex != w[taken[k]].mutex
             else w[taken[k]].mutex == w[taken[0]].mutex)
  }

  lemma GuardedNext(v: seq<Entry>, w: seq<Entry>, u: seq<Entry>, device: Device, parent: Option<nat>, alone: bool, slotAlone: bool,
                    taken: seq<nat>, k: nat)
    requires Adding(v, w, device, taken) && Placed(w, u, k) && Guarded(v, w, parent, alone, slotAlone, taken)
    requires Locked(w, u[k].mutex, Some(taken[0]), slotAlone)
    ensures Guarded(v, u, parent, alone, slotAlone, taken + [k])
  {
    var all := taken + [k];
    assert forall l :: 0 <= l < |taken| ==> w[taken[l]].handle != 0 && u[taken[l]] == w[taken[l]] && taken[l] != k && all[l] == taken[l];
    assert forall x :: 0 <= x < |u| && x != k && u[x].handle != 0 ==> x < |w| && w[x].handle != 0 && u[x] == w[x];
  }

  /** A new reader on its way: its slots so far, and everybody else as before. */
  ghost predicate Adding(v: seq<Entry>, w: seq<Entry>, device: Device, taken: seq<nat>) {
    && Kept(v, w) && Gone(v, device)
    && |taken| >= 1 && taken[0] < |w| && w[taken[0]].handle != 0 && Taken(w, device, w[taken[0]].handle, taken)
    && forall x :: 0 <= x < |w| && w[x].handle != 0 ==> (x < |v| && v[x].handle != 0) || x in taken
  }

  lemma AddingFirst(v: seq<Entry>, w: seq<Entry>, i: nat, device: Device)
    requires Placed(v, w, i) && Gone(v, device) && w[i].handle != 0 && w[i].device == device && w[i].reference == 1
    ensures Adding(v, w, device, [i])
  {
  }

  lemma AddingNext(v: seq<Entry>, w: seq<Entry>, u: seq<Entry>, device: Device, taken: seq<nat>, k: nat)
    requires Adding(v, w, device, taken) && Placed(w, u, k)
    requires u[k].handle == w[taken[0]].handle && u[k].device == device && u[k].reference == 1
    ensures Adding(v, u, device, taken + [k])
  {
    var all := taken + [k];
    assert forall l :: 0 <= l < |taken| ==> w[taken[l]].handle != 0 && u[taken[l]] == w[taken[l]] && taken[l] != k;
    assert forall x :: x in taken ==> x in all;
    assert all[|taken|] == k;
  }

  lemma AllDropped(v: seq<Entry>, w: seq<Entry>, u: seq<Entry>, device: Device, taken: seq<nat>)
    requires Adding(v, w, device, taken) && |u| == |w| && forall j :: 0 <= j < |w| ==> Dropped(w[j], u[j], device.name)
    ensures FailedAdd(v, u, device.name)
  {
  }

  lemma NothingAdded(v: seq<Entry>, w: seq<Entry>, u: seq<Entry>, i: nat, name: int)
    requires Placed(v, w, i) && w[i].handle == 0
    requires |u| == |w| && forall j :: 0 <= j < |w| ==> Dropped(w[j], u[j], name)
    ensures FailedAdd(v, u, name)
  {
  }

  class Table {
    var slots: seq<Slot>
    var loads: nat             // successful calls of DYN_LoadLibrary
    var closed: seq<nat>       // arguments of DYN_CloseLibrary

    ghost function View(): (v: seq<Entry>)
      reads this`slots, slots
      ensures |v| == |slots|
    {
      var t := slots;
      seq(|t|, i reads t requires 0 <= i < |t| => t[i].Get())
    }

    ghost function Members(): set<Slot>
      reads this`slots
    {
      set s | s in slots
    }

    ghost predicate Distinct()
      reads this`slots
    {
      forall i, j :: 0 <= i < j < |slots| ==> slots[i] != slots[j]
    }

    /** The invariant over the table, the counters and the libraries. */
    ghost predicate Valid()
      reads this, slots, Feeds(View()), Mutexes(View())
    {
      && Distinct() && Shape(View()) && Counted(Feeds(View())) && Counted(Mutexes(View()))
      && ClosedOnce(Handles(View()), loads, closed)
    }

    twostate lemma OneChanged(i: nat)
      requires Distinct() && slots == old(slots) && i < |slots|
      requires forall j :: 0 <= j < |slots| && j != i ==> unchanged(slots[j])
      ensures View() == old(View())[i := slots[i].Get()]
    {
    }

    /** Counters after reader i has left its two. */
    twostate lemma LeftFeeds(i: nat)
      requires i < |old(View())| && old(Counted(Feeds(View()))) && old(Feeds(View()))[i] != null
      requires forall c: Counter | c in old(Feeds(View())) :: c.n == old(c.n) - if c == old(Feeds(View()))[i] then 1 else 0
      ensures Counted(old(Feeds(View()))[i := null])
    {
      CountReplaced(old(Feeds(View())), i, null);
    }

    twostate lemma LeftMutexes(i: nat)
      requires i < |old(View())| && old(Counted(Mutexes(View()))) && old(Mutexes(View()))[i] != null
      requires forall c: Counter | c in old(Mutexes(View())) :: c.n == old(c.n) - if c == old(Mutexes(View()))[i] then 1 else 0
      ensures Counted(old(Mutexes(View()))[i := null])
    {
      CountReplaced(old(Mutexes(View())), i, null);
    }

    /** Counters after reader i has joined its two. */
    twostate lemma JoinedFeeds(i: nat)
      requires slots == old(slots) && i < |slots| && old(Counted(Feeds(View()))) && old(Feeds(View()))[i] == null
      requires slots[i].feeds != null && slots[i].feeds.n == multiset(old(Feeds(View())))[slots[i].feeds] + 1
      requires forall d: Counter | d in old(Feeds(View())) && d != slots[i].feeds :: d.n == old(d.n)
      ensures Counted(old(Feeds(View()))[i := slots[i].feeds])
    {
      CountReplaced(old(Feeds(View())), i, slots[i].feeds);
    }

    twostate lemma JoinedMutexes(i: nat)
      requires slots == old(slots) && i < |slots| && old(Counted(Mutexes(View()))) && old(Mutexes(View()))[i] == null
      requires slots[i].mutex != null && slots[i].mutex.n == multiset(old(Mutexes(View())))[slots[i].mutex] + 1
      requires forall d: Counter | d in old(Mutexes(View())) && d != slots[i].mutex :: d.n == old(d.n)
      ensures Counted(old(Mutexes(View()))[i := slots[i].mutex])
    {
      CountReplaced(old(Mutexes(View())), i, slots[i].mutex);
    }

    /** RFUnloadReader */
    method Unload(s: Slot)
      requires s.feeds != null
      modifies s`vHandle, this`closed
      ensures s.vHandle == 0
      ensures closed == if s.feeds.n == 1 then old(closed) + [old(s.vHandle)] else old(closed)
    {
      if s.feeds.n == 1 {
        closed := closed + [s.vHandle];
        s.vHandle := 0;
      }
      s.vHandle := 0;
    }

    /** What removeReader does to the fields of the reader. */
    method Leave(s: Slot)
      requires s.feeds != null && s.mutex != null && s.feeds != s.mutex
      modifies this`closed, s, s.feeds, s.mutex
      ensures s.vHandle == 0 && s.reference == old(s.reference) && s.device == old(s.device)
      ensures old(s.feeds).n == old(s.feeds.n) - 1 && old(s.mutex).n == old(s.mutex.n) - 1
      ensures closed == if old(s.feeds.n) == 1 then old(closed) + [old(s.vHandle)] else old(closed)
    {
      Unload(s);
      s.mutex.n := s.mutex.n - 1;
      if s.mutex.n == 0 { s.mutex := null; }
      s.feeds.n := s.feeds.n - 1;
      if s.feeds.n == 0 { s.feeds := null; }
    }

    method Withdraw(i: nat)
      requires Distinct() && Shape(View()) && i < |slots| && slots[i].vHandle != 0
      requires slots[i].feeds != null && slots[i].mutex != null
      modifies this`closed, slots[i], slots[i].feeds, slots[i].mutex
      ensures View() == old(View())[i := slots[i].Get()]
      ensures slots[i].vHandle == 0 && slots[i].reference == old(slots[i].reference) && slots[i].device == old(slots[i].device)
      ensures closed == if old(slots[i].feeds.n) == 1 then old(closed) + [old(slots[i].vHandle)] else old(closed)
      ensures forall c: Counter | c in old(Feeds(View())) :: c.n == old(c.n) - if c == old(Feeds(View()))[i] then 1 else 0
      ensures forall c: Counter | c in old(Mutexes(View())) :: c.n == old(c.n) - if c == old(Mutexes(View()))[i] then 1 else 0
    {
      Separate(View(), i);
      Leave(slots[i]);
      OneChanged(i);
    }

    /** removeReader: the reader leaves the counters; the driver is closed when no other live reader uses it. */
    method Remove(i: nat)
      requires Valid() && i < |slots| && slots[i].vHandle != 0
      modifies this`closed, slots[i], slots[i].feeds, slots[i].mutex
      ensures Valid() && View() == old(View())[i := slots[i].Get()]
      ensures slots[i].vHandle == 0 && slots[i].reference == old(slots[i].reference) && slots[i].device == old(slots[i].device)
      ensures closed == old(closed) + if old(slots[i].vHandle) in Handles(View()) then [] else [old(slots[i].vHandle)]
    {
      ghost var v := View();
      LastFeed(v, i);
      Separate(v, i);
      Withdraw(i);
      Emptied(v, i, slots[i].Get());
      LeftFeeds(i);
      LeftMutexes(i);
      ClosedByLast(Handles(v), loads, old(closed), i);
    }

    /** _RefReader */
    method Ref(i: nat) returns (ok: bool)
      requires Valid() && i < |slots|
      modifies slots[i]
      ensures Valid() && ok == (old(slots[i].reference) != 0)
      ensures View() == old(View())[i := old(slots[i].Get()).(reference := old(slots[i].reference) + if ok then 1 else 0)]
    {
      ghost var v := View();
      if slots[i].reference == 0 {
        assert v[i := v[i]] == v;
        return false;
      }
      slots[i].reference := slots[i].reference + 1;
      OneChanged(i);
      SameCells(v, i, slots[i].Get());
      return true;
    }

    lemma SameCells(v: seq<Entry>, i: nat, e: Entry)
      requires Shape(v) && i < |v| && e == v[i].(reference := e.reference)
      ensures var w := v[i := e]; Shape(w) && Feeds(w) == Feeds(v) && Mutexes(w) == Mutexes(v) && Handles(w) == Handles(v)
    {
    }

    /** _UnrefReader: the last reference tears the reader down. */
    method Unref(i: nat) returns (ok: bool)
      requires Valid() && i < |slots| && slots[i].vHandle != 0
      modifies this`closed, slots[i], slots[i].feeds, slots[i].mutex
      ensures Valid() && ok == (old(slots[i].reference) != 0) && View() == old(View())[i := slots[i].Get()]
      ensures slots[i].device == old(slots[i].device)
      ensures slots[i].reference == old(slots[i].reference) - if ok then 1 else 0
      ensures slots[i].vHandle == if old(slots[i].reference) == 1 then 0 else old(slots[i].vHandle)
      ensures slots[i].vHandle != 0 ==> slots[i].feeds == old(slots[i].feeds) && slots[i].mutex == old(slots[i].mutex)
      ensures closed == old(closed) + if old(slots[i].vHandle) in Handles(View()) then [] else [old(slots[i].vHandle)]
    {
      ghost var v := View();
      assert Handles(v)[i] == slots[i].vHandle;
      if slots[i].reference == 0 {
        assert v[i := v[i]] == v;
        return false;
      }
      slots[i].reference := slots[i].reference - 1;
      OneChanged(i);
      SameCells(v, i, slots[i].Get());
      if slots[i].reference == 0 { Remove(i); }
      return true;
    }

    /** The fields a reader takes from its parent p; alone: the driver says it is thread safe, so that
        the reader gets a mutex of its own. */
    method Share(s: Slot, p: Slot, alone: bool)
      requires s != p && p.feeds != null && p.mutex != null && p.feeds != p.mutex
      modifies s, p.feeds, p.mutex
      ensures s.vHandle == p.vHandle && s.reference == old(s.reference) && s.device == old(s.device)
      ensures s.feeds == p.feeds && s.feeds.n == old(p.feeds.n) + 1
      ensures if alone then fresh(s.mutex) && s.mutex.n == 1 && p.mutex.n == old(p.mutex.n)
              else s.mutex == p.mutex && s.mutex.n == old(p.mutex.n) + 1
    {
      s.feeds := p.feeds;
      s.feeds.n := s.feeds.n + 1;
      s.vHandle := p.vHandle;
      s.mutex := p.mutex;
      if alone {
        s.mutex := new Counter(1);
      } else {
        s.mutex.n := s.mutex.n + 1;
      }
    }

    /** A reader joins the library and the counters of reader p. */
    method Join(i: nat, p: nat, alone: bool)
      requires Valid() && i < |slots| && p < |slots| && slots[i].vHandle == 0 && slots[p].vHandle != 0
      modifies slots[i], slots[p].feeds, slots[p].mutex
      ensures Valid() && View() == old(View())[i := slots[i].Get()]
      ensures slots[i].vHandle == old(slots[p].vHandle) && slots[i].feeds == old(slots[p].feeds)
      ensures slots[i].reference == old(slots[i].reference) && slots[i].device == old(slots[i].device)
      ensures slots[i].mutex != null && old(slots[p].mutex) != null
      ensures if alone then fresh(slots[i].mutex) && slots[i].mutex.n == 1 && old(slots[p].mutex).n == old(slots[p].mutex.n)
              else slots[i].mutex == old(slots[p].mutex) && slots[i].mutex.n == old(slots[p].mutex.n) + 1
    {
      hide Shape, Counted, ClosedOnce;
      ghost var v := View();
      Separate(v, p);
      Sharers(v, p);
      assert v[i] == slots[i].Get() && v[p] == slots[p].Get();
      Share(slots[i], slots[p], alone);
      OneChanged(i);
      Filled(v, i, slots[i].Get());
      CountZero(Mutexes(v), slots[i].mutex);
      JoinedFeeds(i);
      JoinedMutexes(i);
      OpenedAgain(Handles(v), loads, closed, i, slots[i].vHandle);
    }

    /** The library is found: a load of its own, and counters at 1. */
    method Open(i: nat, f: Counter, m: Counter)
      requires Valid() && i < |slots| && slots[i].vHandle == 0 && f.n == 1 && m.n == 1 && f != m
      requires f !in Feeds(View()) && f !in Mutexes(View()) && m !in Feeds(View()) && m !in Mutexes(View())
      modifies this`loads, slots[i]
      ensures Valid() && View() == old(View())[i := slots[i].Get()] && loads == old(loads) + 1
      ensures slots[i].Get() == old(slots[i].Get()).(handle := loads, feeds := f, mutex := m)
    {
      hide Shape, Counted, ClosedOnce;
      ghost var v := View();
      NewLoad(v, i, f);
      loads := loads + 1;
      slots[i].feeds, slots[i].mutex, slots[i].vHandle := f, m, loads;
      OneChanged(i);
      Filled(v, i, slots[i].Get());
      CountZero(Feeds(v), f);
      CountZero(Mutexes(v), m);
      JoinedFeeds(i);
      JoinedMutexes(i);
      OpenedAgain(Handles(v), old(loads), closed, i, loads);
    }

    lemma NewLoad(v: seq<Entry>, i: nat, f: Counter)
      requires ClosedOnce(Handles(v), loads, closed) && f !in Feeds(v)
      ensures forall j :: 0 <= j < |v| ==> v[j].handle <= loads && (v[j].handle != 0 ==> v[j].feeds != f)
    {
      forall j | 0 <= j < |v| ensures v[j].handle <= loads && (v[j].handle != 0 ==> v[j].feeds != f) {
        assert Handles(v)[j] in Handles(v) && Feeds(v)[j] in Feeds(v);
      }
    }

    method NewCounters() returns (f: Counter, m: Counter)
      ensures fresh(f) && fresh(m) && f != m && f.n == 1 && m.n == 1
    {
      f := new Counter(1);
      m := new Counter(1);
    }

    /** A reader without a parent: counters of its own, and DYN_LoadLibrary, which may fail. */
    method Load(i: nat, found: bool)
      requires Valid() && i < |slots| && slots[i].vHandle == 0
      modifies this`loads, slots[i]
      ensures Valid() && View() == old(View())[i := slots[i].Get()]
      ensures slots[i].vHandle == if found then old(loads) + 1 else 0
      ensures slots[i].reference == old(slots[i].reference) && slots[i].device == old(slots[i].device)
      ensures found ==> fresh(slots[i].feeds) && fresh(slots[i].mutex)
    {
      var f, m := NewCounters();
      if found { Open(i, f, m); } else { Equip(i, f, m); }
    }

    /** The library is not found: the reader has counters but is not live. */
    method Equip(i: nat, f: Counter, m: Counter)
      requires Valid() && i < |slots| && slots[i].vHandle == 0
      modifies slots[i]
      ensures Valid() && View() == old(View())[i := slots[i].Get()]
      ensures slots[i].Get() == old(slots[i].Get()).(feeds := f, mutex := m)
    {
      ghost var v := View();
      slots[i].feeds, slots[i].mutex := f, m;
      OneChanged(i);
      StillEmpty(v, i, slots[i].Get());
    }

    lemma StillEmpty(v: seq<Entry>, i: nat, e: Entry)
      requires Shape(v) && i < |v| && v[i].handle == 0 && e.handle == 0
      ensures var w := v[i := e]; Shape(w) && Feeds(w) == Feeds(v) && Mutexes(w) == Mutexes(v) && Handles(w) == Handles(v)
    {
    }

    /** The body of the loop of RFRemoveReader. */
    method DropAt(i: nat, name: int)
      requires Valid() && i < |slots|
      modifies this`closed, slots[i], Feeds(View())[i], Mutexes(View())[i]
      ensures Valid() && View() == old(View())[i := slots[i].Get()]
      ensures Dropped(old(slots[i].Get()), slots[i].Get(), name)
    {
      ghost var v := View();
      if slots[i].vHandle != 0 && slots[i].device.name == name {
        Separate(v, i);
        var _ := Unref(i);
      } else {
        assert v[i := v[i]] == v;
      }
    }

    /** RFRemoveReader: the readers of one name and port lose the reference of the table. */
    method RemoveReaders(name: int)
      requires Valid()
      modifies this`closed, Members(), Cells(View())
      ensures Valid() && |View()| == |old(View())|
      ensures forall j :: 0 <= j < |View()| ==> Dropped(old(View())[j], View()[j], name)
    {
      hide Valid;
      ghost var v := View();
      var i := 0;
      while i < |slots|
        invariant 0 <= i <= |slots| && Valid() && |View()| == |v|
        invariant forall j :: 0 <= j < i ==> Dropped(v[j], View()[j], name)
        invariant forall j :: i <= j < |v| ==> View()[j] == v[j]
      {
        KeepsCells(v, View(), i);
        DropAt(i, name);
        i := i + 1;
      }
    }

    lemma KeepsCells(v: seq<Entry>, w: seq<Entry>, i: nat)
      requires i < |v| == |w| && w[i] == v[i]
      ensures Feeds(w)[i] == null || Feeds(w)[i] in Cells(v)
      ensures Mutexes(w)[i] == null || Mutexes(w)[i] in Cells(v)
    {
      assert Feeds(w)[i] == Feeds(v)[i] && Mutexes(w)[i] == Mutexes(v)[i];
    }

    /** Same name, same port, same device file: a reader that is already there. */
    method Duplicate(device: Device) returns (yes: bool)
      requires Valid()
      ensures yes <==> exists e :: e in View() && e.handle != 0 && e.device == device
    {
      var i := 0;
      while i < |slots|
        invariant 0 <= i <= |slots| && forall j :: 0 <= j < i ==> View()[j].handle == 0 || View()[j].device != device
      {
        assert View()[i] in View();
        if slots[i].vHandle != 0 && slots[i].device == device { return true; }
        i := i + 1;
      }
      return false;
    }

    /** An entry without a reader; the table grows by two when there is none. */
    method FreeSlot() returns (i: nat)
      requires Valid()
      modifies this`slots
      ensures Valid() && i < |View()| && View()[i].handle == 0
      ensures View() == old(View()) || View() == old(View()) + [Blank(), Blank()]
      ensures fresh(Members() - old(Members()))
      ensures Cells(View()) == old(Cells(View()))
    {
      i := 0;
      while i < |slots| && slots[i].vHandle != 0
        invariant 0 <= i <= |slots|
      {
        i := i + 1;
      }
      assert i < |slots| ==> slots[i].Get() == View()[i];
      if i == |slots| {
        GrownLists(View(), View() + [Blank(), Blank()]);
        Grow();
      }
    }

    /** RFReAllocateReaderSpace */
    method Grow()
      requires Valid()
      modifies this`slots
      ensures Valid() && |slots| == |old(slots)| + 2 && old(slots) <= slots
      ensures View() == old(View()) + [Blank(), Blank()]
      ensures fresh(Members() - old(Members()))
    {
      hide Shape, Counted, ClosedOnce;
      ghost var v := View();
      Grown(v);
      var a := new Slot();
      var b := new Slot();
      slots := slots + [a, b];
      assert View() == v + [a.Get(), b.Get()];
    }

    lemma Grown(v: seq<Entry>)
      requires Shape(v) && Counted(Feeds(v)) && Counted(Mutexes(v)) && ClosedOnce(Handles(v), loads, closed)
      ensures var w := v + [Blank(), Blank()];
        Shape(w) && Counted(Feeds(w)) && Counted(Mutexes(w)) && ClosedOnce(Handles(w), loads, closed)
    {
      var w := v + [Blank(), Blank()];
      GrownLists(v, w);
    }

    lemma GrownLists(v: seq<Entry>, w: seq<Entry>)
      requires w == v + [Blank(), Blank()]
      ensures Feeds(w) == Feeds(v) + [null, null] && Mutexes(w) == Mutexes(v) + [null, null] && Handles(w) == Handles(v) + [0, 0]
      ensures multiset(Feeds(w)) == multiset(Feeds(v)) + multiset([null, null])
      ensures multiset(Mutexes(w)) == multiset(Mutexes(v)) + multiset([null, null])
    {
      assert Feeds(w) == Feeds(v) + [null, null] && Mutexes(w) == Mutexes(v) + [null, null] && Handles(w) == Handles(v) + [0, 0];
      assert multiset(Feeds(w)) == multiset(Feeds(v)) + multiset([null, null]);
      assert multiset(Mutexes(w)) == multiset(Mutexes(v)) + multiset([null, null]);
    }

    lemma Listed(v: seq<Entry>, p: nat)
      requires Shape(v) && p < |v| && v[p].handle != 0
      ensures v[p].feeds in Cells(v) && v[p].mutex in Cells(v)
    {
      assert Feeds(v)[p] == v[p].feeds && Mutexes(v)[p] == v[p].mutex;
    }

    lemma NewCells(v: seq<Entry>, i: nat, e: Entry)
      requires i < |v|
      ensures forall c :: c in Cells(v[i := e]) ==> c in Cells(v) || (e.handle != 0 && (c == e.feeds || c == e.mutex))
    {
      var w := v[i := e];
      forall k | 0 <= k < |w| && k != i ensures Feeds(w)[k] == Feeds(v)[k] && Mutexes(w)[k] == Mutexes(v)[k] {}
    }

    method Label(i: nat, device: Device)
      requires Valid() && i < |View()| && View()[i].handle == 0
      modifies Members()
      ensures Valid() && View() == old(View())[i := old(View())[i].(reference := 1, device := device)]
      ensures slots[i].Get() == View()[i] && Cells(View()) == old(Cells(View()))
    {
      ghost var v := View();
      assert slots[i].Get() == v[i] && slots[i] in Members();
      slots[i].reference, slots[i].device := 1, device;
      OneChanged(i);
      StillEmpty(v, i, slots[i].Get());
    }

    method JoinParent(i: nat, p: nat, alone: bool)
      requires Valid() && i < |View()| && View()[i].handle == 0 && p < |View()| && View()[p].handle != 0
      modifies Members(), Cells(View())
      ensures Valid() && Opened(old(View()), View(), i, old(View())[p].handle)
      ensures Locked(old(View()), View()[i].mutex, Some(p), alone)
      ensures fresh(Cells(View()) - old(Cells(View())))
    {
      ghost var v := View();
      Listed(v, p);
      assert slots[i].Get() == v[i] && slots[p].Get() == v[p] && slots[i] in Members();
      Join(i, p, alone);
      NewCells(v, i, slots[i].Get());
      OwnMutex(v, slots[i].mutex);
    }

    method LoadAlone(i: nat, found: bool)
      requires Valid() && i < |View()| && View()[i].handle == 0
      modifies this`loads, Members()
      ensures Valid() && Opened(old(View()), View(), i, if found then old(loads) + 1 else 0)
      ensures found ==> Apart(old(View()), View()[i].mutex)
      ensures fresh(Cells(View()) - old(Cells(View())))
    {
      ghost var v := View();
      assert slots[i].Get() == v[i] && slots[i] in Members();
      Load(i, found);
      NewCells(v, i, slots[i].Get());
      OwnMutex(v, slots[i].mutex);
    }

    method Attach(i: nat, parent: Option<nat>, alone: bool, found: bool)
      requires Valid() && i < |View()| && View()[i].handle == 0 && IsParent(View(), parent)
      modifies this`loads, Members(), Cells(View())
      ensures Valid() && Opened(old(View()), View(), i, LoadOf(old(View()), parent, found, old(loads)))
      ensures parent.Some? || found ==> Locked(old(View()), View()[i].mutex, parent, alone)
      ensures fresh(Cells(View()) - old(Cells(View())))
    {
      hide Valid;
      if parent.Some? {
        JoinParent(i, parent.value, alone);
      } else {
        LoadAlone(i, found);
      }
    }

    lemma OwnMutex(v: seq<Entry>, m: Counter?)
      ensures m !in Mutexes(v) ==> Apart(v, m)
    {
      forall x | 0 <= x < |v| && v[x].handle != 0 ensures Mutexes(v)[x] == v[x].mutex {}
    }

    /** The first slot of a new reader, as a clone of a parent or with a library of its own. */
    method Begin(i: nat, device: Device, parent: Option<nat>, alone: bool, found: bool)
      requires Valid() && i < |View()| && View()[i].handle == 0 && IsParent(View(), parent)
      modifies this`loads, Members(), Cells(View())
      ensures Valid() && Begun(old(View()), View(), i, device, LoadOf(old(View()), parent, found, old(loads)))
      ensures parent.Some? || found ==> Locked(old(View()), View()[i].mutex, parent, alone)
      ensures fresh(Cells(View()) - old(Cells(View())))
    {
      hide Valid;
      ghost var v := View();
      Label(i, device);
      ghost var u := View();
      Attach(i, parent, alone, found);
      BegunAfter(v, u, View(), i, device, parent, found, old(loads));
    }

    /** A free entry, filled. */
    method Place(device: Device, parent: Option<nat>, alone: bool, found: bool) returns (i: nat)
      requires Valid() && IsParent(View(), parent)
      modifies this`loads, this`slots, Members(), Cells(View())
      ensures Valid() && Placed(old(View()), View(), i) && View()[i].device == device && View()[i].reference == 1
      ensures View()[i].handle == LoadOf(old(View()), parent, found, old(loads))
      ensures parent.Some? || found ==> Locked(old(View()), View()[i].mutex, parent, alone)
      ensures fresh(Members() - old(Members())) && fresh(Cells(View()) - old(Cells(View())))
    {
      hide Valid;
      ghost var v := View();
      i := FreeSlot();
      ghost var w := View();
      Begin(i, device, parent, alone, found);
      PlacedAt(v, w, i, View()[i]);
    }

    method NextSlot(device: Device, i: nat, ghost parent: Option<nat>, ghost alone: bool, slotAlone: bool, ghost v: seq<Entry>,
                    ghost taken0: seq<nat>)
      returns (ghost taken: seq<nat>)
      requires Valid() && Adding(v, View(), device, taken0) && taken0[0] == i
      requires Guarded(v, View(), parent, alone, slotAlone, taken0)
      modifies this`loads, this`slots, Members(), Cells(View())
      ensures Valid() && Adding(v, View(), device, taken) && |taken| == |taken0| + 1 && taken[0] == i
      ensures i < |old(View())| && i < |View()| && View()[i].handle == old(View())[i].handle
      ensures Guarded(v, View(), parent, alone, slotAlone, taken)
      ensures fresh(Members() - old(Members())) && fresh(Cells(View()) - old(Cells(View())))
    {
      hide Valid;
      ghost var w := View();
      var k := Place(device, Some(i), slotAlone, false);
      AddingNext(v, w, View(), device, taken0, k);
      GuardedNext(v, w, View(), device, parent, alone, slotAlone, taken0, k);
      taken := taken0 + [k];
    }

    /** The slots after the first, until one does not open. */
    method OtherSlots(device: Device, i: nat, ghost parent: Option<nat>, ghost alone: bool, slotAlone: bool, opens: seq<bool>,
                      ghost v: seq<Entry>)
      returns (open: bool, ghost taken: seq<nat>)
      requires Valid() && |opens| >= 1 && opens[0] && Adding(v, View(), device, [i])
      requires Guarded(v, View(), parent, alone, slotAlone, [i])
      modifies this`loads, this`slots, Members(), Cells(View())
      ensures Valid() && Adding(v, View(), device, taken) && open == (false !in opens) && (open ==> |taken| == |opens|)
      ensures i < |old(View())| && taken[0] == i && View()[i].handle == old(View())[i].handle
      ensures Guarded(v, View(), parent, alone, slotAlone, taken)
      ensures fresh(Members() - old(Members())) && fresh(Cells(View()) - old(Cells(View())))
    {
      hide Valid;
      var j := 1;
      taken := [i];
      open := true;
      while open && j < |opens|
        invariant 1 <= j <= |opens| && Valid() && Adding(v, View(), device, taken) && taken[0] == i && |taken| == j
        invariant open == (false !in opens[..j]) && Guarded(v, View(), parent, alone, slotAlone, taken)
        invariant i < |old(View())| && View()[i].handle == old(View())[i].handle
        invariant fresh(Members() - old(Members())) && fresh(Cells(View()) - old(Cells(View())))
      {
        taken := NextSlot(device, i, parent, alone, slotAlone, v, taken);
        open := opens[j];
        assert opens[..j + 1] == opens[..j] + [opens[j]];
        j := j + 1;
      }
      assert opens == opens[..j] + opens[j..];
    }

    /** RFRemoveReader after a slot has failed: the slots so far go again, and namesakes lose a reference. */
    method GiveUp(device: Device, ghost v: seq<Entry>, ghost taken: seq<nat>)
      requires Valid() && Adding(v, View(), device, taken)
      modifies this`closed, Members(), Cells(View())
      ensures Valid() && FailedAdd(v, View(), device.name)
    {
      hide Valid;
      ghost var w := View();
      RemoveReaders(device.name);
      AllDropped(v, w, View(), device, taken);
    }

    /** RFAddReader. parent is the clone RFSetReaderName found; opens says which slots IFDOpenIFD opens.
        A reader that is added, or is there already, leaves the others as they were. When the library is
        not found or a slot does not open, no slot of the new reader stays, and every live reader of
        the same name and port, of whatever device file, loses a reference. */
    method AddReader(device: Device, parent: Option<nat>, alone: bool, slotAlone: bool, found: bool, opens: seq<bool>)
      returns (rv: Added, ghost taken: seq<nat>)
      requires Valid() && |opens| >= 1 && IsParent(View(), parent)
      modifies this, Members(), Cells(View())
      ensures Valid()
      ensures rv == DuplicateReader <==> !Gone(old(View()), device)
      ensures rv == DuplicateReader ==> View() == old(View())
      ensures rv == AllSlots ==> Adding(old(View()), View(), device, taken) && |taken| == |opens|
      ensures rv == AllSlots ==> Guarded(old(View()), View(), parent, alone, slotAlone, taken)
      ensures rv == AllSlots ==> View()[taken[0]].handle == LoadOf(old(View()), parent, found, old(loads))
      ensures rv == NotLoaded || rv == NotOpened ==> FailedAdd(old(View()), View(), device.name)
      ensures rv == NotLoaded <==> Gone(old(View()), device) && parent == None && !found
      ensures rv == NotOpened <==> Gone(old(View()), device) && (parent.Some? || found) && false in opens
    {
      hide Valid;
      var known := Duplicate(device);
      if known { return DuplicateReader, []; }
      rv, taken := AddSlots(device, parent, alone, slotAlone, found, opens);
    }

    method AddSlots(device: Device, parent: Option<nat>, alone: bool, slotAlone: bool, found: bool, opens: seq<bool>)
      returns (rv: Added, ghost taken: seq<nat>)
      requires Valid() && |opens| >= 1 && IsParent(View(), parent) && Gone(View(), device)
      modifies this, Members(), Cells(View())
      ensures Valid()
      ensures rv == if parent == None && !found then NotLoaded else if false in opens then NotOpened else AllSlots
      ensures rv == AllSlots ==> Adding(old(View()), View(), device, taken) && |taken| == |opens|
      ensures rv == AllSlots ==> Guarded(old(View()), View(), parent, alone, slotAlone, taken)
      ensures rv == AllSlots ==> View()[taken[0]].handle == LoadOf(old(View()), parent, found, old(loads))
      ensures rv != AllSlots ==> FailedAdd(old(View()), View(), device.name)
    {
      hide Valid;
      ghost var v := View();
      var i := Place(device, parent, alone, found);
      assert slots[i].Get() == View()[i];
      if slots[i].vHandle == 0 {
        ghost var w := View();
        RemoveReaders(device.name);
        NothingAdded(v, w, View(), i, device.name);
        return NotLoaded, [];
      }
      AddingFirst(v, View(), i, device);
      taken := [i];
      var open := opens[0];
      if open { open, taken := OtherSlots(device, i, parent, alone, slotAlone, opens, v); }
      if open { return AllSlots, taken; }
      GiveUp(device, v, taken);
      return NotOpened, [];
    }
  }
}
