/** SCardListReaders of src/winscard_clnt.c: the reader names as a multi-string, and the walk over it
    of doc/example/pcsc_demo.c. */
module ListReaders {
  const NUL := '\0'

  /** The return values of SCardListReaders modelled here. */
  datatype Result = Listed | NoReadersAvailable | InvalidParameter | InsufficientBuffer

  /** *pcchReaders on entry: SCARD_AUTOALLOCATE or a number of characters. */
  datatype Room = AutoAllocate | Size(n: nat)

  /** A string as C has it. */
  predicate CString(s: string) {
    NUL !in s
  }

  predicate CStrings(names: seq<string>) {
    forall i :: 0 <= i < |names| ==> CString(names[i])
  }

  function NonEmpty(names: seq<string>): (r: seq<string>)
    ensures CStrings(names) ==> CStrings(r)
    ensures "" !in r
  {
    if names == [] then [] else (if names[0] == "" then [] else [names[0]]) + NonEmpty(names[1..])
  }

  /** Each name and a NUL. */
  function Joined(names: seq<string>): string {
    if names == [] then "" else (if names[0] == "" then "" else names[0] + [NUL]) + Joined(names[1..])
  }

  /** The multi-string: a last NUL ends the list. */
  function Multi(names: seq<string>): string {
    Joined(names) + [NUL]
  }

  lemma {:induction false} JoinedSnoc(names: seq<string>, name: string)
    ensures Joined(names + [name]) == Joined(names) + if name == "" then "" else name + [NUL]
  {
    if names == [] {
      assert [name][1..] == [] && [] + [name] == [name];
    } else {
      assert (names + [name])[1..] == names[1..] + [name];
      JoinedSnoc(names[1..], name);
    }
  }

  lemma {:induction false} JoinedPrefix(names: seq<string>, i: nat)
    requires i <= |names|
    ensures |Joined(names[..i])| <= |Joined(names)|
    ensures i < |names| ==> Joined(names[..i + 1]) == Joined(names[..i]) + if names[i] == "" then "" else names[i] + [NUL]
    decreases |names| - i
  {
    if i < |names| {
      assert names[..i + 1] == names[..i] + [names[i]];
      JoinedSnoc(names[..i], names[i]);
      JoinedPrefix(names, i + 1);
    } else {
      assert names[..i] == names;
    }
  }

  /** strcpy(buf + at, name) */
  method CopyName(buf: array<char>, at: nat, name: string)
    requires at + |name| + 1 <= buf.Length
    modifies buf
    ensures buf[..] == old(buf[..at]) + name + [NUL] + old(buf[at + |name| + 1..])
  {
    var k := 0;
    while k < |name|
      invariant 0 <= k <= |name|
      invariant buf[..at] == old(buf[..at]) && buf[at..at + k] == name[..k] && buf[at + k..] == old(buf[at + k..])
    {
      buf[at + k] := name[k];
      k := k + 1;
    }
    buf[at + k] := NUL;
    assert buf[..] == buf[..at] + buf[at..at + k] + [buf[at + k]] + buf[at + k + 1..];
    assert buf[at + k + 1..] == old(buf[at + |name| + 1..]);
  }

  /** The second loop: the names and the last NUL. */
  method WriteNames(names: seq<string>, buf: array<char>)
    requires |Multi(names)| <= buf.Length
    modifies buf
    ensures buf[..|Multi(names)|] == Multi(names) && buf[|Multi(names)|..] == old(buf[|Multi(names)|..])
  {
    var at := 0;
    var i := 0;
    while i < |names|
      invariant 0 <= i <= |names| && at == |Joined(names[..i])| <= |Joined(names)|
      invariant buf[..at] == Joined(names[..i]) && buf[at..] == old(buf[at..])
    {
      JoinedPrefix(names, i);
      JoinedPrefix(names, i + 1);
      if names[i] != "" {
        ghost var before := buf[..];
        CopyName(buf, at, names[i]);
        Advanced(before, buf[..], old(buf[..]), at, names[i]);
        at := at + |names[i]| + 1;
      }
      i := i + 1;
    }
    assert names[..i] == names;
    buf[at] := NUL;
    assert buf[..at + 1] == buf[..at] + [NUL];
    assert buf[at + 1..] == old(buf[at..])[1..] == old(buf[at + 1..]);
  }

  lemma Advanced(before: string, after: string, start: string, at: nat, name: string)
    requires at + |name| + 1 <= |before| == |start|
    requires after == before[..at] + name + [NUL] + before[at + |name| + 1..] && before[at..] == start[at..]
    ensures after[..at + |name| + 1] == before[..at] + (name + [NUL])
    ensures after[at + |name| + 1..] == start[at + |name| + 1..]
  {
    assert before[at..][|name| + 1..] == before[at + |name| + 1..];
    assert start[at..][|name| + 1..] == start[at + |name| + 1..];
  }

  /** The first loop: room for the names and the last NUL. */
  method TotalLength(names: seq<string>) returns (length: nat)
    ensures length == |Multi(names)|
  {
    length := 0;
    var i := 0;
    while i < |names|
      invariant 0 <= i <= |names| && length == |Joined(names[..i])|
    {
      JoinedPrefix(names, i);
      if names[i] != "" { length := length + |names[i]| + 1; }
      i := i + 1;
    }
    assert names[..i] == names;
    length := length + 1;
  }

  /** SCardListReaders. names are the names in readerStates; a buffer has room for as many characters
      as the caller says; with SCARD_AUTOALLOCATE the buffer is where the new array is put, so that
      only its being there matters. */
  method SCardListReaders(names: seq<string>, buffer: array?<char>, room: Room)
    returns (rv: Result, length: nat, result: array?<char>)
    requires buffer != null && room.Size? ==> room.n <= buffer.Length
    modifies buffer
    ensures length == |Multi(names)|
    ensures rv == (if NonEmpty(names) == [] then NoReadersAvailable
                   else if room == AutoAllocate && buffer == null then InvalidParameter
                   else if room.Size? && buffer != null && room.n < length then InsufficientBuffer
                   else Listed)
    ensures rv == Listed && buffer != null ==> result != null && result.Length >= length && result[..length] == Multi(names)
    ensures rv == Listed && room.Size? ==> result == buffer
    ensures rv == Listed && room == AutoAllocate ==> fresh(result) && result.Length == length
    ensures rv == Listed && room.Size? && buffer != null ==> buffer[length..] == old(buffer[length..])
    ensures buffer != null && (rv != Listed || room == AutoAllocate) ==> buffer[..] == old(buffer[..]) && result != buffer
  {
    length := TotalLength(names);
    JoinedEmpty(names);
    result := null;
    if length == 1 { return NoReadersAvailable, length, null; }
    if room == AutoAllocate {
      if buffer == null { return InvalidParameter, length, null; }
      result := new char[length];
    } else {
      if buffer != null && room.n < length { return InsufficientBuffer, length, null; }
      result := buffer;
    }
    rv := Listed;
    if result != null { WriteNames(names, result); }
  }

  lemma {:induction false} JoinedEmpty(names: seq<string>)
    ensures Joined(names) == "" <==> NonEmpty(names) == []
  {
    if names != [] { JoinedEmpty(names[1..]); }
  }

  // ---- reading it back ----

  /** What a walk from p finds, if it stays inside. */
  ghost predicate Reads(s: string, p: nat, names: seq<string>)
    decreases |names|
  {
    p < |s| &&
    if names == [] then s[p] == NUL
    else names[0] != "" && CString(names[0]) && p + |names[0]| < |s| && s[p..p + |names[0]|] == names[0]
         && s[p + |names[0]|] == NUL && Reads(s, p + |names[0]| + 1, names[1..])
  }

  lemma ReadsFirst(s: string, p: nat, n: string, rest: seq<string>, before: string, tail: string)
    requires n != "" && CString(n) && s == before + n + [NUL] + tail && p == |before| && Reads(s, p + |n| + 1, rest)
    ensures Reads(s, p, [n] + rest)
  {
    var names := [n] + rest;
    assert names[0] == n && names[1..] == rest;
    assert s[p..p + |n|] == n && s[p + |n|] == NUL;
  }

  lemma FirstApart(names: seq<string>, before: string, after: string)
    requires names != []
    ensures var next := if names[0] == "" then before else before + names[0] + [NUL];
      before + Multi(names) + after == next + Multi(names[1..]) + after == next + (Multi(names[1..]) + after)
  {
    hide Multi;
    var head := if names[0] == "" then "" else names[0] + [NUL];
    MultiStep(names);
    Regroup(before, head, Multi(names[1..]), after);
    assert before + head == if names[0] == "" then before else before + names[0] + [NUL];
  }

  lemma MultiStep(names: seq<string>)
    requires names != []
    ensures Multi(names) == (if names[0] == "" then "" else names[0] + [NUL]) + Multi(names[1..])
  {
  }

  lemma Regroup(a: string, b: string, c: string, d: string)
    ensures a + (b + c) + d == (a + b) + c + d == (a + b) + (c + d)
  {
  }

  /** Round trip: what is written is read back as the names that are not empty, in order. */
  lemma {:induction false} MultiReadsBack(names: seq<string>, before: string, after: string)
    requires CStrings(names)
    ensures Reads(before + Multi(names) + after, |before|, NonEmpty(names))
    decreases names
  {
    hide CString;
    var s := before + Multi(names) + after;
    if names == [] {
      assert s[|before|] == NUL;
    } else {
      var n, rest := names[0], names[1..];
      var next := if n == "" then before else before + n + [NUL];
      FirstApart(names, before, after);
      assert NonEmpty(names) == if n == "" then NonEmpty(rest) else [n] + NonEmpty(rest);
      MultiReadsBack(rest, next, after);
      if n != "" { ReadsFirst(s, |before|, n, NonEmpty(rest), before, Multi(rest) + after); }
    }
  }

  /** The walk of the demo client. It stays inside the multi-string. */
  method Walk(buf: array<char>, length: nat, ghost names: seq<string>) returns (readers: seq<string>)
    requires CStrings(names) && length <= buf.Length && buf[..length] == Multi(names)
    ensures readers == NonEmpty(names)
  {
    hide Reads, NonEmpty, Multi, CStrings;
    readers := [];
    var p := 0;
    ghost var rest := NonEmpty(names);
    MultiReadsBack(names, "", "");
    assert "" + Multi(names) + "" == buf[..length];
    ReadsEnd(buf[..length], 0, rest);
    while buf[p] != NUL
      invariant 0 <= p < length && Reads(buf[..length], p, rest) && (buf[p] == NUL ==> rest == [])
      invariant readers + rest == NonEmpty(names)
      decreases length - p
    {
      var name := ReadName(buf, length, p, rest);
      Moved(readers, name, rest);
      readers := readers + [name];
      p := p + |name| + 1;
      rest := rest[1..];
    }
  }

  lemma ReadsEnd(s: string, p: nat, names: seq<string>)
    requires Reads(s, p, names)
    ensures p < |s| && (s[p] == NUL ==> names == [])
  {
    if names != [] {
      assert s[p] == s[p..p + |names[0]|][0] == names[0][0];
    }
  }

  method ReadName(buf: array<char>, length: nat, p: nat, ghost rest: seq<string>) returns (name: string)
    requires p < length <= buf.Length && Reads(buf[..length], p, rest) && buf[p] != NUL
    ensures rest != [] && name == rest[0] && Reads(buf[..length], p + |name| + 1, rest[1..])
    ensures p + |name| + 1 < length && (buf[p + |name| + 1] == NUL ==> rest[1..] == [])
  {
    FirstRead(buf[..length], p, rest);
    assert buf[p..p + |rest[0]|] == buf[..length][p..p + |rest[0]|];
    var k := StringLength(buf, p, rest[0]);
    name := buf[p..p + k];
    ReadsEnd(buf[..length], p + k + 1, rest[1..]);
  }

  lemma Moved(readers: seq<string>, name: string, rest: seq<string>)
    requires rest != [] && name == rest[0]
    ensures readers + [name] + rest[1..] == readers + rest
  {
  }

  /** strlen(buf + p) */
  method StringLength(buf: array<char>, p: nat, ghost name: string) returns (k: nat)
    requires p + |name| < buf.Length && buf[p..p + |name|] == name && CString(name) && buf[p + |name|] == NUL
    ensures k == |name|
  {
    assert forall j :: 0 <= j < |name| ==> name[j] == buf[p..p + |name|][j] && name[j] in name;
    k := 0;
    while buf[p + k] != NUL
      invariant 0 <= k <= |name|
      decreases |name| - k
    {
      k := k + 1;
    }
  }

  lemma FirstRead(s: string, p: nat, names: seq<string>)
    requires Reads(s, p, names) && s[p] != NUL
    ensures names != [] && p + |names[0]| < |s| && s[p + |names[0]|] == NUL && CString(names[0])
    ensures s[p..p + |names[0]|] == names[0] && Reads(s, p + |names[0]| + 1, names[1..])
  {
  }
}
