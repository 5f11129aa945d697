/** contextsList of src/winscard_svc.c: the client threads in the order in which they came, and the search
    of SCARD_CANCEL for the one with a context. Its entries are the clients of ServerState, and the
    descriptor of an entry is the one EventHandler registers. */
module Contexts {
  import opened Wrappers
  import opened ReaderState
  import opened ServerState
  import E = EventHandler

  /** dwClientID and hContext of an SCONTEXT; hContext is 0 while there is no context. */
  datatype Context = Context(fd: int, hContext: int)

  /** list_seek on contextsList */
  function Find(cs: seq<Context>, ctx: int): (i: nat)
    ensures i <= |cs| && (i < |cs| ==> cs[i].hContext == ctx) && forall j :: 0 <= j < i ==> cs[j].hContext != ctx
  {
    FirstWhere(cs, (c: Context) => c.hContext == ctx)
  }

  datatype Cancelled = Cancelled(waiters: E.Waiters, reply: Reply)

  /** SCARD_CANCEL */
  function CancelContext(cs: seq<Context>, w: E.Waiters, ctx: int): Cancelled {
    var i := Find(cs, ctx);
    if i == |cs| then Cancelled(w, InvalidHandle) else Cancelled(E.Next(w, E.Cancel(cs[i].fd)), Success)
  }

  method SCardCancel(cs: seq<Context>, registry: E.Registry, ctx: int) returns (rv: Reply)
    requires registry.Valid()
    modifies registry`sent, registry.clients.Repr
    ensures registry.Valid() && Cancelled(registry.View(), rv) == CancelContext(cs, old(registry.View()), ctx)
  {
    var i := 0;
    while i < |cs| && cs[i].hContext != ctx
      invariant 0 <= i <= |cs| && forall j :: 0 <= j < i ==> cs[j].hContext != ctx
    {
      i := i + 1;
    }
    assert i == Find(cs, ctx);
    if i == |cs| { return InvalidHandle; }
    registry.CancelWaiting(cs[i].fd);
    return Success;
  }

  // ---- the list and the clients of the server ----

  /** The list holds each client of the server once, with its context. */
  ghost predicate Mirrors(cs: seq<Context>, clients: map<int, Client>) {
    && Distinct(cs)
    && (forall i :: 0 <= i < |cs| ==> Current(cs[i], clients))
    && (forall id :: id in clients ==> Lists(cs, id))
  }

  ghost predicate Distinct(cs: seq<Context>) {
    forall i, j :: 0 <= i < j < |cs| ==> cs[i].fd != cs[j].fd
  }

  predicate Current(c: Context, clients: map<int, Client>) {
    c.fd in clients && clients[c.fd].hContext == c.hContext
  }

  ghost predicate Lists(cs: seq<Context>, id: int) {
    exists i :: 0 <= i < |cs| && cs[i].fd == id
  }

  /** The entries of clients that have gone leave, the others take their contexts over. */
  function Refresh(cs: seq<Context>, clients: map<int, Client>): seq<Context> {
    if cs == [] then []
    else if cs[0].fd in clients then [Context(cs[0].fd, clients[cs[0].fd].hContext)] + Refresh(cs[1..], clients)
    else Refresh(cs[1..], clients)
  }

  /** The list after a step of the server: a new client is appended. */
  function Follow(cs: seq<Context>, s: Server, step: Step): seq<Context> {
    if step.Arrives? && step.id !in s.clients then cs + [Context(step.id, 0)] else Refresh(cs, Next(s, step).clients)
  }

  /** t keeps exactly the entries of cs whose clients are still there. */
  ghost predicate Refreshed(t: seq<Context>, cs: seq<Context>, clients: map<int, Client>) {
    && Distinct(t)
    && (forall i :: 0 <= i < |t| ==> Current(t[i], clients) && Lists(cs, t[i].fd))
    && (forall i :: 0 <= i < |cs| && cs[i].fd in clients ==> Lists(t, cs[i].fd))
  }

  lemma {:induction false} RefreshLaw(cs: seq<Context>, clients: map<int, Client>)
    requires Distinct(cs)
    ensures Refreshed(Refresh(cs, clients), cs, clients)
  {
    if cs != [] {
      var rest := Refresh(cs[1..], clients);
      RefreshLaw(cs[1..], clients);
      PrependLaw(rest, cs, clients);
    }
  }

  lemma PrependLaw(rest: seq<Context>, cs: seq<Context>, clients: map<int, Client>)
    requires cs != [] && Distinct(cs) && Refreshed(rest, cs[1..], clients)
    ensures cs[0].fd !in clients ==> Refreshed(rest, cs, clients)
    ensures cs[0].fd in clients ==> Refreshed([Context(cs[0].fd, clients[cs[0].fd].hContext)] + rest, cs, clients)
  {
    forall i | 0 <= i < |rest| ensures Lists(cs, rest[i].fd) && rest[i].fd != cs[0].fd {
      assert Lists(cs[1..], rest[i].fd);
      var j :| 0 <= j < |cs[1..]| && cs[1..][j].fd == rest[i].fd;
      assert cs[j + 1].fd == rest[i].fd;
    }
    forall i | 0 < i < |cs| && cs[i].fd in clients ensures Lists(rest, cs[i].fd) {
      assert cs[i] == cs[1..][i - 1];
    }
    if cs[0].fd in clients {
      var t := [Context(cs[0].fd, clients[cs[0].fd].hContext)] + rest;
      assert t[0].fd == cs[0].fd;
      forall i | 0 < i < |cs| && cs[i].fd in clients ensures Lists(t, cs[i].fd) {
        var k :| 0 <= k < |rest| && rest[k].fd == cs[i].fd;
        assert t[k + 1].fd == cs[i].fd;
      }
    }
  }

  lemma NoNewClients(s: Server, step: Step)
    requires !(step.Arrives? && step.id !in s.clients)
    ensures Next(s, step).clients.Keys <= s.clients.Keys
  {
  }

  /** The list mirrors the clients over every step of the server. */
  lemma FollowMirrors(cs: seq<Context>, s: Server, step: Step)
    requires Mirrors(cs, s.clients)
    ensures Mirrors(Follow(cs, s, step), Next(s, step).clients)
  {
    hide Next;
    var t := Follow(cs, s, step);
    if step.Arrives? && step.id !in s.clients {
      ArrivalMirrors(cs, s, step.id);
    } else {
      NoNewClients(s, step);
      RefreshLaw(cs, Next(s, step).clients);
      forall id | id in Next(s, step).clients ensures Lists(t, id) {
        assert Lists(cs, id);
      }
    }
  }

  lemma ArrivalMirrors(cs: seq<Context>, s: Server, id: int)
    requires Mirrors(cs, s.clients) && id !in s.clients
    ensures Mirrors(cs + [Context(id, 0)], Next(s, Arrives(id)).clients)
  {
    var t := cs + [Context(id, 0)];
    assert t[|cs|].fd == id;
    forall x | x in s.clients ensures Lists(t, x) {
      assert Lists(cs, x);
      var i :| 0 <= i < |cs| && cs[i].fd == x;
      assert t[i].fd == x;
    }
  }

  // ---- whom a cancel reaches ----

  /** Client id is told that its waiting is cancelled, if it waits, and nothing else happens. */
  ghost predicate Reached(w: E.Waiters, t: E.Waiters, id: int) {
    if id in w.waiting
    then t.sent == w.sent + [E.Answer(id, E.Cancelled)] && multiset(t.waiting) == multiset(w.waiting) - multiset{id}
    else t == w
  }

  /** A cancel fails exactly when no client has the context. Otherwise it answers, with SCARD_E_CANCELLED and
      at most once, one client that has it, if that client waits. */
  lemma CancelReaches(cs: seq<Context>, clients: map<int, Client>, w: E.Waiters, ctx: int)
    requires Mirrors(cs, clients)
    ensures var o := CancelContext(cs, w, ctx);
      && (o.reply == InvalidHandle <==> forall id :: id in clients ==> clients[id].hContext != ctx)
      && (o.reply != InvalidHandle ==>
            o.reply == Success && exists id :: id in clients && clients[id].hContext == ctx && Reached(w, o.waiters, id))
  {
    var i := Find(cs, ctx);
    forall id | id in clients && clients[id].hContext == ctx ensures i < |cs| {
      assert Lists(cs, id);
    }
    if i < |cs| {
      var id := cs[i].fd;
      assert Current(cs[i], clients);
    }
  }

  /** A client with another context is neither answered nor taken out of the waiters. */
  lemma CancelSparesOthers(cs: seq<Context>, clients: map<int, Client>, w: E.Waiters, ctx: int, id: int)
    requires Mirrors(cs, clients) && id in clients && clients[id].hContext != ctx
    ensures var t := CancelContext(cs, w, ctx).waiters;
      multiset(t.waiting)[id] == multiset(w.waiting)[id] && E.Answered(t.sent, id) == E.Answered(w.sent, id)
  {
    var i := Find(cs, ctx);
    if i < |cs| {
      var fd := cs[i].fd;
      assert Current(cs[i], clients) && fd != id;
      if fd in w.waiting { E.AnsweredConcat(w.sent, [E.Answer(fd, E.Cancelled)], id); }
    }
  }
}
