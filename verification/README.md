# Verification model of the pcsc-lite resource manager

pcscd lets many programs share smart card readers. This project models the parts of it in which
state, order and arithmetic matter, and proves what they keep:

- the container every table of the daemon and of the client library is kept in, SimCList, as a heap
  structure with sentinels, a cached middle, a pool of spare nodes and an in-place quicksort
  (`SimCList.dfy`, with the order laws of the sort in `Ordering.dfy`);
- the sharing and transaction machine of a reader: exclusive, shared and direct connections, nested
  transactions, resets, the events handles are told, the power state, the polling thread
  (`ReaderState.dfy` gives each call as a function of the reader's state, `ReaderContext.dfy` is the
  object with these fields and its methods, `ReaderLaws.dfy` has what calls keep and `CallLaws.dfy` exactly
  when each succeeds and what it does);
- the daemon around it: all readers, the client threads with the handles they opened, one step for
  each command, polling turn and reader that comes or goes (`ServerState.dfy`; `Service.dfy` in
  place), with the invariant in `ServerLaws.dfy`, the calls as clients make them in `ServerCalls.dfy`, and the
  theorems on whole histories in `Transactions.dfy` (locks) and `ServerRuns.dfy` (events, power, handles);
- the counters that clones and slots of one driver share, and when its library is closed
  (`ReaderTable.dfy`), and the digits in reader names and slot numbers (`ReaderNames.dfy`);
- the registry of waiting clients (`EventHandler.dfy`), and the list of client contexts in which a cancel finds the
  one it is for (`Contexts.dfy`);
- ATR decoding and protocol selection (`AtrHandler.dfy`, with its meaning on the bytes in `AtrBytes.dfy`, and
  `ProtHandler.dfy`);
- the client's status-change computation and the multi-string of reader names (`StatusChange.dfy`,
  `ListReaders.dfy`), and what the two ends of a status change make together (`Notification.dfy`).

Each server call is one atomic step. The busy waits of `src/winscard.c` for a lock become the reply
`Waiting`, which leaves the state alone. The driver is an oracle: every step carries the answers it
gives (`Driver`, `Observation`, `PtsReply`), and a reader records the calls that reach its card.
Random numbers (handles, contexts, pivots) are parameters; a handle number that is 0 or already
known to a live reader makes no step, as the generator draws again, and contexts are not 0.

## Results

- `list_sort` ends and permutes for every comparator, and orders for every total preorder and `versus` of 1
  or -1, whatever the pivots, with links, length and middle untouched; `list_findpos` follows at most
  numels/4 + 1 links.
- From the moment a handle holds the lock of a reader, and over any history in which neither it nor its client
  gives the lock up and card and reader stay, the handle keeps the lock as deep as its own calls make it, and
  every step of another handle or client leaves lock, card, power, protocol and the owner's event alone (`LockHeld`);
  with a card in use that stays in place the polling thread does so as well (`TransactionIsolated`), and
  `WatchingStep` says exactly which of its turns do not.
  The steps that give a lock up are exactly those of `GivesUp` (`LockLost` is the other half).
- `contexts` is -1 with exactly one handle or counts the handles, the lock has an owner among them, and every
  live handle is in the list of some client, from the start and through every history (`NextKeepsInv`).
- The event of a handle is at any moment the latest of the resets and removals of its reader and of its own
  successful reconnects (`NothingMissed`, `UntoldMeansNothing`).
- While a connection is left, no tick of the polling thread powers down a card that is in use or that a client has
  had powered down, until the thread itself finds a card where it last saw none or an error (`NeverPoweredDown`).
- An event of `SCardGetStatusChange`, whatever the rounds before have left in it, tells of the reader exactly what
  `Complete`, `CompleteChanged` and `Stable` say; `CallStable` and `ReturnedChanged` carry this over the rounds of a call,
  and `MovementIsTold` from the polling thread to an application that waits, whatever its current state is.
- A cancel answers a client that has the context it names, at most once and only if it waits, leaves the clients with
  other contexts waiting, and fails exactly when no client has it (`CancelReaches`, `CancelSparesOthers`); the list it
  searches mirrors the clients of the server over every step (`FollowMirrors`).
- The end of a context removes exactly its client's handles, frees exactly the locks it owned, and resets exactly the
  cards of those locks whose owner was not told of a reset or a removal, or whose ATR is unknown (`ReleaseAllLaw`).
- Each call of a client succeeds exactly under the conditions `CallLaws` gives on the fields of the reader, reaches the
  driver as its disposition says, and changes the one reader that has the handle (`CallReaches`); a begin on a free lock
  is never refused (`BeginServed`).
- An ATR is accepted, and offers and selects T=0, T=1 and T=15, exactly as its bytes say (`VerdictOfBytes`,
  `CurrentOfBytes`, `AvailableOfBytes`).
- The shared counters are the numbers of live sharers, a mutex is shared exactly where the driver is not thread safe, and
  each load of a driver library is closed exactly once, with its last reader (`ReaderTable`).
- Every registration for an event is answered once, still pending, or dropped with its client
  (`Conservation`).

Where the code does less than its documentation or a reader may expect, the project follows the code
and proves when it does:

- A reconnect from exclusive to shared or direct keeps a lock held once (`DowngradeKeepsLock`); the
  comment in `src/winscard.c` and the call suggest it is given up.
- An exclusive connection loses its lock exactly when the polling thread sees its card go, and has one again
  from its next begin on (`RemovalKeepsExclusive` for one turn, `ExclusiveLock` over histories).
- The polling thread powers a card up exactly when it finds one after none or after an error, and tells no handle
  then (`PowerUpUntold`); after an error, unlike after a removal, nobody was told before (`RecoveryTellsNobody`).
- After a communication error the thread also powers down, in the same turn, the card of a connection that is in
  use (`RecoveryPowersDown`; `TurnTakesPower` says exactly when a turn takes a card out of use).
- The card of a direct connection can be powered down in the middle of a transaction (`DirectCardGoesDown`).
- A failed connect leaves the card in use exactly when it was, or when the connect got as far as a powered card,
  whatever refuses it then: its PPS, another protocol, the sharing mode, the handle throttle
  (`FailedConnectPower`). On a reader without connections the daemon then does not power it down by itself before
  its polling thread finds a card anew (`FailedConnectKeepsPower`, with two inputs in `FailedConnects`).
- A handle number may be drawn again after its reader is gone while a client still lists it; the end of
  that client then takes another client's connection away (`HandleReused`; `OthersSpared` says exactly when
  this cannot happen).
- A reader that cannot be added takes a reference from every live reader of the same name and port, that is,
  from exactly those with another device file, as the same device file would be a duplicate
  (`FailedAddTouches`, with an input in `NamesakeLost`).
- SCARD_PROTOCOL_ANY_OLD names no protocol once one is chosen (`SecondConnect`).
- A driver without the PTS command can end in a protocol nobody asked for (`OutsideRequestExactly`).
- In `SCardGetStatusChange` a reader in error wipes out that it came back or that its counter moved, while
  the call still returns (`BreakMeansChanged`, `ReturnInErrorIsSilent`); an event fed back is stable but for a
  reader that has not been polled and an event that is empty or still says what earlier rounds left (`Stable`,
  `EmptyEvent`); the beginning of a shared or exclusive use is not told (`SharingTold`); a use that was exclusive in
  an earlier round still shows as exclusive when the card has gone and the use is shared (`TellsExclusive`,
  `StaleExclusive`); the loss of a card that a transmission had already found is not told while the counter is 0
  (`PolledMovementIsTold`, `FoundGoneFirst`).
- An application that asks with SCARD_STATE_UNAWARE about a reader that has its name but has not been polled yet gets an
  event with which it is then told of no card that is there, comes or goes, but only of an error, a mute card or the
  reader gone (`UnpolledBlind`, `UnpolledMovement`; `Complete` and `MovementIsTold` say exactly when it is told).
- A client thread that ends other than between two commands leaves its waiting entries in the list
  (`DeathLeavesNothing`), where they are answered to the next client with the same descriptor (`UnaskedAnswer`,
  `AnsweredAfterDeath`).
- The readers of a driver keep distinct slot numbers, when another is added, exactly when none of them has
  one of the new numbers (`AddDistinctExactly`). With a fixed channel count above 1 this always holds
  (`NextDistinct`); with a single channel it may not (`SingleChannelClash`).

## Model

| member | source | states |
|---|---|---|
| SimCList.List.FindPos | src/simclist.c:443-473 | the node at every position from -1 to numels, sentinels included, null elsewhere, in at most numels/4 + 1 links |
| SimCList.List.InsertAt | src/simclist.c:496-554 | inserts at a position, keeps links, middle and spare pool; refuses bad positions and does nothing during an iteration |
| SimCList.List.FixMidAfterInsert | src/simclist.c:540-549 | the parity step puts mid back on index (numels-1)/2 |
| SimCList.List.Append | src/simclist.c:396-398 | adds at the end, or nothing during an iteration |
| SimCList.List.Prepend | src/simclist.c:400-402 | adds at the front, or nothing during an iteration |
| SimCList.List.GetAt | src/simclist.c:408-414 | the element at a position, NULL elsewhere |
| SimCList.List.ExtractAt | src/simclist.c:475-494 | removes and returns the element, or changes nothing |
| SimCList.List.DropElem | src/simclist.c:1451-1477 | one node leaves; links, middle and a spare pool of at most five nodes stay right |
| SimCList.List.DeleteAt | src/simclist.c:572-588 | removes the element at a position, or changes nothing |
| SimCList.List.Locate | src/simclist.c:709-730 | the first element equal by comparator or identity, -1 when there is none |
| SimCList.List.Delete | src/simclist.c:556-570 | removes the first match and nothing else, or changes nothing |
| SimCList.List.Clear | src/simclist.c:653-699 | empties the list into the spare pool and returns its length |
| SimCList.List.MoveMidForRange | src/simclist.c:602-613 | before a range goes, mid moves to the node that will be in the middle |
| SimCList.List.DeleteRange | src/simclist.c:590-651 | removes exactly the closed range, returns its length, keeps the invariant |
| SimCList.List.IteratorStart | src/simclist.c:991-999 | starts at the first element unless an iteration is active |
| SimCList.List.IteratorNext | src/simclist.c:1001-1011 | yields the elements in order and then NULL |
| SimCList.List.IteratorHasNext | src/simclist.c:1013-1016 | true exactly while elements are left |
| SimCList.List.IteratorStop | src/simclist.c:1018-1023 | ends the iteration |
| SimCList.List.Init | src/simclist.c:266-308 | an empty valid list whatever was there |
| SimCList.List.FixMidAfterConcat | src/simclist.c:798-806 | the signed offset with truncating division lands mid on the new middle |
| SimCList.Concat | src/simclist.c:751-811 | dest becomes the concatenation of both lists, which stay; refuses NULL and an aliased dest |
| SimCList.List.SelectionSort | src/simclist.c:845-864 | sorts a range in place by exchanging data only |
| SimCList.List.PartitionRound | src/simclist.c:904-919 | one round of the partition keeps smaller elements left and bigger ones right of the pivot |
| SimCList.List.DrainLeft | src/simclist.c:921-935 | the longer left part is emptied of bigger elements while the pivot moves left |
| SimCList.List.DrainRight | src/simclist.c:936-951 | the longer right part is emptied of smaller elements while the pivot moves right |
| SimCList.List.Partition | src/simclist.c:893-951 | any pivot choice ends with the range split around it |
| SimCList.List.QuickSort | src/simclist.c:866-989 | a range becomes an ordered permutation of itself, the rest stays |
| SimCList.List.Sort | src/simclist.c:813-827 | ends with the same elements and no link changed for any comparator; for a comparator that is a total preorder ascending with versus 1, descending with -1, where comparing a pair gives less than 0 when its first is the greater; refused during an iteration or without comparator |
| Ordering.SortedAroundPivot | src/simclist.c:953-986 | two sorted sides of a pivot make a sorted whole |
| Ordering.SortSides | src/simclist.c:953-986 | sorting both sides of a split range sorts the range and permutes it |
| Ordering.SplitRound | src/simclist.c:904-919 | what one exchange across the pivot does to the split |
| Ordering.ShiftPivotLeft | src/simclist.c:924-931 | the three-way rotation that moves the pivot left keeps the split |
| Ordering.ShiftPivotRight | src/simclist.c:938-946 | the three-way rotation that moves the pivot right keeps the split |
| Ordering.SettleOne | src/simclist.c:853-863 | one more element of the selection sort is in its place |
| EventHandler.Conservation | src/eventhandler.c:66-131 | for any interleaving, registrations equal answers plus pending entries plus entries dropped at death |
| EventHandler.AnsweredWithCode | src/winscard_svc.c:467-702 | for any interleaving, each client is sent exactly the answers it is owed, with the code of what ended its waiting |
| EventHandler.AtMostOnePending | src/winscard_svc.c:451-465 | a client that registers only when it is not waiting never has two entries |
| EventHandler.DeathLeavesNothing | src/winscard_svc.c:377-383 | exactly when the end of a client thread leaves no entry behind |
| EventHandler.UnaskedAnswer | src/eventhandler.c:114-131 | exactly when a client can be sent an answer it has not registered for: when an entry of its descriptor is pending |
| EventHandler.AnsweredAfterDeath | src/winscard_svc.c:885-895 | such a case, after a death in the middle of a command |
| EventHandler.Registry.Register | src/eventhandler.c:66-79 | one more entry at the end |
| EventHandler.Registry.TryUnregister | src/eventhandler.c:81-99 | the first entry of the client leaves; says whether there was one |
| EventHandler.Registry.StopWaiting | src/winscard_svc.c:467-487 | the reply is sent only to a client still in the list |
| EventHandler.Registry.CancelWaiting | src/winscard_svc.c:673-707 | a waiting client is taken out and told SCARD_E_CANCELLED once |
| Contexts.SCardCancel | src/winscard_svc.c:673-707 | the client of the context is found and its waiting cancelled; SCARD_E_INVALID_HANDLE when there is none |
| Contexts.CancelReaches | src/winscard_svc.c:681-707 | a cancel fails exactly when no client of the server has the context, else a client that has it is answered if it waits |
| Contexts.CancelSparesOthers | src/winscard_svc.c:681-707 | a client with another context keeps waiting and gets no answer |
| Contexts.FollowMirrors | src/winscard_svc.c:220-275 | over every step of the server contextsList holds each client once with its context |
| EventHandler.Registry.SignalAll | src/eventhandler.c:114-131 | every entry is answered once, in order, and the list is empty |
| AtrHandler.DecodeAtr | src/atrhandler.c:66-226 | the loop computes the recursive reading of the interface-byte chain, for every buffer and length |
| AtrHandler.AcceptedCurrentIsOffered | src/atrhandler.c:66-226 | an accepted ATR has a current protocol, T=0 or T=1, that is also available |
| AtrHandler.OfferedSnoc | src/atrhandler.c:136-207 | what one more group of interface bytes does to the protocols offered |
| AtrHandler.ChainRoundTrip | src/atrhandler.c:99-211 | the bytes laid out for a well-formed chain are read back as that chain |
| AtrBytes.VerdictOfBytes | src/atrhandler.c:66-226 | on the bytes: exactly which answers are accepted, and which are refused for what |
| AtrBytes.CurrentOfBytes | src/atrhandler.c:136-222 | on the bytes: the current protocol is the low half of TA2, else of TD1, 0 for T=0 and 1 for T=1, else T=0 |
| AtrBytes.AvailableOfBytes | src/atrhandler.c:136-222 | on the bytes: T=0, T=1 or T=15 is offered exactly when some TDi that counts has low half 0, 1 or 15, or TA2 or the final default adds it |
| ProtHandler.SetProtocol | src/prothandler.c:55-163 | the number of PTS attempts, at most two, T=1 before T=0, only for protocols asked for and available; the outcome for every answer |
| ProtHandler.Negotiate | src/winscard.c:367-403 | the decoding of the ATR, the restriction to the request and the PTS in one |
| ProtHandler.AnyProtocolSucceedsOrFailsPps | src/winscard.c:368-403 | a request for T=0 or T=1 of a good ATR ends in an offered protocol or in a PPS failure |
| ProtHandler.WrongArgumentExactly | src/prothandler.c:62-138 | exactly when SET_PROTOCOL_WRONG_ARGUMENT is returned |
| ProtHandler.SelectedExactly | src/prothandler.c:55-163 | exactly when each protocol is selected |
| ProtHandler.AttemptsExactly | src/prothandler.c:55-142 | exactly when the driver is not asked at all, and when a second time |
| ProtHandler.OutsideRequestExactly | src/prothandler.c:146-155 | exactly when the outcome is a protocol that was not asked for |
| ProtHandler.OutsideRequestHappens | src/prothandler.c:146-155 | such a case: T=1 asked for, T=0 chosen |
| ReaderContexts.ReaderContext.LockSharing | src/readerfactory.c:1061-1075 | the lock is taken or counted up by its owner, refused to others |
| ReaderContexts.ReaderContext.UnlockSharing | src/readerfactory.c:1077-1108 | one level less; an exclusive connection keeps the last one |
| ReaderContexts.ReaderContext.UnlockAllSharing | src/readerfactory.c:1110-1124 | the lock is free unless it is another's |
| ReaderContexts.ReaderContext.AddHandle | src/readerfactory.c:1243-1284 | appended with no event, or refused by the throttle |
| ReaderContexts.ReaderContext.RemoveHandle | src/readerfactory.c:1286-1313 | the first entry of the handle leaves |
| ReaderContexts.ReaderContext.SetEventState | src/readerfactory.c:1315-1346 | every handle gets the event; a removal frees the lock |
| ReaderContexts.ReaderContext.CheckEventState | src/readerfactory.c:1348-1384 | the reply for the event of the handle |
| ReaderContexts.ReaderContext.ClearEventState | src/readerfactory.c:1386-1403 | the event of the handle is taken back |
| ReaderContexts.ReaderContext.SelectProtocol | src/winscard.c:350-416 | the protocol section of connect and reconnect, with the ATR and the PTS attempts above |
| ReaderContexts.ReaderContext.SCardConnect | src/winscard.c:263-521 | the whole connect on a reader that was found |
| ReaderContexts.ReaderContext.SCardReconnect | src/winscard.c:560-826 | the whole reconnect on a reader that was found |
| ReaderContexts.ReaderContext.SCardDisconnect | src/winscard.c:850-1048 | the whole disconnect on a reader that was found |
| ReaderContexts.ReaderContext.SCardBeginTransaction | src/winscard.c:1063-1090 | status, event and lock, in this order |
| ReaderContexts.ReaderContext.SCardEndTransaction | src/winscard.c:1115-1242 | event, foreign lock, card action, notice, unlock |
| ReaderContexts.ReaderContext.SCardStatus | src/winscard.c:1261-1305 | the guards of SCardStatus in their order |
| ReaderContexts.ReaderContext.SCardControl | src/winscard.c:1320-1364 | the guards of SCardControl: lock and status, no event |
| ReaderContexts.ReaderContext.SCardAttrib | src/winscard.c:1375-1489 | the guards of SCardGetAttrib and SCardSetAttrib |
| ReaderContexts.ReaderContext.SCardTransmit | src/winscard.c:1518-1653 | the guards of SCardTransmit, and a card found gone; the room of the caller is its size argument |
| ReaderContexts.ReaderContext.Release | src/winscard_svc.c:999-1040 | one card of a context that ends |
| ReaderContexts.ReaderContext.StartPolling | src/eventhandler.c:260-322 | the first look at the card |
| ReaderContexts.ReaderContext.PollOnce | src/eventhandler.c:324-447 | error, removal, insertion, and the sharing passed on |
| ReaderContexts.ReaderContext.TickPower | src/eventhandler.c:470-493 | powered goes down, grace goes to powered |
| ReaderContexts.SeekLaw | src/readerfactory.c:82-98 | the position found by the seeker says what reading, removing and clearing by handle do |
| ReaderLaws.WithoutLaw | src/readerfactory.c:1286-1313 | removing a handle removes it and nothing else |
| ReaderLaws.ApplyKeepsSound | src/winscard.c:523-1653 | every request keeps the reader's invariant; only a successful disconnect removes a handle: its own |
| ReaderLaws.ConnectLaw | src/winscard.c:229-521 | a connect keeps the invariant and adds its handle exactly when it succeeds; the throttle never refuses an exclusive one |
| ReaderLaws.AttachLaw | src/winscard.c:456-509 | exactly when the exclusivity section and the throttle refuse |
| ReaderLaws.LockedOut | src/winscard.c:853-881 | with the lock held by another handle a request changes nothing and fails, or is that handle leaving |
| ReaderLaws.OwnTransaction | src/readerfactory.c:1061-1108 | begin and end of the owner count up and down; the last level is freed unless the connection is exclusive |
| ReaderLaws.DowngradeKeepsLock | src/winscard.c:770-804 | leaving the exclusive mode keeps a lock held once, whatever is done to the card |
| ReaderLaws.DisconnectLaw | src/winscard.c:828-1048 | a disconnect takes its handle, and the lock when that handle held it |
| ReaderLaws.ReleaseCardLaw | src/winscard_svc.c:999-1040 | one card of a context: its handle and its lock go, another's lock and all else stay |
| ReaderLaws.ReleaseCardEvents | src/winscard_svc.c:999-1040 | the card is reset exactly when the handle holds the lock and was not told of a reset or a removal, or its ATR is unknown; the other handles are told then |
| ReaderLaws.EventLaw | src/readerfactory.c:1315-1403 | every reset or power-down marks every other handle; events are taken back only by an own successful reconnect |
| ReaderLaws.ToldIsRefused | src/winscard.c:1073-1120 | a handle with an event fails in begin, end, status, attributes and transmit without effect, with the matching code |
| ReaderLaws.InUseLaw | src/winscard.c:990-1022 | the power state after each request on a card in use |
| ReaderLaws.ConnectDisturbsNobody | src/winscard.c:312-349 | a connect resets nobody, keeps a card in use and takes it into use unless direct |
| ReaderLaws.PollStatusLaw | src/eventhandler.c:324-447 | a removal marks every handle and frees the lock; nothing else the thread sees does |
| ReaderLaws.QuietPolling | src/eventhandler.c:325-493 | a card in use that stays is left alone by the polling thread |
| ReaderLaws.GraceTicks | src/winscard.c:1008-1022 | after the last disconnect the first tick only moves grace to powered, the second powers down |
| ReaderLaws.TurnTakesPower | src/eventhandler.c:380-493 | exactly when a turn of the polling thread takes a card out of use |
| ReaderLaws.RecoveryPowersDown | src/eventhandler.c:328-493 | such a case: a card in use is powered down after a communication error |
| ReaderLaws.QuietLook | src/eventhandler.c:324-493 | exactly which looks and ticks leave the reader as it is |
| ReaderLaws.FailedConnectPower | src/winscard.c:312-509 | exactly when a failed connect leaves the card in use |
| ReaderLaws.FailedConnectKeepsPower | src/winscard.c:312-509 | exactly when it does so on a reader without connections, where the card stays in use through any turns of the polling thread that find no card anew |
| ReaderLaws.FailedConnects | src/winscard.c:368-413 | two such connects: a failed PPS and another protocol |
| ReaderLaws.PowerUpUntold | src/eventhandler.c:384-433 | exactly when the polling thread powers a card up, and that no handle is told |
| ReaderLaws.RecoveryTellsNobody | src/eventhandler.c:333-433 | after a communication error the card is powered up and no handle is marked |
| ReaderLaws.RemovalKeepsExclusive | src/readerfactory.c:1338-1343 | a turn of the polling thread keeps an exclusive connection exclusive, and its lock exactly when it sees no removal |
| ReaderLaws.ExclusiveRequest | src/winscard.c:523-1242 | of the requests that keep a connection exclusive none takes its lock and only a begin gives one |
| ReaderLaws.DisconnectCounts | src/winscard.c:990-1006 | the count after a disconnect is the number of handles left; the correction of a negative count does nothing |
| ReaderLaws.SecondConnect | src/winscard.c:404-413 | with a protocol chosen, a connect to a powered card, or one it powers up, succeeds exactly when it names it |
| ReaderLaws.FirstConnect | src/winscard.c:312-403 | a first connect for T=0 and T=1, shared or exclusive, that finds the card powered or powers it up, gets an offered protocol or fails its PPS |
| CallLaws.BeginExactly | src/winscard.c:1050-1090 | exactly when a begin succeeds: a free lock is taken, the own one goes deeper, a foreign one is a sharing violation |
| CallLaws.EndExactly | src/winscard.c:1092-1242 | exactly when an end succeeds, what it asks of the driver, and what is left of the lock and of what is known of the card |
| CallLaws.DisconnectExactly | src/winscard.c:828-988 | exactly when a disconnect waits, and what each disposition does to the card |
| CallLaws.ConnectExactly | src/winscard.c:229-521 | exactly when a connect succeeds, and the mode, lock, protocol, handle and card it leaves |
| CallLaws.ConnectCalls | src/winscard.c:312-403 | a connect powers up a card that is off, and else only tries to set the protocol |
| CallLaws.ConnectRefused | src/winscard.c:263-310 | the replies with which it is refused before it reaches the card |
| CallLaws.ReconnectExactly | src/winscard.c:523-826 | exactly when a reconnect succeeds, and the mode, lock, protocol, event and card it leaves |
| CallLaws.ReconnectCalls | src/winscard.c:523-745 | what a reconnect asks of the driver |
| CallLaws.StatusExactly | src/winscard.c:1244-1305 | exactly when SCardStatus succeeds |
| CallLaws.AttribExactly | src/winscard.c:1366-1489 | exactly when an attribute call reaches the driver and when it succeeds |
| CallLaws.ControlExactly | src/winscard.c:1307-1364 | exactly when SCardControl reaches the driver and when it succeeds |
| CallLaws.TransmitExactly | src/winscard_svc.c:726-780 | exactly when a transmission reaches the card and when it succeeds, and that a card found gone is forgotten without a handle being told |
| CallLaws.LookExactly | src/eventhandler.c:324-447 | what is known of the card after each look: a card that comes is powered up, one that goes leaves nothing, both are counted |
| CallLaws.FirstLookExactly | src/eventhandler.c:260-322 | the same of the first look, which is not counted |
| CallLaws.UseRefused | src/winscard.c:1366-1540 | what an attribute call or a transmission is told when the handle may not use the card |
| CallLaws.BeginRefused | src/winscard.c:1063-1085 | what a begin is told then: the reader, the event, the lock, in this order |
| CallLaws.StatusFails | src/winscard.c:1261-1297 | exactly which reply SCardStatus gives when it fails |
| CallLaws.EndFails | src/winscard.c:1141-1232 | exactly which error an end that reached the card returns |
| CallLaws.ReconnectFails | src/winscard.c:560-826 | why a reconnect fails: the reader, the lock, the card, its protocol or the mode |
| CallLaws.ConnectFails | src/winscard.c:312-509 | why a connect that was let at the card fails: its power, its protocol, the mode or the throttle |
| CallLaws.AttribFails | src/winscard.c:1366-1489 | exactly which error an attribute call returns |
| CallLaws.ControlFails | src/winscard.c:1307-1364 | exactly which error SCardControl returns |
| CallLaws.TransmitFails | src/winscard.c:1518-1653 | exactly which error a transmission returns |
| ServerCalls.ArgumentsExactly | src/winscard.c:535-554 | which arguments are refused before the reader is looked up, and how |
| ServerCalls.CallReaches | src/winscard_svc.c:605-671 | a call on a handle changes the one reader that has it, and the list of cards only when it is a disconnect that succeeds |
| ServerCalls.CallMisses | src/winscard_svc.c:605-671 | a handle whose reader has gone can only be disconnected |
| ServerCalls.BeginServed | src/winscard_svc.c:642-655 | through the server a begin succeeds exactly when the handle may use the card, and changes nothing but its lock |
| ServerCalls.ConnectServed | src/winscard_svc.c:559-603 | exactly when a connect is served; one that only the client's list refuses leaves the other handles alone and its own not there |
| ServerCalls.ContextServed | src/winscard_svc.c:525-557 | a context is opened, and closed only by the client that has it, with its handles, locks and cards |
| ServerCalls.ClientEnds | src/winscard_svc.c:1159-1196 | a client that dies or is cut off leaves no handle and no lock behind |
| ServerCalls.ReaderComes | src/readerfactory.c:281-342 | a new reader takes a vacant entry, unlocked, without connections and with nothing known of a card |
| ServerState.FindById | src/readerfactory.c:884-909 | the first live reader that knows the handle |
| ServerState.FindByName | src/readerfactory.c:858-882 | the first live reader of that name |
| Service.Daemon.InfoById | src/readerfactory.c:884-909 | the search loop over the table and its handle lists |
| Service.Daemon.InfoByName | src/readerfactory.c:858-882 | the search loop by name |
| Service.Daemon.ReleaseCards | src/winscard_svc.c:974-1051 | the drain loop ends, with the cards taken one by one from the front |
| Service.Daemon.CleanupClient | src/winscard_svc.c:1159-1196 | a client thread that ends releases its context and is forgotten |
| Service.Daemon.AddHandle | src/winscard_svc.c:1061-1109 | the new handle is listed, or refused for its context or its number |
| Service.Daemon.DoConnect | src/winscard_svc.c:559-603 | connect, and disconnect again when the handle cannot be listed |
| Service.Daemon.DoOnHandle | src/winscard_svc.c:624-640 | a call on a handle, unlisted after a successful disconnect |
| Service.Daemon.Execute | src/winscard_svc.c:525-671 | one command on contexts, connections and transactions as one step of the server, a client without the handle being cut off |
| Service.Daemon.PollTurn | src/eventhandler.c:324-493 | one turn of a polling thread: the look at the card, then the power state, on one reader of the table |
| Service.Daemon.FreeEntry | src/readerfactory.c:281-296 | the first vacant entry, growing the table by two when it is full |
| Service.Daemon.RemoveReader | src/readerfactory.c:672-741 | the entry becomes vacant, with its handles and lock gone |
| ServerLaws.NextKeepsInv | src/winscard_svc.c:353-899 | every step keeps: the reader invariant, no handle on two readers, every live handle listed by a client |
| ServerLaws.RunKeepsInv | src/winscard_svc.c:353-899 | so does every history |
| ServerLaws.StartedInv | src/readerfactory.c:124-157 | the invariant holds at the start |
| ServerLaws.ReleaseAllLaw | src/winscard_svc.c:959-1059 | each reader keeps exactly the handles not listed, a lock goes exactly when its owner is listed, its card is reset unless the owner was told of a reset or a removal, and the handles that stay are told; other locked readers lose only handles |
| ServerLaws.ServeConnectKeepsInv | src/winscard_svc.c:559-603 | a connect keeps the invariant, also when it is given up |
| ServerLaws.CleanupKeepsInv | src/winscard_svc.c:1159-1196 | so does the end of a client |
| Transactions.OwnRequest | src/readerfactory.c:1061-1124 | a call of the owner keeps the lock exactly when it is no disconnect and no balancing end, at the depth the call makes it |
| Transactions.LockStep | src/winscard.c:289-295 | one step that does not give the lock up: the owner keeps it, and a step of another leaves the reader alone |
| Transactions.LockLost | src/winscard_svc.c:959-1059 | after each step that gives the lock up the handle does not hold it |
| Transactions.WatchingStep | src/eventhandler.c:240-493 | the polling thread keeps the lock unless it sees a removal, and disturbs what the lock protects exactly in the turns that are not quiet |
| Transactions.DirectCardGoesDown | src/eventhandler.c:470-481 | such a turn: a powered card goes down within a transaction |
| Transactions.LockHeld | src/readerfactory.c:1053-1124 | over any history without such a step, own calls of every kind included, the lock stays at the depth own calls make it; steps of others and quiet turns of the polling thread leave the reader alone |
| Transactions.TransactionIsolated | src/winscard.c:289-295 | with a card in use that stays in place, the polling thread leaves it alone as well and it stays in use |
| Transactions.BeginStartsTransaction | src/winscard.c:1050-1090 | a successful begin takes the lock, or one level more |
| Transactions.LockedReaderUntouched | src/winscard.c:276-296 | a connect leaves a locked or exclusive reader as it is |
| Transactions.ExclusiveLock | src/readerfactory.c:1077-1108 | over any history in which a connection stays exclusive, exactly when it holds a lock |
| ServerRuns.NothingMissed | src/readerfactory.c:1315-1403 | the event of a handle is the latest of the resets and removals of its reader and of its own reconnects |
| ServerRuns.UntoldMeansNothing | src/readerfactory.c:1315-1403 | a handle that has not reconnected is without event exactly when it was and nothing has happened to the card |
| ServerRuns.NewHandleUntold | src/readerfactory.c:1270-1271 | a new handle starts without event |
| ServerRuns.ToldHandleIsRefused | src/winscard.c:1521-1537 | a handle that was told is refused by the server until it reconnects |
| ServerRuns.NeverPoweredDown | src/eventhandler.c:470-493 | while a connection stays and until the polling thread powers a card up, no tick powers a card down that was in use or off |
| ServerRuns.StaysInUseThroughRun | src/eventhandler.c:470-493 | and the card stays in use when no client has it powered down either |
| ServerRuns.OthersSpared | src/winscard_svc.c:959-1059 | a context that ends spares another client's handles exactly when both list none in common |
| ServerRuns.HandleReused | src/readerfactory.c:1210-1241 | a history in which a number is drawn again and one client's end takes another's connection |
| ReaderTable.Table.Ref | src/readerfactory.c:101-109 | one reference more, unless there is none |
| ReaderTable.Table.Unref | src/readerfactory.c:111-122 | one reference less; the reader is torn down exactly when none is left |
| ReaderTable.Table.Remove | src/readerfactory.c:672-707 | the reader leaves its counters; the library is closed exactly when no other live reader uses it |
| ReaderTable.Table.Join | src/readerfactory.c:344-370 | a clone or slot joins the library; it shares and counts up the mutex unless the driver is thread safe, and then has one of its own with counter 1 |
| ReaderTable.Table.Load | src/readerfactory.c:372-397 | a reader without parent: counters at 1, a new load or none |
| ReaderTable.Table.RemoveReaders | src/readerfactory.c:608-670 | every live reader of that name and port loses one reference, others none |
| ReaderTable.Table.Duplicate | src/readerfactory.c:255-279 | a live reader with the same name, port and device file |
| ReaderTable.Table.AddReader | src/readerfactory.c:191-606 | all slots share one load, their parent's or a new one, and the others stay; the first slot has its parent's mutex exactly when it has a parent that is not thread safe, the others the first's unless the slots are thread safe; or no slot stays and namesakes lose a reference; or a duplicate changes nothing; counters and loads stay right |
| ReaderTable.FailedAddTouches | src/readerfactory.c:396-407 | a failed attempt touches another reader exactly when one has the same name and port and another device file |
| ReaderTable.AddedReferenced | src/readerfactory.c:341-342 | a reader that is added starts with a reference, so every live reader keeps one |
| ReaderTable.NamesakeLost | src/readerfactory.c:396-407 | such a case: the other reader is torn down |
| ReaderTable.LastFeed | src/readerfactory.c:1038-1051 | the counter is 1 exactly when no other live reader uses the library |
| ReaderTable.ClosedByLast | src/readerfactory.c:1038-1051 | closing with the last reader keeps: each load closed exactly once, never while in use |
| ReaderNames.SetReaderName | src/readerfactory.c:743-856 | the digit, name, slot number, parent or error, by the marking and searching loops |
| ReaderNames.DigitRoundTrip | src/readerfactory.c:803-803 | a digit is read back as it was printed exactly when it has two places |
| ReaderNames.DigitLeft | src/readerfactory.c:815-829 | pigeonhole: a table with a vacant entry has a free digit |
| ReaderNames.NeverMaxReaders | src/readerfactory.c:825-829 | the error for too many readers never occurs |
| ReaderNames.NewDigit | src/readerfactory.c:764-823 | with a fixed channel count above 1 the new digit is none of the driver's |
| ReaderNames.NamingExactly | src/readerfactory.c:743-856 | the least digit that no reader that counts has, the last of them as parent, the name and slot number with it; refused exactly when all digits below the channel count are taken |
| ReaderNames.FirstOfDriver | src/readerfactory.c:743-856 | when no reader counts the name ends in 00 00 and the slot number is 0 |
| ReaderNames.AddsAllSlots | src/readerfactory.c:460-508 | every slot is there with its name and slot number, the readers there were stay, a refused reader changes nothing |
| ReaderNames.NextDistinct | src/readerfactory.c:507-508 | adding readers with any number of slots, or removing them, keeps the slot numbers of such a driver distinct |
| ReaderNames.RunDistinct | src/readerfactory.c:191-606 | so does every history |
| ReaderNames.NameFits | src/readerfactory.c:243-251 | a name never exceeds MAX_READERNAME |
| ReaderNames.AddDistinctExactly | src/readerfactory.c:743-856 | for every driver, exactly when adding a reader keeps the slot numbers distinct |
| ReaderNames.SingleChannelClash | src/readerfactory.c:764-856 | with a single channel two readers can have the same slot number |
| ReaderNames.RunBounded | src/readerfactory.c:750-806 | over every history the digits in the names are positions of the table, as the array of used digits needs |
| StatusChange.Pass | src/winscard_clnt.c:1883-2133 | event and break flag of one reader, by successive updates |
| StatusChange.Round | src/winscard_clnt.c:1869-2150 | a round over all readers, those ignored left alone |
| StatusChange.SCardGetStatusChange | src/winscard_clnt.c:1740-2205 | the rounds of a call up to the first that breaks: the events they build, what is returned, and the returns before them for readers ignored or unknown |
| StatusChange.NeverPresentAndEmpty | src/winscard_clnt.c:2017-2076 | no pass says both present and empty |
| StatusChange.CallNeverPresentAndEmpty | src/winscard_clnt.c:1823-2145 | nor does a call |
| StatusChange.BreakMeansChanged | src/winscard_clnt.c:1940-2133 | a pass that breaks sets the change bit, except exactly when a reader in error wipes it |
| StatusChange.ReturnedChanged | src/winscard_clnt.c:1823-2145 | after silent rounds the event says changed exactly when the last round breaks for the reader and nothing wipes it |
| StatusChange.ReturnInErrorIsSilent | src/winscard_clnt.c:1929-1985 | such a case |
| StatusChange.Stable | src/winscard_clnt.c:1883-2133 | exactly when an event of any pass, fed back with the reader unchanged, breaks; it is told then and only then |
| StatusChange.CallStable | src/winscard_clnt.c:1823-2145 | exactly when a round of a call started from a returned event breaks while the reader is unchanged; otherwise the call stays silent over any number of rounds |
| StatusChange.TellsNothing | src/winscard_clnt.c:1883-2133 | what an event says of a reader not polled yet |
| StatusChange.Tells | src/winscard_clnt.c:1883-2015 | what an event says of a reader that is missing or in error, and of the counter |
| StatusChange.TellsCard | src/winscard_clnt.c:2017-2076 | exactly when an event says empty, present or mute, whatever was in it before |
| StatusChange.TellsInUse | src/winscard_clnt.c:2078-2123 | exactly when it says in use |
| StatusChange.TellsRest | src/winscard_clnt.c:1940-2076 | exactly which of the bits that no look sets stay from earlier rounds |
| StatusChange.TellsExclusive | src/winscard_clnt.c:2078-2110 | exactly when an event says exclusive, whatever was in it before |
| StatusChange.StaleExclusive | src/winscard_clnt.c:2078-2110 | an event that says exclusive of a shared use |
| StatusChange.Complete | src/winscard_clnt.c:1883-2133 | exactly when a pass breaks that starts from the event of any earlier one, also of one on a reader not polled yet |
| StatusChange.CompleteChanged | src/winscard_clnt.c:1883-2133 | and it is told, unless a missing reader has come back in error |
| StatusChange.UnpolledBlind | src/winscard_clnt.c:1956-2133 | after the event an unaware call gets of a reader not polled yet, a pass breaks exactly when the reader is missing, in error or its card mute, whatever its counter and sharing |
| StatusChange.EmptyEvent | src/winscard_clnt.c:2125-2133 | an empty event, which is not stable |
| StatusChange.SharingTold | src/winscard_clnt.c:2078-2123 | exactly which changes of the sharing are told, with a card in the reader, after the event of any pass |
| Notification.MovementIsTold | src/eventhandler.c:349-433 | exactly when an application that was not told of anything before, whatever its current state, is told of a card the polling thread saw come or go |
| Notification.PolledMovementIsTold | src/eventhandler.c:349-433 | after the event of a reader that had been polled: exactly when the reader looks different or the counter in it is not 0 |
| Notification.UnpolledMovement | src/eventhandler.c:349-433 | after the event of a reader not polled yet, got by an unaware call: exactly when a mute card comes |
| Notification.FoundGoneFirst | src/winscard.c:1617-1633 | such a loss that is not told |
| ListReaders.SCardListReaders | src/winscard_clnt.c:2935-3034 | the length announced is the length written, the buffer holds the multi-string and nothing beyond it is touched; the error cases |
| ListReaders.TotalLength | src/winscard_clnt.c:2972-2978 | the length of the first loop |
| ListReaders.WriteNames | src/winscard_clnt.c:3015-3027 | the second loop writes exactly that many characters |
| ListReaders.MultiReadsBack | src/winscard_clnt.c:3015-3027 | the multi-string is read back as the names that are not empty, in order |
| ListReaders.Walk | doc/example/pcsc_demo.c:94-125 | the demo client's walk stays inside and finds these names |

## Left out

- Interleavings finer than one server call, and with them the gap between the exclusivity check and the update of `contexts`.
- SimCList.List.FindPos: the source compares a float quotient; the model compares integers, which agrees up to 2^24 elements.
- SimCList.List.Locate: elements are compared by comparator, or by equality in the place of pointer identity; seeker functions are covered only where a table searches by key.
- SimCList hashing, dump, restore, min and max, threads in the sort, `free()`, `malloc` failure and ownership of elements.
- Transactions.LockHeld: the owner's number is listed by no other client, which HandleReused shows to be needed.
- Service.Daemon.Execute: the commands that wait for an event, stop waiting or cancel, which touch no reader and are in EventHandler and Contexts, and those that only read.
- Contexts.SCardCancel: an error of the socket when the answer is sent.
- ReaderState, ReaderTable and ReaderNames each describe one reader table by other fields (sharing and card, references and drivers, names and slots); the model does not join them.
- The lists of handles, of cards and of contexts are plain sequences; only EventHandler.Registry is built on SimCList.List.
- SimCList keeps the elements it is given; the mode that copies them (`copy_data`), which only concerns who owns the memory, is not modelled.
- AtrHandler.DecodeAtr: the length is consulted only where the source does, in its first test, so the buffer is given slack past MAX_ATR_SIZE; masks of protocols are sets.
- ServerState.FindByName: reader names are compared as they are; duplicate names of different drivers and the FILTER_NAMES options are not modelled.
- Service.Daemon.AddReader: a reader of one slot with a driver of its own; clones and slots are in ReaderTable, names in ReaderNames.
- Service.Daemon.DoConnect: polkit is an oracle, like the driver.
- ReaderContexts.ReaderContext.SCardControl: the bytes exchanged and their number.
- ReaderContexts.ReaderContext.SCardTransmit: the bytes exchanged and the protocol control information given to the driver.
- ReaderContexts.ReaderContext.SCardAttrib: the value of an attribute.
- ReaderTable.Table.Load: binding the driver's functions succeeds; a reader that is removed twice.
- ReaderTable.Table.AddReader: the name without its numbers and the port are one key, the device file another; names that differ only beyond the length they are compared to.
- StatusChange.Round: the PnP pseudo reader and the copy of the ATR.
- StatusChange.SCardGetStatusChange: the clock behind a timeout, the registration with the daemon for an event (in EventHandler), NULL arguments and a closed context; the daemon's states for each round are given.
- ListReaders.SCardListReaders: the check of the context and the transfer of the reader states from the daemon.
- Sockets, message framing, the order of an event message among other replies, hotplug back ends, configuration parsing, logging, daemon start-up.
- Handle and context numbers 0 and 0xFFFF, which the generator could draw; the latter also tells a polling thread to end.
