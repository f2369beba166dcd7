# Game server: verified models

This project models the algorithms and state machines of a game server written
in Rust and Lua, and proves what they are for. `dafny verify dfyconfig.toml`
checks all of it.

**Mahjong** (`Combine`, `Tiles`, `KingSearch`, `Assembly`, `HuCheck`,
`SearchBounds`, `Completeness`, `Cover`, `Wildcards`, `MissedWin`). Deciding
whether a hand with wildcards ("kings") wins: subsets are enumerated in place in
a 0/1 array, tiles and kings are charged to count tables, each colour is searched
for triples and a pair, and what is left over is assembled into a full hand. A
list that is answered is a winning hand made of the hand's tiles and the
wildcards; one is answered exactly when neither of two reasons to lose holds, and
with at most five copies of a tile that is exactly when some winning hand keeps,
in every colour, as many triples and sequences of the hand itself as can be kept.

**Messages** (`Wire`, `NetMsg`, `Dispatch`). A 26-byte header patched in place,
and the reassembly of frames from a byte stream that arrives in chunks.

**Landlord table** (`DeskState`, `DeskProofs`, `DeskBidding`, `DeskLateBids`,
`DeskPlay`, `DeskWitness`, `DdzDesk`). Seating, dealing, bidding, rounds and
timeouts as a state machine, with the table as an object that is proved to take
its steps; and runs in which one event out of order breaks the game.

**Bag** (`Stacks`, `Container`). Stacks of items by position: receiving,
loading, merging, dropping and switching.

**Database requests** (`DbRequests`, `UserLoads`, `DbService`). Requests that are
answered later or time out, and the load of a player that waits for four of them.

**Smaller parts**: unique ids (`RidGen`), Base64 (`Base64`), the form coding
(`UrlCodec`), message sequence numbers (`SeqCheck`), levels (`LevelUp`).

Code that changes state in place is modelled by classes and loops, each proved
against a function or relation on values; the properties are proved of those.

## What is assumed

- The buffer, the numbers and the strings of `tunm_proto`: little-endian
  numbers, strings with a two-byte length, a buffer that writes over its bytes.
- The landlord table is given shuffled decks of 54 cards and sorting
  that rearranges a hand; card ranking and the hands that double the stake are
  parameters. `append_to_array`, which the repository does not define, appends.
- Item tables give a slot room for one item or more, and for exactly one piece of
  equipment.
- Clocks, random seats, decks, database answers and the order in which tables are
  walked are parameters or arbitrary choices.

## Where the code falls short of its purpose

- The seating code takes rids of 12 characters to be valid
  (`scripts/global/base/game_util.lua:19-21`), but `get_rid` makes 18: with those
  the second player is put on the first one's seat (`DeskProofs.LongRidsCollide`);
  seats stay right exactly when the seat handed out is free
  (`DeskProofs.EnterKeepsSeats`).
- Dropping an item that was read from the database asks for 12 characters too, and
  merging adds the amount to the stack before it drops: an item of the bag saved
  under a rid of 18 characters stays beside the stack that has grown by it
  (`Containers.CombineDoubles`). Combining keeps the totals exactly when the item
  goes into no stack or can be dropped (`Containers.CombineConserves`).
- `offline_time` is never set anywhere, so nobody ever counts as offline: a failed
  game unseats nobody (`DeskBidding.ClearKeepsSeats`). A won game asks players who
  have logged out to leave while it still counts as running, which does nothing
  (`DeskPlay.WinStep`). A win does not reset the number of re-deals either.
- A bid is checked against the seat but not against the step. Sent during play it
  hands out the left-over cards again (`DeskWitness.LateBidDoublesCards`); and
  after three noes, until the timer deals again, a yes makes the last bidder
  landlord with the cards nobody wanted (`DeskWitness.LateYesSkipsDeal`). The game
  stays sound exactly when bids come while there is bidding, or are a no before a
  deal (`DeskLateBids.BidKeepsInv`); `DeskProofs.Orderly` says the same for every
  kind of event.
- `read_head` stores the sender's id in the wrong field: the header is restored
  exactly when the old id happens to be the one sent (`NetMsgs.NetMsg.ReadHead`).
- Loading an item of the bag onto a slot that refuses it takes it out of the bag
  (`Containers.LoadRefused`, `Containers.RefusedLoadTakesOut`), and an item taken
  out keeps its old position: loading it later onto a stack that lies there now
  empties that position (`Containers.MergeLosesStack`; `Containers.LoadConserves`
  says exactly when a load loses or doubles something).
- `get_combine_list` answers no list for k = 0 rather than the empty one. A hand
  with three or more codes that are no tile gets a list that is too short
  (`HuCheck.WinSize`, `HuCheck.ThreeFakesWin`).
- The triples and sequences that the hand itself holds are taken off first, as many
  as can be; with wildcards that can miss a win (`MissedWin.WildcardsMissWin`:
  with two wildcards 1, 3, 4, 4, 5, 7 are 123, 44 and 567, but 345 is taken off).
  `Wildcards.FoundIfKept` is the exact condition. And only one triple of a tile is
  looked for, so six copies do not win (`Completeness.SixCopies`,
  `Completeness.FoundWithoutWildcards`).
- Past the last level of the table experience is lost, so gaining in two steps
  can differ from gaining at once (`LevelUp.TopLosesGain`; `LevelUp.InTwoSteps`
  says exactly when). Past the highest level allowed the level is cut but the
  experience stays spent, and a further call can spend more
  (`LevelUp.CapSpendsGain`; `LevelUp.SettledWhen` says exactly when it does not).
- The form coder leaves `-`, `.`, `_` and `~` as they are, where section 17.13.4.1
  of HTML 4.01 escapes all that is no letter or digit, and gives every line feed a
  carriage return, so that CR LF becomes CR CR LF (`UrlCodec.CrLfGrows`);
  `UrlCodec.EncodeIsForm` is the exact condition.
- A new cookie that is still in use replaces the request that waits under it,
  which is then never answered (`DbRequests.OneReadTooMany`); a request is safe
  exactly when its cookie is free (`DbRequests.ReadDbEachOnce`,
  `UserLoads.NextInv`).

## Model

| member | source | states |
|---|---|---|
| Combine.GetCombineList | src/game/majiang.rs:156-212 | for 0 < k <= n every k-subset of 0..n-1 is listed once, ascending, in strictly increasing order of the sum of 2^i; no list for k = 0 |
| Combine.AdvanceKeeps | src/game/majiang.rs:184-206 | one turn of the in-place array keeps the number of ones and raises the binary value |
| Combine.AdvanceIsNext | src/game/majiang.rs:184-206 | no array with as many ones lies between an array and the next one, so none is skipped |
| Combine.EnumerationSize | src/game/majiang.rs:156-212 | an enumeration of the k-subsets has n-choose-k lists |
| Tiles.CostOneItems | src/game/majiang.rs:215-233 | charging an item succeeds exactly when its total shortfall is at most the kings held, and takes its tiles and exactly that many kings |
| Tiles.ShortfallAdds | src/game/majiang.rs:215-233 | charging one list after another costs what charging both together costs, so order does not matter |
| Tiles.SubNumPokers | src/game/majiang.rs:108-124 | the listed tiles are taken out of the counts, and nothing else |
| Tiles.IdxToList | src/game/majiang.rs:245-255 | the list holds each tile as often as the counts say, in whatever order they are walked |
| Tiles.GetPokerIdxSum | src/game/majiang.rs:236-243 | the number of tiles and kings held |
| KingSearch.CheckLeftValid | src/game/majiang.rs:258-292 | the leftovers are accepted exactly when there are none, a pair, or one tile and a king, and the pair is appended; only a single tile costs a king |
| KingSearch.PassingDecomposes | src/game/majiang.rs:378-446 | a choice that passes is a decomposition: legal items, at most one pair, the tiles a sub-multiset of those listed, as many listed as tiles held plus kings spent |
| KingSearch.TryChoice | src/game/majiang.rs:402-433 | a choice succeeds exactly when it passes, and its king count is its shortfall and that of the finishing pair |
| KingSearch.CalcTttCombine | src/game/majiang.rs:297-446 | success gives a decomposition with 0 <= kings <= king_count, and no choice of any size within the bounds of the search costs fewer; failure means that none within them passes for less than 255 |
| KingSearch.CollectKingItems | src/game/majiang.rs:313-376 | the items tried are those that the counts and kings allow, rank by rank |
| Assembly.FinishFull | src/game/majiang.rs:578-599 | with no pair allowed, all pairs become triples, no tile is lost, the size is the next multiple of three |
| Assembly.FinishWithPair | src/game/majiang.rs:601-662 | exactly one pair survives, no tile is lost in the two drains that stop early, the size is the next number that leaves two |
| Assembly.UpgradePairs | src/game/majiang.rs:613-641 | all pairs become triples, or all but one when kings are one short |
| Assembly.FillWithKings | src/game/majiang.rs:590-597 | the subtract-three loop adds exactly the triples of the king tile that use up the kings left |
| HuCheck.LargestFree | src/game/majiang.rs:502-538 | the lists kept are exactly the largest king-free choices that are large enough to be looked at |
| HuCheck.SolveColor | src/game/majiang.rs:464-563 | a colour is split with the kings reported, the fewest that any largest king-free choice and its rest cost; it fails only when no such choice has a rest that the search finishes for less than 255 |
| HuCheck.CheckCanHu | src/game/majiang.rs:448-666 | an answer is a winning hand: legal items, one pair or none as the size demands, every real tile of the hand in it; there is none exactly when the size is wrong, a colour is stuck with the kings the earlier ones left, or too many pairs are left |
| HuCheck.WinOfRealTiles | src/game/majiang.rs:448-666 | on real tiles the hand is a sub-multiset of the list, and the rest of the list is exactly king_num tiles |
| HuCheck.WinSize | src/game/majiang.rs:72-86 | a winning list has hand size plus king_num tiles exactly when the hand has fewer than three codes that are no tile |
| HuCheck.WildcardsWin | src/game/majiang.rs:448-666 | a hand without a real tile is never turned down for a colour or for pairs |
| HuCheck.ThreeFakesWin | src/game/majiang.rs:72-86 | three codes that are no tile win, and only with a list of no tiles |
| SearchBounds.PassingSize | src/game/majiang.rs:305-311 | when no item is held as it is, a choice that passes takes a king for every item and leaves two tiles at most |
| SearchBounds.EatInColor | src/game/majiang.rs:468-538 | after a largest king-free choice no sequence of the colour is left that the tiles alone pay for |
| SearchBounds.BoundsLoseNothing | src/game/majiang.rs:305-389 | with up to 301 tiles of a colour, what a colour costs within the bounds of both searches is what it costs by any choice after any largest king-free one, if that is less than 255 |
| Completeness.FoundWithoutWildcards | src/game/majiang.rs:448-666 | without wildcards a hand of real tiles has no reason to lose exactly when there is a winning hand of its tiles in which no tile has two triples of its own |
| Completeness.NoWinMissed | src/game/majiang.rs:448-666 | without wildcards and with at most five copies of every tile no winning hand is missed |
| Completeness.SixCopies | src/game/majiang.rs:478-486 | six copies of a tile are a winning hand and lose |
| Cover.SplitFinds | src/game/majiang.rs:297-446 | of tiles without a sequence and without three alike, the items that the search builds allow a split that takes no more wildcards than any split into legal items |
| Wildcards.FoundAfterFree | src/game/majiang.rs:463-564 | with at most five copies of every tile, spending the fewest wildcards on one colour after the other finds a win exactly when, after some largest king-free choice in every colour, there is any way to split the rest of all colours that the wildcards suffice for |
| Wildcards.FoundIfKept | src/game/majiang.rs:448-666 | with at most five copies of every tile, a hand of real tiles with any number of wildcards has no reason to lose exactly when there is a winning hand that contains a largest king-free choice of every colour |
| MissedWin.WildcardsMissWin | src/game/majiang.rs:502-538 | with two wildcards 1, 3, 4, 4, 5, 7 are a winning hand and lose |
| NetMsgs.HeadRoundTrip | src/net/net_msg.rs:97-152 | the nine header fields are decoded as they were encoded |
| NetMsgs.NetMsg.NewByDetail | src/net/net_msg.rs:47-68 | a new message spells its fields and its length in 32 bits in front of its name and data; it is finished exactly when it is shorter than 2^32 bytes, and its name is read back up to the length that fits two bytes |
| NetMsgs.NetMsg.EndMsg | src/net/net_msg.rs:138-152 | the header is patched in place to spell the fields, with the write position in 32 bits as the length; the body is untouched, and the message is finished exactly when that is its length |
| NetMsgs.NetMsg.SetCookie | src/net/net_msg.rs:267-273 | of any message the four bytes of the cookie are patched and nothing else; it is finished then exactly when it was but for its cookie |
| NetMsgs.NetMsg.ReadHead | src/net/net_msg.rs:158-174 | every field is restored but from_svr_id; all are exactly when that one was right before |
| NetMsgs.NewByData | src/net/net_msg.rs:97-132 | a frame is parsed or refused exactly as the reference parser says |
| NetMsgs.FinishedRoundTrip | src/net/net_msg.rs:97-152 | a finished message is parsed back with all its fields, exactly when a name can be read behind its header |
| Dispatch.ParseContinues | src/mgr/mio_event_mgr.rs:268-293 | what a stream has delivered does not depend on what comes later, and what comes later continues from the bytes left over |
| Dispatch.ChunksDoNotMatter | src/mgr/mio_event_mgr.rs:255-293 | however a stream is cut into chunks, a connection delivers the messages of the whole stream and dies exactly at its first malformed frame |
| Dispatch.SentIsParsed | src/mgr/mio_event_mgr.rs:268-308 | finished messages arrive complete and in order, up to the first one longer than 65536 bytes |
| Dispatch.ChunkedDelivery | src/mgr/mio_event_mgr.rs:255-308 | any cutting of the bytes of finished messages delivers exactly those messages, if and only if all of them fit a frame |
| Dispatch.NextStepProgress | src/mgr/mio_event_mgr.rs:279-308 | every message taken off the stream uses up at least 26 bytes |
| Dispatch.GetNextMessage | src/mgr/mio_event_mgr.rs:295-308 | the next frame is taken out of the buffer exactly when it is complete |
| Dispatch.MioEventMgr.DataRecieved | src/mgr/mio_event_mgr.rs:255-266 | a chunk takes its connection one step along its stream, hands over the new messages, and leaves the other connections alone |
| Dispatch.MioEventMgr.TryDispatchMessage | src/mgr/mio_event_mgr.rs:268-293 | every complete message is handed over, and a malformed frame ends the connection |
| Dispatch.MioEventMgr.AddKickEvent | src/mgr/mio_event_mgr.rs:330-341 | the connection, and only it, is forgotten; one that is not known changes nothing |
| Dispatch.MioEventMgr.ArriveAll | src/mgr/mio_event_mgr.rs:255-293 | chunks of any connections in any order leave each connection as its own chunks alone would |
| DeskProofs.EnterKeepsSeats | scripts/server/clone/rooms/desk.lua:41-79 | entering keeps users and seats inverse to each other exactly when the seat handed out is the player's own or empty |
| DeskProofs.LongRidsCollide | scripts/server/clone/rooms/desk.lua:41-79 | two players with rids of 18 characters end up on one seat |
| DeskPlay.NextInv | scripts/server/clone/rooms/ddz_desk.lua:34-454 | an event keeps the invariant of seats, bids, rounds and hands exactly when it is orderly, and then moves nobody while a game is on |
| DeskPlay.RunInv | scripts/server/clone/rooms/ddz_desk.lua:14-454 | in a run from an empty table the invariant holds throughout exactly when every event is orderly |
| DeskLateBids.BidKeepsInv | scripts/server/clone/rooms/ddz_desk.lua:434-439 | a bid by the seat whose turn it is keeps the invariant exactly while there is bidding, or before a deal when it is a no |
| DeskLateBids.BidDuringPlay | scripts/server/clone/rooms/ddz_desk.lua:147-153 | a bid during play adds the three left-over cards to the hands again and breaks the invariant |
| DeskLateBids.YesBeforeDeal | scripts/server/clone/rooms/ddz_desk.lua:147-153 | a yes before a deal starts play with the bidder as landlord and the old cards |
| DeskWitness.LateBidDoublesCards | scripts/server/clone/rooms/ddz_desk.lua:434-439 | an orderly run leads to a table where a late bid leaves a card in the hands twice |
| DeskWitness.LateYesSkipsDeal | scripts/server/clone/rooms/ddz_desk.lua:197-207 | an orderly run leads to a table where all three have refused and a yes starts play |
| DeskBidding.BiddingGoesOn | scripts/server/clone/rooms/ddz_desk.lua:118-146 | with fewer than three bids the next seat is asked, with two yeses among three the first to say yes, and the stake is 15 doubled for every yes |
| DeskBidding.BiddingFails | scripts/server/clone/rooms/ddz_desk.lua:139-207 | three noes lead to a new deal, and after two of those to the end of the game |
| DeskBidding.BiddingSettles | scripts/server/clone/rooms/ddz_desk.lua:100-156 | the landlord is the last seat that said yes, after three or four bids; the stake is 15 * 2^yeses; he holds 20 cards, the others 17, and no card is lost or doubled |
| DeskBidding.BiddingProgress | scripts/server/clone/rooms/ddz_desk.lua:34-63 | every deal, choice of the first seat, bid or timed-out bid lowers the number of moves left in the bidding |
| DeskPlay.BiddingEnds | scripts/server/clone/rooms/ddz_desk.lua:118-207 | in an orderly run that stays in bidding, whatever else happens in it, there are fewer than 20 deals, choices of the first seat, bids and timed-out bids |
| DeskBidding.DealInv | scripts/server/clone/rooms/ddz_desk.lua:36-46 | the hands and the cards kept back hold each card of the deck once, and the invariant is kept exactly when those differ |
| DeskBidding.DealConserves | scripts/server/clone/rooms/ddz_desk.lua:36-46 | dealing gives 17 cards to each seat, keeps three, and neither loses nor adds one |
| DeskPlay.RoundEndSeat | scripts/server/clone/rooms/ddz_desk.lua:340-349 | the seat that wins a round is the last one that really played and also the next in turn |
| DeskPlay.SubPokerExact | scripts/server/clone/rooms/ddz_desk.lua:393-396 | a play takes exactly its cards out of a hand of different cards |
| DeskPlay.PlayCardsInv | scripts/server/clone/rooms/ddz_desk.lua:366-415 | a call is refused and changes nothing, is a pass, or plays cards that were in the hand and beat what lies there; each keeps the invariant |
| DeskPlay.PassInv | scripts/server/clone/rooms/ddz_desk.lua:378-391 | a pass moves the turn to the next seat, whether or not it ends the round, and touches no hand |
| DeskPlay.SlowLeader | scripts/server/clone/rooms/ddz_desk.lua:366-372 | a player who leads and is too slow plays the last card of his hand |
| DeskPlay.WinStep | scripts/server/clone/rooms/ddz_desk.lua:302-326 | the last card ends the game with everybody still seated |
| DeskBidding.ClearKeepsSeats | scripts/server/clone/rooms/ddz_desk.lua:169-182 | ending a failed game leaves everybody seated |
| DdzDesks.DdzDesk.Handle | scripts/server/clone/rooms/ddz_desk.lua:418-454 | the table object takes the step of the state machine on every event, keeps the invariant and the seats |
| DdzDesks.DdzDesk.CheckUserWheel | scripts/server/clone/rooms/desk.lua:41-55 | the player's own seat, or between games the first one whose rid does not look valid |
| DdzDesks.DdzDesk.CurLordChoose | scripts/server/clone/rooms/ddz_desk.lua:118-156 | the object's bid is the state machine's |
| DdzDesks.DdzDesk.ClearAllStatus | scripts/server/clone/rooms/ddz_desk.lua:169-182 | hands are put away, and the first seat of a player marked offline is emptied |
| DdzDesks.DdzDesk.DealPoker | scripts/server/clone/rooms/ddz_desk.lua:366-415 | the object's play is the state machine's |
| DdzDesks.DdzDesk.WinByIdx | scripts/server/clone/rooms/ddz_desk.lua:302-326 | asking logged-out players to leave changes nothing; then the game is over |
| DdzDesks.DdzDesk.TimeUpdate | scripts/server/clone/rooms/ddz_desk.lua:34-63 | the object's timer is the state machine's |
| Stacks.ReceivedTotal | scripts/server/clone/container.lua:600-643 | the class grows by exactly the smaller of the amount and the room in slots 1 to size - 1; other classes do not change |
| Stacks.ReceivedSlots | scripts/server/clone/container.lua:600-643 | no slot loses anything, changes its class, goes past the limit, or lies outside the page or at slot zero if it changes |
| Stacks.ReceivedFillsFirst | scripts/server/clone/container.lua:605-630 | a new stack is begun only when all old ones of the class on the page are full |
| Containers.Container.ReceiveProperty | scripts/server/clone/container.lua:586-643 | as much as there is room for is stored, with check_enough all or nothing; objects in the bag stay where they are |
| Containers.Container.LoadProperty | scripts/server/clone/container.lua:646-673 | the item is placed or merged, or refused, or the call ends in an error after the amount was added, as the value of the bag says; it is in the bag, gone or left over accordingly |
| Containers.Container.CombineToPos | scripts/server/clone/container.lua:27-62 | an item, in the bag or not, is merged into another one's stack at a position, or placed there when it is free; if it cannot be dropped the call ends in an error after the amount was added |
| Containers.CombineConserves | scripts/server/clone/container.lua:27-62 | combining an item of the bag keeps every total exactly when it goes into no stack or can be dropped |
| Containers.CombineDoubles | scripts/server/clone/container.lua:53-59 | an item of two, saved under a rid that the server made, is combined with one of three: five and two are in the bag |
| Containers.Container.Drop | scripts/server/clone/container.lua:64-92 | the item is gone, and so is what lies at its last position, exactly when it was not read from the database or its rid has 12 characters; otherwise nothing changes |
| Containers.Container.InitProperty | scripts/server/clone/container.lua:569-584 | at login an item of a known class is put at its free position and counts as saved; otherwise nothing changes |
| Containers.Container.UnloadProperty | scripts/server/clone/container.lua:680-692 | what lies at the item's last position leaves the bag, and the item keeps that position |
| Containers.Container.SwitchPos | scripts/server/clone/container.lua:714-733 | what is at two positions changes places, and every item still knows where it is |
| Containers.SwitchedTwice | scripts/server/clone/container.lua:714-733 | switching twice is not switching at all |
| Containers.SwitchedTotal | scripts/server/clone/container.lua:714-733 | switching keeps the total of every class |
| Containers.LoadConserves | scripts/server/clone/container.lua:646-673 | of what the bag and the item hold together nothing is lost or doubled by a load, exactly when it goes into no stack, or can be dropped and nothing lies at the position it was last put at |
| Containers.LoadRefused | scripts/server/clone/container.lua:646-656 | a refused load has no effect exactly when the item was not in the bag |
| Containers.MergeLosesStack | scripts/server/clone/container.lua:646-692 | an item taken out and loaded onto what lies at its old position empties it |
| Containers.RefusedLoadTakesOut | scripts/server/clone/container.lua:646-656 | loading equipment of the bag onto other equipment takes it out |
| Containers.Container.GetPropertyAmount | scripts/server/clone/container.lua:162-173 | the total of a class, whatever order the bag is walked in |
| Containers.Item.AddAmount | scripts/global/clone/item.lua:47-67 | the amount grows unless the count is not positive or the limit would be passed |
| Containers.Item.CanCombine | scripts/global/clone/item.lua:70-90 | two different items of one stackable class whose amounts fit one slot |
| DbRequests.SameCookie | scripts/global/base/global_cookie.lua:7-14 | a cookie comes back after 2^32 - 1 of them and no sooner |
| DbRequests.ReadDbEachOnce | scripts/server/daemons/dbd.lua:227-248 | a new request keeps "each request waits or was answered once" exactly when nothing waits under its cookie |
| DbRequests.SettleEachOnce | scripts/server/daemons/dbd.lua:197-224 | a result or a timeout keeps it |
| DbRequests.OneReadTooMany | scripts/server/daemons/dbd.lua:227-248 | after 2^32 - 1 requests that all wait, the next one takes the place of the first, which is never answered |
| UserLoads.NextInv | scripts/server/daemons/user_dbd.lua:10-118 | an event, in whatever order, keeps the accounts of requests, open reads and callbacks exactly when the cookies it makes are not in use |
| UserLoads.RunInv | scripts/server/daemons/user_dbd.lua:10-118 | they hold throughout a run of requests, loads, results, late and repeated results, and timeouts exactly when no cookie comes round while it is in use |
| UserLoads.AnsweredOnce | scripts/server/daemons/dbd.lua:197-224 | an answered request's callback has not been called before and cannot be again |
| UserLoads.LoadAnswered | scripts/server/daemons/user_dbd.lua:10-26 | once its reads are off the list a load has been called back, and once only; without a failure all four have succeeded, where an empty ddz_info table counts as success |
| UserLoads.SuccessIsWhole | scripts/server/daemons/user_dbd.lua:10-74 | a success is reported only after all four reads succeeded |
| UserLoads.FailsAtOnce | scripts/server/daemons/user_dbd.lua:10-74 | the first read that fails calls back with the failure at once; later ones do not |
| UserLoads.LoadByTick | scripts/server/daemons/dbd.lua:20-41 | after a tick past the time limit of its reads a load has been called back exactly once |
| DbServices.DbService.TimerHandle | scripts/server/daemons/dbd.lua:20-41 | exactly the requests that are 15 seconds old are off the list, and loads that only waited for those have been called back |
| DbServices.DbService.NotifyOperationResult | scripts/server/daemons/dbd.lua:197-224 | a known request is removed and its callback called; an unknown one is ignored |
| DbServices.DbService.LoadDataFromDb | scripts/server/daemons/user_dbd.lua:77-118 | four reads go out one after the other under one load |
| DbServices.DbService.PartCallback | scripts/server/daemons/user_dbd.lua:36-74 | one read counts as failed or brings its data; the user read needs a row and ignores the return code, the others need a table and return code 0 |
| RidGen.NextIsLater | src/lua_custom/lua_util.rs:43-60 | whatever the clock says, the pair of time and sequence goes up |
| RidGen.SameRid | src/lua_custom/lua_util.rs:61-84 | two ids are equal exactly when the times agree modulo 2^40, servers and sequences are equal and the flags agree modulo 2^15 |
| RidGen.RidsDiffer | src/lua_custom/lua_util.rs:38-87 | ids of one run within one window of 2^40 ms all differ, and for one server and flag they ascend as strings |
| RidGen.EncodedLess | src/lua_custom/lua_util.rs:12 | the characters are in the order of the digits they stand for |
| RidGen.RidMaker.GetRid | src/lua_custom/lua_util.rs:38-87 | the next stamp, and its 18 characters |
| Base64.EncIsRfc4648 | scripts/global/daemons/base64d.lua:9-20 | coding is that of section 4 of RFC 4648, padding included |
| Base64.RoundTrip | scripts/global/daemons/base64d.lua:23-36 | decoding gives back every byte string that was coded |
| Base64.DigitsOf | scripts/global/daemons/base64d.lua:11-12 | the digit loop finds the bits, highest first |
| Base64.NumberOf | scripts/global/daemons/base64d.lua:16-17 | the adding loop finds the number that the digits stand for |
| Base64.SixesBits | scripts/global/daemons/base64d.lua:14-29 | the letters stand for the digits they were made from, up to the last whole group |
| UrlCodec.RoundTrip | scripts/global/daemons/base64d.lua:39-55 | decoding gives back every byte string, whatever is in it |
| UrlCodec.EncodeIsOnePass | scripts/global/daemons/base64d.lua:47-55 | the three passes come to one that looks at each byte by itself |
| UrlCodec.EncodeIsForm | scripts/global/daemons/base64d.lua:47-55 | the code is the form of section 17.13.4.1 of HTML 4.01, with CR LF or a lone line feed as the line break, exactly when the text has no hyphen, full stop, underscore or tilde and no CR directly before an LF |
| UrlCodec.CrLfGrows | scripts/global/daemons/base64d.lua:47-55 | CR LF is coded as CR CR LF |
| SeqCheck.InStep | scripts/global/inherit/agent.lua:42-61 | the number k steps on from that of one message is that of another exactly when it is k places on, up to multiples of 2^16 |
| SeqCheck.Agent.CheckAll | scripts/global/base/global_comm.lua:290-295 | the k-th message received is accepted exactly when it is k places after the first one, up to multiples of 2^16 |
| SeqCheck.Agent.CheckNextClient | scripts/global/inherit/agent.lua:54-61 | the first number is accepted, and after k checks the one that is k steps on, whatever came in between |
| SeqCheck.Sender.GetNetworkSeqId | scripts/client/global/funcitons.lua:7-11 | the n-th message gets 111 * n in 16 bits |
| LevelUp.Player.TryLevelUp | scripts/server/daemons/userd.lua:159-205 | as many levels as the experience pays for, cut to the highest one |
| LevelUp.PaysFor | scripts/server/daemons/userd.lua:171-192 | a player ends up within the table, or not above a level, exactly when his experience is less than the thresholds up to its end, or up to that level |
| LevelUp.RaisedSettles | scripts/server/daemons/userd.lua:171-192 | a second call changes nothing, and below the table's end the experience gone is the sum of the thresholds passed |
| LevelUp.SettledWhen | scripts/server/daemons/userd.lua:159-205 | a second call changes nothing exactly when the experience does not pay for more than the highest level, or what it leaves beyond that does not pay for the highest level again |
| LevelUp.InTwoSteps | scripts/server/daemons/userd.lua:171-205 | up to the highest level, gaining in two steps equals gaining at once exactly when the first experience is less than all thresholds from the player's level on or the second gains nothing; past it exactly when spending from the highest level on leaves as much as spending from the level paid for |
| LevelUp.TopLosesGain | scripts/server/daemons/userd.lua:180-187 | experience gained at once with the last level is lost, gained after it it stays |
| LevelUp.CapSpendsGain | scripts/server/daemons/userd.lua:189-192 | at most level one with thresholds of 10 and 30, 30 points become 20, 10 and 0 by three calls, and a fourth changes nothing |

## Left out

- Wildcards.FoundIfKept: takes hands with at most five copies of a tile; with more of them the exact condition is proved for hands without wildcards only (`Completeness.FoundWithoutWildcards`).
- The sum of `use_king_count` over a list: the item field comes from the first counts, the real spending happens elsewhere.
- 32-bit and 8-bit overflow with very many kings or tiles, and rounding in `calc_ttt_combine`'s 1.51/3 bound, which is taken over the reals.
- KingSearch.CalcTttCombine: speaks of choices within the bounds of its own search; `SearchBounds.BoundsLoseNothing` and `Cover.SplitFinds` say when no others matter.
- LevelUp.Player.TryLevelUp: the experience table is a parameter with thresholds of zero or more; caps on experience elsewhere are left out.
- SeqCheck.Agent.CheckAll: the sender starts at zero; setting the numbers by hand is not modelled.
- Containers.Container.ReceiveProperty: the request names a class and an amount and no other field, as every caller in the repository does.
- Containers.Container.CombineToPos: takes a position, not an object in its place.
- Items that are used up (`cost_amount`, `cost_property`) and the free-space checks by `item_type`.
- UserLoads.NextInv: callbacks that make new requests while the timer walks the list are not modelled.
- Lua handlers that call back into the message loop while it runs.
- Messages, broadcasts, logs, scores and room-wide bookkeeping of the landlord game; a call by somebody who is not at the table is an error that changes nothing.
- RidGen.RidMaker.GetRid: the threads that could call it at once are not modelled; times are unbounded, the subtraction of the epoch wraps at 64 bits.
- Base64.Letter: the place of a letter is found by its range rather than by searching the alphabet; `Base64.LetterAt` connects the two.
- UrlCodec.UrlEncode: the letters and digits are those of the C locale.
- Sockets, polling, websockets, HTTP, the database drivers, the Lua bindings, cross-server login, hibernation and Redis flows: I/O over libraries outside the repository.
