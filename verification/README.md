# Verification of the matching engine's core

A model in Dafny of the exchange core: the red-black tree of price levels, the order book on top of it, the limit and
market matchers, the engine of one market, the replicated state machine around all markets, the ID generator, and the
tree of parked stop orders. Everything below is proved for all inputs, all orders of calls and all runs, unless a row
says otherwise. A run is any log of submitted orders and cancels in which every order starts unfilled, under an ID that no
unfilled order in the index has at that moment (`Runs.Admitted`); a cancel may name any ID.

## How it is built

There are two layers.

*Values.* `BookSpec` says what a book is (two lists of price levels, best price first, each a queue of orders) and what
matching, resting and cancelling do to it, branch by branch as the program does. `MatchLaws`, `LimitLaws` and `BookLaws`
relate that to an independent reference, the greedy fill of one flat list of orders in price-time priority, and to sums
over orders and trades. `Runs`, `Statuses`, `Uncrossed`, `Totals` and `Resume` are about whole runs: logs of submitted
orders and cancels, and logs that are cut, snapshotted and resumed. `Witness` holds short runs on which an expected
property fails.

What one fill, one trade, one ID or one note of the last price consists of is stated in numbers and fields as well, apart
from the functions that both layers share.

`Runs.Step` follows the program also where it goes wrong: it keeps the filled orders that the index still knows, each with
what has become of its level, and the levels that a cancel has taken out of their trees with orders in them.

*Objects.* `RBTrees`, `Levels`, `OrderBooks`, `Matchers`, `Engines`, `Machine`, `Snowflakes` and `StopOrders` hold the
program's classes with their fields, loops and in-place updates. Each method is proved against the functions of the value
layer, so that what is proved about values holds of the objects:

- `RBTrees` keeps its nodes in a heap of cells addressed by numbers, with address 0 for the shared sentinel. Links,
  colours, parent pointers and the sentinel's scratch parent field are cells that the methods overwrite in the program's
  order. `RBShape` has the tree that a heap stands for and zippers for the places where a loop is at work; `RBLists` has
  the sorted list that a tree stands for; `RBHeap` proves pointer updates, `RBFixup` the steps of both repair loops, for
  both directions at once.
- `OrderBooks.OrderBook` carries three ghost fields: the book as a value, and the sets of levels and orders that have ever
  been in it. `Linked` says that both trees, all queues, the index and the value agree; `Valid` adds that the book is
  well-formed.
- `Engines.MarketEngine` carries the run so far as a ghost value, and every method ties its next value to `Runs.Step`. It
  is valid as long as no level is stray, and a harmful cancel is exactly what ends that.

Decimals are Dafny reals. The matching path only adds, subtracts, multiplies, takes minima and compares, all of which are
exact in both.

## Where the code is not what one might expect

- A level's total is lowered only by cancels: a maker is removed after its remainder has become zero, and a partial fill
  does not touch the total at all. The exact drift is `Totals.TotalsDriftByVolume`; what it means for fill-or-kill orders
  is `LimitLaws.FokIsNeverPartialIff`, with a run in `Witness.FokIsFilledPartly`.
- An IOC or GTX order trades at the best level only, and like a killed FOK order it then rests, possibly across the book.
  `Uncrossed.LimitUncrossedIff` has the exact condition, `Witness.IocCrossesTheBook` a run.
- The index keeps filled orders, and a cancel does not look at the status. Cancelling one of them deletes whatever level
  stands at its price if its own level has become empty; the orders there are then in no tree, and nobody has cancelled
  them. `Runs.NoOrderIsLostIff`, `Engines.MarketEngine.CancelOrder` and `OrderBooks.OrderBook.RemoveOrder` say exactly when
  that happens, `Witness.CancelLosesAnOrder` and `Witness.CancelBreaksABook` are runs on which it does.
- `GetOrdersBelowPrice` shortens the list of prices by the number of orders it took out, not of prices. It is right if and
  only if every price had exactly one order, and panics if there are more orders than prices, as in
  `Witness.TwoStopsPanic`.
- The comment on sorted traversal says ascending; a descending tree is visited in descending order
  (`RBTrees.RBTree.Ascend`), and `Min` and `Max` walk accordingly.

## Model

| member | source | states |
|---|---|---|
| RBTrees.RBTree.Insert | internal/orderbook/rbtree.go:44-86 | In a valid tree (search order, red-black rules, links, black sentinel, size) the entries become the sorted list with the key put in: an existing key gets the new level in place, a new one its sorted place; the tree is valid again, and the descent goes through at most twice the binary logarithm of size plus one nodes |
| RBTrees.RBTree.Attach | internal/orderbook/rbtree.go:72-85 | Linking the new red leaf below the last node of the descent, counting it and repairing gives a valid tree with the key put in |
| RBTrees.RBTree.InsertFixup | internal/orderbook/rbtree.go:97-137 | From one possible red-red violation the loop ends in a tree with all red-black rules, the same entries and consistent links |
| RBTrees.RBTree.LeftRotate | internal/orderbook/rbtree.go:140-156 | The seven pointer updates turn the heap of a tree into exactly the heap of the rotated tree, wherever the node hangs |
| RBTrees.RBTree.RightRotate | internal/orderbook/rbtree.go:159-175 | The same for the mirror image |
| RBFixup.RotateEntries | internal/orderbook/rbtree.go:140-175 | A rotation changes nothing about the sorted list of entries |
| RBFixup.RedIsRepaired | internal/orderbook/rbtree.go:97-137 | Where the insert loop stops, painting the root black restores every rule |
| RBTrees.RBTree.Search | internal/orderbook/rbtree.go:187-201 | Finds the node of the key or ends in the sentinel, splitting all entries into those before and after the key, on a path no longer than twice the binary logarithm of size plus one |
| RBTrees.RBTree.Get | internal/orderbook/rbtree.go:178-184 | Returns what a look-up in the sorted list returns, null if the key is missing |
| RBTrees.RBTree.Delete | internal/orderbook/rbtree.go:204-210 | In every valid tree the entries become the sorted list without the key, and the tree is valid again; a missing key changes nothing |
| RBTrees.RBTree.DeleteNode | internal/orderbook/rbtree.go:213-245 | Unlinking, counting and, if a black node is gone, repairing removes exactly one entry and keeps the tree valid |
| RBTrees.RBTree.LinkOut | internal/orderbook/rbtree.go:213-240 | The three ways to unlink a node all drop its entry, leave at most one black node missing above x, and set x's parent link even if x is the sentinel |
| RBTrees.RBTree.ReplaceBySuccessor | internal/orderbook/rbtree.go:225-238 | A node with two children is replaced by its successor, whether that is its child or deeper down, with its colour kept |
| RBTrees.RBTree.Transplant | internal/orderbook/rbtree.go:248-257 | The exact heap afterwards: one child link and one parent link, the sentinel's included |
| RBTrees.RBTree.DeleteFixup | internal/orderbook/rbtree.go:276-329 | From a subtree that is one black node short on every path the loop terminates with all rules restored and the same entries |
| RBFixup.BorrowRepairs | internal/orderbook/rbtree.go:296-300 | The last rotation of a deletion ends the shortage |
| RBFixup.ShortIsRepaired | internal/orderbook/rbtree.go:276-328 | Where the delete loop stops, painting x black restores every rule |
| RBTrees.RBTree.Minimum | internal/orderbook/rbtree.go:260-265 | The leftmost node of a subtree, reached in fewer steps than the subtree is high |
| RBTrees.RBTree.Maximum | internal/orderbook/rbtree.go:268-273 | The rightmost node of the tree, reached in fewer steps than the tree is high |
| RBTrees.RBTree.Min | internal/orderbook/rbtree.go:332-346 | The level with the smallest price in either direction of the tree, null for an empty tree; logarithmically many nodes on the way |
| RBTrees.RBTree.Max | internal/orderbook/rbtree.go:349-363 | The level with the largest price in either direction of the tree, null for an empty tree; logarithmically many nodes on the way |
| RBTrees.RBTree.IsShallow | internal/orderbook/rbtree.go:57-70 | In every valid tree the height is at most twice the binary logarithm of size plus one, and two to the power of half the height, rounded up, is at most size plus one |
| RBShape.HeightIsLogarithmic | internal/orderbook/rbtree.go:187-201 | The same bound for every tree that keeps the red-black rules |
| RBShape.LogIs | internal/orderbook/rbtree.go:187-201 | The logarithm of these bounds is the logarithm: two to its power is at most the number, and more than half of it |
| RBTrees.RBTree.Ascend | internal/orderbook/rbtree.go:371-373 | The callback sees the levels in the tree's order, until it says no |
| RBTrees.RBTree.AscendFrom | internal/orderbook/rbtree.go:376-387 | The recursive traversal below any node is the visit of the entries of that subtree, early stop included |
| RBTrees.VisitsPrefix | internal/orderbook/rbtree.go:376-387 | A callback is shown exactly a prefix of the whole in-order sequence, ending with the first entry at which it says no |
| Levels.PriceLevel.AddOrder | internal/orderbook/orderbook.go:28-31 | The order goes to the end of the queue and its remainder into the total |
| Levels.PriceLevel.RemoveOrder | internal/orderbook/orderbook.go:34-43 | The first order with the ID leaves the queue and its remainder the total; null exactly if there is none |
| Levels.PriceLevel.UpdateTotal | internal/orderbook/orderbook.go:54-62 | Whatever the total was, it becomes the sum of the resting remainders, and nothing else changes |
| OrderBooks.OrderBook.AddOrder | internal/orderbook/orderbook.go:113-141 | An order under any ID: the book becomes the value-level book with the order added and the index leads to it; trees, queues and index agree again if and only if no order rests under that ID already; a filled order that was known by the ID is forgotten, every other index entry is untouched |
| OrderBooks.OrderBook.LevelFor | internal/orderbook/orderbook.go:124-129 | The level of a price is found, or created empty and put into its tree |
| OrderBooks.OrderBook.RemoveOrder | internal/orderbook/orderbook.go:144-170 | For a resting order: the index-based removal equals the linear cancel of the value-level book, emptied level included; an unknown ID changes nothing; for a filled order the level at its price leaves the tree, with all its orders, if its own level has become empty, and the book stays valid if and only if it has not or no level is at that price |
| OrderBooks.OrderBook.Unlink | internal/orderbook/orderbook.go:153-167 | Taking an order out of queue, total and index: exactly RemoveOrder of its level if it rests, nothing but the index entry if it does not |
| OrderBooks.OrderBook.DeleteLevel | internal/orderbook/orderbook.go:158-164 | Deleting the level of a price from its tree keeps tree, queues and index in agreement if and only if no order rests there |
| OrderBooks.OrderBook.SpotsAfter | internal/orderbook/orderbook.go:96-100 | What a match or a cancel makes of the filled orders that the index keeps: those just filled join them, and each is marked exactly by whether its own level is still in the tree |
| OrderBooks.OrderBook.IdsAreUnique | internal/orderbook/orderbook.go:90-100 | In a book whose parts agree, an ID stands in one queue only, and there at one position |
| OrderBooks.OrderBook.RestingIsFound | internal/orderbook/orderbook.go:96-100 | An index entry whose element is in its queue leads to the very order that a search through its side by ID finds, and the other side has none |
| OrderBooks.OrderBook.GetBestBid | internal/orderbook/orderbook.go:184-189 | The first level of the bids, or null if there are none |
| OrderBooks.OrderBook.GetBestAsk | internal/orderbook/orderbook.go:192-197 | The first level of the asks, or null if there are none |
| OrderBooks.OrderBook.GetDepth | internal/orderbook/orderbook.go:200-239 | On both sides the first levels with their totals, as many as asked for and there are |
| OrderBooks.DepthIsSorted | internal/orderbook/orderbook.go:200-239 | The depth has min(limit, size) levels, prices strictly falling for bids and strictly rising for asks, and each entry has its level's price and total, the best level first |
| OrderBooks.OrderBook.GetOrder | internal/orderbook/orderbook.go:173-181 | For an ID that rests, the very order that a search through its own side finds, the other side having none; for any other known ID an order of the book that has been filled completely and is on neither side; null only if neither side has the ID |
| OrderBooks.OrderBook.GetBidCount | internal/orderbook/orderbook.go:266-270 | The tree's size is the number of bid levels |
| OrderBooks.OrderBook.GetAskCount | internal/orderbook/orderbook.go:273-277 | The tree's size is the number of ask levels |
| BookLaws.AddIsOk | internal/orderbook/orderbook.go:113-141 | Resting an order keeps a side well-formed: strictly sorted, no empty level, every order under its own price and side |
| BookLaws.AddSums | internal/orderbook/orderbook.go:113-141 | Whatever is summed over a side grows by exactly the new order |
| BookLaws.CancelAt | internal/orderbook/orderbook.go:144-170 | A cancel is the linear removal from the one level that holds the order, and dropping that level if it becomes empty |
| BookLaws.CancelKeeps | internal/orderbook/orderbook.go:144-170 | A cancel keeps a side well-formed and takes exactly one order, the one with the ID, out of every sum |
| BookLaws.AddThenCancel | internal/orderbook/orderbook.go:113-170 | Resting an order under a new ID and cancelling it gives back the side as it was, level totals included |
| Models.Order.UpdateFilled | internal/models/order.go:183-194 | After one fill the filled amount and total have grown by it, filled and remaining parts make up the amount, and the status is Filled if nothing remains, PartiallyFilled if something does and something is filled, and otherwise what it was |
| Models.FinishedOrCancellable | internal/models/order.go:169-180 | An order is finished exactly if it cannot be cancelled: neither New nor PartiallyFilled |
| Matchers.FillFirst | internal/matching/limit.go:170-183 | One fill between taker and first maker: both filled amounts grow by the minimum of the remainders and both filled totals by price times that, the trade records both orders, both users, the taker's symbol and side, price, amount and their product, a finished maker is removed, the level's total unchanged |
| Matchers.MatchAtPriceLevel | internal/matching/limit.go:154-187 | Terminates, and does to taker, queue, filled makers and trades exactly what matching against the queue as a list says; the total stays; the result names the last trade's maker; the result says whether the level is empty (market.go:53-83 is the same code) |
| Matchers.TradeAtBest | internal/matching/limit.go:59-69 | Matching at the best level and deleting it if emptied leaves the value-level result, with trees, queues and index in agreement and every filled maker finished with nothing remaining |
| Matchers.LimitMatcher.Match | internal/matching/limit.go:23-83 | For every time in force the loop terminates; taker, book and trades are those of the value-level limit match, trade by trade with the leading orders of the flat opposite side, every filled maker is found under its ID with its final value, and the book stays valid |
| Matchers.LimitMatcher.MatchFOK | internal/matching/limit.go:86-151 | The same for fill or kill, with the totals added up by an early-stopping traversal |
| Matchers.LimitMatcher.Available | internal/matching/limit.go:90-111 | The traversal adds up level totals as far as the price reaches and until they suffice |
| Matchers.MarketMatcher.Match | internal/matching/market.go:18-50 | The loop terminates; taker, book and trades are those of the value-level market match, trade by trade with the leading orders of the flat opposite side, every filled maker is found under its ID with its final value, and the book stays valid |
| MatchLaws.QueueIsGreedy | internal/matching/limit.go:154-187 | One level against the taker is the greedy fill of its queue followed by whatever comes next |
| MatchLaws.SideIsGreedy | internal/matching/limit.go:32-82 | A whole side against the taker is the greedy fill of the side flattened best price first, then first in first out; what is left is the flat list without the filled orders |
| MatchLaws.SideIsLeft | internal/matching/limit.go:32-82 | What is left of a side is well-formed, with no empty level and the best levels gone; a taker with a remainder accepts none of it |
| MatchLaws.GreedyTrades | internal/matching/limit.go:164-178 | The closed form of a greedy fill, field by field: trade i has the taker's ID, user, symbol and side, the ID, user and price of order i, the smaller of what the orders before it left of the taker and its remainder as amount, and price times amount as total; and exactly when the trades stop |
| MatchLaws.GreedyBooks | internal/matching/limit.go:175-183 | Afterwards the flat list is the old one with each trade booked on its order; filled orders are gone, only the next one may be partly filled and stays in front |
| MatchLaws.GreedyBooksTwice | internal/models/order.go:183-194 | What a match adds to the taker and to the makers, in amount and in money, is what its trades add up to |
| MatchLaws.MakersArePaid | internal/matching/limit.go:164-178 | Every maker that trades is filled by its trade's amount, and its filled total grows by exactly its own price times that |
| MatchLaws.LastIsWorst | internal/engine/engine.go:443-445 | The last trade of a match is at the price of the last order traded with, and no trade is at a worse price |
| LimitLaws.MatchedTradesFit | internal/models/trade.go:29-65 | Whatever the type and time in force, trade i of a match is with order i of the flat opposite side, and every field of it is as stated for the greedy fill |
| MatchLaws.GreedyOrders | internal/matching/limit.go:175-183 | Taker and makers keep their own accounts and price bounds; every filled maker is finished with nothing remaining |
| MatchLaws.FairFill | internal/models/order.go:183-194 | One fill at an acceptable price keeps a buy's filled total at most, and a sell's at least, its price times its filled amount |
| LimitLaws.MatchedIsGreedy | internal/matching/limit.go:23-151 | Whatever the type and time in force, a match is the greedy fill of exactly what the order can reach, and leaves the rest of the side alone |
| LimitLaws.ScanSees | internal/matching/limit.go:90-111 | If totals are at least the sums of remainders, the traversal finds at least the crossing volume or enough; if they are exact, it finds enough exactly if that much crosses |
| LimitLaws.FokIsAllOrNothing | internal/matching/limit.go:86-151 | With exact totals a FOK order is filled completely if enough crosses, and otherwise neither trades nor changes anything |
| LimitLaws.FokKilledLacksVolume | internal/matching/limit.go:113-116 | With totals that err upwards only, a killed FOK order really lacked crossing volume |
| LimitLaws.FokIsNeverPartialIff | internal/matching/limit.go:86-151 | With drifted totals, exactly when a FOK order is not filled partly |
| LimitLaws.MarketIsDeepLimit | internal/matching/market.go:18-83 | A market order and a GTC limit order priced at or beyond the worst opposite level have the same trades and leave the same side |
| Runs.RunKeepsInvariant | internal/engine/engine.go:394-440 | In every run of limit, market and stop orders that start unfilled under IDs that no unfilled order has, and of cancels of any ID whatever: the book is well-formed, every order keeps FilledAmount + RemainAmount = Amount with both parts non-negative and its price bound, and buys and sells have filled the same amount and value, that of all trades |
| Statuses.StatusTells | internal/models/order.go:183-194 | In every run an order at rest is PartiallyFilled if and only if something of it is filled, and New otherwise; an order done with is Filled with nothing remaining, Cancelled with something remaining, Rejected for its type, or a parked stop order |
| Runs.StrayIsHarmless | internal/orderbook/orderbook.go:153-164 | While a level that was taken out of its tree has orders, cancelling an order filled there does no harm, whatever comes to rest at its price in between |
| Runs.SubmitBalanced | internal/engine/engine.go:394-440 | One submitted order: both sides gain the volume and the value of its trades |
| Runs.SubmitKept | internal/engine/engine.go:394-440 | One submitted order: the book stays well-formed and all orders keep their accounts |
| Runs.WithdrawKeeps | internal/engine/engine.go:299-322 | A cancel of any ID keeps all of that: of a resting order, of an order in a level that has lost its place in the tree, of a filled order that takes another level out of the tree, of nothing at all |
| Runs.LoseLevelKeeps | internal/orderbook/orderbook.go:157-164 | Deleting whatever level stands at a price keeps the book well-formed and turns the orders of that level into stray ones, without changing any sum over all orders |
| Runs.EveryOrderIsSomewhere | internal/engine/engine.go:299-440 | After any run the submitted orders are exactly those in the book, those done with and those in levels that were taken out of their trees, in number and in everything fills do not change |
| Runs.NoOrderIsLostIff | internal/engine/engine.go:299-322 | On the way through a run, after every number of steps, the book and the orders done with hold exactly the submitted orders, if and only if every cancel is harmless when its turn comes: it finds no order whose own level has become empty while another level stands at its price |
| Runs.MatchedIds | internal/matching/limit.go:154-187 | Exactly the IDs that were on the opposite side are left there or among the filled makers |
| Uncrossed.NeverCrossed | internal/engine/engine.go:394-440 | In every run of GTC limit orders, market orders and cancels of any ID, harmful ones included, the best bid stays strictly below the best ask |
| Uncrossed.WithdrawUncrossed | internal/engine/engine.go:299-322 | No cancel crosses the book, not even one that takes a whole level out of its tree |
| Uncrossed.LimitUncrossedIff | internal/matching/limit.go:71-79 | For every time in force, exactly when a limit order leaves an uncrossed book uncrossed |
| Uncrossed.AddUncrossedIff | internal/engine/engine.go:425-433 | Resting an order keeps the book uncrossed exactly if nothing on the other side is at a price it accepts |
| Totals.TotalsDriftByVolume | internal/orderbook/orderbook.go:28-62 | In every run, whatever it cancels, a level's total is the sum of its resting remainders plus the volume traded at that level since it was created |
| Totals.TotalsExactIff | internal/orderbook/orderbook.go:28-62 | After every run, the totals of a side are right if and only if nothing has been traded at any of its levels since they were created |
| Totals.QuietTotalsExact | internal/orderbook/orderbook.go:131-155 | Over every log of orders that rest without trading and cancels, totals that are exact stay exactly the sums of remainders |
| Totals.KilledFokLackedVolume | internal/matching/limit.go:113-116 | In every reachable state a killed FOK order really lacked crossing volume |
| Engines.MarketEngine.ProcessOrder | internal/engine/engine.go:394-440 | The objects do one step of the run, and an admissible one: match by type, rest or cancel or reject; order, filled makers, trades and last price are the specified ones, all old index entries stay but for a filled order whose ID the new one takes, and the book stays valid |
| Engines.MarketEngine.MatchOrder | internal/engine/engine.go:402-422 | The matcher that the type selects; the last price becomes that of the last trade, which is the price of the last order traded with and the worst of the match, and stays what it was without trades; filled makers join the filled orders that the index keeps |
| Engines.MarketEngine.Settle | internal/engine/engine.go:424-439 | What remains of a limit order rests, what remains of a market order is cancelled |
| Engines.MarketEngine.ProcessTrades | internal/engine/engine.go:443-445 | The last price becomes that of the last trade; without trades it stays |
| Engines.MarketEngine.ProcessOrders | internal/engine/engine.go:387-391 | A whole log on the objects is the run of its submissions from the state before, an admitted run, and keeps the run's invariant |
| Engines.MarketEngine.CancelOrder | internal/engine/engine.go:299-322 | For every ID: one step of the run, with its book, and the order returned as Cancelled; book, queues and index agree afterwards if and only if the step was harmless |
| Engines.MatchSpots | internal/matching/limit.go:154-187 | After a match the index knows as filled exactly the orders it knew before and the makers just filled |
| Resume.RestoreIsExact | internal/engine/engine.go:266-288 | Adding the orders of a book, bids then asks, to an empty one rebuilds its queues exactly, with every total made exact |
| Resume.RestoreIsAlike | internal/raft/node.go:100-140 | A node restored from a snapshot has the same queues and the same sequence number as the one it was taken of |
| Resume.SnapshotOrder | internal/engine/engine.go:242-260 | A snapshot holds the bids of a market before its asks, and on each side no order before one with a better price |
| Resume.ApplyAllAlike | internal/raft/node.go:51-97 | Nodes with the same queues answer every log of orders that are not FOK alike, and end with the same queues |
| Resume.SequenceCounts | internal/raft/node.go:51-97 | Over every log of orders the sequence number counts those whose market exists, in 64 bits |
| Resume.AnswersCount | internal/raft/node.go:51-97 | Answer i carries the number of orders applied up to and with entry i, or says that there is no such market |
| Resume.ResumedRunIsTheSame | internal/raft/node.go:51-140 | A log without FOK orders, cut anywhere, snapshotted, restored on any node with the same markets and continued gives the answers, queues and sequence number of the uninterrupted run |
| Resume.FokAlikeIff | internal/matching/limit.go:113-116 | Exactly when books with the same queues, such as one and its restored copy, answer a FOK order alike: both decide the same about it, or nothing crosses; otherwise already their trades differ |
| Resume.AnswersAlikeIff | internal/raft/node.go:51-97 | Nodes with the same queues answer a whole log, FOK orders included, alike if and only if they decide alike about each FOK order that something crosses when its turn comes; all queues are then the same in the end |
| Resume.ResumedRunIsTheSameIff | internal/raft/node.go:51-140 | With FOK orders in the log: the resumed run gives the answers of the uninterrupted one if and only if the restored node decides alike about each of them |
| Resume.TakesAllAlike | internal/raft/node.go:51-97 | What a node may be given, its restored copy may be given too: no submitted ID is that of an order at rest |
| Machine.OrdersOf | internal/engine/engine.go:242-260 | Both traversals of a market's trees collect its orders in priority order, bids first |
| Machine.StartEngine | internal/engine/engine.go:96-159 | Every configured symbol gets its own empty, valid market, and no two markets share anything |
| Machine.Engine.ApplyOrder | internal/engine/engine.go:221-233 | The order, as a new object, is processed in its own market; order, trades, filled makers and book are the specified ones; an unknown market changes nothing and is reported |
| Machine.Engine.CancelOrder | internal/engine/engine.go:299-322 | An unknown market changes nothing and is reported; otherwise one step of that market's run, all other books untouched, after which all parts of all markets agree if and only if the step was harmless |
| Machine.Engine.GetAllOrders | internal/engine/engine.go:236-263 | The resting orders of every market |
| Machine.Engine.RestoreOrders | internal/engine/engine.go:266-288 | Every known market's book and index become those of the snapshot, markets missing from it become empty, unknown ones are skipped |
| Machine.Engine.ClearBooks | internal/engine/engine.go:270-273 | Every market gets an empty book |
| Machine.Engine.RefillBooks | internal/engine/engine.go:275-285 | Every known market gets its orders back, one by one |
| Machine.MatchStateMachine.Apply | internal/raft/node.go:51-97 | The machine's books and sequence number make the specified step, with the specified order, filled makers and trades; the answer is the new sequence number, a failure that leaves it alone, or nothing |
| Machine.MatchStateMachine.ApplyLog | internal/raft/node.go:51-97 | A whole log on the machine's objects gives the answers, trades, books and sequence number of the specified log |
| Machine.MatchStateMachine.Snapshot | internal/raft/node.go:100-118 | All orders and the sequence number, in a form that can be restored |
| Machine.MatchStateMachine.Restore | internal/raft/node.go:121-140 | Books and sequence number become those of the snapshot |
| Machine.ResumeElsewhere | internal/raft/node.go:51-140 | On objects: the first part of a log on one machine, a snapshot of it restored on another one that shares nothing with it, and the rest of the log there, give the answers, trades and queues of the whole log on the first machine |
| Machine.BookIsRestorable | internal/engine/engine.go:236-288 | The orders of every valid book may rest, and no ID occurs twice among them |
| Snowflakes.Snowflake.Generate | pkg/utils/sequence.go:42-75 | The state and the ID of each call as a function of the clock's readings; it panics exactly if the clock shows an earlier time than the last ID has, starts from zero in a new millisecond, and counts on in the same one |
| Snowflakes.TurnIs | pkg/utils/sequence.go:42-75 | Every case of one call in numbers: backwards, new millisecond, same millisecond with a number left, same millisecond with none left |
| Snowflakes.NewSnowflake | pkg/utils/sequence.go:31-39 | A generator exactly for node numbers 0 to 1023 |
| Snowflakes.IdsIncrease | pkg/utils/sequence.go:42-75 | Over any clock readings within 2^41 milliseconds of the epoch the IDs of one generator strictly increase, are below 2^63 and carry its node number |
| Snowflakes.SequenceCounts | pkg/utils/sequence.go:51-65 | Over any clock readings in range, the sequence number of every ID is the number of IDs that the generator made before in the same millisecond |
| Snowflakes.NewGeneratorCounts | pkg/utils/sequence.go:51-65 | For a new generator: the number of earlier IDs with the same time, counted from zero in every millisecond |
| Snowflakes.WaitsIff | pkg/utils/sequence.go:54-60 | After any IDs of a new generator, a call waits if and only if 4096 IDs of the millisecond that the clock shows have been issued |
| Snowflakes.IdInNumbers | pkg/utils/sequence.go:69-74 | Milliseconds since 1704067200000 times 2^22, plus node times 2^12, plus sequence |
| Snowflakes.NodesNeverCollide | pkg/utils/sequence.go:31-75 | Generators with different node numbers never issue the same ID, whatever their clocks say |
| Snowflakes.FieldsAreRecoverable | pkg/utils/sequence.go:69-74 | Time, node and sequence can be read off an ID |
| Snowflakes.WrapWaits | pkg/utils/sequence.go:53-62 | When the sequence wraps, the next ID has a strictly later time, and the call waits exactly as long as no such time is read |
| StopOrders.StopOrderTree.SortPrices | internal/matching/stop.go:202-219 | Whatever order the prices were in, they end sorted in the tree's direction, and are the same prices |
| StopOrders.StopOrderTree.Insert | internal/matching/stop.go:134-142 | The order joins the group of its price under its ID, replacing one with the same ID, and every other order stays; the list of prices stays strictly sorted and lists exactly the prices that have orders |
| StopOrders.StopOrderTree.Delete | internal/matching/stop.go:145-159 | Exactly the order with the ID leaves its group, an emptied group its price; every other order stays, and the list of prices keeps listing exactly the prices that have orders |
| StopOrders.StopOrderTree.GetOrdersBelowPrice | internal/matching/stop.go:162-179 | Takes out exactly the orders at or below the price, each once and lowest prices first, marks these and no others as triggered, and keeps all others; the tree is valid afterwards if and only if no price at or below it had two orders, and the call panics if more orders were taken out than there were prices |
| Witness.IocCrossesTheBook | internal/matching/limit.go:71-74 | Three orders after which the book is crossed |
| Witness.FokIsFilledPartly | internal/matching/limit.go:86-151 | A fill-or-kill order that is filled partly because a level's total has drifted, and is killed on a book restored from the same orders |
| Witness.CancelLosesAnOrder | internal/engine/engine.go:299-322 | Four steps, the last a cancel of a filled order, after which another order is neither in the book nor done with |
| Witness.CancelBreaksABook | internal/orderbook/orderbook.go:144-170 | The same four steps on the program's objects: afterwards the index knows an order that no tree has |
| Witness.TwoStopsPanic | internal/matching/stop.go:162-179 | Two stop orders at one price, whose extraction panics and leaves an invalid tree |

## Left out

- Tree nodes are cells of a heap addressed by numbers, not objects of their own. Every link, the sentinel's included, is
  still a separate location that aliases whatever other links hold the same address.
- The bodies of the two repair loops and of `deleteNode` are split into methods of one step each; the statements and their
  order are the program's.
- Lists of orders are sequences of list elements. An element is an object, and removal goes by its identity.
- In `OrderBook.RemoveOrder` the index entry goes before the emptied level instead of after it. Both happen under one lock.
- The two copies of `matchAtPriceLevel` are the same code and are modelled once, as is the step around them.
- Resume.ResumedRunIsTheSame: leaves out fill-or-kill orders, because the property is false for them; a snapshot does not
  keep the drift of level totals that their check goes by (`Witness.FokIsFilledPartly`). `Resume.ResumedRunIsTheSameIff`
  has them in, with the exact condition.
- Machine.ResumeElsewhere: leaves out fill-or-kill orders for the same reason.
- Engines.MarketEngine.ProcessOrder: the order already has an ID, which no order at rest has, where the program makes one
  up for ID 0; amounts are not negative, as the validators ensure before submission. Iceberg orders are left out.
- Engines.MarketEngine.ProcessTrades: leaves out the check for stop orders after the loop.
- Engines.MarketEngine.CancelOrder: what the objects do after a harmful cancel. The run goes on as a value, with the level
  among its stray ones; the methods of the objects are proved for books whose parts agree.
- What a run does after an order was submitted under the ID of one that rests; `OrderBooks.OrderBook.AddOrder` has the step
  itself.
- The record of orders done with keeps them as they were when they left the book: cancelling a filled order marks the
  object, not the record.
- OrderBooks.OrderBook.GetDepth: a negative limit, with which the program panics, is left out.
- Stop orders in the engine: a submitted one is parked and changes nothing else. Triggering and what happens to triggered
  orders are not modelled, nor is `GetOrdersAbovePrice`; prices of stop orders are compared by value.
- Iceberg orders and their manager.
- Trade IDs, fees and timestamps.
- `UpdateOrder`, `GetOrders`, `GetOrderCount`, `AveragePrice`, `Clone`, the tickers and the validators.
- Locks, channels and goroutines: steps follow one another. The callbacks of a traversal are pure functions with a state.
- Raft consensus, transport and stores. Log entries and snapshots are values, with JSON taken to be lossless; a snapshot
  holds copies of the orders. Stop orders, iceberg state and last prices are not part of snapshots, as in the program.
- Kafka, databases, HTTP, gRPC, configuration, logging and event handlers.
