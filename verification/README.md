# Inci: a verified model

A Dafny 4.11 model of the parts of Inci that decide: the order book machine, the synthetic Kalshi
connection protocol, parser and frames, the expert journal codec, the paper trading cycle, and the tennis
arithmetic and score checks. `dafny verify dfyconfig.toml` checks the whole project.

The model takes the source's own form. What the source writes as expressions and recursion is a function
here; what it writes as a loop or as an object that updates its fields is a method or a class, proved to
compute the function of the same step. The properties are lemmas about those functions, so they hold of the
methods too. Exceptions are `Result.Err`; a `None` return is `Option.None`.

| file | models |
|---|---|
| `MarketBook.dfy`, `ExecutableBuy.dfy` | ladders under snapshots, deltas and lifecycle events; the greedy buy |
| `KalshiProtocol.dfy` | the connection and barrier state machine, as a transition and as a relation |
| `Digits.dfy`, `BoundedJson.dfy`, `JsonParser.dfy` | digits; the bounded JSON grammar as functions; the parser object |
| `JsonGrammar.dfy`, `JsonReading.dfy` | every way to write a JSON value, and that exactly those texts are read |
| `JsonPrinter.dfy`, `JsonSizes.dfy`, `JsonRange.dfy` | a printer and the round trip; the bytes of texts; what the parser can return |
| `KalshiDecimals.dfy`, `KalshiFrames.dfy` | canonical prices and quantities; the verdict on a parsed tree |
| `KalshiClassifier.dfy` | classifying payloads, with the caps on payload and result |
| `FrameContents.dfy`, `FrameRefusals.dfy`, `FrameTexts.dfy` | which trees are which frames; why others are refused; frames as text and back |
| `FrameSizes.dfy`, `AcceptedFrames.dfy` | how long frames and results are; which frames any payload can deliver |
| `JournalCodec.dfy` | frames, payload areas and the order validator of the expert journal |
| `Fees.dfy`, `PaperTrading.dfy` | fees; the paper cycle as functions on values |
| `PaperEngine.dfy`, `PaperContext.dfy` | the strategy, executor and context objects of the paper cycle |
| `PendingOrders.dfy`, `PaperSafety.dfy` | lists of pending orders; what every run keeps |
| `PaperCash.dfy`, `PaperRisk.dfy` | cash; when exposure may grow |
| `PaperLatency.dfy`, `PaperEntries.dfy` | delayed orders and exits; when entries are submitted |
| `PaperFills.dfy`, `PaperSettling.dfy`, `PaperTicks.dfy` | at what price orders fill; what is settled and halted; one observation, whole |
| `TennisWinProb.dfy`, `TennisChances.dfy` | win probabilities and their inversion; the sequences of points that they weigh |
| `ScoreTransition.dfy` | score transitions |
| `TennisScore.dfy`, `TennisPlay.dfy` | the reachability filter; play on the point machine and the equivalence |
| `TennisRules.dfy` | play by counting points, games and sets as the rules of tennis do |
| `UtcTime.dfy`, `Timeline.dfy` | timestamps; timeline progression between polls |

Decimals and floats are exact reals, or integers counting ten-thousandths. SHA-256 is a function parameter in
the journal codec, a yes/no input in frame classification, and in the book state a stored digest is
represented by the event it digests. Clocks, feeds and gate answers are inputs of each step. Text arrives
decoded: a payload is either its text, or the valid prefix of bytes that are not UTF-8 and the number of bytes
after it.

What the proofs found about the code:

- `_snapshot_reachable` passes some completed sets that cannot be played: a tie-break recorded as 20-3 is one, in
  live, suspended, cancelled and retired matches alike (`TennisPlay.FilterPassesUnplayableTiebreak`). A state of any
  status is playable exactly when the filter passes it and its tie-break scores are final, whether play is the point
  machine's (`TennisPlay.FilterIsPlay`) or counted by the rules (`TennisRules.FilterIsCounting`).
- A snapshot frame may have 1024 levels a side, but the parser's node cap stops it at 1635 levels in all, whatever
  payload carries it (`AcceptedFrames.LadderCapsTooWide`): a complete, uncrossed one of 1024 and 612 levels cannot be
  delivered (`AcceptedFrames.WideSnapshotRefused`).
- The cap of 131,064 bytes on a result's canonical JSON never binds (`FrameSizes.CapNeverBinds`).
- `_validate_boolean_positions` never rejects what the parser returns (`JsonRange.PositionsAlwaysHold`).
- `record_fill` leaves the part of a sale that exceeds the holding out of the books: selling two contracts at
  60 cents out of one loses 60 cents (`PaperCash.OversellLosesCash`). When a single fill is conserved is stated
  exactly by `PaperCash.FillConservedExactly`. Over a history cash is conserved exactly when what is left out nets
  to zero (`PaperCash.HistoryConserves`), and in runs of the paper cycle nothing is left out
  (`PaperCash.RunConserves`).
- `set_win_prob(7, 7, p)` has no base case and does not return, nor does any call with seven games or more on both
  sides, which are clamped to it (`TennisWinProb.SevenAllNeverReturns`). Every other call returns
  (`TennisWinProb.SetReturns`), so `match_win_probability` returns or raises exactly when the match is decided, its
  format is refused or not both sides have seven games (`TennisWinProb.MatchReturns`).

## Model

| member | source | states |
|---|---|---|
| MarketBook.FindMatchingIndex | inci_tennis_expert/market_book.py:306-423 | The search loop finds the index of the level at the price, None exactly when no level has it. |
| MarketBook.ApplyBookDelta | inci_tennis_expert/market_book.py:306-423 | With its loop, the delta step equals the delta function on every state. |
| MarketBook.UpdatedLadder | inci_tennis_expert/market_book.py:306-423 | Adding, replacing or deleting a level and sorting again is one update of the price-to-quantity map and keeps the ladder strictly descending and positive. |
| MarketBook.DeltaOutcome | inci_tennis_expert/market_book.py:306-423 | Each error is raised exactly under its own condition: another ticker, then an untrusted book, then an older epoch. Otherwise a delta is accepted exactly when it is next in sequence, not older, changes a level that can change and leaves the maps uncrossed, and is the gapped copy in every other case. |
| MarketBook.SnapshotOutcome | inci_tennis_expert/market_book.py:234-303 | Each error of a snapshot is raised exactly under its own condition; otherwise it is accepted exactly when its status may follow, and changes nothing but the gap in every other case. |
| MarketBook.LifecycleOutcome | inci_tennis_expert/market_book.py:426-504 | Each error of a lifecycle is raised exactly under its own condition: another ticker, an older epoch, a time before the last one. Otherwise it is accepted exactly when it is of the same epoch, strictly later and its status may follow; an exact repeat is no event and everything else opens a gap. |
| MarketBook.StatusesInOrder | inci_tennis_expert/market_book.py:46-133 | The allowed pairs of statuses, each given outright. |
| MarketBook.InsertSorted | inci_tennis_expert/market_book.py:306-423 | Inserting into a strictly descending ladder at a new price keeps it strictly descending. |
| MarketBook.UncrossedMaps | inci_tennis_expert/market_book.py:306-423 | Testing the two best bids is testing every pair of bids. |
| MarketBook.BookRunRefinesMap | inci_tennis_expert/market_book.py:187-504 | Over every run the whole state is the one folded from the inputs accepted so far: the ladders are valid and equal the maps of the deltas since the last snapshot, the sequence is the snapshot's plus their number, and status, scheduled close, lifecycle times, book times, last move and last event are those of the last accepted input that sets them. |
| MarketBook.FinalStatusAbsorbing | inci_tennis_expert/market_book.py:426-504 | Settled and cancelled are kept by every run. |
| MarketBook.StatusNeverReturns | inci_tennis_expert/market_book.py:426-504 | Over every run the status only moves on: suspended and open alternate, closed and then settled or cancelled follow, and nothing settles that was not closed before. |
| MarketBook.GapFreezesBook | inci_tennis_expert/market_book.py:226-306 | After a gap ladders, epoch and sequence stay frozen and untrusted over every run without a newer-epoch snapshot. |
| MarketBook.MoveIsMetric | inci_tennis_expert/market_book.py:136-179 | Executable move between pairs of best asks is a metric: zero exactly on equal pairs, symmetric, triangle inequality. |
| MarketBook.AsksAreBest | inci_tennis_expert/market_book.py:136-148 | Each best ask is one less the greatest bid of the other ladder's map, none exactly when that map is empty. |
| MarketBook.MoveIsLeast | inci_tennis_expert/market_book.py:150-179 | The move is the least amount within which both best asks stay; an ask that appears or goes counts as one. |
| MarketBook.StepReportsMove | inci_tennis_expert/market_book.py:187-504 | Every step reports exactly how far it moved the best asks, when, and flags a top-of-book change exactly when one changed; nothing is reported without an event. |
| MarketBook.RunMoveBounded | inci_tennis_expert/market_book.py:162-423 | Over every run, across gaps and resnapshots, first to last book moved at most the sum of the reported moves. |
| ExecutableBuy.Buy | inci_tennis_expert/market_book.py:507-572 | A YES buyer consumes the NO bids and a NO buyer the YES bids, at one less their price. The fill is the smaller of the request and all quantity of that ladder's map within the limit, at the least cost of all allocations of that quantity; it starts at the outcome's best ask and takes each price whole before the next. The errors are exactly the source's. |
| ExecutableBuy.BuyLevels | inci_tennis_expert/market_book.py:507-572 | The greedy loop over the complementary ladder stops with the best fill. |
| ExecutableBuy.FrontIsCheapest | inci_tennis_expert/market_book.py:507-572 | No allocation of the same quantity over levels within the limit is cheaper than taking from the front. |
| KalshiProtocol.RelationIsTransition | inci_tennis_adapters/kalshi_candidate.py:787-1326 | The independently written relation accepts an outcome exactly when it is the transition function's, up to barrier contents. |
| KalshiProtocol.ActionsExactly | inci_tennis_adapters/kalshi_candidate.py:1059-1326 | Each action comes exactly under its own condition on state and event, with its own next state and reason; everything else is rejected and changes nothing. |
| KalshiProtocol.TransitionKeepsSemantics | inci_tennis_adapters/kalshi_candidate.py:390-436 | Every state the transition builds satisfies the state contract, so building it never raises. |
| KalshiProtocol.RunInvariant | inci_tennis_adapters/kalshi_candidate.py:1059-1326 | From ABSENT the generation is the number of opened connections, a pending barrier carries it, and the uncertain state is never reached. |
| KalshiProtocol.PendingUntilWitnessed | inci_tennis_adapters/kalshi_candidate.py:1059-1326 | A pending barrier stays pending over every run in which it is not witnessed. |
| KalshiProtocol.BarrierBlocks | inci_tennis_adapters/kalshi_candidate.py:1059-1326 | After a required barrier, nothing is opened and no receive armed before that same identity is witnessed. |
| KalshiProtocol.HaltedForever | inci_tennis_adapters/kalshi_candidate.py:1059-1326 | After a halt every event of the run is rejected and changes nothing. |
| JsonParser.BoundedJsonParser.Space | inci_tennis_adapters/kalshi_candidate.py:1968-1974 | Moves the index past a run of spaces, tabs, carriage returns and newlines, stopping at the end or exactly before the first other character. |
| JsonParser.BoundedJsonParser.Consume | inci_tennis_adapters/kalshi_candidate.py:2146-2157 | Takes the token exactly when it is there and ends at a delimiter; otherwise the index stays. |
| JsonParser.BoundedJsonParser.ReadString | inci_tennis_adapters/kalshi_candidate.py:2059-2114 | The string loop computes the grammar's string token on the text that is left, advancing the index. |
| JsonParser.BoundedJsonParser.ReadInteger | inci_tennis_adapters/kalshi_candidate.py:2115-2145 | The digit loop computes the grammar's integer token, advancing the index. |
| JsonParser.BoundedJsonParser.ReadObject | inci_tennis_adapters/kalshi_candidate.py:2003-2037 | The member loop computes the grammar's object; the node count never passes the cap. |
| JsonParser.BoundedJsonParser.ReadArray | inci_tennis_adapters/kalshi_candidate.py:2038-2058 | The item loop computes the grammar's array; the node count never passes the cap. |
| JsonParser.BoundedJsonParser.ReadValue | inci_tennis_adapters/kalshi_candidate.py:1975-2002 | Value, rest of the text and node count are the grammar's, for every text, depth and count. |
| JsonParser.ReadPayload | inci_tennis_adapters/kalshi_candidate.py:1915-1952 | Building the parser and parsing gives the grammar's verdict, also for undecodable payloads and a leading byte-order mark. |
| JsonGrammar.OneCharExact | inci_tennis_adapters/kalshi_candidate.py:2059-2114 | A spelling is read as a character exactly when it is that character raw, its short escape, or \u and four hexadecimal digits in either case. |
| JsonGrammar.QuotedRead | inci_tennis_adapters/kalshi_candidate.py:2059-2114 | Every spelling of a string is read as that string, or refused for capacity exactly when its UTF-8 bytes exceed the limit of a key or of a value. |
| JsonGrammar.ReadQuoted | inci_tennis_adapters/kalshi_candidate.py:2059-2114 | Whatever is read as a string is one of its spellings. |
| JsonReading.IntRead | inci_tennis_adapters/kalshi_candidate.py:2115-2145 | Every decimal text of a signed 64-bit integer is read as it; one of more than nineteen digits is refused for capacity. |
| JsonReading.ReadInt | inci_tennis_adapters/kalshi_candidate.py:2115-2145 | Whatever is read as an integer is its one decimal text, in the range of 64 bits. |
| JsonReading.LayoutRead | inci_tennis_adapters/kalshi_candidate.py:1975-2058 | Every layout of a value, with any gaps and spellings, is read as the value, counting its nodes, or refused for capacity exactly when it exceeds a limit. |
| JsonReading.ReadLayout | inci_tennis_adapters/kalshi_candidate.py:1975-2058 | Whatever is read as a value is a layout of it. |
| JsonRange.TextExactly | inci_tennis_adapters/kalshi_candidate.py:1945-2162 | A text parses to a value exactly when it lays that value out with unique keys and booleans only as members, within the limits of depth, bytes, digits and nodes; over a limit it is refused for capacity. |
| JsonSizes.CharEncoded | inci_tennis_adapters/kalshi_candidate.py:2059-2114 | The bytes counted for a character are those of its UTF-8 encoding (RFC 3629), which decodes to it. |
| JsonPrinter.ParsePrinted | inci_tennis_adapters/kalshi_candidate.py:1945-2162 | For every tree within the limits and any gap of spaces, tabs, carriage returns and newlines, parsing what is printed returns the tree, or the capacity error exactly when it has more nodes than the cap. |
| JsonRange.ValueSound | inci_tennis_adapters/kalshi_candidate.py:1975-2058 | Whatever the parser returns is within depth, key, string, integer and boolean limits and the count is its nodes. |
| JsonRange.ParseRange | inci_tennis_adapters/kalshi_candidate.py:1945-2162 | Some text parses to a tree exactly when the tree is within the limits and the node cap. |
| JsonRange.PositionsAlwaysHold | inci_tennis_adapters/kalshi_candidate.py:2165-2186 | The check of boolean positions after parsing rejects nothing. |
| KalshiDecimals.PriceIsCanonical | inci_tennis_adapters/kalshi_candidate.py:2260-2271 | A text parses to a price exactly when it is that price's one canonical text. |
| KalshiDecimals.QuantityIsCanonical | inci_tennis_adapters/kalshi_candidate.py:2272-2298 | A text parses to a quantity exactly when it is its canonical text, not zero, within the cap and of an allowed sign. |
| KalshiFrames.ReadLadder | inci_tennis_adapters/kalshi_candidate.py:2340-2372 | The loop over a raw ladder keeps exactly the levels of a strictly falling canonical ladder, or refuses it. |
| KalshiClassifier.ReadFrame | inci_tennis_adapters/kalshi_candidate.py:2530-2632 | The caps on payload and result, the parser, the ladder loops and the checks together give the classification function's verdict. |
| FrameContents.LadderExact | inci_tennis_adapters/kalshi_candidate.py:2340-2372 | A raw ladder is accepted as levels exactly when they are valid, strictly falling, and the raw texts are their canonical ones. |
| FrameContents.TreeExact | inci_tennis_adapters/kalshi_candidate.py:2299-2632 | A tree is accepted as a frame exactly when the frame is valid and the tree has exactly its members, in any order, in canonical text. |
| FrameRefusals.RefusedExactly | inci_tennis_adapters/kalshi_candidate.py:2299-2632 | A tree is refused for each reason, in the name of its ticker or of the connection, exactly under that reason's own condition. |
| FrameContents.TreeRoundTrip | inci_tennis_adapters/kalshi_candidate.py:2299-2632 | The tree of every valid frame is accepted as that frame. |
| FrameTexts.TextRoundTrip | inci_tennis_adapters/kalshi_candidate.py:2530-2632 | With any white space between its tokens, the text of every valid frame is accepted as that frame, or refused for capacity exactly when its UTF-8 bytes or its tree's nodes exceed their cap. |
| FrameSizes.FramesAreShort | inci_tennis_adapters/kalshi_candidate.py:2549-2554 | Printed with gaps of up to sixteen characters, no valid frame exceeds the byte limit. |
| FrameSizes.CanonicalFits | inci_tennis_adapters/kalshi_candidate.py:242-246 | The canonical JSON of every result, accepted or rejected, with any digests, is within its cap. |
| FrameSizes.CapNeverBinds | inci_tennis_adapters/kalshi_candidate.py:2600-2632 | So the result cap changes no verdict on any tree. |
| AcceptedFrames.SaidNodes | inci_tennis_adapters/kalshi_candidate.py:2299-2632 | Every tree accepted as a frame has at least that frame's number of nodes, in whatever order and form it is given. |
| AcceptedFrames.DeliverableExactly | inci_tennis_adapters/kalshi_candidate.py:2530-2632 | Some payload is accepted as a frame exactly when the frame is valid and its nodes are within the parser's cap. |
| AcceptedFrames.AcceptedText | inci_tennis_adapters/kalshi_candidate.py:2530-2632 | A payload is accepted as a frame exactly when it is a text within the byte limit that lays out, in whatever spelling and order, a tree within the limits that says the valid frame. |
| AcceptedFrames.RefusedPayload | inci_tennis_adapters/kalshi_candidate.py:2530-2632 | A payload is refused for another digest, for more bytes than allowed, for a text that cannot be read or does not fit, or exactly for what the tree it lays out is refused for. |
| AcceptedFrames.LadderCapsTooWide | inci_tennis_adapters/kalshi_candidate.py:2315-2323 | Some payload is accepted as a snapshot exactly when it is valid and has at most 1635 levels in all, although each side may have 1024. |
| AcceptedFrames.WideSnapshotRefused | inci_tennis_adapters/kalshi_candidate.py:2315-2323 | A valid snapshot of 1024 and 612 levels is accepted from no payload; printed with any white space it is refused for capacity. |
| AcceptedFrames.AcceptedBook | inci_tennis_adapters/kalshi_candidate.py:2299-2393 | Every accepted snapshot is a valid, uncrossed book for the order book machine. |
| JournalCodec.DecodePackedPrefix | inci_tennis_expert/journal_codec.py:101-165 | Decoding a packed valid prefix returns its fields. |
| JournalCodec.EncodeSucceeds | inci_tennis_expert/journal_codec.py:1194-1232 | Encoding succeeds exactly on parts within their own caps, laid out between prefix and trailer; in-cap parts never fail on size. |
| JournalCodec.DecodesExactly | inci_tennis_expert/journal_codec.py:101-293 | Bytes decode to a frame exactly when they are it byte for byte: magic, version, kind, zero flags, big-endian sequence, total and sizes, both parts within their caps, the total again, the digest of the domain and everything before it, and the closing magic. |
| JournalCodec.DecodeEncodedFrame | inci_tennis_expert/journal_codec.py:257-293 | Decoding an encoded frame returns its parts. |
| JournalCodec.StoredDigest | inci_tennis_expert/journal_codec.py:167-210 | An accepted frame repeats its own length and stores the digest of all bytes before its trailer. |
| JournalCodec.EncodeDecodedFrame | inci_tennis_expert/journal_codec.py:257-293 | Re-encoding any accepted bytes returns the same bytes. |
| JournalCodec.FramePrefixFree | inci_tennis_expert/journal_codec.py:101-293 | No accepted frame is a proper prefix of another. |
| JournalCodec.UniqueSplit | inci_tennis_expert/journal_codec.py:101-293 | A byte stream splits into accepted frames in at most one way. |
| JournalCodec.AreaFits | inci_tennis_expert/journal_codec.py:346-369 | Sixty-four payloads at their cap exactly fill the area cap; fewer or smaller never exceed it. |
| JournalCodec.EncodePayloadArea | inci_tennis_expert/journal_codec.py:346-369 | The loops lay out the payloads with big-endian lengths, exactly when count and sizes are within the caps. |
| JournalCodec.DecodePayloadArea | inci_tennis_expert/journal_codec.py:371-399 | The loop over an offset reads exactly what the bytes hold as that many payloads and nothing more. |
| JournalCodec.ReadAreaBytes | inci_tennis_expert/journal_codec.py:346-399 | Reading what in-cap payloads were laid out as returns them. |
| JournalCodec.AreaBytesOfRead | inci_tennis_expert/journal_codec.py:346-399 | Laying out what was read returns the same bytes. |
| JournalCodec.OrderValidator.Accept | inci_tennis_expert/journal_codec.py:303-330 | The validator object moves by the order function, and keeps its fields when it raises. |
| JournalCodec.OrderShape | inci_tennis_expert/journal_codec.py:295-334 | Which sequences of prefixes are accepted, and the validator's fields after each. |
| JournalCodec.PassesExactlyClosedJournals | inci_tennis_expert/journal_codec.py:295-334 | A sequence passes with its terminal exactly when it is manifest 0, groups 1 to n in order, terminal n + 1. |
| Fees.FeeIsLeast | fees.py:24-48 | The fee is the least amount at or above the trade fee that makes the balance change a whole multiple of the precision. |
| Fees.FeeBounds | fees.py:18-48 | The fee is at least seven percent of contracts times price times its complement, and exceeds that by less than one centicent and one unit of precision. |
| Fees.FeeUsdExactly | fees.py:18-48 | The fee is refused exactly on a negative size, a price outside 0 to 100 cents or another precision than a cent or a centicent; otherwise it is the least amount not below the trade fee, itself the least whole centicent not below the raw fee, that leaves the balance whole. |
| Fees.SplitInTwo | fees.py:24-48 | One fill of two parts costs no more than two fills. |
| Fees.SplittingNeverPays | fees.py:24-48 | Splitting a fill into any parts at one price and side never lowers the total fee. |
| PaperEngine.ScalpStrategy.CheckExit | strategy.py:91-131 | Moves the peak and signals exactly as the exit function does. |
| PaperEngine.ScalpStrategy.RecordFill | strategy.py:133-172 | Positions and realized P&L become what the fill function says; contracts stay positive. |
| PaperEngine.Executor.SubmitPaper | executor.py:179-211 | Appends one delayed order with its limit and basis, or nothing while the ticker has one pending. |
| PaperEngine.Executor.UpgradePendingPaperExit | executor.py:225-239 | Retags the first pending exit of the ticker in place, returns the retagged order or none, and leaves every other order as it was. |
| PaperEngine.Executor.ProcessDuePaperOrders | executor.py:245-264 | Attempts every due order once, in order, with the fills of the fill function, and keeps exactly the others; PaperFills states what those fills are. |
| PaperEngine.Executor.CancelPendingPaper | executor.py:266-272 | Keeps exactly the orders that do not match and returns exactly those that do, in order. |
| PaperContext.Context.OpenPnl | engine.py:748-772 | The loop over positions sums their marks, in whatever order it visits them. |
| PaperContext.Context.CheckLossLimit | engine.py:775-789 | Trips exactly on a stale position or a breached limit, keeping an earlier reason. |
| PaperContext.Context.SameEventExposure | engine.py:393-408 | Returns a conflict exactly when another exposed ticker is on the same known event. |
| PaperContext.Context.ProcessTick | engine.py:493-745 | The object's whole new state after one observation is that of the cycle's function, which PaperTicks.TickIsExactly states in full. |
| PendingOrders.OneDue | executor.py:245-264 | With one order per ticker, a ticker's due order is attempted once and leaves; every other order's ticker, size and basis stay. |
| PendingOrders.OneCanceled | executor.py:266-272 | With one order per ticker, canceling removes and returns that ticker's order of the side and nothing else. |
| PendingOrders.UpgradeFinds | executor.py:225-239 | An upgrade changes the reason and the floor of the ticker's exit only; looking up any ticker finds what it found before, so changed. |
| PaperSafety.DueFilledIs | executor.py:245-264 | With one order per ticker, a fresh quote makes at most one attempt, of the due order of its ticker. |
| PaperSafety.TickKeeps | engine.py:493-745 | One observation keeps the shape of orders, the exposure cap and the one-event rule. |
| PaperSafety.RunShape | engine.py:493-745 | In every run: one pending order per ticker; exits for exactly what is held at its cost; entries only on what is not held; positions and pending entries within the cap; no two exposed tickers on one known event. |
| PaperCash.FillConserves | strategy.py:133-172 | A fill moves realized P&L less open cost by its cash, less what the books leave out, through averaging and partial closes. |
| PaperCash.FillConservedExactly | strategy.py:133-172 | A fill moves realized P&L less open cost by its cash exactly when it is a buy, or a sale of no more than is held or at price zero; an empty fill or a sale of nothing held, exactly when its cash is zero. |
| PaperCash.OversellLosesCash | strategy.py:133-172 | Selling two contracts at 60 cents out of a holding of one misses 60 cents. |
| PaperCash.HistoryConserves | strategy.py:133-172 | The same over every history of fills, oversells included. |
| PaperCash.NothingUnmatched | strategy.py:133-172 | Without oversells cash is conserved exactly. |
| PaperCash.TickConserves | engine.py:493-745 | One observation moves realized P&L less open cost by the cash of its one fill, if it has one. |
| PaperCash.RunConserves | engine.py:493-745 | Over every run, realized P&L less open cost is what the fills paid and received. |
| PaperCash.TakeProfitBooks | executor.py:151-174 | A filled exit that is neither stop nor time exit books exactly what was projected for it, a profit. |
| PaperCash.LossesAreRiskExits | engine.py:493-745 | An observation lowers realized P&L only by filling a stop-loss or a time exit. |
| PaperCash.ScalpBooksProjection | fees.py:63-85 | A buy at the ask closed in one fill at its take-profit, neither above 99 cents, books exactly the projection, at every price. |
| PaperCash.FillFeeIsFeeUsd | executor.py:136-150 | On quotes between 0 and 100 cents a fill's fee is what fee_usd returns without raising, and a bought fill's projection is positive. |
| PaperRisk.OpeningsAreAdmitted | engine.py:551-595 | A position opens only by filling a due, unexpired entry that no arrival check blocks: not halted, not stale, not breached, within price, spread, close, event, gate and sibling limits. It fills at the ask, no dearer than its limit, for the smaller of its size and the ask's depth, with a positive projection, and that fill is what is held. |
| PaperRisk.HaltedWinds | engine.py:551-606 | A halted trader takes on nothing new: no ticker becomes held or pending. |
| PaperRisk.HaltIsFinal | engine.py:493-745 | In every run, once halted, halted for the same reason ever after, with no exposure added. |
| PaperRisk.WindowMaxIsGreatest | signals.py:6-14 | The dip's reference is the greatest mid of the look-back window, none exactly when the window is empty. |
| PaperRisk.DipSignalled | signals.py:6-14 | A dip is signalled exactly when some mid of the window is at least the threshold above the current one. |
| PaperLatency.OrdersWait | executor.py:225-264 | In every run, up to the first fresh quote of its ticker at or after its due time, a pending order keeps size, basis and due time and stays pending; an exit's reason can only become more urgent. |
| PaperLatency.DueOrdersLeave | executor.py:245-264 | After such a quote the order is gone; what is then pending was submitted by that observation. |
| PaperLatency.ExitsAreWorking | engine.py:613-645 | Unless halted, an exit signal leaves an exit working for all that is held, no less urgent. |
| PaperLatency.RiskExitsBind | strategy.py:103-112 | Unless halted, a breached stop or a reached holding deadline leaves such an exit working, whatever the trailing take-profit says. |
| PaperEntries.SubmissionsAreSignalled | strategy.py:49-89 | An entry becomes pending only when signalled: on the observed ticker, with no halt, nothing of it held or pending, room under the cap, no other ticker of its event exposed, an acceptable ask and spread, every gate open, a dip in the window and a positive projection; and then for the smaller of a trade and the ask's depth, delayed, with the top ask as its limit. |
| PaperEntries.SignalledIsSubmitted | engine.py:646-745 | And every entry that is signalled is submitted, whole. |
| PaperFills.ExitFillsExactly | executor.py:103-177 | A due exit fills exactly when it is unexpired, the book has a bid of some size and, unless it is a stop or time exit, the floor holds and its part of the basis profits after both fees. It fills the smaller of the order and the bid size, a stop at the bid less slippage but not below zero, any other exit at the bid, with the fee of that sale. |
| PaperFills.EntryFillsExactly | executor.py:103-177 | A due entry fills exactly when it is unexpired, the ask is within its limit with some size and the projection of that size is positive; then at the ask, for the smaller of the order and its size, with the fee of that purchase. |
| PaperFills.SignalIsCall | strategy.py:91-131 | An exit is signalled exactly when the bid is at the stop, else the holding deadline has come, else the take-profit is reached and, with a trail, the bid has come down from the peak by it. |
| PaperFills.RunCaps | engine.py:493-745 | In every run the tickers held or being bought are within the cap, and with one contract per event no exposed ticker has another exposed one on its event. |
| PaperSettling.DueExitSettles | engine.py:526-606 | A due exit meets the book after the quote has moved the peak and raised its reason to a more urgent one; its fill books the proceeds less cost and both fees and leaves the rest of the holding, and without a fill nothing is booked. |
| PaperSettling.DueEntrySettles | engine.py:551-606 | A due entry opens exactly the position of its fill, when it is admitted and fills, and nothing otherwise; either way it is no longer pending. |
| PaperSettling.HaltsExactly | engine.py:748-789 | The trader halts exactly on a held ticker without a fresh bid, or when realized P&L and the marks of selling at the bid less slippage, as deep as the book goes, reach the loss limit. |
| PaperTicks.TickIsExactly | engine.py:493-745 | One observation, whole: its ticker's due order settles exactly as stated, the trader halts exactly when it must, and the decision leaves exactly the peak, the new or raised exit, or the signalled entry; every other ticker's orders and holdings stay. |
| TennisWinProb.GameGrows | tennis_win_prob.py:13-36 | Game win probability grows strictly with the point probability, from every live score. |
| TennisWinProb.SetGrows | tennis_win_prob.py:38-61 | The same for sets in the game probability. |
| TennisWinProb.SetReturns | tennis_win_prob.py:38-61 | The set recursion ends exactly when not both sides have seven games or more, and then its value is the set probability's. |
| TennisWinProb.SevenAllNeverReturns | tennis_win_prob.py:38-61 | At 7-7, and at 8-7, which is clamped to it, no recursion depth is enough. |
| TennisWinProb.MatchGrows | tennis_win_prob.py:63-77 | The same for matches in the set probability. |
| TennisWinProb.MatchProbabilityGrows | tennis_win_prob.py:79-104 | From every score the match win probability never falls in the point probability, and rises strictly from every live score of an undecided match, through all three recursions; a decided match is worth one or zero and any other best_of is refused. |
| TennisWinProb.MatchReturns | tennis_win_prob.py:79-104 | A match probability is returned, or its format refused, exactly unless the match is undecided with seven games or more on both sides; what is returned is the model's. |
| TennisWinProb.CertainEnds | tennis_win_prob.py:79-104 | A player who wins no point wins with probability zero, one who wins every point with one. |
| TennisWinProb.BracketStep | tennis_win_prob.py:121-131 | A halving keeps low under and high at or over the target and halves the gap. |
| TennisWinProb.Bisect | tennis_win_prob.py:121-131 | The loop ends with a bracket of the target as narrow as its number of halvings says. |
| TennisWinProb.EffectivePointProbability | tennis_win_prob.py:107-131 | The result is within 2 to the -61 of every point probability whose match probability, in two or three sets to win, is exactly the target; the errors and the two certain targets are exact. |
| TennisChances.GameIsMean | tennis_win_prob.py:13-36 | At every live score, deuce and beyond included, the value of a game is the mean of its values after a won and a lost point; it is one or zero exactly from four points and a lead of two on. |
| TennisChances.SetIsMean | tennis_win_prob.py:38-61 | The same for a set in its games, won at six with a lead of two or at seven to six. |
| TennisChances.WeightIsChance | tennis_win_prob.py:13-104 | The weight of all sequences of so many points that lead to a fate is the chance of it, one point at a time. |
| TennisChances.MatchIsChance | tennis_win_prob.py:79-104 | From every score with a value, the match probability lies between the weight of the sequences of points that win the match and that plus the weight still undecided, which vanishes as sequences get longer. |
| ScoreTransition.AdvancesIsPartialOrder | tennis_win_prob.py:182-214 | On known lifecycles, accepting transitions is reflexive, transitive and antisymmetric. |
| ScoreTransition.AdvancesExactly | tennis_win_prob.py:182-214 | A score advances exactly when its lifecycle may follow, its time is later or it is the same score, and neither sets nor, within one set, games come back down. |
| ScoreTransition.PlayAdvances | tennis_win_prob.py:182-214 | Whatever points are played between two reports, won sets included, the later report advances on the earlier. |
| ScoreTransition.ChainAdvances | tennis_win_prob.py:182-214 | In a chain of accepted transitions every earlier score accepts every later one. |
| ScoreTransition.NoReturn | tennis_win_prob.py:182-214 | A score that was left never comes back in such a chain. |
| TennisScore.ScanCompletedSets | inci_tennis_adapters/sportradar_tennis_v3.py:1449-1480 | The loop over completed sets finds whether they are a valid prefix and which side clinched. |
| TennisScore.SnapshotReachable | inci_tennis_adapters/sportradar_tennis_v3.py:1449-1569 | The filter with its loop equals the filter predicate. |
| TennisScore.CallsFollowCounts | inci_tennis_expert/tennis_score.py:601-694 | The called score follows the counts of points: a game is won at four points with a lead of two (rule 5a). |
| TennisScore.TiebreakServerFollowsTurns | inci_tennis_adapters/sportradar_tennis_v3.py:1438-1447 | The tie-break server formula is the turns of rule 5b: one point, then two at a time. |
| TennisPlay.PlayAccepted | inci_tennis_adapters/sportradar_tennis_v3.py:1449-1569 | Every state reached by playing any sequence of points passes the filter. |
| TennisPlay.InterruptedPlayAccepted | inci_tennis_adapters/sportradar_tennis_v3.py:1449-1569 | So does every such live state once suspended, cancelled or ended by a retirement. |
| TennisPlay.FilterIsPlay | inci_tennis_adapters/sportradar_tennis_v3.py:1449-1569 | A state of any status is playable exactly when the filter passes it and its tie-break scores are final: live and ended matches are reached by points, suspended, cancelled and retired ones interrupt such a match, scheduled ones and walkovers are unplayed. |
| TennisPlay.FilterPassesUnplayableTiebreak | inci_tennis_adapters/sportradar_tennis_v3.py:1386-1422 | The filter passes a completed tie-break at 20-3, which no play reaches, in live, suspended, cancelled and retired matches. |
| TennisRules.PlayIsCounting | inci_tennis_expert/tennis_score.py:601-694 | Over every sequence of points, the point machine shows what counting points, games and sets by rules 5a, 5b, 6b and 7 gives. |
| TennisRules.FilterIsCounting | inci_tennis_adapters/sportradar_tennis_v3.py:1449-1569 | The same with play counted by the rules: points, games and sets. |
| UtcTime.NanosecondsOrder | inci_tennis_adapters/sportradar_tennis_v3.py:613-662 | The formula is strictly increasing in the timestamp's fields. |
| UtcTime.UtcNsOrder | inci_tennis_adapters/sportradar_tennis_v3.py:613-662 | Accepted texts are ordered by nanoseconds exactly as by their fields, equal only for equal instants. |
| UtcTime.NextDayIsOneMore | inci_tennis_adapters/sportradar_tennis_v3.py:613-662 | Across month, year, century and 400-year boundaries the next calendar day is one more. |
| UtcTime.FormulaCountsDays | inci_tennis_adapters/sportradar_tennis_v3.py:613-662 | The closed formula is the number of calendar days counted one at a time from the epoch. |
| UtcTime.EveryInstant | inci_tennis_adapters/sportradar_tennis_v3.py:613-662 | Every count of nanoseconds from the epoch on is exactly one valid timestamp's. |
| UtcTime.StampAccepted | inci_tennis_adapters/sportradar_tennis_v3.py:613-662 | A timestamp's text is accepted as its nanoseconds exactly when they are not negative and fit in 63 bits. |
| UtcTime.AcceptedExactly | inci_tennis_adapters/sportradar_tennis_v3.py:613-662 | A text is accepted exactly when it writes a time of the Gregorian calendar and the clock in figures, with none to nine digits of fraction, from the epoch on and within 63 bits; what is returned is that time's nanoseconds. |
| UtcTime.EpochIsZero | inci_tennis_adapters/sportradar_tennis_v3.py:613-662 | 1970-01-01T00:00:00Z is zero. |
| Timeline.CheckOrder | inci_tennis_adapters/sportradar_trial_v3.py:589-597 | The loop accepts exactly the strictly ascending event ids. |
| Timeline.ValidateTimelineProgression | inci_tennis_adapters/sportradar_trial_v3.py:604-671 | The loop's verdict is the progression function's, for every pair of polls. |
| Timeline.AcceptedPoll | inci_tennis_adapters/sportradar_trial_v3.py:604-671 | A poll is accepted exactly when it is the same match, not older, and its events revise and extend the previous ones. |
| Timeline.RefusedPoll | inci_tennis_adapters/sportradar_trial_v3.py:604-671 | Any other poll is refused as an unmarked correction exactly when an event changed without a later mark before any gap, and as a gap otherwise. |
| Timeline.ProgressionTransitive | inci_tennis_adapters/sportradar_trial_v3.py:604-671 | Accepted progressions compose: the first poll against the third is accepted too. |
| Timeline.ChainAccepts | inci_tennis_adapters/sportradar_trial_v3.py:604-671 | In every chain of accepted polls each is accepted against each earlier one. |
| Timeline.ChainExtendsIds | inci_tennis_adapters/sportradar_trial_v3.py:604-671 | Event ids only extend a fixed prefix. |
| Timeline.ChainRaisesRevision | inci_tennis_adapters/sportradar_trial_v3.py:604-671 | A changed event has a strictly later revision time. |
| Timeline.NoOldVersionReturns | inci_tennis_adapters/sportradar_trial_v3.py:604-671 | A version of an event that was replaced never returns. |

## Left out

- Rounding: Decimal contexts and float rounding are not modelled; every amount, price and probability is exact.
- Python object identity: construction provenance, weak references, copy and pickle guards, and type checks of arguments.
- SHA-256 and the secret scan. The canonical JSON of a frame result is modelled for its length only, with its members in another order.
- UTF-8 decoding: a payload is given as its text, or as the valid prefix of bytes that do not decode and how many bytes follow it.
- PaperEngine.ScalpStrategy.RecordFill: a position is a value in the map, so sharing of one Position object is not modelled; there is no ledger, so no daily reset and no ledger record.
- PaperEngine.Executor.PaperFill: the fee is computed without fee_usd's check of its inputs; PaperCash.FillFeeIsFeeUsd shows the check passes on quotes of 0 to 100 cents, which schemas.py:126 enforces. The basis of an exit is given whole or not at all.
- PaperContext.Context.ProcessTick: paper mode only; feed, gate and sibling answers and clock readings are inputs, a reason is reduced to stop, time or other, and logs and console text are left out.
- The live and demo order path, reconciliation, order resolution and flatten_all.
- The journal's file header, streamed trailer check and contract metadata (journal_codec.py:74-99, 212-255, 401-1190).
- ScoreTransition.AdvancesIsPartialOrder: argument shapes other than six-tuples, which the source refuses, are not modelled.
- TennisWinProb.SetGrows: the score 7-7 is excluded, because there is no value to compare; TennisWinProb.SetReturns shows that this is exactly where the source does not return.
- Provider payload parsing beyond the score filter, timestamps and timeline progression.
- HTTP clients, fetching, caches, CSV and JSONL files, replay records, locks, signals and the command line: I/O only.
- Market discovery, schema and configuration validation beyond the limits PaperTrading.ValidConfig states: easy contracts.
