# Information-security projects: a verified model

This project models the program logic of five small services from one
repository:

- **The secure multiplayer game.** It covers the `Player` entity (movement, the collision test, rank text) and the `Collectible` record. It covers the server's registry of players and collectibles with its `connection`, `move` and `disconnect` handlers. It covers the browser client's key polling and its socket handlers.
- **The anonymous message board.** It covers the in-memory boards of threads and replies and the eight route handlers of `/api/threads/:board` and `/api/replies/:board`.
- **The stock price checker.** It covers the IPv4 anonymiser and the like counter keyed by upper-cased symbol. It covers the `/api/stock-prices` route with its error answers and `rel_likes`.
- **The port scanner.** It covers `is_invalid_ip`, `get_open_ports` and `format_verbose_output`.
- **The SHA-1 password cracker.** It covers the search order of `crack_sha1_hash`.

Objects whose fields the source updates in place are Dafny classes:
- `PlayerRules.Player`
- `GameServer.Server`
- `GameClient.Client`
- `MessageBoard.Store`
- `StockChecker.StockStore`

Each method of these classes states its whole new state in terms of the old state. Each method is also tied to a specification function whose properties are proved as lemmas. Loops of the source are `while` loops with invariants:
- the server's start-up loop;
- the `forEach` collision pass;
- `is_invalid_ip`;
- the port range scan;
- the verbose formatter;
- the cracker's nested loops.

The rest is pure functions over datatypes.

Points of JavaScript semantics that the model spells out:

- **`forEach` with `splice` and `push`.** `forEach` fixes the array length at the start and reads each element live. When the move handler splices out a collected element and pushes a replacement, the element that slides into the freed index is never examined (`GameServer.ShiftedElementIsSkipped`, `GameServer.SkippedNeighbourExample`). A replacement pushed during the pass can still be collected in the same pass (`GameServer.ReplacementCollectedInSamePassExample`).
- **`Array.prototype.sort`.** It is stable, and is modelled as a stable descending insertion sort.
- **Sorting in place during a GET.** Listing a board sorts the stored reply arrays of the ten listed threads. Afterwards a thread's detail view shows those replies newest first (`MessageBoard.DetailAfterListingIsNewestFirst`).
- **`Map` insertion order.** Each board's threads are a sequence in `Map` insertion order. `Map.set` with an existing id replaces that entry in place; otherwise it appends.
- **Falsy request fields.** An absent field and the empty string are both rejected by the `!text || !delete_password` checks.

## Model

| member | source | states |
|---|---|---|
| CollectibleRecord.ConstructorCopiesFields | securemultiplayergame-project/public/Collectible.mjs:2-9 | construction keeps x, y, value and id and fixes the box at 20 x 20 |
| PlayerRules.Player.constructor | securemultiplayergame-project/public/Player.mjs:2-9 | a player starts with the given position, score and id and a 30 x 30 box |
| PlayerRules.Player.MovePlayer | securemultiplayergame-project/public/Player.mjs:11-26 | the position becomes `Moved(old position, dir, speed)`; score and id do not change |
| PlayerRules.Moved | securemultiplayergame-project/public/Player.mjs:11-26 | a recognised direction moves along one axis only, by the speed (up and left towards smaller coordinates); any other token leaves the position alone |
| PlayerRules.OppositeMovesCancel | securemultiplayergame-project/public/Player.mjs:13-24 | up then down, and left then right, by the same speed return to the start |
| PlayerRules.CollisionUsesItemBox | securemultiplayergame-project/public/Player.mjs:28-36 | the literal 20 in the collision test is the collectible's own width and height |
| PlayerRules.Player.Collision | securemultiplayergame-project/public/Player.mjs:28-36 | the strict rectangle test against a 20 x 20 item holds exactly when the player's box and the item's box share an integer cell |
| PlayerRules.SameCornerCollides | securemultiplayergame-project/public/Player.mjs:31-34 | a player and an item with the same corner collide |
| PlayerRules.TouchingDoesNotCollide | securemultiplayergame-project/public/Player.mjs:31-34 | boxes that only touch along an edge, or lie apart, do not collide |
| PlayerRules.FindIndex | securemultiplayergame-project/public/Player.mjs:43 | `findIndex` returns the first position holding the id, or -1 when no entry holds it |
| PlayerRules.RankNumber | securemultiplayergame-project/public/Player.mjs:40-43 | `findIndex(...) + 1` on the sorted copy is at most the roster length, and it is 0 exactly when no entry carries the id |
| PlayerRules.PermutationKeepsIds | securemultiplayergame-project/public/Player.mjs:40 | the sorted copy carries an id exactly when the roster does |
| PlayerRules.RankText | securemultiplayergame-project/public/Player.mjs:45 | the text starts with `Rank: ` and the rest splits at `/` into the decimal rank and the decimal roster length |
| PlayerRules.Player.CalculateRank | securemultiplayergame-project/public/Player.mjs:38-46 | the text is `Rank: r/n` with `n` the roster length; the sort reads each player's id and score in roster order; `r` is 0 for an absent player; otherwise 1 + (number scoring more) <= r <= (number scoring at least as much) |
| PlayerRules.RankBounds | securemultiplayergame-project/public/Player.mjs:40-43 | the 1-based position after the descending sort lies between 1 + the number of strictly higher scores and the number of scores at least as high |
| PlayerRules.RankLowerBound | securemultiplayergame-project/public/Player.mjs:40-43 | a present player's rank is at least 1 + the number of strictly higher scores |
| PlayerRules.RankUpperBound | securemultiplayergame-project/public/Player.mjs:40-43 | a present player's rank is at most the number of scores at least its own |
| PlayerRules.RankPosition | securemultiplayergame-project/public/Player.mjs:40-43 | the sorted copy holds the player's own entry at the position `findIndex` returns |
| PlayerRules.TopScorerRanksFirst | securemultiplayergame-project/public/Player.mjs:40-45 | a player scoring strictly more than every other ranks 1 |
| Sorting.SortDesc | securemultiplayergame-project/public/Player.mjs:40 | a descending sort by key yields a permutation of its input, ordered by non-increasing key |
| Sorting.InsertDesc | securemultiplayergame-project/public/Player.mjs:40 | inserting one element adds exactly that element (same multiset plus it) |
| Sorting.InsertDescSorted | securemultiplayergame-project/public/Player.mjs:40 | inserting into a sequence sorted by non-increasing key keeps it sorted |
| Sorting.CountWhereSort | securemultiplayergame-project/public/Player.mjs:40 | sorting keeps the number of elements satisfying any predicate |
| Sorting.SortDescStable | securemultiplayergame-project/public/Player.mjs:40 | the sort is stable: the elements with any one key come out in their input order |
| Sorting.TopDesc | messageboard-project/routes/api.js:51-53 | sort-then-`slice(0, k)` keeps min(k, n) elements, ordered, drawn from the input, and every element left out has a key no larger than any kept one |
| Sorting.TopDescLeavesSmaller | messageboard-project/routes/api.js:60-61 | counted with multiplicity, every element sort-then-`slice(0, k)` leaves out has a key no larger than any it keeps |
| GameServer.Scale | securemultiplayergame-project/server.js:87-89 | `Math.floor(Math.random() * n) + offset` lies in `[offset, offset + n)` |
| GameServer.Spawned | securemultiplayergame-project/server.js:86-95 | a created collectible lies at x in 50..749, y in 50..549, has value 1..10 and carries the counter's id |
| GameServer.Server.constructor | securemultiplayergame-project/server.js:77-100 | start-up leaves no players, the counter at 5 and the five collectibles created with ids 0..4, with the registry invariant holding |
| GameServer.Server.CreateCollectible | securemultiplayergame-project/server.js:86-95 | appends one collectible carrying the old counter value, increments the counter and keeps the invariant |
| GameServer.Server.Connect | securemultiplayergame-project/server.js:102-119 | files a score-0 player under the socket id at a spawn point, sends it `init` with the whole state and announces `playerJoined` to the others |
| GameServer.Server.Move | securemultiplayergame-project/server.js:122-154 | an unknown socket changes nothing and emits nothing; otherwise the mover moves, and collectibles, score, counter and emitted `collectibleCollected` events are those of the live `forEach` pass `Scan`, followed by `playerMoved` to the others; the invariant is kept |
| GameServer.Scan | securemultiplayergame-project/server.js:128-144 | the live `forEach` pass visits each index fixed at its start at most once, so it takes at most one collectible per remaining index |
| GameServer.ScanHitStep | securemultiplayergame-project/server.js:128-144 | at an overlapping index the pass announces that collection first and continues from the next index over the spliced list with raised score and counter |
| GameServer.ScanMissStep | securemultiplayergame-project/server.js:128-129 | an index the pass skips or misses changes nothing |
| GameServer.Server.Disconnect | securemultiplayergame-project/server.js:157-161 | removes exactly that player and tells everyone `playerLeft` |
| GameServer.Spliced | securemultiplayergame-project/server.js:133-134 | `splice(i, 1)` then `push` keeps the length, shifts the tail left by one and puts the new collectible last |
| GameServer.ScanKeepsCount | securemultiplayergame-project/server.js:128-144 | a pass keeps the number of collectibles, uses one new id per collection and emits one event per collection |
| GameServer.ScanScoresTaken | securemultiplayergame-project/server.js:129-130 | the score rises by exactly the values of the collectibles taken, and every one of them overlapped the mover |
| GameServer.SplicedKeepsInvariant | securemultiplayergame-project/server.js:133-134 | replacing a collected element keeps ids distinct and below the counter, and drops the collected id |
| GameServer.RemovalKeepsInvariant | securemultiplayergame-project/server.js:133 | `splice(i, 1)` alone keeps ids distinct and below the counter and everything in the spawn range |
| GameServer.ScanKeepsInvariant | securemultiplayergame-project/server.js:128-144 | a pass keeps distinct ids below the counter, every collectible in the spawn range, and never lowers the counter |
| GameServer.ScanIdOrigin | securemultiplayergame-project/server.js:128-144 | every id present after a pass was present before it or was issued during it |
| GameServer.ScanTakenGone | securemultiplayergame-project/server.js:133 | no collectible taken during a pass is present after it |
| GameServer.SumValuesAtLeastCount | securemultiplayergame-project/server.js:89 | collectibles of value at least 1 sum to at least their number |
| GameServer.ScanTakenInRange | securemultiplayergame-project/server.js:128-144 | a pass only takes collectibles lying in the spawn range |
| GameServer.ScanScoreNeverDecreases | securemultiplayergame-project/server.js:130 | a move raises the score by at least one per collection and never lowers it |
| GameServer.ScanKeepsPrefix | securemultiplayergame-project/server.js:128-144 | a pass from index i never changes the elements before i |
| GameServer.ShiftedElementIsSkipped | securemultiplayergame-project/server.js:128-134 | after a hit at index i, the element that slides into i is still there when the pass ends, overlapping or not |
| GameServer.SkippedNeighbourExample | securemultiplayergame-project/server.js:128-134 | concrete case: two overlapping neighbours, only the first is taken |
| GameServer.ReplacementCollectedInSamePassExample | securemultiplayergame-project/server.js:128-134 | concrete case: a replacement spawned under the mover is collected in the same pass |
| GameClient.MoveCommand.Wire | securemultiplayergame-project/public/game.mjs:31 | the direction token a client sends is one `movePlayer` recognises |
| GameClient.ProcessInput | securemultiplayergame-project/public/game.mjs:29-42 | one move per held direction, nothing for the others, in the order up, down, left, right, each at speed 5 |
| GameClient.EmitStep | securemultiplayergame-project/public/game.mjs:29-42 | testing the next direction and emitting exactly when one of its keys is held extends the emitted moves by that direction only |
| GameClient.Without | securemultiplayergame-project/public/game.mjs:110 | `filter(c => c.id !== id)` never lengthens the list |
| GameClient.WithoutMembers | securemultiplayergame-project/public/game.mjs:110 | an element is kept by the filter exactly when it was in the list and carries another id |
| GameClient.WithoutAppend | securemultiplayergame-project/public/game.mjs:110 | the filter distributes over concatenation, so it keeps order |
| GameClient.WithoutAbsent | securemultiplayergame-project/public/game.mjs:110 | filtering an id that is not present changes nothing |
| GameClient.WithoutIsSplice | securemultiplayergame-project/public/game.mjs:110 | with distinct ids, the client's filter removes the same element the server's `splice` does |
| GameClient.AfterCollected | securemultiplayergame-project/public/game.mjs:110-111 | after `collectibleCollected` the list ends with the new collectible and has grown by at most one |
| GameClient.AfterCollectedMembers | securemultiplayergame-project/public/game.mjs:110-111 | before the pushed collectible come exactly the old collectibles with another id than the collected one |
| GameClient.ReplicaFollowsScan | securemultiplayergame-project/public/game.mjs:103-112 | a client that held the server's collectibles and applies a move's `collectibleCollected` events in order holds the server's collectibles after the move |
| GameClient.Client.constructor | securemultiplayergame-project/public/game.mjs:8-10 | the client starts with no player, no players and no collectibles |
| GameClient.Client.Init | securemultiplayergame-project/public/game.mjs:84-89 | `init` replaces player, players and collectibles wholesale |
| GameClient.Client.PlayerJoined | securemultiplayergame-project/public/game.mjs:91-93 | files the new player under its id, other entries unchanged |
| GameClient.Client.PlayerMoved | securemultiplayergame-project/public/game.mjs:95-101 | updates position and score of a known id; an unknown id changes nothing |
| GameClient.Client.CollectibleCollected | securemultiplayergame-project/public/game.mjs:103-112 | sets the collector's score if known and replaces the collected collectible as `AfterCollected` says |
| GameClient.Client.PlayerLeft | securemultiplayergame-project/public/game.mjs:114-116 | deletes only that player |
| MessageBoard.WithBoard | messageboard-project/routes/api.js:8-13 | `getBoard` adds an empty board under a new name and leaves every existing board alone |
| MessageBoard.Lookup | messageboard-project/routes/api.js:78 | `threads.get(id)` finds the entry with that id, or none exists |
| MessageBoard.SetThread | messageboard-project/routes/api.js:41 | `threads.set` replaces the entry with the same id in place, or appends |
| MessageBoard.SetThreadFiles | messageboard-project/routes/api.js:41 | after `set`, ids stay distinct, the new thread is found under its id and every other id finds what it found before |
| MessageBoard.LookupUnique | messageboard-project/routes/api.js:78 | with distinct ids, `get` finds exactly the entry holding the id |
| MessageBoard.RemoveAt | messageboard-project/routes/api.js:87 | `threads.delete` removes one entry and keeps the order of the rest |
| MessageBoard.RemoveOnlyThat | messageboard-project/routes/api.js:87 | after `delete`, that id is not found, every other thread is still present and ids stay distinct |
| MessageBoard.TopThreads | messageboard-project/routes/api.js:51-53 | sort by bump date then `slice(0, 10)`: min(10, n) threads, by non-increasing bump date, drawn from the board (as a multiset) |
| MessageBoard.ListView | messageboard-project/routes/api.js:54-66 | a listed thread keeps id, text and dates and shows min(3, n) replies, newest first |
| MessageBoard.ListViewShowsNewest | messageboard-project/routes/api.js:59-65 | the shown replies are views (id, text, date) of the thread's own replies, and every reply left out is no newer than any shown one: the thread's min(3, n) newest |
| MessageBoard.ListThreads | messageboard-project/routes/api.js:51-67 | the listing shows min(10, n) threads by non-increasing bump date |
| MessageBoard.ListedThreadsShape | messageboard-project/routes/api.js:54-66 | each listed thread is a stored thread shown with its id, text and dates and at most 3 replies, newest first |
| MessageBoard.UnlistedAreOlder | messageboard-project/routes/api.js:51-53 | a thread left out of the listing was bumped no later than every listed one |
| MessageBoard.Listed | messageboard-project/routes/api.js:59-60 | the listing keeps the number of stored threads |
| MessageBoard.ListingSortsStoredReplies | messageboard-project/routes/api.js:51-60 | listing sorts, in place, the stored replies of the listed threads newest first (same replies), and leaves every other thread unchanged |
| MessageBoard.DetailView | messageboard-project/routes/api.js:151-161 | the detail view keeps the thread's id, text and dates and shows every reply, in stored order, as id, text and date only (no password, no report flag) |
| MessageBoard.DetailAfterListingIsNewestFirst | messageboard-project/routes/api.js:59-60 | after a listing, a listed thread's detail view shows its replies newest first |
| MessageBoard.FindReply | messageboard-project/routes/api.js:177 | `find` gives the first reply with the id, or none has it |
| MessageBoard.WithReply | messageboard-project/routes/api.js:134-135 | a reply is appended and the bump date becomes its creation date; nothing else changes |
| MessageBoard.SoftDeleted | messageboard-project/routes/api.js:186 | the reply at the index gets the text `[deleted]` and keeps every other field; every other reply is unchanged |
| MessageBoard.SoftDeleteIdempotent | messageboard-project/routes/api.js:186 | deleting the same reply again changes nothing |
| MessageBoard.ReportIdempotent | messageboard-project/routes/api.js:99 | reporting a thread or a reply twice is reporting it once |
| MessageBoard.ReportTwiceIsOnce | messageboard-project/routes/api.js:92-104 | a second report of the same thread, or of the same reply (api.js:191-208), leaves the stored board as the first report left it |
| MessageBoard.Store.constructor | messageboard-project/routes/api.js:3 | the store starts with no boards |
| MessageBoard.Store.GetBoard | messageboard-project/routes/api.js:8-13 | the board is created if missing and returned |
| MessageBoard.Store.PostThread | messageboard-project/routes/api.js:19-44 | missing or empty text or password: 400 and no change (not even the board is created); otherwise the new thread is `set` and the answer redirects to `/b/board/id` |
| MessageBoard.Store.GetThreads | messageboard-project/routes/api.js:47-70 | answers `ListThreads` and leaves the listed threads' replies sorted in the store |
| MessageBoard.Store.DeleteThread | messageboard-project/routes/api.js:73-89 | `thread not found`, then `incorrect password`, else `success` with exactly that thread removed |
| MessageBoard.Store.ReportThread | messageboard-project/routes/api.js:92-104 | sets the thread's flag and answers `reported`, or answers `thread not found` with no change |
| MessageBoard.Store.PostReply | messageboard-project/routes/api.js:108-138 | 400 when a field is missing, 404 for an unknown thread, else the reply is appended, the thread is bumped and the answer redirects |
| MessageBoard.Store.GetReplies | messageboard-project/routes/api.js:141-164 | 404 for an unknown thread, else the thread's detail view (`DetailView`) |
| MessageBoard.Store.DeleteReply | messageboard-project/routes/api.js:167-188 | checks thread, then reply, then password, and on success replaces only that reply's text |
| MessageBoard.Store.ReportReply | messageboard-project/routes/api.js:191-208 | `thread not found`, `reply not found`, or sets only that reply's flag and answers `reported` |
| Text.Split | stockchecker-project/routes/api.js:10 | `split('.')` gives at least one part and no part contains the separator |
| Text.JoinSplit | stockchecker-project/routes/api.js:10 | joining the parts of a split with the separator gives back the string |
| Text.SplitJoin | stockchecker-project/routes/api.js:12 | splitting a join of separator-free parts gives back the parts |
| Text.Upper | stockchecker-project/routes/api.js:33 | `toUpperCase` keeps the length, leaves no lower-case letter, turns each lower-case letter into the capital 32 code points below it and keeps every other character |
| Text.UpperIdempotent | stockchecker-project/routes/api.js:33 | upper-casing twice is upper-casing once |
| StockChecker.AnonymizeIp | stockchecker-project/routes/api.js:8-15 | the answer is never empty: no address gives `0.0.0.0`; a four-part address keeps its first two parts and zeroes the last two; any other address is returned as is |
| StockChecker.AnonymizeIdempotent | stockchecker-project/routes/api.js:8-15 | anonymising an anonymised address changes nothing (`0.0.0.0` included) |
| StockChecker.ClientAddress | stockchecker-project/routes/api.js:59 | the address chain falls back to `127.0.0.1`, so it is never empty |
| StockChecker.Liked | stockchecker-project/routes/api.js:41-44 | a like adds one and records the address only when `like` is `'true'` and the address is new; otherwise the record is unchanged |
| StockChecker.LikedOncePerAddress | stockchecker-project/routes/api.js:41-44 | likes equal the number of distinct recorded addresses, and a second like from the same address changes nothing |
| StockChecker.FindStock | stockchecker-project/routes/api.js:34 | `find` by symbol gives an index holding the symbol, or none does |
| StockChecker.Recorded | stockchecker-project/routes/api.js:32-47 | the record of the upper-cased symbol, created with 0 likes when missing, gets the like; no other record changes |
| StockChecker.RecordedKeepsStore | stockchecker-project/routes/api.js:32-47 | one record per upper-cased symbol survives every call, and a call raises that record's likes by at most one (and not at all without `like=true`) |
| StockChecker.FindStockUnique | stockchecker-project/routes/api.js:34 | with one record per symbol, `find` returns that record |
| StockChecker.SameRecordNoRelativeLikes | stockchecker-project/routes/api.js:32-47 | a second lookup of a symbol that upper-cases like the first changes nothing, so both find the same record, gain at most one like together and get `rel_likes` 0 |
| StockChecker.StockStore.constructor | stockchecker-project/routes/api.js:5 | the store starts empty |
| StockChecker.StockStore.GetStockData | stockchecker-project/routes/api.js:32-47 | the store becomes `Recorded(old store, ...)` and the returned record holds the upper-cased symbol |
| StockChecker.StockStore.GetStockPrices | stockchecker-project/routes/api.js:51-108 | 400 `Stock symbol is required`, 400 `Invalid stock parameter` and 500 `Stock not found` leave the store unchanged; one stock answers its symbol, price and likes; two stocks answer each quoted price and antisymmetric `rel_likes` from the likes after both updates, 0 when the symbols upper-case alike |
| PortScanner.IsInvalidIp | portscanner-project/port_scanner.py:44-63 | the loop returns `InvalidIp`: not four parts is valid; the first non-digit part is valid; the first part above 255 is invalid; else `inet_aton` decides, with the digit-and-dot fallback |
| PortScanner.InvalidIp | portscanner-project/port_scanner.py:44-63 | a target that does not split into four parts is never rejected; four numeric parts up to 255 are rejected exactly when `inet_aton` rejects them |
| PortScanner.FourBytesDigitAndDot | portscanner-project/port_scanner.py:51-62 | four numeric parts up to 255 leave the part loop undecided, and such a text has a digit and a dot for the fallback |
| PortScanner.PartsVerdictFirstDecider | portscanner-project/port_scanner.py:51-56 | the verdict of the part loop is decided by the first part that is not a byte: valid if it is not all digits, invalid if it is a number above 255; nothing is decided when all four are bytes |
| PortScanner.OpenBetweenExactly | portscanner-project/port_scanner.py:22-24 | the scan lists each open port of the range once, ascending, and nothing else |
| PortScanner.OpenBetween | portscanner-project/port_scanner.py:22-24 | the scan of `range(start, end + 1)` lists at most one port per number checked |
| PortScanner.EmptyRange | portscanner-project/port_scanner.py:22 | a start above the end checks no port and returns the empty list |
| PortScanner.GetOpenPorts | portscanner-project/port_scanner.py:4-32 | invalid address, then unresolvable host, give their error texts; otherwise the open ports of `[start, end]`, or the verbose report naming the reverse-resolved host or the address |
| PortScanner.PortLine | portscanner-project/port_scanner.py:73-74 | a port line is the port number left-justified in 8 columns, one space, then the service from the table or `unknown` |
| PortScanner.Header | portscanner-project/port_scanner.py:66-69 | the first line is `Open ports for ...` ended by its only newline (when host name and address hold none) |
| PortScanner.Unstripped | portscanner-project/port_scanner.py:65-75 | the accumulated text is at least the header, the column titles and 10 characters per port, and it ends in a newline |
| PortScanner.UnstrippedStartsWithTitles | portscanner-project/port_scanner.py:66-71 | the accumulated text starts with the header and the line `PORT     SERVICE` |
| PortScanner.VerboseOutput | portscanner-project/port_scanner.py:65-76 | after `rstrip` the report still starts with the header and `PORT     SERVICE` |
| PortScanner.FormatVerboseOutput | portscanner-project/port_scanner.py:65-76 | the loop builds header, column titles and one line per port, then strips trailing whitespace |
| PortScanner.RStripOneNewline | portscanner-project/port_scanner.py:76 | `rstrip` of a line ending in a non-blank then a newline removes just the newline |
| PortScanner.VerboseOutputEnding | portscanner-project/port_scanner.py:65-76 | the report ends with the column titles when no port is open, and otherwise with the last port's line |
| Text.RStrip | portscanner-project/port_scanner.py:76 | `rstrip()` keeps a prefix, removes only whitespace and leaves no trailing whitespace |
| Text.LJust | portscanner-project/port_scanner.py:74 | `{port:<8}` pads on the right with spaces to width 8 and keeps the text |
| Text.DecimalRoundTrip | portscanner-project/port_scanner.py:54 | reading back the decimal notation of a number gives the number |
| Text.Strip | sha1passwordcracker-project/password_cracker.py:6 | `strip()` gives the empty string exactly for an all-whitespace line; otherwise the run from the first non-whitespace character to the last, with only whitespace around it; a stripped string is left alone |
| PasswordCracker.SaltedAttempts | sha1passwordcracker-project/password_cracker.py:15-26 | two attempts per salt |
| PasswordCracker.Attempts | sha1passwordcracker-project/password_cracker.py:14-33 | the search makes one attempt per password without salts, and two per password and salt with them |
| PasswordCracker.FirstHit | sha1passwordcracker-project/password_cracker.py:19-33 | a found password is the password of some attempt whose digest matches |
| PasswordCracker.Crack | sha1passwordcracker-project/password_cracker.py:3-35 | the answer is one of the stripped password lines or `PASSWORD NOT IN DATABASE` |
| PasswordCracker.CrackSha1Hash | sha1passwordcracker-project/password_cracker.py:3-35 | the loops, over the stripped lines of the two files, return `Crack`: the password of the first attempt whose digest matches, or `PASSWORD NOT IN DATABASE` |
| PasswordCracker.TrySalts | sha1passwordcracker-project/password_cracker.py:15-26 | the inner loop over the salts reports a match exactly when some attempt for this password (salt prefixed, then appended) matches |
| PasswordCracker.SaltedHitIsPassword | sha1passwordcracker-project/password_cracker.py:19-26 | a match among one password's salted attempts returns that password, not the salted text |
| PasswordCracker.FirstHitAppend | sha1passwordcracker-project/password_cracker.py:14-26 | searching two runs of attempts in turn finds the first run's match if it has one, else the second's |
| PasswordCracker.FirstHitIsFirst | sha1passwordcracker-project/password_cracker.py:19-20 | nothing is found exactly when no attempt matches; the first matching attempt decides the answer |
| PasswordCracker.SaltedAttemptsOrder | sha1passwordcracker-project/password_cracker.py:15-26 | for one password, salt j is tried at 2j prefixed and at 2j+1 appended |
| PasswordCracker.SaltedSearchOrder | sha1passwordcracker-project/password_cracker.py:14-26 | 2 * i * (number of salts) attempts come before password i; after them, salt j is tried at offset 2j prefixed and at offset 2j + 1 appended: all salts for one password before the next password |
| PasswordCracker.UnsaltedSearchOrder | sha1passwordcracker-project/password_cracker.py:30-33 | without salts, password i is hashed alone, at position i |
| PasswordCracker.AttemptsComeFromLists | sha1passwordcracker-project/password_cracker.py:14-33 | every attempt returns a listed password and hashes it alone (unsalted) or joined to a listed salt on one side |
| PasswordCracker.SaltedNeverTriesBare | sha1passwordcracker-project/password_cracker.py:17-23 | in salt mode with non-empty salts, the bare password is never hashed |

## Left out

- Networking, HTTP, socket.io transport, static files, security headers and the test runner are not modelled. Socket.io fan-out appears only as the audience of each emitted event (sender, others, everyone).
- `Math.random`, `Date.now`, `new Date()` and `generateId` are inputs. Random draws are reals in [0, 1). Thread and reply ids and timestamps are parameters of the handlers. Timestamps are whole numbers, and `new Date(b) - new Date(a)` is their difference.
- Ids from `generateId` are not assumed unique. A colliding thread id replaces the old thread, as `Map.set` does.
- The browser's key listeners, canvas drawing and animation loop are not modelled. Held keys are a parameter of `ProcessInput`, and the emitted moves are its result.
- The rank text drawn by the client (`public/game.mjs:69-71`) is not modelled; `Player.CalculateRank` models the rank itself.
- GameClient.Client.PlayerMoved: the broadcast excludes the sender, so the client's own `player` object is never updated by it. The model keeps that behaviour.
- The stock quote service is a function from the requested symbol to a price, or to nothing when the lookup fails. Prices are `real`s, not floating point.
- `Promise.all` is modelled as two lookups that both happen before any record changes. Which of the two failures is reported first is not distinguished, because both give the same text.
- Python's `str.isdigit`, `str.strip`, `str.rstrip` and JavaScript's `toUpperCase` are modelled on ASCII only: the digits `0`-`9`, ASCII whitespace and the letters `a`-`z`.
- `socket.inet_aton`, `gethostbyname`, `gethostbyaddr` and `check_port` are inputs: their answers for the call. The outer `except Exception` of `get_open_ports` is not modelled, since nothing in the model raises. In the source, a reverse lookup that fails with anything other than `socket.herror` reaches that handler and answers `Error: Invalid hostname`, in verbose and non-verbose mode alike; the model's `reverse` is only the name or the `herror` fallback.
- `ports_and_services` from `common_ports` is a map parameter. The table itself is not part of this model.
- SHA-1 hex digests are a function parameter. Reading the two word files is replaced by their lines as parameters.
- Integer fields are unbounded. JavaScript numbers are doubles, and scores or coordinates beyond 2^53 are not modelled.
- PlayerRules.Player.MovePlayer, PlayerRules.Moved and GameServer.Server.Move take an integer `speed` and integer positions. A client may send a fractional speed or a value that is not a number at all (`server.js:124-125` passes it on unchecked); the resulting fractional positions, string concatenation or `NaN` are not modelled.
- PlayerRules.Player.Collision: reading the strict rectangle test as "the boxes share an integer cell" holds because corners are integers in this model; with fractional corners the test is the plain overlap of open rectangles.
- PortScanner.FormatVerboseOutput builds its header through `Header`, which holds the `hostname == ip` branch, instead of assigning the two literals in the method.
