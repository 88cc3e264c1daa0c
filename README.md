# BR31 turn engine, modelled in Dafny

BR31 ("Baskin-Robbins 31") is a two-player counting game. Players P1 and P2
take turns. Each move calls a count of numbers, which is added to a shared
number. The player whose move brings the number to `MAX_NUM` (31) or more
loses. That player is written to `last_caller`, and `gameover` is set.

All the game state lives in one shared-memory record, `SharedData`. Each
server's `main` clears the record with `memset` at set-up. A server object
`GameState` wraps the record. In the combined and FIFO-only servers, the rule
object `GameLogic::applyMove` is then the only thing that changes it on the
server side. The turn-driving server's `main` also writes the record itself:
it publishes and clears `current_turn` around each turn, and sets `gameover`
on a stop request. `GameState` and `applyMove` between them:

- check the game is still running;
- check the move comes from the turn holder;
- count the numbers one at a time;
- end the game at the limit, naming the loser;
- otherwise pass the turn.

The system consists of:

- **three servers that share this engine:**
  - the combined server, with a FIFO receiver and a semaphore listener;
  - the FIFO-only server, whose receive loop stops at game over;
  - the FIFO server whose main thread drives the turns itself: it
    publishes the expected turn, waits for that player's message and skips
    everybody else's;
- **two kinds of client:**
  - shared-memory clients, which add their counts to the record directly
    from a fixed table;
  - FIFO clients, which walk their table two entries at a time, send
    `"<id> <count>"` with its terminating NUL, and try `open` up to five
    times.

The modules follow that structure:

| module | file | what it models |
|---|---|---|
| `Decimal` | `decimal.dfy` | decimal text of integers (`to_string`, the digits of `%d`) |
| `MoveCodec` | `move_codec.dfy` | the move message: `snprintf("%d %d")` plus its NUL, and `sscanf("%d %d")` with white-space skipping, signs, partial conversion |
| `Rules` | `rules.dfy` | `SharedData` as a value, `applyMove` as a function, and what sequences of moves do |
| `Server` | `server.dfy` | `SharedData` as an object; `GameState` and `GameLogic` as classes; the combined server's FIFO receiver and semaphore listener |
| `PipeServer` | `pipe_server.dfy` | the FIFO-only server's set-up and receive loop |
| `PipeDriver` | `pipe_driver.dfy` | the turn-driving FIFO server: `readMessage`, the inner wait loop, the outer turn loop, the stop request |
| `ShmClient` | `shr_client.dfy` | both shared-memory clients: `sendMove` and `play` |
| `PipeClient` | `pipe_client.dfy` | both FIFO clients: the schedule, the retry loop, the waits, and what reaches the FIFO |

`GameState` and `GameLogic` are the same code in all three servers, with
three additions that change nothing about the game:

- the turn-driving server's `updateNumber` takes the caller's id, and uses
  it only for printing;
- that server's `GameState` adds a `getCnt` accessor;
- the `GameLogic` of both FIFO servers adds a `getState` accessor.

So classes `Server.GameState` and `Server.GameLogic` are their one model:
`getCnt` is `Server.GameState.GetCnt`, and `getState` is the field
`Server.GameLogic.state`.

Inputs from the environment become sequences the operations consume:

| source operation | modelled as |
|---|---|
| FIFO `read` | one string per read, empty when nothing was waiting |
| `semop` wait | `Granted(releaseOk)`, `Interrupted` or `Failed` |
| SIGINT/SIGTERM | an `Interrupt` event among the reads |
| `open` in the client's retry loop | `Refused` or `Opened(writeOk)` |
| the record during each `sleep` of a client | a sequence of what each sleep leaves behind |

Every modelled loop of the source is a Dafny `while` loop. Each is proved
equal to a recursive or closed-form function of its inputs, and the
properties are lemmas about that function. The loops left out are the `main` threads' waits
for the receiver threads listed under "## Left out".

Where the programs differ in ways the model keeps:

- **Initial turn.** The combined server and the FIFO-only server start
  with P1 to move. The turn-driving server zeroes the record, turn
  included. Its loop then publishes each turn itself, starting with P1
  (`PipeDriver.DriveFromSetUp`).
- **Game-over check.** The combined server's FIFO receiver never looks at
  `gameover`. `Server.DeliverAllAfterGameOver` shows that its later reads
  change nothing anyway. The FIFO-only server's loop stops at game over.
  `PipeServer.PipeReceiver.Start` proves it ends in the same state as
  delivering every read.
- **Stale count.** In the driver's wait loop, `playerId` and `cnt` outlive
  a skipped message. So a message that names the turn holder but whose
  count does not convert is applied with the count of the message skipped
  before it (`PipeDriver.AwaitKeepsStaleCount`, `PipeDriver.ClassifyBareId`).
- **No turn check in `sendMove`.** The shared-memory clients' `sendMove`
  adds the count without checking the turn or `gameover`. `play` makes
  those checks before calling it. For non-negative counts, on the client's
  own turn, it is exactly `applyMove` (`ShmClient.SendIsApplyMove`). For
  negative counts it is not (`ShmClient.SendNegative`).

## Model

| member | source | states |
|---|---|---|
| Decimal.IntToString | server.cpp:78 | the text of an integer starts with a minus sign exactly when the integer is negative, and with a digit otherwise |
| Decimal.NatToString | server.cpp:78 | the digits of a natural number, at least one, with no leading zero |
| Decimal.NatToStringRoundTrip | server.cpp:78 | reading back the decimal digits written for a natural number gives that number |
| Decimal.IntToStringInjective | server.cpp:78 | two integers with the same decimal text are equal |
| MoveCodec.SpaceRun | server.cpp:111 | the white space a `%d` conversion skips is the longest leading run of `isspace` characters |
| MoveCodec.DigitRun | server.cpp:111 | the digits a `%d` conversion reads are the longest leading run of decimal digits |
| MoveCodec.ScanSigned | server.cpp:111 | a successful conversion of an optional sign and digits consumes at least one character and no more than the text |
| MoveCodec.ScanInt | server.cpp:111 | a successful `%d` conversion, white space included, consumes at least one character and no more than the text |
| MoveCodec.Decode | server.cpp:110-111 | `sscanf` assigns the second field only after the first, and fails on the first exactly when that conversion fails |
| MoveCodec.Assign | server.cpp:110-111 | an out-argument whose conversion failed keeps its previous value |
| MoveCodec.Format | pipe_client_01.cpp:37 | the text of `"%d %d"` is the id's digits, one space at the id's length, then the count's digits, and holds no NUL |
| MoveCodec.Message | pipe_client_01.cpp:37-38 | the `strlen(buf) + 1` bytes written are the whole text followed by exactly one NUL, the text holding none |
| MoveCodec.FormatRoundTrip | pipe_client_01.cpp:37 | decoding the text `"%d %d"` prints, followed by any non-digit, gives back both numbers |
| MoveCodec.MessageRoundTrip | pipe_client_01.cpp:37-38 | decoding the bytes a client writes, NUL included, gives back its id and count |
| Rules.Initial | server.cpp:233-234 | the record after `memset` and setting the turn: number 0, that turn, game running, no loser |
| Rules.Added | server.cpp:39-47 | the counting loop adds `cnt` when it is non-negative and nothing when it is not |
| Rules.Flip | server.cpp:48-52 | `current_turn == 1 ? 2 : 1`: P1 becomes P2 and every other turn becomes P1, so the turn changes whenever it was P1 or P2 |
| Rules.Caller | server.cpp:78 | the loser's name `"P" + to_string(id)`: `P`, a minus sign exactly for negative ids, then digits |
| Rules.CallerInjective | server.cpp:78 | distinct player ids give distinct loser names `"P" + to_string(id)` |
| Rules.ApplyMove | server.cpp:70-83 | a move in a finished game or by anyone but the turn holder changes nothing; otherwise it adds its count; at the limit it ends the game, naming the mover and keeping the turn; below it, it passes the turn and names nobody; the count never goes down |
| Rules.Play | server.cpp:70-83 | moves applied in order never touch `current_cnt` |
| Rules.InitialReachable | server.cpp:233-234 | the set-up record is a valid state: turn P1 or P2, game over exactly at the limit, and then the turn holder named as loser |
| Rules.ApplyMoveReachable | server.cpp:70-83 | `applyMove` keeps that state invariant, for any player id and any count |
| Rules.PlayReachable | server.cpp:70-83 | any sequence of moves keeps the invariant |
| Rules.PlayMonotone | server.cpp:76 | the shared number never decreases over any sequence of moves |
| Rules.PlayAfterGameOver | server.cpp:71 | once the game is over, no sequence of moves changes any field |
| Rules.PlayWrongTurn | server.cpp:72-75 | moves none of which come from the turn holder change nothing |
| Rules.EndingMove | server.cpp:77-81 | a game that was running and is over after a sequence of moves ended at some move of the turn holder, which reached the limit, named that player, and after which nothing changed |
| Server.SharedData.Create | server.cpp:233-234 | the segment is created holding the initial state for the given turn |
| Server.GameState.IsGameOver | server.cpp:15-20 | returns the `gameover` field |
| Server.GameState.GetNumber | server.cpp:21-26 | returns the shared number |
| Server.GameState.GetTurn | server.cpp:27-32 | returns the current turn |
| Server.GameState.GetCnt | Pipe/pipe_server.cpp:21-26 | returns `current_cnt` |
| Server.GameState.GetCaller | server.cpp:33-38 | returns the loser's name |
| Server.GameState.UpdateNumber | server.cpp:39-47 | the loop raises the number by `Added(cnt)` and leaves every other field as it was |
| Server.GameState.SwitchTurn | server.cpp:48-52 | the turn becomes `Flip` of the old turn; nothing else changes |
| Server.GameState.SetGameOver | server.cpp:53-58 | sets `gameover` and the loser's name; nothing else changes |
| Server.GameLogic.ApplyMove | server.cpp:70-83 | the method leaves the segment exactly as `Rules.ApplyMove` says |
| Server.Deliver | server.cpp:106-114 | an empty read, or any read once the game is over, changes nothing; a read never lowers the number or touches `current_cnt` |
| Server.DeliverAll | server.cpp:106-114 | the receive loop over any reads never lowers the number or touches `current_cnt` |
| Server.DeliverMessage | server.cpp:109-113 | a client's message, as read from the FIFO, is applied as exactly the move it names |
| Server.DeliverGarbled | server.cpp:110-113 | a read whose player id does not convert changes nothing in a valid state |
| Server.DeliverMissingCount | server.cpp:110-113 | a read with the turn holder's id but no convertible count passes the turn without counting |
| Server.DeliverAllReachable | server.cpp:104-117 | whatever the FIFO delivers keeps the state invariant, and never lowers the number |
| Server.DeliverAllAfterGameOver | server.cpp:104-117 | after game over, the receiver's later reads change nothing, though it does not check `gameover` |
| Server.SemaphoreRun | server.cpp:134-155 | the listener's grants never lower the number or touch `current_cnt`, and only ever name P1 as the loser |
| Server.PipeReceiver.Start | server.cpp:104-117 | the receive loop leaves the segment as delivering every read in order |
| Server.SemaphoreIdleOnP2 | server.cpp:145-147 | while P2 holds the turn, the listener's hard-wired move of P1 never changes the game |
| Server.SemaphoreCountsOnce | server.cpp:134-155 | from P1's turn in a valid state, the listener alone adds at most one to the number, whatever the waits do |
| Server.SemaphoreAfterGameOver | server.cpp:134-155 | after game over, the listener changes nothing |
| Server.SemaphoreReceiver.Start | server.cpp:129-156 | the loop retries on EINTR, stops on another wait error or a failed release, and applies (P1, 1) per grant, as `SemaphoreRun` says |
| PipeServer.DeliverAllAppend | pipe_server.cpp:104-115 | delivering two runs of reads in turn is delivering their concatenation |
| PipeServer.DeliverAllRest | pipe_server.cpp:104 | once a prefix of the reads has ended the game, the remaining reads change nothing |
| PipeServer.Setup | pipe_server.cpp:182-183 | set-up leaves a fresh segment with P1 to move, in a valid state |
| PipeServer.PipeReceiver.Receive | pipe_server.cpp:105-114 | one read with bytes is decoded and applied; an empty read changes nothing |
| PipeServer.PipeReceiver.Start | pipe_server.cpp:102-116 | the loop consumes a prefix of the reads; it stops early only at game over; every read it consumed found the game running; the result equals delivering all the reads |
| PipeServer.ServeReachable | pipe_server.cpp:102-116 | from the set-up segment, whatever the FIFO delivers, the game stays in a valid state |
| PipeDriver.ReadMessage | Pipe/pipe_server.cpp:129-139 | returns true exactly when the read had bytes; only converted fields are overwritten; a client's message hands back its two numbers |
| PipeDriver.Classify | Pipe/pipe_server.cpp:196-197 | the wait loop sees a stop request exactly on the signal, and an empty read exactly when the read returned no bytes |
| PipeDriver.AwaitMove | Pipe/pipe_server.cpp:195-206 | an accepted message is the expected player's, and the wait resumes on a strictly shorter suffix of the reads |
| PipeDriver.AwaitMoveFirst | Pipe/pipe_server.cpp:196-203 | the wait ends at the first reading that is a stop request or a message naming the turn holder, and runs dry exactly when there is none: a message naming the turn holder is never passed over |
| PipeDriver.TakeEvent | Pipe/pipe_server.cpp:196-205 | one pass of the wait loop: with a stop request it stops; a message from the expected player is applied; anything else is skipped, carrying the decoded id and count over |
| PipeDriver.AwaitTurn | Pipe/pipe_server.cpp:195-206 | the wait loop applies the first message of the expected player, or stops on a stop request with nothing applied, as `AwaitMove` says |
| PipeDriver.Serve | Pipe/pipe_server.cpp:187-230 | the driver loop, plus the game-over flag set on a stop request, leaves the segment and ends as `Drive` says |
| PipeDriver.Drive | Pipe/pipe_server.cpp:188-221 | the loop ends on the tracked-number guard exactly when the number starts at the limit; a loss or a stop leaves `gameover` set |
| PipeDriver.DriveClearsTurn | Pipe/pipe_server.cpp:208-211 | after every move that does not end the game, the driver hands the next round a running game with `current_turn` cleared to 0 |
| PipeDriver.DriveFromSetUp | Pipe/pipe_server.cpp:159-221 | from the record zeroed with turn 0 and P1 published first, the driver's run has the outcome, the strict alternation and the cleared turns stated above |
| PipeDriver.DriveAlternates | Pipe/pipe_server.cpp:188-221 | the moves the driver applies alternate strictly between the players, starting with P1 |
| PipeDriver.DriveOutcome | Pipe/pipe_server.cpp:188-230 | from a running game the tracked-number guard never ends the loop by itself; the number grows by exactly the applied counts; a loss names the last mover, who keeps the turn; a stop sets `gameover` with the loser unchanged; a run that is still waiting leaves the game running with the next expected player published |
| PipeDriver.AwaitKeepsStaleCount | Pipe/pipe_server.cpp:195-202 | a turn holder's message without a count is applied with the count of the message skipped before it |
| PipeDriver.ClassifyMessage | Pipe/pipe_server.cpp:132-135 | a client's message is read as the two numbers it carries |
| PipeDriver.ClassifyBareId | Pipe/pipe_server.cpp:135 | the message `"1"` is read as id 1 with no count |
| ShmClient.OddTable | shr_client_01.cpp:19 | client 01's table is the 16 odd numbers 1..31 in order |
| ShmClient.EvenTable | shr_client_02.cpp:19 | client 02's table is the 15 even numbers 2..30 in order |
| ShmClient.Send | shr_client_01.cpp:41-57 | `sendMove` adds the count as it is; at the limit it ends the game, naming this client and keeping the turn; below it, it flips the turn and leaves `gameover` and the loser as they were |
| ShmClient.CallerNames | shr_client_01.cpp:49 | the literal names the clients write are the server's loser names for ids 1 and 2 |
| ShmClient.SendIsApplyMove | shr_client_01.cpp:41-57 | on its own turn in a running game, a client's write of a non-negative count is exactly the server's `applyMove` |
| ShmClient.SendNegative | shr_client_01.cpp:43 | a negative count lowers the number where the server would leave it |
| ShmClient.PlaySendsTable | shr_client_01.cpp:85-92 | the counts `play` sends are the next table entries in order; the index never passes the table's end |
| ShmClient.Session | shr_client_01.cpp:66-101 | the table index never goes back, and `play` sends at most once per sleep plus once |
| ShmClient.PlayEndings | shr_client_01.cpp:66-101 | each way `play` can end leaves the state it should: game over seen; table used up on its own turn; its own move at the limit with itself named as loser and holding the turn; still waiting in a running game |
| ShmClient.PlayAloneSendsOnce | shr_client_01.cpp:66-101 | with nobody else writing, a client sends at most once |
| ShmClient.PlayAloneIdle | shr_client_01.cpp:77-80 | off its turn, with nobody else writing, a client sends nothing and changes nothing |
| ShmClient.PlaySendsOnOwnTurns | shr_client_01.cpp:66-100 | whatever other processes write, `play` sends at most once for the segment it starts on and once per write that hands it the turn in a running game |
| ShmClient.NeverHandedTurn | shr_client_01.cpp:77-83 | a client that does not start on its turn and is never handed it by a write sends nothing, whatever else is written |
| ShmClient.AlternatingGame | shr_client_01.cpp:59-101 | the two tables played strictly in turn from P1 end at 36 with P2 named as loser |
| ShmClient.ShrClient.Client01 | shr_client_01.cpp:17-19 | client 01 is player 1 with the odd table, at index 0 |
| ShmClient.ShrClient.Client02 | shr_client_02.cpp:17-19 | client 02 is player 2 with the even table, at index 0 |
| ShmClient.ShrClient.SendMove | shr_client_01.cpp:41-57 | the method leaves the segment as `Send` does, and returns true exactly when the game goes on |
| ShmClient.ShrClient.Play | shr_client_01.cpp:59-106 | after the start-up `sleep(2)`, during which another process may write the segment, the loop leaves the segment, the table index and the ending as `Session` says from what that sleep left |
| ShmClient.ShrClient.Wait | shr_client_01.cpp:100 | during a sleep the segment becomes what the outside left in it |
| PipeClient.Table01 | pipe_client_01.cpp:13-14 | client 01's table has 16 entries |
| PipeClient.Table02 | pipe_client_02.cpp:13-14 | client 02's table has 15 entries |
| PipeClient.Count | pipe_client_01.cpp:25-26 | the count sent is 2 when two or more entries remain, and otherwise the single remaining one |
| PipeClient.Chunks | pipe_client_01.cpp:18-26 | every count of the schedule is 1 or 2 |
| PipeClient.ChunksSum | pipe_client_01.cpp:18-26 | the counts from a table position add up to the number of entries left |
| PipeClient.ChunksEntries | pipe_client_01.cpp:18-26 | the schedule has one count per two entries; entry k is the count of position i + 2k, which lies inside the table |
| PipeClient.TableSchedules | pipe_client_01.cpp:13-26 | client 01 sends eight 2s and client 02 seven 2s then a 1, summing to 16 and 15 |
| PipeClient.Attempts | pipe_client_01.cpp:30 | the retry loop makes between one and five attempts |
| PipeClient.Delivers | pipe_client_01.cpp:29-41 | a message is delivered only if one of the five attempts opened and its write succeeded |
| PipeClient.AttemptsStopAtFirstOpen | pipe_client_01.cpp:29-41 | every attempt before the last was refused; the last opened unless all five were refused; the message is delivered exactly when the last attempt opened and its write succeeded |
| PipeClient.Transmit | pipe_client_01.cpp:29-41 | the loop makes `Attempts` attempts and writes the message exactly when `Delivers` holds |
| PipeClient.AwaitOwnTurn | pipe_client_01.cpp:22 | the turn wait resumes with no more views than it had, and it ends on game over only when the closing wait would find game over |
| PipeClient.AwaitOwnTurnSuffix | pipe_client_01.cpp:22 | the turn wait resumes on exactly the views after the one showing the turn |
| PipeClient.AwaitOver | pipe_client_01.cpp:48 | the closing wait ends exactly when the current view or a later one shows game over |
| PipeClient.Rounds | pipe_client_01.cpp:18-45 | the `for` loop hands at most one count to the retry loop per view, plus one |
| PipeClient.RoundsFollowSchedule | pipe_client_01.cpp:18-45 | the counts handed to the retry loop are a prefix of the table's schedule, in order |
| PipeClient.RoundsDelivered | pipe_client_01.cpp:18-45 | every delivered count is 1 or 2, and at most one message goes out per count |
| PipeClient.RoundsOffTurn | pipe_client_01.cpp:22 | a client that never sees its turn sends nothing |
| PipeClient.AwaitOwnTurnUses | pipe_client_01.cpp:22 | a turn wait that returns the turn uses up a view of the client's own turn in a running game |
| PipeClient.RoundsOnOwnTurns | pipe_client_01.cpp:19-23 | whoever else writes the segment, the client hands the retry loop at most one count per view of its own turn in a running game |
| PipeClient.AwaitNeverTurn | pipe_client_01.cpp:22 | the turn wait never returns the turn if no view shows it |
| PipeClient.RoundsOwnTurns | pipe_client_01.cpp:18-45 | a client that is always on turn hands its whole schedule to the retry loop, totalling the rest of its table |
| PipeClient.WaitTurn | pipe_client_01.cpp:22 | the turn-wait loop ends on the client's turn, at game over, or when the views run out, as `AwaitOwnTurn` says |
| PipeClient.WaitOver | pipe_client_01.cpp:48 | the closing wait ends exactly when a view with `gameover` comes |
| PipeClient.Round | pipe_client_01.cpp:19-44 | one pass of the `for` loop writes the messages it delivers and continues, leaves or starves as `Rounds` says |
| PipeClient.ForLoop | pipe_client_01.cpp:18-45 | the loop writes the message of every delivered count, in order, and ends where `Rounds` says |
| PipeClient.Run | pipe_client_01.cpp:18-48 | the FIFO holds the client's message for each delivered count, in order; the ending is the one `Rounds` gives |
| PipeClient.DeliverCarried | pipe_server.cpp:102-116 | the server's receive loop applies what a client's FIFO traffic carries as exactly that client's moves, in order |

## Left out

- Threads, mutexes and the interleaving of processes: each `GameState` operation and each `applyMove` is taken as one atomic step. Another process's writes to the record appear in a client only at its sleeps, and in none of the three servers.
- The sleeps (`sleep`, `usleep`) themselves, console output, `safePrint` and the `Broadcaster`: none of them changes the game.
- The system calls `shmget`, `shmat`, `shmdt`, `shmctl`, `semget`, `semctl`, `mkfifo`, `open`, `close` and `unlink`, and their error exits: the model starts with the segment attached and the FIFO open.
- The `main` thread's `while (!state.isGameOver()) sleep(1)` in the FIFO-only server (pipe_server.cpp:202), and the combined server's `pause()`: they wait for the receiver threads, and threads are not modelled.
- Signal handlers that call `exit`, and the combined server's `ServerApp` thread set-up: that is process control, not game logic.
- client_pipe.cpp and sem_client_02.cpp are not part of this model.
- Server.GameState.UpdateNumber: the driver server's extra `callerId` parameter is left out, as it is used only for printing.
- Rules.ApplyMove: unbounded integers are used, so 32-bit `int` overflow of the number or the count is not modelled.
- Rules.Caller: the 20-byte `last_caller` buffer of `strncpy` is not modelled. Names of 20 or more characters would lose their terminator; `"P1"` and `"P2"` fit.
- MoveCodec.Decode: a read that fills its buffer leaves no NUL, so `sscanf` could run past it. This holds for the 100-byte buffer of the combined server (server.cpp:105-108) and for the 128-byte buffers of the two FIFO-only servers. Each read is modelled as the bytes read and nothing after them.
- MoveCodec.Decode: `%d` overflow of out-of-range digit strings is not modelled.
- MoveCodec.Decode: one read is taken to return one whole message. Messages split or merged by the FIFO are not modelled.
- PipeDriver.Serve: the method's contract states the segment it leaves at the end; the segments it hands on between rounds, with `current_turn` cleared to 0, are stated of `Drive` (`PipeDriver.DriveClearsTurn`).
- PipeDriver.Serve: the stop request is seen only while the driver is waiting for a message. A signal arriving between an applied move and the outer loop's test is treated as arriving during the next wait.
- ShmClient.ShrClient.Play: `prevTurn`, which only decides what to print, and the `running` flag, which only `cleanUp` clears after `play` has returned, are left out.
- PipeClient.OpenAt: the open outcomes are a finite list; attempts past its end count as refused.
- PipeClient.WaitTurn: the record a FIFO client sees changes only at its sleeps, each sleep moving to the next view.
