/** The game state object and the rule object of the servers, and the two
    input channels of the combined server: a FIFO reader and a semaphore
    listener. `GameState` and `GameLogic` are the same code in all three
    servers; this module is the one model of them. */
module Server {
  import opened MoveCodec
  import opened Rules

  /** The shared-memory segment `SharedData`. */
  class SharedData {
    var currentNum: int
    var currentTurn: int
    var currentCnt: int
    var lastCaller: string
    var gameover: bool

    function Snap(): Snapshot
      reads this
    {
      Snapshot(currentNum, currentTurn, currentCnt, lastCaller, gameover)
    }

    /** The segment as the server sets it up: all zero, then `current_turn = turn`. */
    constructor Create(turn: int)
      ensures Snap() == Initial(turn)
    {
      currentNum, currentTurn, currentCnt, lastCaller, gameover := 0, turn, 0, "", false;
    }

    /** Every field overwritten at once, as another process writing the
        segment would leave it. */
    method Store(s: Snapshot)
      modifies this
      ensures Snap() == s
    {
      currentNum, currentTurn, currentCnt, lastCaller, gameover :=
        s.currentNum, s.currentTurn, s.currentCnt, s.lastCaller, s.gameover;
    }
  }

  /** `GameState`: accessors and mutators of the segment. */
  class GameState {
    const data: SharedData

    constructor (ptr: SharedData)
      ensures data == ptr
    {
      data := ptr;
    }

    method IsGameOver() returns (over: bool)
      ensures over == data.gameover
    {
      over := data.gameover;
    }

    method GetNumber() returns (n: int)
      ensures n == data.currentNum
    {
      n := data.currentNum;
    }

    method GetTurn() returns (t: int)
      ensures t == data.currentTurn
    {
      t := data.currentTurn;
    }

    method GetCnt() returns (c: int)
      ensures c == data.currentCnt
    {
      c := data.currentCnt;
    }

    method GetCaller() returns (caller: string)
      ensures caller == data.lastCaller
    {
      caller := data.lastCaller;
    }

    /** Counts `cnt` numbers one at a time; a count of zero or less adds nothing. */
    method UpdateNumber(cnt: int)
      modifies data
      ensures data.Snap() == old(data.Snap()).(currentNum := old(data.currentNum) + Added(cnt))
    {
      var i := 0;
      while i < cnt
        invariant 0 <= i <= Added(cnt)
        invariant data.Snap() == old(data.Snap()).(currentNum := old(data.currentNum) + i)
        decreases cnt - i
      {
        data.currentNum := data.currentNum + 1;
        i := i + 1;
      }
    }

    method SwitchTurn()
      modifies data
      ensures data.Snap() == old(data.Snap()).(currentTurn := Flip(old(data.currentTurn)))
    {
      data.currentTurn := if data.currentTurn == 1 then 2 else 1;
    }

    method SetGameOver(caller: string)
      modifies data
      ensures data.Snap() == old(data.Snap()).(gameover := true, lastCaller := caller)
    {
      data.gameover := true;
      data.lastCaller := caller;
    }
  }

  /** `GameLogic`: checks the turn, counts, decides the end, passes the turn. */
  class GameLogic {
    const state: GameState

    constructor (s: GameState)
      ensures state == s
    {
      state := s;
    }

    method ApplyMove(playerId: int, cnt: int)
      modifies state.data
      ensures state.data.Snap() == Rules.ApplyMove(old(state.data.Snap()), playerId, cnt)
    {
      var over := state.IsGameOver();
      if over {
        return;
      }
      var turn := state.GetTurn();
      if playerId != turn {
        return;
      }
      state.UpdateNumber(cnt);
      var n := state.GetNumber();
      if n >= MaxNum {
        state.SetGameOver(Caller(playerId));
        return;
      }
      state.SwitchTurn();
    }
  }

  /** One successful `read` of the FIFO: `pid` and `cnt` start at zero, `sscanf`
      fills what it can convert, and the pair goes to `applyMove` as decoded. A
      read that returns no bytes changes nothing. */
  function Deliver(s: Snapshot, bytes: string): (r: Snapshot)
    ensures |bytes| == 0 || s.gameover ==> r == s
    ensures r.currentNum >= s.currentNum && r.currentCnt == s.currentCnt
  {
    if |bytes| > 0 then
      var f := Decode(bytes);
      Rules.ApplyMove(s, Assign(0, f.first), Assign(0, f.second))
    else s
  }

  function DeliverAll(s: Snapshot, chunks: seq<string>): (r: Snapshot)
    ensures r.currentNum >= s.currentNum && r.currentCnt == s.currentCnt
    decreases |chunks|
  {
    if chunks == [] then s else DeliverAll(Deliver(s, chunks[0]), chunks[1..])
  }

  /** A client's message is applied as exactly the move it names. */
  lemma DeliverMessage(s: Snapshot, pid: int, cnt: int)
    ensures Deliver(s, Message(pid, cnt)) == Rules.ApplyMove(s, pid, cnt)
  {
    MessageRoundTrip(pid, cnt);
  }

  /** A message whose player id does not convert leaves `pid` at 0, and player
      0 never holds the turn, so the message changes nothing. */
  lemma DeliverGarbled(s: Snapshot, bytes: string)
    requires Reachable(s)
    requires Decode(bytes).first.None?
    ensures Deliver(s, bytes) == s
  {
  }

  /** A message whose id converts but whose count does not is a move of 0:
      on the sender's turn it passes the turn without counting. */
  lemma DeliverMissingCount(s: Snapshot, bytes: string)
    requires Reachable(s) && !s.gameover && |bytes| > 0
    requires Decode(bytes) == Fields(Some(s.currentTurn), None)
    ensures Deliver(s, bytes) == s.(currentTurn := Flip(s.currentTurn))
  {
  }

  lemma {:induction false} DeliverAllReachable(s: Snapshot, chunks: seq<string>)
    requires Reachable(s)
    ensures Reachable(DeliverAll(s, chunks))
    ensures DeliverAll(s, chunks).currentNum >= s.currentNum
    decreases |chunks|
  {
    if chunks != [] {
      var f := Decode(chunks[0]);
      ApplyMoveReachable(s, Assign(0, f.first), Assign(0, f.second));
      DeliverAllReachable(Deliver(s, chunks[0]), chunks[1..]);
    }
  }

  lemma {:induction false} DeliverAllAfterGameOver(s: Snapshot, chunks: seq<string>)
    requires s.gameover
    ensures DeliverAll(s, chunks) == s
    decreases |chunks|
  {
    if chunks != [] {
      DeliverAllAfterGameOver(Deliver(s, chunks[0]), chunks[1..]);
    }
  }

  /** `PipeReceiver` of the combined server. */
  class PipeReceiver {
    const logic: GameLogic

    constructor (gl: GameLogic)
      ensures logic == gl
    {
      logic := gl;
    }

    /** The receive loop over the reads it performs until `stop()` clears
        `running`; each read is a chunk of at most 100 bytes, empty when
        nothing was waiting. It does not look at `gameover`. */
    method Start(chunks: seq<string>)
      modifies logic.state.data
      ensures logic.state.data.Snap() == DeliverAll(old(logic.state.data.Snap()), chunks)
    {
      var k := 0;
      while k < |chunks|
        invariant k <= |chunks|
        invariant DeliverAll(old(logic.state.data.Snap()), chunks) ==
                  DeliverAll(logic.state.data.Snap(), chunks[k..])
      {
        var buf := chunks[k];
        if |buf| > 0 {
          var f := Decode(buf);
          var pid := Assign(0, f.first);
          var cnt := Assign(0, f.second);
          logic.ApplyMove(pid, cnt);
        }
        assert chunks[k..][1..] == chunks[k + 1..];
        k := k + 1;
      }
    }
  }

  /** What one `semop` wait of the semaphore listener returns. */
  datatype SemWait =
    | Granted(releaseOk: bool)   // acquired; the later release succeeds or not
    | Interrupted                // EINTR: wait again
    | Failed                     // any other error: leave the loop

  /** The semaphore listener's effect: every grant is the move (P1, 1). */
  function SemaphoreRun(s: Snapshot, waits: seq<SemWait>): (r: Snapshot)
    ensures r.currentNum >= s.currentNum && r.currentCnt == s.currentCnt
    ensures r.lastCaller == s.lastCaller || r.lastCaller == Caller(1)
    decreases |waits|
  {
    if waits == [] then s
    else match waits[0]
      case Interrupted => SemaphoreRun(s, waits[1..])
      case Failed => s
      case Granted(ok) =>
        var t := Rules.ApplyMove(s, 1, 1);
        if ok then SemaphoreRun(t, waits[1..]) else t
  }

  /** While P2 holds the turn, the semaphore listener alone never changes the game. */
  lemma {:induction false} SemaphoreIdleOnP2(s: Snapshot, waits: seq<SemWait>)
    requires s.currentTurn == 2
    ensures SemaphoreRun(s, waits) == s
    decreases |waits|
  {
    if waits != [] {
      match waits[0]
      case Interrupted => SemaphoreIdleOnP2(s, waits[1..]);
      case Failed =>
      case Granted(ok) => if ok { SemaphoreIdleOnP2(s, waits[1..]); }
    }
  }

  /** From P1's turn the listener counts at most one number: its first
      grant is P1's move of one, and that move hands the turn to P2 or ends
      the game, after which every grant is refused. */
  lemma {:induction false} SemaphoreCountsOnce(s: Snapshot, waits: seq<SemWait>)
    requires Reachable(s) && s.currentTurn == 1
    ensures SemaphoreRun(s, waits).currentNum <= s.currentNum + 1
    decreases |waits|
  {
    if waits != [] {
      match waits[0]
      case Interrupted => SemaphoreCountsOnce(s, waits[1..]);
      case Failed =>
      case Granted(ok) =>
        var t := Rules.ApplyMove(s, 1, 1);
        if ok {
          if t.gameover {
            SemaphoreAfterGameOver(t, waits[1..]);
          } else {
            SemaphoreIdleOnP2(t, waits[1..]);
          }
        }
    }
  }

  lemma {:induction false} SemaphoreAfterGameOver(s: Snapshot, waits: seq<SemWait>)
    requires s.gameover
    ensures SemaphoreRun(s, waits) == s
    decreases |waits|
  {
    if waits != [] {
      match waits[0]
      case Interrupted => SemaphoreAfterGameOver(s, waits[1..]);
      case Failed =>
      case Granted(ok) => if ok { SemaphoreAfterGameOver(s, waits[1..]); }
    }
  }

  /** `SemaphoreReceiver` of the combined server. */
  class SemaphoreReceiver {
    const logic: GameLogic

    constructor (gl: GameLogic)
      ensures logic == gl
    {
      logic := gl;
    }

    /** The listener loop over the waits it performs until `stop()`. */
    method Start(waits: seq<SemWait>)
      modifies logic.state.data
      ensures logic.state.data.Snap() == SemaphoreRun(old(logic.state.data.Snap()), waits)
    {
      var k := 0;
      while k < |waits|
        invariant k <= |waits|
        invariant SemaphoreRun(old(logic.state.data.Snap()), waits) ==
                  SemaphoreRun(logic.state.data.Snap(), waits[k..])
      {
        assert waits[k..][1..] == waits[k + 1..];
        match waits[k]
        case Interrupted =>
          k := k + 1;
        case Failed =>
          break;
        case Granted(ok) =>
          var playerId := 1;
          var cnt := 1;
          logic.ApplyMove(playerId, cnt);
          if !ok {
            break;
          }
          k := k + 1;
      }
    }
  }
}
