/** The BR31 rule: players take turns adding to a shared count, and the
    player whose move brings it to 31 or more loses. The value model of the
    shared-memory record `SharedData` and the move rule `GameLogic::applyMove`. */
module Rules {
  import opened Decimal

  /** `MAX_NUM`. */
  const MaxNum := 31

  /** The fields of `SharedData` the game reads and writes; `last_caller`
      is the C string in its 20-byte buffer ("" after `memset` to zero). */
  datatype Snapshot = Snapshot(
    currentNum: int,
    currentTurn: int,
    currentCnt: int,
    lastCaller: string,
    gameover: bool)

  /** A move request: who asks, and how many numbers they call. */
  datatype Move = Move(player: int, count: int)

  /** The segment after `memset(shared, 0, ..)` and `shared->current_turn = turn`. */
  function Initial(turn: int): (s: Snapshot)
    ensures s.currentNum == 0 && s.currentTurn == turn && !s.gameover && s.lastCaller == ""
  {
    Snapshot(0, turn, 0, "", false)
  }

  /** How many times `for (i = 0; i < cnt; i++) current_num++` increments. */
  function Added(cnt: int): (k: nat)
    ensures cnt >= 0 ==> k == cnt
    ensures cnt <= 0 ==> k == 0
  {
    if cnt > 0 then cnt else 0
  }

  /** `current_turn == 1 ? 2 : 1`. */
  function Flip(turn: int): (t: int)
    ensures turn == 1 ==> t == 2
    ensures turn != 1 ==> t == 1
    ensures t != turn || turn !in {1, 2}
  {
    if turn == 1 then 2 else 1
  }

  /** The loser's name, `"P" + to_string(playerId)`. */
  function Caller(playerId: int): (s: string)
    ensures |s| >= 2 && s[0] == 'P'
    ensures s[1] == '-' <==> playerId < 0
    ensures forall k :: 2 <= k < |s| ==> IsDigit(s[k])
  {
    "P" + IntToString(playerId)
  }

  lemma CallerInjective(a: int, b: int)
    requires Caller(a) == Caller(b)
    ensures a == b
  {
    assert Caller(a)[1..] == IntToString(a);
    assert Caller(b)[1..] == IntToString(b);
    IntToStringInjective(a, b);
  }

  /** `GameLogic::applyMove(playerId, cnt)` as one atomic step. */
  function ApplyMove(s: Snapshot, playerId: int, cnt: int): (r: Snapshot)
    ensures r.currentNum >= s.currentNum
    ensures s.gameover ==> r == s
    ensures playerId != s.currentTurn ==> r == s
    ensures r.currentCnt == s.currentCnt
    ensures !s.gameover && playerId == s.currentTurn ==>
      && r.currentNum == s.currentNum + Added(cnt)
      && (r.currentNum >= MaxNum ==>
            r.gameover && r.lastCaller == Caller(playerId) && r.currentTurn == s.currentTurn)
      && (r.currentNum < MaxNum ==>
            !r.gameover && r.lastCaller == s.lastCaller && r.currentTurn == Flip(s.currentTurn))
  {
    if s.gameover then s
    else if playerId != s.currentTurn then s
    else
      var raised := s.(currentNum := s.currentNum + Added(cnt));
      if raised.currentNum >= MaxNum then raised.(gameover := true, lastCaller := Caller(playerId))
      else raised.(currentTurn := Flip(raised.currentTurn))
  }

  /** The moves applied one after another, first move first. */
  function Play(s: Snapshot, moves: seq<Move>): (r: Snapshot)
    ensures r.currentCnt == s.currentCnt
    decreases |moves|
  {
    if moves == [] then s else Play(ApplyMove(s, moves[0].player, moves[0].count), moves[1..])
  }

  /** Every state the game can be in when it starts from `Initial(1)` and only
      `applyMove` writes: the turn is P1 or P2, the game is over exactly when
      the count reached the limit, and then the loser is named and still holds
      the turn (a terminal move does not switch it). */
  predicate Reachable(s: Snapshot)
  {
    && (s.currentTurn == 1 || s.currentTurn == 2)
    && s.currentNum >= 0
    && (s.gameover <==> s.currentNum >= MaxNum)
    && (s.gameover ==> s.lastCaller == Caller(s.currentTurn))
  }

  lemma InitialReachable()
    ensures Reachable(Initial(1))
  {
  }

  lemma ApplyMoveReachable(s: Snapshot, playerId: int, cnt: int)
    requires Reachable(s)
    ensures Reachable(ApplyMove(s, playerId, cnt))
  {
  }

  lemma {:induction false} PlayReachable(s: Snapshot, moves: seq<Move>)
    requires Reachable(s)
    ensures Reachable(Play(s, moves))
    decreases |moves|
  {
    if moves != [] {
      ApplyMoveReachable(s, moves[0].player, moves[0].count);
      PlayReachable(ApplyMove(s, moves[0].player, moves[0].count), moves[1..]);
    }
  }

  /** The count never goes down. */
  lemma {:induction false} PlayMonotone(s: Snapshot, moves: seq<Move>)
    ensures Play(s, moves).currentNum >= s.currentNum
    decreases |moves|
  {
    if moves != [] {
      PlayMonotone(ApplyMove(s, moves[0].player, moves[0].count), moves[1..]);
    }
  }

  /** Game over is absorbing: no later move changes any field, so `gameover`
      is never reset and `last_caller` never rewritten. */
  lemma {:induction false} PlayAfterGameOver(s: Snapshot, moves: seq<Move>)
    requires s.gameover
    ensures Play(s, moves) == s
    decreases |moves|
  {
    if moves != [] {
      PlayAfterGameOver(ApplyMove(s, moves[0].player, moves[0].count), moves[1..]);
    }
  }

  /** Moves from anyone but the turn holder, however many, change nothing. */
  lemma {:induction false} PlayWrongTurn(s: Snapshot, moves: seq<Move>)
    requires forall k :: 0 <= k < |moves| ==> moves[k].player != s.currentTurn
    ensures Play(s, moves) == s
    decreases |moves|
  {
    if moves != [] {
      assert moves[0].player != s.currentTurn;
      PlayWrongTurn(s, moves[1..]);
    }
  }

  /** Move `k` is the one that ends the game: before it the game is
      running, it is the turn holder's, it brings the count to the limit, it
      names that player as the loser, and nothing after it changes anything. */
  predicate EndsAt(s: Snapshot, moves: seq<Move>, k: int)
  {
    && 0 <= k < |moves|
    && !Play(s, moves[..k]).gameover
    && moves[k].player == Play(s, moves[..k]).currentTurn
    && Play(s, moves[..k + 1]).gameover
    && Play(s, moves[..k + 1]).currentNum >= MaxNum
    && Play(s, moves) == Play(s, moves[..k + 1])
    && Play(s, moves).lastCaller == Caller(moves[k].player)
  }

  /** A game that was running and is over after the moves ended at one of them. */
  lemma {:induction false} EndingMove(s: Snapshot, moves: seq<Move>)
    requires !s.gameover && Play(s, moves).gameover
    ensures exists k :: EndsAt(s, moves, k)
    decreases |moves|
  {
    assert moves != [];
    var m := moves[0];
    var t := ApplyMove(s, m.player, m.count);
    assert Play(s, moves) == Play(t, moves[1..]);
    assert moves[..1] == [m];
    assert Play(s, moves[..1]) == Play(t, []);
    assert moves[..0] == [];
    if t.gameover {
      PlayAfterGameOver(t, moves[1..]);
      assert EndsAt(s, moves, 0);
    } else {
      EndingMove(t, moves[1..]);
      var j :| EndsAt(t, moves[1..], j);
      assert moves[..j + 1][1..] == moves[1..][..j];
      assert moves[..j + 2][1..] == moves[1..][..j + 1];
      assert Play(s, moves[..j + 1]) == Play(t, moves[1..][..j]);
      assert Play(s, moves[..j + 2]) == Play(t, moves[1..][..j + 1]);
      assert moves[j + 1] == moves[1..][j];
      assert EndsAt(s, moves, j + 1);
    }
  }
}
