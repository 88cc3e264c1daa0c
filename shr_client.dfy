/** The shared-memory clients: each writes its moves straight into the
    segment, taking the counts in order from a fixed table, and only on its
    own turn. Client 01 is player 1 with the odd numbers 1..31, client 02 is
    player 2 with the even numbers 2..30; otherwise the two are the same code. */
module ShmClient {
  import opened Decimal
  import opened Rules
  import opened Server

  /** The table of client 01: 1, 3, .., 31. */
  function OddTable(): (t: seq<int>)
    ensures |t| == 16
    ensures forall k :: 0 <= k < |t| ==> t[k] == 2 * k + 1
  {
    [1, 3, 5, 7, 9, 11, 13, 15, 17, 19, 21, 23, 25, 27, 29, 31]
  }

  /** The table of client 02: 2, 4, .., 30. */
  function EvenTable(): (t: seq<int>)
    ensures |t| == 15
    ensures forall k :: 0 <= k < |t| ==> t[k] == 2 * k + 2
  {
    [2, 4, 6, 8, 10, 12, 14, 16, 18, 20, 22, 24, 26, 28, 30]
  }

  /** `sendMove(count)`: the count is added as it is, with no turn or
      game-over check of its own. Reaching the limit ends the game with this
      client named and the turn kept; otherwise the turn passes. */
  function Send(s: Snapshot, name: string, count: int): (r: Snapshot)
    ensures r.currentNum == s.currentNum + count
    ensures r.currentCnt == s.currentCnt
    ensures r.currentNum >= MaxNum ==>
      r.gameover && r.lastCaller == name && r.currentTurn == s.currentTurn
    ensures r.currentNum < MaxNum ==>
      r.gameover == s.gameover && r.lastCaller == s.lastCaller && r.currentTurn == Flip(s.currentTurn)
  {
    var raised := s.(currentNum := s.currentNum + count);
    if raised.currentNum >= MaxNum then raised.(gameover := true, lastCaller := name)
    else raised.(currentTurn := Flip(s.currentTurn))
  }

  /** The literal names the two clients write are the server's loser names. */
  lemma CallerNames()
    ensures Caller(1) == "P1" && Caller(2) == "P2"
  {
    assert NatToString(1) == "1";
    assert NatToString(2) == "2";
  }

  /** On its own turn in a running game, a client's write with a
      non-negative count is exactly the server's `applyMove`. */
  lemma SendIsApplyMove(s: Snapshot, id: int, count: int)
    requires !s.gameover && s.currentTurn == id && count >= 0
    ensures Send(s, Caller(id), count) == Rules.ApplyMove(s, id, count)
  {
  }

  /** A negative count is where the two differ: the client lowers the count,
      the server refuses to. */
  lemma SendNegative(s: Snapshot, id: int, count: int)
    requires !s.gameover && s.currentTurn == id && count < 0
    ensures Send(s, Caller(id), count).currentNum < Rules.ApplyMove(s, id, count).currentNum
  {
  }

  /** What happens to the segment during one `sleep(1)`: nobody writes it, or
      another process leaves it as given. */
  datatype Outside = Quiet | Written(snapshot: Snapshot)

  function After(s: Snapshot, o: Outside): Snapshot
  {
    match o
    case Quiet => s
    case Written(t) => t
  }

  /** Why `play` returned. */
  datatype Ending =
    | Ended       // `gameover` seen at the top of the loop
    | Exhausted   // on its turn with the table used up
    | Called      // its own move reached the limit
    | Sleeping    // the outside ran out during a sleep

  /** The segment, the table index and the ending after `play`, and the
      counts it sent, in order. */
  datatype Outcome = Outcome(state: Snapshot, index: int, ending: Ending, sent: seq<int>)

  /** The `play` loop from segment `s` and table index `idx`. */
  function Session(s: Snapshot, id: int, name: string, table: seq<int>, idx: nat, outside: seq<Outside>): (r: Outcome)
    ensures r.index >= idx && |r.sent| <= |outside| + 1
    decreases |outside|
  {
    if s.gameover then Outcome(s, idx, Ended, [])
    else if s.currentTurn != id then
      if outside == [] then Outcome(s, idx, Sleeping, [])
      else Session(After(s, outside[0]), id, name, table, idx, outside[1..])
    else if idx >= |table| then Outcome(s, idx, Exhausted, [])
    else
      var r := Send(s, name, table[idx]);
      if r.currentNum >= MaxNum then Outcome(r, idx + 1, Called, [table[idx]])
      else if outside == [] then Outcome(r, idx + 1, Sleeping, [table[idx]])
      else
        var rest := Session(After(r, outside[0]), id, name, table, idx + 1, outside[1..]);
        Outcome(rest.state, rest.index, rest.ending, [table[idx]] + rest.sent)
  }

  /** The counts `play` sends are the next entries of its table, in order,
      one per step of the index, and the index never passes the table's end. */
  lemma {:induction false} PlaySendsTable(s: Snapshot, id: int, name: string, table: seq<int>, idx: nat, outside: seq<Outside>)
    requires idx <= |table|
    ensures var p := Session(s, id, name, table, idx, outside);
      idx <= p.index <= |table| && p.sent == table[idx..p.index]
    decreases |outside|
  {
    if !s.gameover {
      if s.currentTurn != id {
        if outside != [] {
          PlaySendsTable(After(s, outside[0]), id, name, table, idx, outside[1..]);
        }
      } else if idx < |table| {
        var r := Send(s, name, table[idx]);
        if r.currentNum < MaxNum && outside != [] {
          PlaySendsTable(After(r, outside[0]), id, name, table, idx + 1, outside[1..]);
          var rest := Session(After(r, outside[0]), id, name, table, idx + 1, outside[1..]);
          assert table[idx..rest.index] == [table[idx]] + table[idx + 1..rest.index];
        } else {
          assert table[idx..idx + 1] == [table[idx]];
        }
      } else {
        assert table[idx..idx] == [];
      }
    } else {
      assert table[idx..idx] == [];
    }
  }

  /** How each ending leaves things: a game seen over, a table used up on this
      client's turn, or this client's own move at the limit, named as the
      loser and still holding the turn. */
  lemma {:induction false} PlayEndings(s: Snapshot, id: int, name: string, table: seq<int>, idx: nat, outside: seq<Outside>)
    requires idx <= |table|
    ensures var p := Session(s, id, name, table, idx, outside);
      && (p.ending == Ended ==> p.state.gameover)
      && (p.ending == Exhausted ==> p.index == |table| && p.state.currentTurn == id && !p.state.gameover)
      && (p.ending == Called ==>
            p.state.gameover && p.state.lastCaller == name && p.state.currentTurn == id
            && p.state.currentNum >= MaxNum && |p.sent| > 0)
      && (p.ending == Sleeping ==> !p.state.gameover)
    decreases |outside|
  {
    if !s.gameover {
      if s.currentTurn != id {
        if outside != [] {
          PlayEndings(After(s, outside[0]), id, name, table, idx, outside[1..]);
        }
      } else if idx < |table| {
        var r := Send(s, name, table[idx]);
        if r.currentNum < MaxNum && outside != [] {
          PlayEndings(After(r, outside[0]), id, name, table, idx + 1, outside[1..]);
        }
      }
    }
  }

  /** With nobody else writing, a client whose turn it is sends once, passes
      the turn and then waits for ever: it never sends twice in a row. */
  lemma {:induction false} PlayAloneSendsOnce(s: Snapshot, id: int, name: string, table: seq<int>, idx: nat, outside: seq<Outside>)
    requires forall k :: 0 <= k < |outside| ==> outside[k] == Quiet
    requires id == 1 || id == 2
    ensures |Session(s, id, name, table, idx, outside).sent| <= 1
    decreases |outside|
  {
    if !s.gameover {
      if s.currentTurn != id {
        if outside != [] {
          assert outside[0] == Quiet;
          PlayAloneSendsOnce(s, id, name, table, idx, outside[1..]);
        }
      } else if idx < |table| {
        var r := Send(s, name, table[idx]);
        if r.currentNum < MaxNum && outside != [] {
          assert outside[0] == Quiet;
          assert r.currentTurn != id;
          PlayAloneIdle(r, id, name, table, idx + 1, outside[1..]);
        }
      }
    }
  }

  /** Off its turn and with nobody else writing, a client never sends. */
  lemma {:induction false} PlayAloneIdle(s: Snapshot, id: int, name: string, table: seq<int>, idx: nat, outside: seq<Outside>)
    requires forall k :: 0 <= k < |outside| ==> outside[k] == Quiet
    requires s.currentTurn != id
    ensures Session(s, id, name, table, idx, outside).sent == []
    ensures Session(s, id, name, table, idx, outside).state == s
    decreases |outside|
  {
    if !s.gameover && outside != [] {
      assert outside[0] == Quiet;
      PlayAloneIdle(s, id, name, table, idx, outside[1..]);
    }
  }

  /** The client holds the turn in a running game. */
  predicate OnTurn(s: Snapshot, id: int)
  {
    !s.gameover && s.currentTurn == id
  }

  /** How many of the outside writes hand the client the turn in a running game. */
  function OwnTurns(id: int, outside: seq<Outside>): (n: nat)
    ensures n <= |outside|
  {
    if outside == [] then 0
    else (if outside[0].Written? && OnTurn(outside[0].snapshot, id) then 1 else 0) + OwnTurns(id, outside[1..])
  }

  /** `play` sends only on its own turn in a running game: at most once from
      the segment it starts on, and once more for each outside write that
      hands it the turn, since its own move passes the turn on. */
  lemma {:induction false} PlaySendsOnOwnTurns(s: Snapshot, id: int, name: string, table: seq<int>, idx: nat, outside: seq<Outside>)
    requires id == 1 || id == 2
    ensures |Session(s, id, name, table, idx, outside).sent| <= (if OnTurn(s, id) then 1 else 0) + OwnTurns(id, outside)
    decreases |outside|
  {
    if !s.gameover {
      if s.currentTurn != id {
        if outside != [] {
          PlaySendsOnOwnTurns(After(s, outside[0]), id, name, table, idx, outside[1..]);
        }
      } else if idx < |table| {
        var r := Send(s, name, table[idx]);
        if r.currentNum < MaxNum && outside != [] {
          assert !OnTurn(r, id);
          PlaySendsOnOwnTurns(After(r, outside[0]), id, name, table, idx + 1, outside[1..]);
        }
      }
    }
  }

  lemma {:induction false} NoOwnTurns(id: int, outside: seq<Outside>)
    requires forall k :: 0 <= k < |outside| ==> !(outside[k].Written? && OnTurn(outside[k].snapshot, id))
    ensures OwnTurns(id, outside) == 0
    decreases |outside|
  {
    if outside != [] {
      assert !(outside[0].Written? && OnTurn(outside[0].snapshot, id));
      NoOwnTurns(id, outside[1..]);
    }
  }

  /** A client that does not start on its turn and is never handed it by
      another process's write sends nothing, whatever else is written. */
  lemma NeverHandedTurn(s: Snapshot, id: int, name: string, table: seq<int>, idx: nat, outside: seq<Outside>)
    requires id == 1 || id == 2
    requires !OnTurn(s, id)
    requires forall k :: 0 <= k < |outside| ==> !(outside[k].Written? && OnTurn(outside[k].snapshot, id))
    ensures Session(s, id, name, table, idx, outside).sent == []
  {
    NoOwnTurns(id, outside);
    PlaySendsOnOwnTurns(s, id, name, table, idx, outside);
  }

  /** The two tables played against each other from P1's turn: client 01
      says 1, client 02 says 2, and so on. */
  function Alternating(): (moves: seq<Move>)
    ensures |moves| == 8
  {
    [Move(1, OddTable()[0]), Move(2, EvenTable()[0]), Move(1, OddTable()[1]), Move(2, EvenTable()[1]),
     Move(1, OddTable()[2]), Move(2, EvenTable()[2]), Move(1, OddTable()[3]), Move(2, EvenTable()[3])]
  }

  /** Taking turns strictly, the running total is 1, 3, 6, 10, 15, 21, 28, 36:
      client 02's fourth entry overshoots to 36 and client 02 loses. */
  lemma AlternatingGame()
    ensures var end := Rules.Play(Initial(1), Alternating());
      end.gameover && end.currentNum == 36 && end.lastCaller == "P2"
  {
    CallerNames();
    var m := Alternating();
    assert m == [Move(1, 1), Move(2, 2), Move(1, 3), Move(2, 4), Move(1, 5), Move(2, 6), Move(1, 7), Move(2, 8)];
    assert m[0..] == m;
    PlayFrom(Running(0, 1), m, 0);
    PlayFrom(Running(1, 2), m, 1);
    PlayFrom(Running(3, 1), m, 2);
    PlayFrom(Running(6, 2), m, 3);
    PlayFrom(Running(10, 1), m, 4);
    PlayFrom(Running(15, 2), m, 5);
    PlayFrom(Running(21, 1), m, 6);
    PlayFrom(Running(28, 2), m, 7);
    assert m[8..] == [];
  }

  lemma PlayFrom(s: Snapshot, m: seq<Move>, k: nat)
    requires k < |m|
    ensures Play(s, m[k..]) == Play(ApplyMove(s, m[k].player, m[k].count), m[k + 1..])
  {
    assert m[k..][1..] == m[k + 1..];
  }

  /** A running game at `total` with `turn` to move and nothing else set. */
  function Running(total: int, turn: int): Snapshot
  {
    Snapshot(total, turn, 0, "", false)
  }

  /** `ShrClient01` / `ShrClient02`. */
  class ShrClient {
    const data: SharedData
    const playerId: int
    const name: string
    const moveSequence: seq<int>
    var sequenceIndex: nat

    /** Client 01: player 1, the odd table. */
    constructor Client01(shared: SharedData)
      ensures data == shared && playerId == 1 && name == Caller(1)
      ensures moveSequence == OddTable() && sequenceIndex == 0
    {
      CallerNames();
      data, playerId, name := shared, 1, "P1";
      moveSequence, sequenceIndex := [1, 3, 5, 7, 9, 11, 13, 15, 17, 19, 21, 23, 25, 27, 29, 31], 0;
    }

    /** Client 02: player 2, the even table. */
    constructor Client02(shared: SharedData)
      ensures data == shared && playerId == 2 && name == Caller(2)
      ensures moveSequence == EvenTable() && sequenceIndex == 0
    {
      CallerNames();
      data, playerId, name := shared, 2, "P2";
      moveSequence, sequenceIndex := [2, 4, 6, 8, 10, 12, 14, 16, 18, 20, 22, 24, 26, 28, 30], 0;
    }

    /** Returns true when the game goes on. */
    method SendMove(count: int) returns (goesOn: bool)
      modifies data
      ensures data.Snap() == Send(old(data.Snap()), name, count)
      ensures goesOn <==> data.currentNum < MaxNum
    {
      data.currentNum := data.currentNum + count;
      if data.currentNum >= MaxNum {
        data.gameover := true;
        data.lastCaller := name;
        return false;
      }
      data.currentTurn := if data.currentTurn == 1 then 2 else 1;
      return true;
    }

    /** `play`: the start-up `sleep(2)`, during which the outside leaves
        `start`, then the loop, whose sleeps leave `outside` in turn. */
    method Play(start: Outside, outside: seq<Outside>) returns (ending: Ending)
      modifies data, this
      ensures data.Snap() == Session(After(old(data.Snap()), start), playerId, name, moveSequence, old(sequenceIndex), outside).state
      ensures sequenceIndex == Session(After(old(data.Snap()), start), playerId, name, moveSequence, old(sequenceIndex), outside).index
      ensures ending == Session(After(old(data.Snap()), start), playerId, name, moveSequence, old(sequenceIndex), outside).ending
    {
      Wait(start);
      ghost var whole := Session(data.Snap(), playerId, name, moveSequence, sequenceIndex, outside);
      var k := 0;
      ending := Ended;
      while !data.gameover
        invariant k <= |outside| && ending == Ended
        invariant Session(data.Snap(), playerId, name, moveSequence, sequenceIndex, outside[k..]).state == whole.state
        invariant Session(data.Snap(), playerId, name, moveSequence, sequenceIndex, outside[k..]).index == whole.index
        invariant Session(data.Snap(), playerId, name, moveSequence, sequenceIndex, outside[k..]).ending == whole.ending
        decreases |outside| - k
      {
        var currentTurn := data.currentTurn;
        if currentTurn != playerId {
          if k == |outside| {
            ending := Sleeping;
            break;
          }
          assert outside[k..][1..] == outside[k + 1..];
          Wait(outside[k]);
          k := k + 1;
          continue;
        }
        if data.gameover {
          break;
        }
        if sequenceIndex >= |moveSequence| {
          ending := Exhausted;
          break;
        }
        var count := moveSequence[sequenceIndex];
        sequenceIndex := sequenceIndex + 1;
        var goesOn := SendMove(count);
        if !goesOn {
          ending := Called;
          break;
        }
        if k == |outside| {
          ending := Sleeping;
          break;
        }
        assert outside[k..][1..] == outside[k + 1..];
        Wait(outside[k]);
        k := k + 1;
      }
    }

    /** One sleep, during which the outside may rewrite the segment. */
    method Wait(o: Outside)
      modifies data
      ensures data.Snap() == After(old(data.Snap()), o)
    {
      match o
      case Quiet =>
      case Written(t) => data.Store(t);
    }
  }
}
