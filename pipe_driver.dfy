/** The FIFO server whose main thread drives the turns itself: it publishes
    the expected turn in the segment, waits for that player's message
    (skipping everybody else's), applies it, clears the turn and moves on to
    the other player, until the game is over or a signal asks it to stop. */
module PipeDriver {
  import opened Decimal
  import opened MoveCodec
  import opened Rules
  import opened Server

  /** What the waiting driver meets: a `read` of the FIFO that returned these
      bytes (none when nothing was waiting), or SIGINT/SIGTERM raising
      `stop_requested`. */
  datatype Event = Incoming(bytes: string) | Interrupt

  /** An event as the wait loop takes it: a read with bytes, decoded by
      `sscanf`; a read without bytes; or the stop request. */
  datatype Reading = Got(fields: Fields) | Empty | Halt

  function Classify(e: Event): (r: Reading)
    ensures r == Halt <==> e == Interrupt
    ensures r == Empty <==> e == Incoming([])
  {
    match e
    case Interrupt => Halt
    case Incoming(bytes) => if |bytes| > 0 then Got(Decode(bytes)) else Empty
  }

  function Readings(evs: seq<Event>): (rs: seq<Reading>)
    ensures |rs| == |evs|
    decreases |evs|
  {
    if evs == [] then [] else [Classify(evs[0])] + Readings(evs[1..])
  }

  /** `PipeReceiver::readMessage`: true exactly when the read produced bytes,
      and only then are the out-arguments written, each only if `sscanf`
      converts it. A client's message hands back its two numbers. */
  method ReadMessage(bytes: string, playerId: int, cnt: int) returns (ok: bool, pid: int, count: int)
    ensures ok <==> |bytes| > 0
    ensures ok ==> pid == Assign(playerId, Decode(bytes).first) && count == Assign(cnt, Decode(bytes).second)
    ensures !ok ==> pid == playerId && count == cnt
    ensures forall p, c :: bytes == Message(p, c) ==> ok && pid == p && count == c
  {
    pid, count := playerId, cnt;
    ok := |bytes| > 0;
    if ok {
      var f := Decode(bytes);
      pid := Assign(pid, f.first);
      count := Assign(count, f.second);
    }
    forall p, c | bytes == Message(p, c)
      ensures ok && pid == p && count == c
    {
      MessageRoundTrip(p, c);
    }
  }

  /** How the wait for one turn ends. */
  datatype Wait =
    | Accepted(player: int, count: int, rest: seq<Reading>)   // the turn holder's message, and what follows it
    | Stopped                                               // a stop request came first
    | Drained                                               // the events ran out while waiting

  /** The inner wait loop for `turn`: reads until the decoded id is `turn`.
      `playerId` and `cnt` are the loop's variables, which keep what earlier
      reads (skipped ones included) left in them. */
  function AwaitMove(turn: int, playerId: int, cnt: int, rs: seq<Reading>): (w: Wait)
    ensures w.Accepted? ==> w.player == turn && |w.rest| < |rs| && w.rest == rs[|rs| - |w.rest|..]
    decreases |rs|
  {
    if rs == [] then Drained
    else match rs[0]
      case Halt => Stopped
      case Empty => AwaitMove(turn, playerId, cnt, rs[1..])
      case Got(f) =>
        var p := Assign(playerId, f.first);
        var c := Assign(cnt, f.second);
        if p != turn then AwaitMove(turn, p, c, rs[1..]) else Accepted(p, c, rs[1..])
  }

  /** A reading that names `turn` as its sender. */
  predicate NamesTurn(r: Reading, turn: int)
  {
    r.Got? && r.fields.first == Some(turn)
  }

  /** A reading the wait passes over: neither a stop request nor a message
      naming the turn holder. */
  predicate PassesOver(r: Reading, turn: int)
  {
    r != Halt && !NamesTurn(r, turn)
  }

  /** What the wait `w` found in `rs`: it ran dry exactly when every reading
      is passed over, and otherwise stopped, or accepted a message, at the
      first reading that is not. */
  predicate FindsFirst(turn: int, w: Wait, rs: seq<Reading>)
  {
    && (w.Drained? <==> forall j :: 0 <= j < |rs| ==> PassesOver(rs[j], turn))
    && (w.Stopped? ==>
          exists k :: 0 <= k < |rs| && rs[k] == Halt && forall j :: 0 <= j < k ==> PassesOver(rs[j], turn))
    && (w.Accepted? ==>
          var k := |rs| - |w.rest| - 1;
          0 <= k < |rs| && NamesTurn(rs[k], turn) && forall j :: 0 <= j < k ==> PassesOver(rs[j], turn))
  }

  /** The wait ends at the first reading that is a stop request or names the
      turn holder, and runs dry exactly when there is none: a message naming
      the turn holder is never passed over. The carried id starts as no
      player's, so a message whose id does not convert is passed over too. */
  lemma {:induction false} AwaitMoveFirst(turn: int, playerId: int, cnt: int, rs: seq<Reading>)
    requires playerId != turn
    ensures FindsFirst(turn, AwaitMove(turn, playerId, cnt, rs), rs)
    decreases |rs|
  {
    if rs == [] {
    } else if rs[0] == Halt {
      assert AwaitMove(turn, playerId, cnt, rs) == Stopped;
      assert !PassesOver(rs[0], turn);
    } else if rs[0].Got? && Assign(playerId, rs[0].fields.first) == turn {
      assert AwaitMove(turn, playerId, cnt, rs) == Accepted(turn, Assign(cnt, rs[0].fields.second), rs[1..]);
      assert NamesTurn(rs[0], turn) && !PassesOver(rs[0], turn);
    } else {
      var p := if rs[0].Got? then Assign(playerId, rs[0].fields.first) else playerId;
      var c := if rs[0].Got? then Assign(cnt, rs[0].fields.second) else cnt;
      assert AwaitMove(turn, playerId, cnt, rs) == AwaitMove(turn, p, c, rs[1..]);
      AwaitMoveFirst(turn, p, c, rs[1..]);
      AwaitMoveShift(turn, AwaitMove(turn, p, c, rs[1..]), rs);
    }
  }

  /** A reading passed over in front of the rest keeps what the rest's wait
      found the first of. */
  lemma AwaitMoveShift(turn: int, w: Wait, rs: seq<Reading>)
    requires rs != [] && PassesOver(rs[0], turn)
    requires FindsFirst(turn, w, rs[1..])
    ensures FindsFirst(turn, w, rs)
  {
    var t := rs[1..];
    assert forall j :: 1 <= j < |rs| ==> rs[j] == t[j - 1];
    if w.Stopped? {
      var k :| 0 <= k < |t| && t[k] == Halt && forall j :: 0 <= j < k ==> PassesOver(t[j], turn);
      assert rs[k + 1] == Halt;
    }
    if !w.Drained? {
      var j :| 0 <= j < |t| && !PassesOver(t[j], turn);
      assert !PassesOver(rs[j + 1], turn);
    }
  }

  /** Why the driver's loop ended. */
  datatype Ending =
    | Lost      // a move ended the game
    | Aborted   // a stop request; `gameover` set with no loser named
    | Reached   // the tracked number was already at the limit
    | Idle      // the events ran out while the driver was still waiting

  /** The segment and the ending the loop leaves, the moves it applied, and
      the segment as each round that did not end the game hands it on to the
      next round. */
  datatype Run = Run(state: Snapshot, ending: Ending, moves: seq<Move>, handed: seq<Snapshot>)

  /** The driver loop from the top of one round: the segment, the expected
      turn and the tracked number. */
  function Drive(s: Snapshot, turn: int, number: int, rs: seq<Reading>): (r: Run)
    ensures r.ending == Reached <==> number >= MaxNum
    ensures r.ending == Lost || r.ending == Aborted ==> r.state.gameover
    decreases |rs|
  {
    if number >= MaxNum then Run(s, Reached, [], [])
    else
      var published := s.(currentTurn := turn);
      match AwaitMove(turn, 0, 0, rs)
      case Drained => Run(published, Idle, [], [])
      case Stopped => Run(published.(gameover := true), Aborted, [], [])
      case Accepted(p, c, rest) =>
        var after := Rules.ApplyMove(published, p, c);
        if after.gameover then Run(after, Lost, [Move(p, c)], [])
        else
          var next := after.(currentTurn := 0);
          var r := Drive(next, Flip(turn), after.currentNum, rest);
          Run(r.state, r.ending, [Move(p, c)] + r.moves, [next] + r.handed)
  }

  /** Between two rounds the driver leaves the game running with the turn
      cleared to 0, so no client holds it until the next prompt; it hands one
      such segment on for every move that did not end the game. */
  predicate ClearsTurn(r: Run)
  {
    && |r.handed| == (if r.ending == Lost then |r.moves| - 1 else |r.moves|)
    && forall k :: 0 <= k < |r.handed| ==> r.handed[k].currentTurn == 0 && !r.handed[k].gameover
  }

  lemma {:induction false} DriveClearsTurn(s: Snapshot, turn: int, number: int, rs: seq<Reading>)
    ensures ClearsTurn(Drive(s, turn, number, rs))
    decreases |rs|
  {
    if number < MaxNum {
      match AwaitMove(turn, 0, 0, rs)
      case Drained =>
      case Stopped =>
      case Accepted(p, c, rest) =>
        var after := Rules.ApplyMove(s.(currentTurn := turn), p, c);
        if !after.gameover {
          var next := after.(currentTurn := 0);
          DriveClearsTurn(next, Flip(turn), after.currentNum, rest);
          var r := Drive(next, Flip(turn), after.currentNum, rest);
          ClearsTurnCons(Move(p, c), next, r);
        }
    }
  }

  lemma ClearsTurnCons(m: Move, next: Snapshot, r: Run)
    requires next.currentTurn == 0 && !next.gameover && ClearsTurn(r)
    ensures ClearsTurn(Run(r.state, r.ending, [m] + r.moves, [next] + r.handed))
  {
    var h := [next] + r.handed;
    assert forall k :: 1 <= k < |h| ==> h[k] == r.handed[k - 1];
  }

  /** The player expected in round `k` when round 0 expects `turn`. */
  function TurnAt(turn: int, k: nat): int
  {
    if k % 2 == 0 then turn else Flip(turn)
  }

  /** Move `k` is the one of the player expected in round `k`. */
  predicate Alternates(moves: seq<Move>, turn: int)
  {
    forall k :: 0 <= k < |moves| ==> moves[k].player == TurnAt(turn, k)
  }

  lemma AlternatesCons(m: Move, moves: seq<Move>, turn: int)
    requires turn == 1 || turn == 2
    requires m.player == turn && Alternates(moves, Flip(turn))
    ensures Alternates([m] + moves, turn)
  {
    var all := [m] + moves;
    forall k | 0 <= k < |all|
      ensures all[k].player == TurnAt(turn, k)
    {
      if k > 0 {
        assert all[k] == moves[k - 1];
        assert TurnAt(Flip(turn), k - 1) == TurnAt(turn, k);
      }
    }
  }

  /** The moves the driver applies alternate between the two players,
      starting with the one it first expects. */
  lemma {:induction false} DriveAlternates(s: Snapshot, turn: int, number: int, rs: seq<Reading>)
    requires turn == 1 || turn == 2
    ensures Alternates(Drive(s, turn, number, rs).moves, turn)
    decreases |rs|
  {
    if number < MaxNum {
      var published := s.(currentTurn := turn);
      match AwaitMove(turn, 0, 0, rs)
      case Drained =>
      case Stopped =>
      case Accepted(p, c, rest) =>
        var after := Rules.ApplyMove(published, p, c);
        if !after.gameover {
          var next := after.(currentTurn := 0);
          DriveAlternates(next, Flip(turn), after.currentNum, rest);
          var r := Drive(next, Flip(turn), after.currentNum, rest);
          assert Drive(s, turn, number, rs).moves == [Move(p, c)] + r.moves;
          AlternatesCons(Move(p, c), r.moves, turn);
        } else {
          assert Drive(s, turn, number, rs).moves == [Move(p, c)];
        }
    }
  }

  /** Sum of what the moves add to the count. */
  function Total(moves: seq<Move>): nat
  {
    if moves == [] then 0 else Added(moves[0].count) + Total(moves[1..])
  }

  /** What a run from the top of a round in a running game leaves behind: the
      number guard never fires on its own, every round applies exactly one
      move and adds exactly its count, and `last_caller` is the ending
      mover's after a loss and untouched otherwise. */
  predicate RunOutcome(s: Snapshot, turn: int, r: Run)
  {
    && r.ending != Reached
    && r.state.currentNum == s.currentNum + Total(r.moves)
    && (r.ending == Lost ==>
          && |r.moves| > 0
          && r.state.gameover
          && r.state.currentNum >= MaxNum
          && r.state.lastCaller == Caller(r.moves[|r.moves| - 1].player)
          && r.state.currentTurn == r.moves[|r.moves| - 1].player)
    && (r.ending != Lost ==> r.state.lastCaller == s.lastCaller && r.state.currentNum < MaxNum)
    && (r.ending == Aborted ==> r.state.gameover)
    && (r.ending == Idle ==> !r.state.gameover && r.state.currentTurn == TurnAt(turn, |r.moves|))
  }

  lemma {:induction false} DriveOutcome(s: Snapshot, turn: int, rs: seq<Reading>)
    requires !s.gameover && 0 <= s.currentNum < MaxNum
    requires turn == 1 || turn == 2
    ensures RunOutcome(s, turn, Drive(s, turn, s.currentNum, rs))
    decreases |rs|
  {
    match AwaitMove(turn, 0, 0, rs)
    case Drained =>
    case Stopped =>
    case Accepted(p, c, rest) =>
      var after := Rules.ApplyMove(s.(currentTurn := turn), p, c);
      if after.gameover {
        LosingRound(s, turn, c);
      } else {
        var next := after.(currentTurn := 0);
        DriveOutcome(next, Flip(turn), rest);
        var r := Drive(next, Flip(turn), after.currentNum, rest);
        OutcomeCons(s, turn, c, r, [next] + r.handed);
      }
  }

  /** The driver from the segment as its `main` zeroes it, turn included,
      with P1 published first: the outcome, the alternation and the cleared
      turns above all hold. */
  lemma DriveFromSetUp(rs: seq<Reading>)
    ensures var r := Drive(Initial(0), 1, 0, rs);
      && RunOutcome(Initial(0), 1, r) && Alternates(r.moves, 1) && ClearsTurn(r)
  {
    DriveOutcome(Initial(0), 1, rs);
    DriveAlternates(Initial(0), 1, 0, rs);
    DriveClearsTurn(Initial(0), 1, 0, rs);
  }

  /** A round whose move ends the game. */
  lemma LosingRound(s: Snapshot, turn: int, c: int)
    requires !s.gameover && 0 <= s.currentNum < MaxNum
    requires Rules.ApplyMove(s.(currentTurn := turn), turn, c).gameover
    ensures RunOutcome(s, turn, Run(Rules.ApplyMove(s.(currentTurn := turn), turn, c), Lost, [Move(turn, c)], []))
  {
    assert Total([Move(turn, c)]) == Added(c);
  }

  /** A round whose move keeps the game going, followed by the run from the
      next round. */
  lemma OutcomeCons(s: Snapshot, turn: int, c: int, r: Run, handed: seq<Snapshot>)
    requires !s.gameover && 0 <= s.currentNum < MaxNum
    requires turn == 1 || turn == 2
    requires !Rules.ApplyMove(s.(currentTurn := turn), turn, c).gameover
    requires RunOutcome(Rules.ApplyMove(s.(currentTurn := turn), turn, c).(currentTurn := 0), Flip(turn), r)
    ensures RunOutcome(s, turn, Run(r.state, r.ending, [Move(turn, c)] + r.moves, handed))
  {
    var moves := [Move(turn, c)] + r.moves;
    assert moves[1..] == r.moves;
    assert Total(moves) == Added(c) + Total(r.moves);
    if r.ending == Lost {
      assert moves[|moves| - 1] == r.moves[|r.moves| - 1];
    }
    if r.ending == Idle {
      assert TurnAt(Flip(turn), |r.moves|) == TurnAt(turn, |moves|);
    }
  }

  /** How the wait for `turn` ends, once the loop has stopped, accepted
      a message, or neither with `playerId`, `cnt` and readings `rs` still
      ahead of it. */
  function Pending(turn: int, stop: bool, accepted: bool, playerId: int, cnt: int, rs: seq<Reading>): Wait
  {
    if stop then Stopped
    else if accepted then Accepted(playerId, cnt, rs)
    else AwaitMove(turn, playerId, cnt, rs)
  }

  /** One pass of the inner wait loop of `main`: the event is a stop request,
      an empty read, or a message that is skipped unless it names `turn`, in
      which case it is applied. `playerId` and `cnt` carry over between
      passes. Stated against the wait function on any readings that follow. */
  method TakeEvent(logic: GameLogic, ev: Event, turn: int, playerId: int, cnt: int, ghost rest: seq<Reading>)
      returns (stop: bool, accepted: bool, p: int, c: int)
    modifies logic.state.data
    ensures !(stop && accepted)
    ensures stop <==> ev == Interrupt
    ensures AwaitMove(turn, playerId, cnt, [Classify(ev)] + rest) == Pending(turn, stop, accepted, p, c, rest)
    ensures !accepted ==> logic.state.data.Snap() == old(logic.state.data.Snap())
    ensures accepted ==> logic.state.data.Snap() == Rules.ApplyMove(old(logic.state.data.Snap()), p, c)
  {
    assert ([Classify(ev)] + rest)[1..] == rest;
    stop, accepted, p, c := false, false, playerId, cnt;
    match ev {
      case Interrupt =>
        stop := true;
      case Incoming(bytes) =>
        var ok;
        ok, p, c := ReadMessage(bytes, playerId, cnt);
        if ok && p == turn {
          logic.ApplyMove(p, c);
          accepted := true;
        }
    }
  }

  lemma ReadingsStep(evs: seq<Event>, i: nat)
    requires i < |evs|
    ensures Readings(evs[i..]) == [Classify(evs[i])] + Readings(evs[i + 1..])
  {
    assert evs[i..][1..] == evs[i + 1..];
  }

  /** The inner wait loop of `main` over the events from `start`: the first
      turn holder's message is applied; a stop request ends the wait with
      nothing applied. */
  method AwaitTurn(logic: GameLogic, evs: seq<Event>, start: nat, turn: int)
      returns (next: nat, stop: bool, accepted: bool)
    requires start <= |evs|
    modifies logic.state.data
    ensures start <= next <= |evs| && !(stop && accepted)
    ensures accepted ==> start < next
    ensures stop ==> AwaitMove(turn, 0, 0, Readings(evs[start..])) == Stopped
    ensures !stop && !accepted ==> AwaitMove(turn, 0, 0, Readings(evs[start..])) == Drained
    ensures !accepted ==> logic.state.data.Snap() == old(logic.state.data.Snap())
    ensures accepted ==>
      match AwaitMove(turn, 0, 0, Readings(evs[start..]))
      case Accepted(p, c, rest) =>
        rest == Readings(evs[next..]) &&
        logic.state.data.Snap() == Rules.ApplyMove(old(logic.state.data.Snap()), p, c)
      case _ => false
  {
    next, stop, accepted := start, false, false;
    var playerId, cnt := 0, 0;
    ghost var whole := AwaitMove(turn, 0, 0, Readings(evs[start..]));
    ghost var rs := Readings(evs[start..]);
    while !stop && !accepted && next < |evs|
      invariant start <= next <= |evs|
      invariant !(stop && accepted)
      invariant rs == Readings(evs[next..])
      invariant !accepted ==> logic.state.data.Snap() == old(logic.state.data.Snap())
      invariant whole == Pending(turn, stop, accepted, playerId, cnt, rs)
      invariant accepted ==> logic.state.data.Snap() == Rules.ApplyMove(old(logic.state.data.Snap()), playerId, cnt)
      decreases |evs| - next
    {
      ReadingsStep(evs, next);
      ghost var rest := Readings(evs[next + 1..]);
      assert rs == [Classify(evs[next])] + rest;
      stop, accepted, playerId, cnt := TakeEvent(logic, evs[next], turn, playerId, cnt, rest);
      next := next + 1;
      rs := rest;
    }
  }

  /** The driver as `main` runs it on the segment, from its first prompt. */
  method Serve(shared: SharedData, evs: seq<Event>) returns (ending: Ending)
    modifies shared
    ensures shared.Snap() == Drive(old(shared.Snap()), 1, 0, Readings(evs)).state
    ensures ending == Drive(old(shared.Snap()), 1, 0, Readings(evs)).ending
  {
    var state := new GameState(shared);
    var logic := new GameLogic(state);
    ghost var whole := Drive(shared.Snap(), 1, 0, Readings(evs));
    var number := 0;
    var stop := false;
    var turn := 1;
    var i := 0;
    ending := Reached;
    assert evs[i..] == evs;
    while number < MaxNum && !stop
      invariant i <= |evs|
      invariant !stop && ending == Reached
      invariant state.data == shared && logic.state == state
      invariant Drive(shared.Snap(), turn, number, Readings(evs[i..])).state == whole.state
      invariant Drive(shared.Snap(), turn, number, Readings(evs[i..])).ending == whole.ending
      decreases |evs| - i
    {
      shared.currentTurn := turn;
      ghost var published := shared.Snap();
      var next, accepted;
      next, stop, accepted := AwaitTurn(logic, evs, i, turn);
      if !accepted && !stop {
        ending := Idle;
        break;
      }
      var over := state.IsGameOver();
      if over || stop {
        ending := if stop then Aborted else Lost;
        break;
      }
      assert next > i;
      i := next;
      shared.currentTurn := 0;
      var nextTurn := if turn == 1 then 2 else 1;
      number := state.GetNumber();
      turn := nextTurn;
    }
    if stop {
      shared.gameover := true;
    }
  }

  /** Because `cnt` outlives a skipped read, a message that names the turn
      holder but carries no count is applied with the count of the message
      skipped before it. */
  lemma AwaitKeepsStaleCount(other: int, c: int)
    requires other != 1
    ensures AwaitMove(1, 0, 0, [Got(Fields(Some(other), Some(c))), Got(Fields(Some(1), None))]) == Accepted(1, c, [])
  {
    var rs := [Got(Fields(Some(other), Some(c))), Got(Fields(Some(1), None))];
    assert rs[1..] == [Got(Fields(Some(1), None))];
    assert rs[1..][1..] == [];
  }

  /** A client's message reads as the two numbers it carries. */
  lemma ClassifyMessage(pid: int, cnt: int)
    ensures Classify(Incoming(Message(pid, cnt))) == Got(Fields(Some(pid), Some(cnt)))
  {
    MessageRoundTrip(pid, cnt);
  }

  /** A message of a bare player id, such as `"1"`, reads as an id with no
      count, so the stale count above is what such a message is applied with. */
  lemma ClassifyBareId()
    ensures Classify(Incoming("1")) == Got(Fields(Some(1), None))
  {
    assert SpaceRun("1") == 0;
    assert "1"[0..] == "1";
    assert DigitRun("1") == 1;
    assert "1"[0..1] == "1";
    assert DigitsValue("1") == 1;
    assert ScanInt("1") == Some(Scan(1, 1));
    assert "1"[1..] == [];
  }
}
