/** The FIFO clients: each walks its move table two entries at a time and,
    on its turn, writes `"<id> <count>"` to the server's FIFO, where the count
    is 2, or 1 for a last odd entry. Client 01 is player 1 with a 16-entry
    table, client 02 is player 2 with a 15-entry table; only the table's size
    matters. */
module PipeClient {
  import opened MoveCodec
  import opened Rules
  import opened Server

  /** The tables of `main`. */
  function Table01(): (t: seq<int>)
    ensures |t| == 16
  {
    [1, 2, 5, 6, 9, 10, 13, 14, 17, 18, 21, 22, 25, 26, 29, 30]
  }

  function Table02(): (t: seq<int>)
    ensures |t| == 15
  {
    [3, 4, 7, 8, 11, 12, 15, 16, 19, 20, 23, 24, 27, 28, 31]
  }

  /** The count sent for table position `i`: `remaining >= 2 ? 2 : 1`. */
  function Count(moveCnt: int, i: int): (c: int)
    ensures c == 1 || c == 2
    ensures i < moveCnt ==> c == if moveCnt - i < 2 then moveCnt - i else 2
  {
    if moveCnt - i >= 2 then 2 else 1
  }

  /** The counts of positions `i`, `i + 2`, .. below `moveCnt`, in order. */
  function Chunks(moveCnt: int, i: int): (c: seq<int>)
    ensures forall k :: 0 <= k < |c| ==> c[k] == 1 || c[k] == 2
    decreases moveCnt - i
  {
    if i >= moveCnt then [] else [Count(moveCnt, i)] + Chunks(moveCnt, i + 2)
  }

  function Sum(s: seq<int>): int
  {
    if s == [] then 0 else s[0] + Sum(s[1..])
  }

  /** The counts from position `i` add up to the rest of the table. */
  lemma {:induction false} ChunksSum(moveCnt: int, i: int)
    requires i <= moveCnt
    ensures Sum(Chunks(moveCnt, i)) == moveCnt - i
    decreases moveCnt - i
  {
    if i < moveCnt {
      if i + 2 <= moveCnt {
        ChunksSum(moveCnt, i + 2);
      } else {
        assert Chunks(moveCnt, i + 2) == [];
      }
    }
  }

  /** Entry `k` of the schedule is the count of position `i + 2k`: 2 while two
      or more entries remain, else 1. */
  lemma {:induction false} ChunksEntries(moveCnt: int, i: int)
    ensures var c := Chunks(moveCnt, i);
      && (i < moveCnt ==> |c| == (moveCnt - i + 1) / 2)
      && forall k :: 0 <= k < |c| ==> c[k] == Count(moveCnt, i + 2 * k) && i + 2 * k < moveCnt
    decreases moveCnt - i
  {
    if i < moveCnt {
      ChunksEntries(moveCnt, i + 2);
      var c := Chunks(moveCnt, i);
      var r := Chunks(moveCnt, i + 2);
      assert c == [Count(moveCnt, i)] + r;
      forall k | 0 <= k < |c|
        ensures c[k] == Count(moveCnt, i + 2 * k) && i + 2 * k < moveCnt
      {
        if k > 0 {
          assert c[k] == r[k - 1];
          assert i + 2 + 2 * (k - 1) == i + 2 * k;
        }
      }
    }
  }

  /** Client 01 sends eight 2s, client 02 seven 2s and a final 1. */
  lemma TableSchedules()
    ensures Chunks(|Table01()|, 0) == [2, 2, 2, 2, 2, 2, 2, 2]
    ensures Chunks(|Table02()|, 0) == [2, 2, 2, 2, 2, 2, 2, 1]
    ensures Sum(Chunks(|Table01()|, 0)) == 16 && Sum(Chunks(|Table02()|, 0)) == 15
  {
    ChunksSum(16, 0);
    ChunksSum(15, 0);
  }

  /** What one `open` of the FIFO gives: refused, or opened, after which the
      `write` succeeds or not. */
  datatype OpenResult = Refused | Opened(writeOk: bool)

  /** The outcome of attempt `j` of one move; past the outcomes on hand the
      FIFO is taken to refuse. */
  function OpenAt(link: seq<OpenResult>, j: nat): OpenResult
  {
    if j < |link| then link[j] else Refused
  }

  /** How many attempts the retry loop makes from attempt `attempt` on. */
  function Attempts(link: seq<OpenResult>, attempt: nat): (n: nat)
    requires attempt <= 5
    ensures attempt <= n <= 5 && (attempt < 5 ==> attempt < n)
    decreases 5 - attempt
  {
    if attempt == 5 then 5
    else if OpenAt(link, attempt).Opened? then attempt + 1
    else Attempts(link, attempt + 1)
  }

  /** Whether the message gets into the FIFO from attempt `attempt` on: the
      first attempt that opens decides, by its write. */
  function Delivers(link: seq<OpenResult>, attempt: nat): (b: bool)
    requires attempt <= 5
    ensures b ==> exists j :: attempt <= j < 5 && OpenAt(link, j) == Opened(true)
    decreases 5 - attempt
  {
    if attempt == 5 then false
    else match OpenAt(link, attempt)
      case Opened(ok) => ok
      case Refused => Delivers(link, attempt + 1)
  }

  /** The retry loop makes at most 5 attempts and stops with the first that
      opens: every attempt before its last was refused, its last opened
      unless all 5 were refused, and the message is delivered exactly when
      that last attempt opened and its write succeeded. */
  lemma {:induction false} AttemptsStopAtFirstOpen(link: seq<OpenResult>, attempt: nat)
    requires attempt <= 5
    ensures var n := Attempts(link, attempt);
      && (forall j :: attempt <= j < n - 1 ==> OpenAt(link, j) == Refused)
      && (n == 5 || OpenAt(link, n - 1).Opened?)
      && (Delivers(link, attempt) <==> attempt < n && OpenAt(link, n - 1) == Opened(true))
    decreases 5 - attempt
  {
    if attempt < 5 && !OpenAt(link, attempt).Opened? {
      AttemptsStopAtFirstOpen(link, attempt + 1);
    }
  }

  /** The retry loop for one move. Returns how many attempts it made and the
      bytes that reached the FIFO, none unless an open succeeded and its
      write did; it does not try again after an open, whatever the write did. */
  method Transmit(id: int, cnt: int, link: seq<OpenResult>) returns (used: nat, wrote: seq<string>)
    ensures used == Attempts(link, 0)
    ensures wrote == if Delivers(link, 0) then [Message(id, cnt)] else []
  {
    var written := false;
    var attempt := 0;
    wrote := [];
    while attempt < 5 && !written
      invariant attempt <= 5
      invariant !written ==>
        && Attempts(link, 0) == Attempts(link, attempt)
        && Delivers(link, 0) == Delivers(link, attempt)
        && wrote == []
      invariant written ==> 0 < attempt && Attempts(link, 0) == attempt
      invariant written ==> wrote == if Delivers(link, 0) then [Message(id, cnt)] else []
      decreases 5 - attempt, if written then 0 else 1
    {
      var fd := OpenAt(link, attempt);
      if fd == Refused {
        attempt := attempt + 1;
        continue;
      }
      var buf := Message(id, cnt);
      if fd.writeOk {
        wrote := [buf];
      }
      written := true;
      attempt := attempt + 1;
    }
    used := attempt;
  }

  /** What the client sees of the segment between two sleeps. */
  datatype View = View(turn: int, gameover: bool)

  /** How the wait for the client's turn ends: its turn, with the views still
      to come, the game over, or the views ran out. */
  datatype Await = Turn(rest: seq<View>) | Over | Starved

  /** `while (!gameover && current_turn != id) sleep(1)`. */
  function AwaitOwnTurn(id: int, v: View, views: seq<View>): (w: Await)
    ensures w.Turn? ==> |w.rest| <= |views|
    ensures w.Over? ==> AwaitOver(v, views)
    decreases |views|
  {
    if v.gameover then Over
    else if v.turn == id then Turn(views)
    else if views == [] then Starved
    else AwaitOwnTurn(id, views[0], views[1..])
  }

  /** The turn wait resumes on what is left of the views after the one
      showing the turn. */
  lemma {:induction false} AwaitOwnTurnSuffix(id: int, v: View, views: seq<View>)
    ensures var w := AwaitOwnTurn(id, v, views);
      w.Turn? ==> w.rest == views[|views| - |w.rest|..]
    decreases |views|
  {
    if !v.gameover && v.turn != id && views != [] {
      AwaitOwnTurnSuffix(id, views[0], views[1..]);
      var w := AwaitOwnTurn(id, views[0], views[1..]);
      if w.Turn? {
        assert views[1..][|views| - 1 - |w.rest|..] == views[|views| - |w.rest|..];
      }
    }
  }

  /** `while (!gameover) usleep(..)`: true when a view with `gameover` comes. */
  function AwaitOver(v: View, views: seq<View>): (b: bool)
    ensures b <==> v.gameover || exists k :: 0 <= k < |views| && views[k].gameover
    decreases |views|
  {
    if v.gameover then true
    else if views == [] then false
    else
      assert forall k :: 1 <= k < |views| ==> views[1..][k - 1] == views[k];
      AwaitOver(views[0], views[1..])
  }

  /** Why `main` returned, or that it was still waiting when the views ran out. */
  datatype Ending = Finished | Waiting

  /** The counts `main` handed to the retry loop, the counts whose message
      reached the FIFO, and how it ended. */
  datatype Outcome = Outcome(counts: seq<int>, delivered: seq<int>, ending: Ending)

  /** `fifo` holds, in order, the message of the client for each count. */
  predicate Carries(fifo: seq<string>, id: int, counts: seq<int>)
  {
    |fifo| == |counts| && forall j :: 0 <= j < |fifo| ==> fifo[j] == Message(id, counts[j])
  }

  lemma CarriesAppend(f: seq<string>, g: seq<string>, id: int, a: seq<int>, b: seq<int>)
    requires Carries(f, id, a) && Carries(g, id, b)
    ensures Carries(f + g, id, a + b)
  {
    forall j | 0 <= j < |f + g|
      ensures (f + g)[j] == Message(id, (a + b)[j])
    {
      if j >= |f| {
        assert (f + g)[j] == g[j - |f|] && (a + b)[j] == b[j - |f|];
      }
    }
  }

  lemma ConcatAssoc(a: seq<int>, b: seq<int>, c: seq<int>)
    ensures a + (b + c) == (a + b) + c
  {
  }

  /** The open outcomes of the next move, and of the moves after it. */
  function Head(links: seq<seq<OpenResult>>): seq<OpenResult>
  {
    if links == [] then [] else links[0]
  }

  function Tail(links: seq<seq<OpenResult>>): seq<seq<OpenResult>>
  {
    if links == [] then [] else links[1..]
  }

  /** The `for` loop of `main` from position `i`, first looking at view `v`;
      `links` holds the open outcomes of each move in turn. */
  function Rounds(id: int, moveCnt: int, i: int, v: View, views: seq<View>, links: seq<seq<OpenResult>>): (o: Outcome)
    ensures |o.counts| <= |views| + 1
    decreases |views|
  {
    if i >= moveCnt || v.gameover then
      Outcome([], [], if AwaitOver(v, views) then Finished else Waiting)
    else match AwaitOwnTurn(id, v, views)
      case Starved => Outcome([], [], Waiting)
      case Over => Outcome([], [], Finished)
      case Turn(rest) =>
        var cnt := Count(moveCnt, i);
        var msg := if Delivers(Head(links), 0) then [cnt] else [];
        if rest == [] then Outcome([cnt], msg, Waiting)
        else
          var o := Rounds(id, moveCnt, i + 2, rest[0], rest[1..], Tail(links));
          Outcome([cnt] + o.counts, msg + o.delivered, o.ending)
  }

  /** The counts sent are the schedule of the table from position `i`, in
      order, cut short only when the game ends or the views run out. */
  lemma {:induction false} RoundsFollowSchedule(id: int, moveCnt: int, i: int, v: View, views: seq<View>, links: seq<seq<OpenResult>>)
    ensures var o := Rounds(id, moveCnt, i, v, views, links);
      |o.counts| <= |Chunks(moveCnt, i)| && o.counts == Chunks(moveCnt, i)[..|o.counts|]
    decreases |views|
  {
    if i < moveCnt && !v.gameover {
      match AwaitOwnTurn(id, v, views)
      case Starved =>
      case Over =>
      case Turn(rest) =>
        var cnt := Count(moveCnt, i);
        var sched := Chunks(moveCnt, i);
        assert sched == [cnt] + Chunks(moveCnt, i + 2);
        if rest == [] {
          assert sched[..1] == [cnt];
        } else {
          RoundsFollowSchedule(id, moveCnt, i + 2, rest[0], rest[1..], Tail(links));
          var o := Rounds(id, moveCnt, i + 2, rest[0], rest[1..], Tail(links));
          assert sched[..1 + |o.counts|] == [cnt] + Chunks(moveCnt, i + 2)[..|o.counts|];
        }
    }
  }

  /** Every message that reaches the FIFO carries a count of 1 or 2, and at
      most one goes out per count handed to the retry loop. */
  lemma {:induction false} RoundsDelivered(id: int, moveCnt: int, i: int, v: View, views: seq<View>, links: seq<seq<OpenResult>>)
    ensures var o := Rounds(id, moveCnt, i, v, views, links);
      && |o.delivered| <= |o.counts|
      && forall k :: 0 <= k < |o.delivered| ==> o.delivered[k] == 1 || o.delivered[k] == 2
    decreases |views|
  {
    if i < moveCnt && !v.gameover {
      match AwaitOwnTurn(id, v, views)
      case Starved =>
      case Over =>
      case Turn(rest) =>
        var cnt := Count(moveCnt, i);
        if rest != [] {
          RoundsDelivered(id, moveCnt, i + 2, rest[0], rest[1..], Tail(links));
          var o := Rounds(id, moveCnt, i + 2, rest[0], rest[1..], Tail(links));
          var msg := if Delivers(Head(links), 0) then [cnt] else [];
          var all := msg + o.delivered;
          forall k | 0 <= k < |all|
            ensures all[k] == 1 || all[k] == 2
          {
            if k < |msg| {
              assert all[k] == cnt;
            } else {
              assert all[k] == o.delivered[k - |msg|];
            }
          }
        }
    }
  }

  /** A client that never sees its own turn in a running game sends nothing. */
  lemma RoundsOffTurn(id: int, moveCnt: int, i: int, v: View, views: seq<View>, links: seq<seq<OpenResult>>)
    requires v.turn != id
    requires forall k :: 0 <= k < |views| ==> views[k].turn != id
    ensures Rounds(id, moveCnt, i, v, views, links).counts == []
  {
    AwaitNeverTurn(id, v, views);
  }

  lemma {:induction false} AwaitNeverTurn(id: int, v: View, views: seq<View>)
    requires v.turn != id
    requires forall k :: 0 <= k < |views| ==> views[k].turn != id
    ensures !AwaitOwnTurn(id, v, views).Turn?
    decreases |views|
  {
    if !v.gameover && views != [] {
      assert views[0].turn != id;
      AwaitNeverTurn(id, views[0], views[1..]);
    }
  }

  /** How many of the views show the client's own turn in a running game. */
  function OwnViews(id: int, vs: seq<View>): (n: nat)
    ensures n <= |vs|
  {
    if vs == [] then 0 else (if vs[0] == View(id, false) then 1 else 0) + OwnViews(id, vs[1..])
  }

  /** The turn wait returns on a view of the client's own turn and goes on
      after it. */
  lemma {:induction false} AwaitOwnTurnUses(id: int, v: View, views: seq<View>)
    ensures var w := AwaitOwnTurn(id, v, views);
      w.Turn? ==> OwnViews(id, [v] + views) >= 1 + OwnViews(id, w.rest)
    decreases |views|
  {
    assert ([v] + views)[1..] == views;
    if !v.gameover && v.turn != id && views != [] {
      AwaitOwnTurnUses(id, views[0], views[1..]);
      assert [views[0]] + views[1..] == views;
    }
  }

  /** The client hands a count to the retry loop only on a view of its own
      turn in a running game, a different one each time, whoever else
      writes the segment. */
  lemma {:induction false} RoundsOnOwnTurns(id: int, moveCnt: int, i: int, v: View, views: seq<View>, links: seq<seq<OpenResult>>)
    ensures |Rounds(id, moveCnt, i, v, views, links).counts| <= OwnViews(id, [v] + views)
    decreases |views|
  {
    if i < moveCnt && !v.gameover {
      AwaitOwnTurnUses(id, v, views);
      match AwaitOwnTurn(id, v, views)
      case Starved =>
      case Over =>
      case Turn(rest) =>
        if rest != [] {
          RoundsOnOwnTurns(id, moveCnt, i + 2, rest[0], rest[1..], Tail(links));
          assert [rest[0]] + rest[1..] == rest;
        }
    }
  }

  /** A client that gets to move whenever it waits hands its whole schedule
      to the retry loop, so the counts add up to the rest of its table. */
  lemma {:induction false} RoundsOwnTurns(id: int, moveCnt: int, i: int, views: seq<View>, links: seq<seq<OpenResult>>)
    requires 0 <= i <= moveCnt
    requires forall k :: 0 <= k < |views| ==> views[k] == View(id, false)
    requires |views| >= (moveCnt - i + 1) / 2
    ensures Rounds(id, moveCnt, i, View(id, false), views, links).counts == Chunks(moveCnt, i)
    ensures Sum(Rounds(id, moveCnt, i, View(id, false), views, links).counts) == moveCnt - i
    decreases |views|
  {
    ChunksSum(moveCnt, i);
    if i < moveCnt {
      assert AwaitOwnTurn(id, View(id, false), views) == Turn(views);
      assert views[0] == View(id, false);
      if i + 2 <= moveCnt {
        RoundsOwnTurns(id, moveCnt, i + 2, views[1..], Tail(links));
      } else {
        assert Chunks(moveCnt, i + 2) == [];
      }
    }
  }

  /** The wait for the client's turn over the views from `k`, the current
      view being `cur`; each `sleep(1)` moves to the next view. */
  method WaitTurn(id: int, cur: View, views: seq<View>, k: nat) returns (now: View, next: nat, starved: bool)
    requires k <= |views|
    ensures k <= next <= |views|
    ensures starved <==> AwaitOwnTurn(id, cur, views[k..]).Starved?
    ensures AwaitOwnTurn(id, cur, views[k..]).Turn? ==>
      !now.gameover && now.turn == id && AwaitOwnTurn(id, cur, views[k..]).rest == views[next..]
    ensures AwaitOwnTurn(id, cur, views[k..]).Over? ==> now.gameover
  {
    now, next, starved := cur, k, false;
    while !now.gameover && now.turn != id
      invariant k <= next <= |views|
      invariant AwaitOwnTurn(id, now, views[next..]) == AwaitOwnTurn(id, cur, views[k..])
      decreases |views| - next
    {
      if next == |views| {
        starved := true;
        return;
      }
      assert views[next..][1..] == views[next + 1..];
      now := views[next];
      next := next + 1;
    }
  }

  /** The closing wait for `gameover`. */
  method WaitOver(cur: View, views: seq<View>, k: nat) returns (finished: bool)
    requires k <= |views|
    ensures finished == AwaitOver(cur, views[k..])
  {
    var now, next := cur, k;
    while !now.gameover
      invariant k <= next <= |views|
      invariant AwaitOver(now, views[next..]) == AwaitOver(cur, views[k..])
      decreases |views| - next
    {
      if next == |views| {
        return false;
      }
      assert views[next..][1..] == views[next + 1..];
      now := views[next];
      next := next + 1;
    }
    return true;
  }

  /** How one pass of the `for` loop ends: on to the next position, out of
      the loop to the closing wait, or with the views used up while waiting. */
  datatype Pass = Continue | Leave | Starve

  /** One pass of the `for` loop of `main` at position `i` in a running game:
      wait for the turn, hand the count to the retry loop, sleep. */
  method Round(id: int, moveCnt: int, i: int, cur: View, views: seq<View>, k: nat, links: seq<seq<OpenResult>>)
      returns (pass: Pass, now: View, next: nat, wrote: seq<string>, ghost msg: seq<int>)
    requires i < moveCnt && !cur.gameover && k <= |views|
    ensures next <= |views| && Carries(wrote, id, msg)
    ensures var r := Rounds(id, moveCnt, i, cur, views[k..], links);
      && (pass == Continue ==>
            var o := Rounds(id, moveCnt, i + 2, now, views[next..], Tail(links));
            r.delivered == msg + o.delivered && r.ending == o.ending)
      && (pass == Leave ==> now.gameover && r.delivered == msg && r.ending == Finished)
      && (pass == Starve ==> r.delivered == msg && r.ending == Waiting)
  {
    ghost var w := AwaitOwnTurn(id, cur, views[k..]);
    var starved;
    now, next, starved := WaitTurn(id, cur, views, k);
    wrote, msg := [], [];
    if starved {
      return Starve, now, next, wrote, msg;
    }
    if now.gameover {
      assert w.Over?;
      return Leave, now, next, wrote, msg;
    }
    assert w == Turn(views[next..]);
    var remaining := moveCnt - i;
    var cnt := if remaining >= 2 then 2 else 1;
    var used;
    used, wrote := Transmit(id, cnt, Head(links));
    msg := if Delivers(Head(links), 0) then [cnt] else [];
    if next == |views| {
      return Starve, now, next, wrote, msg;
    }
    assert views[next..][1..] == views[next + 1..];
    now := views[next];
    next := next + 1;
    pass := Continue;
  }

  /** The `for` loop of `main` over a table of `moveCnt` entries. Unless the
      views ran out inside it, it leaves at view `cur` with the views from `k`
      still to come, and the closing wait decides the ending from there. */
  method ForLoop(id: int, moveCnt: int, v: View, views: seq<View>, links: seq<seq<OpenResult>>)
      returns (fifo: seq<string>, cur: View, k: nat, starved: bool)
    ensures k <= |views|
    ensures Carries(fifo, id, Rounds(id, moveCnt, 0, v, views, links).delivered)
    ensures starved ==> Rounds(id, moveCnt, 0, v, views, links).ending == Waiting
    ensures !starved ==>
      Rounds(id, moveCnt, 0, v, views, links).ending == if AwaitOver(cur, views[k..]) then Finished else Waiting
  {
    cur, k, starved := v, 0, false;
    var rest := links;
    var i := 0;
    fifo := [];
    ghost var sent: seq<int> := [];
    ghost var whole := Rounds(id, moveCnt, 0, v, views, links);
    assert views[k..] == views;
    while i < moveCnt
      invariant k <= |views|
      invariant Carries(fifo, id, sent)
      invariant whole.delivered == sent + Rounds(id, moveCnt, i, cur, views[k..], rest).delivered
      invariant whole.ending == Rounds(id, moveCnt, i, cur, views[k..], rest).ending
      decreases moveCnt - i
    {
      if cur.gameover {
        break;
      }
      var pass, now, next, wrote;
      ghost var msg;
      pass, now, next, wrote, msg := Round(id, moveCnt, i, cur, views, k, rest);
      CarriesAppend(fifo, wrote, id, sent, msg);
      ghost var r := Rounds(id, moveCnt, i, cur, views[k..], rest);
      assert whole.delivered == sent + r.delivered;
      fifo := fifo + wrote;
      if pass == Starve {
        assert r.delivered == msg;
        sent := sent + msg;
        starved := true;
        return;
      }
      if pass == Leave {
        assert r.delivered == msg;
        sent := sent + msg;
        cur, k := now, next;
        break;
      }
      ghost var o := Rounds(id, moveCnt, i + 2, now, views[next..], Tail(rest));
      assert r.delivered == msg + o.delivered;
      ConcatAssoc(sent, msg, o.delivered);
      sent := sent + msg;
      cur, k := now, next;
      rest := Tail(rest);
      i := i + 2;
    }
    assert whole.delivered == sent;
  }

  /** `main` after the segment is attached: the `for` loop over the table,
      then the wait for `gameover`. Returns the bytes it wrote to the FIFO. */
  method Run(id: int, moves: seq<int>, v: View, views: seq<View>, links: seq<seq<OpenResult>>)
      returns (fifo: seq<string>, ending: Ending)
    ensures Carries(fifo, id, Rounds(id, |moves|, 0, v, views, links).delivered)
    ensures ending == Rounds(id, |moves|, 0, v, views, links).ending
  {
    var moveCnt := |moves|;
    var cur, k, starved;
    fifo, cur, k, starved := ForLoop(id, moveCnt, v, views, links);
    if starved {
      return fifo, Waiting;
    }
    var finished := WaitOver(cur, views, k);
    ending := if finished then Finished else Waiting;
  }

  /** The moves of player `id` with the given counts, in order. */
  function MovesOf(id: int, counts: seq<int>): (ms: seq<Move>)
    ensures |ms| == |counts|
    ensures forall j :: 0 <= j < |counts| ==> ms[j] == Move(id, counts[j])
  {
    if counts == [] then [] else [Move(id, counts[0])] + MovesOf(id, counts[1..])
  }

  /** The server's receive loop applies what a client's FIFO carries as
      exactly that client's moves, in order. */
  lemma {:induction false} DeliverCarried(s: Snapshot, fifo: seq<string>, id: int, counts: seq<int>)
    requires Carries(fifo, id, counts)
    ensures DeliverAll(s, fifo) == Play(s, MovesOf(id, counts))
    decreases |fifo|
  {
    if fifo != [] {
      DeliverMessage(s, id, counts[0]);
      assert Carries(fifo[1..], id, counts[1..]);
      DeliverCarried(Rules.ApplyMove(s, id, counts[0]), fifo[1..], id, counts[1..]);
    }
  }
}
