/** The FIFO-only server: it sets the segment up with P1 to move and lets a
    receive loop decode and apply every message until the game is over. */
module PipeServer {
  import opened Rules
  import opened Server

  /** Delivering two runs of reads one after the other is delivering their
      concatenation. */
  lemma {:induction false} DeliverAllAppend(s: Snapshot, a: seq<string>, b: seq<string>)
    ensures DeliverAll(s, a + b) == DeliverAll(DeliverAll(s, a), b)
    decreases |a|
  {
    if a != [] {
      assert (a + b)[1..] == a[1..] + b;
      DeliverAllAppend(Deliver(s, a[0]), a[1..], b);
    } else {
      assert a + b == b;
    }
  }

  /** Delivering the first `k + 1` reads is delivering read `k` after the first `k`. */
  lemma DeliverAllSnoc(s: Snapshot, chunks: seq<string>, k: nat)
    requires k < |chunks|
    ensures DeliverAll(s, chunks[..k + 1]) == Deliver(DeliverAll(s, chunks[..k]), chunks[k])
  {
    DeliverAllAppend(s, chunks[..k], [chunks[k]]);
    assert chunks[..k + 1] == chunks[..k] + [chunks[k]];
  }

  /** Once the game is over after a prefix of the reads, the reads after it
      change nothing. */
  lemma DeliverAllRest(s: Snapshot, chunks: seq<string>, k: nat)
    requires k <= |chunks|
    requires k < |chunks| ==> DeliverAll(s, chunks[..k]).gameover
    ensures DeliverAll(s, chunks) == DeliverAll(s, chunks[..k])
  {
    assert chunks == chunks[..k] + chunks[k..];
    DeliverAllAppend(s, chunks[..k], chunks[k..]);
    if k < |chunks| {
      DeliverAllAfterGameOver(DeliverAll(s, chunks[..k]), chunks[k..]);
    } else {
      assert chunks[k..] == [];
    }
  }

  /** The segment as `main` leaves it before the receiver starts: every field
      zero and P1 to move, a state of the game. */
  method Setup() returns (shared: SharedData)
    ensures fresh(shared)
    ensures shared.Snap() == Initial(1) && Reachable(shared.Snap())
  {
    shared := new SharedData.Create(1);
    InitialReachable();
  }

  /** `PipeReceiver` of the FIFO-only server. */
  class PipeReceiver {
    const logic: GameLogic

    constructor (gl: GameLogic)
      ensures logic == gl
    {
      logic := gl;
    }

    /** One read of the receive loop: a read with bytes is decoded and
        applied, an empty one changes nothing. */
    method Receive(buf: string)
      modifies logic.state.data
      ensures logic.state.data.Snap() == Deliver(old(logic.state.data.Snap()), buf)
    {
      if |buf| > 0 {
        var f := MoveCodec.Decode(buf);
        var pid := MoveCodec.Assign(0, f.first);
        var cnt := MoveCodec.Assign(0, f.second);
        logic.ApplyMove(pid, cnt);
      }
    }

    /** The receive loop over the reads it would perform until `stop()`.
        It looks at `gameover` before every read and leaves as soon as it is
        set, so it consumes a prefix of the reads; the reads it leaves
        unconsumed would not have changed anything either. */
    method Start(chunks: seq<string>) returns (consumed: nat)
      modifies logic.state.data
      ensures consumed <= |chunks|
      ensures logic.state.data.Snap() == DeliverAll(old(logic.state.data.Snap()), chunks[..consumed])
      ensures consumed < |chunks| ==> logic.state.data.gameover
      ensures 0 < consumed ==> !DeliverAll(old(logic.state.data.Snap()), chunks[..consumed - 1]).gameover
      ensures logic.state.data.Snap() == DeliverAll(old(logic.state.data.Snap()), chunks)
    {
      ghost var s0 := logic.state.data.Snap();
      consumed := 0;
      var over := logic.state.IsGameOver();
      while consumed < |chunks| && !over
        invariant consumed <= |chunks|
        invariant over == logic.state.data.gameover
        invariant logic.state.data.Snap() == DeliverAll(s0, chunks[..consumed])
        invariant 0 < consumed ==> !DeliverAll(s0, chunks[..consumed - 1]).gameover
      {
        var buf := chunks[consumed];
        Receive(buf);
        DeliverAllSnoc(s0, chunks, consumed);
        consumed := consumed + 1;
        over := logic.state.IsGameOver();
      }
      DeliverAllRest(s0, chunks, consumed);
    }
  }

  /** From the set-up segment, whatever the FIFO delivers, the game stays in
      a reachable state. */
  lemma ServeReachable(chunks: seq<string>)
    ensures Reachable(DeliverAll(Initial(1), chunks))
  {
    InitialReachable();
    DeliverAllReachable(Initial(1), chunks);
  }
}
