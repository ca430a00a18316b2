/** The time budget that every read and write of a negotiation runs under (src/timeout.rs, src/cert.rs). */
module Deadline {
  import opened Text

  const DEFAULT_LIMIT := 30_000

  /** The armed budget, in milliseconds. */
  datatype Budget = Budget(start: nat, limit: nat) {
    function Deadline(): nat { start + limit }
  }

  /** `leftover`: what is left of a limit, if anything. */
  function Leftover(limit: nat, elapsed: nat): (left: Option<nat>)
    ensures left == None <==> limit <= elapsed
    ensures left.Some? ==> left.value > 0 && elapsed + left.value == limit
  {
    if elapsed < limit then Some(limit - elapsed) else None
  }

  /** What is left runs out at the deadline, or a limit from now if the clock shows less than when it was armed. */
  function Remaining(state: Option<Budget>, now: nat): (left: Option<nat>)
    ensures state == None ==> left == Some(30_000)
    ensures state.Some? && state.value.start <= now ==>
      if now < state.value.Deadline() then left.Some? && now + left.value == state.value.Deadline() else left == None
    ensures state.Some? && now < state.value.start && state.value.limit > 0 ==> left == Some(state.value.limit)
  {
    match state
    case None => Some(DEFAULT_LIMIT)
    case Some(b) => Leftover(b.limit, if b.start <= now then now - b.start else 0)
  }

  /** What the peer does to one operation: how long the program waits before it, how long the peer lets it hang. */
  datatype Peer = Peer(pause: nat, delay: nat)

  /** An operation on the socket, or a wait that is not to be charged to the budget. */
  datatype Action = Io(peer: Peer) | Rearm(wait: nat)

  /** When an operation began and ended, and whether the peer answered it in time; or when the budget was armed again. */
  datatype Trace = Done(begin: nat, end: nat, ok: bool) | Armed(at: nat)

  /** An operation with nothing but a deadline: the peer's answer or the deadline, whichever comes first. */
  function Meets(deadline: nat, now: nat, peer: Peer): Trace {
    var begin := now + peer.pause;
    if deadline <= begin then Done(begin, begin, false)
    else if begin + peer.delay < deadline then Done(begin, begin + peer.delay, true)
    else Done(begin, deadline, false)
  }

  function TimeOf(t: Trace): nat {
    match t
    case Done(_, end, _) => end
    case Armed(at) => at
  }

  /** One deadline after the other. */
  function Run(b: Budget, now: nat, actions: seq<Action>): (traces: seq<Trace>)
    ensures |traces| == |actions|
    decreases actions
  {
    if actions == [] then []
    else
      match actions[0]
      case Io(peer) =>
        var t := Meets(b.Deadline(), now, peer);
        [t] + Run(b, t.end, actions[1..])
      case Rearm(wait) => [Armed(now + wait)] + Run(Budget(now + wait, b.limit), now + wait, actions[1..])
  }

  /** When the budget that holds for the operation with this index was armed. */
  function LastArmed(start: nat, traces: seq<Trace>, i: nat): nat
    requires i <= |traces|
  {
    if i == 0 then start else if traces[i - 1].Armed? then traces[i - 1].at else LastArmed(start, traces, i - 1)
  }

  /** An operation begun within the limit of the last arming is over by then; a later one fails on the spot. */
  predicate InTime(start: nat, limit: nat, traces: seq<Trace>, i: nat)
    requires i < |traces|
  {
    match traces[i]
    case Armed(_) => true
    case Done(begin, end, ok) =>
      var deadline := LastArmed(start, traces, i) + limit;
      if begin < deadline then end <= deadline && (ok ==> end < deadline) else !ok && end == begin
  }

  lemma {:induction false} LastArmedTail(start: nat, traces: seq<Trace>, i: nat)
    requires 0 < i <= |traces|
    ensures LastArmed(start, traces, i)
         == LastArmed(if traces[0].Armed? then traces[0].at else start, traces[1..], i - 1)
  {
    if i > 1 && !traces[i - 1].Armed? {
      LastArmedTail(start, traces, i - 1);
    }
    assert i > 1 ==> traces[1..][i - 2] == traces[i - 1];
  }

  /**
   * The budget is a deadline: however a peer spreads its bytes, and however often the budget is armed
   * again, no operation outlives the limit counted from the last arming.
   */
  lemma {:induction false} BudgetIsDeadline(b: Budget, now: nat, actions: seq<Action>)
    ensures forall i | 0 <= i < |actions| :: InTime(b.start, b.limit, Run(b, now, actions), i)
    decreases actions
  {
    if actions != [] {
      var traces := Run(b, now, actions);
      var next := if actions[0].Rearm? then Budget(now + actions[0].wait, b.limit) else b;
      BudgetIsDeadline(next, TimeOf(traces[0]), actions[1..]);
      assert traces[1..] == Run(next, TimeOf(traces[0]), actions[1..]);
      forall i | 0 <= i < |actions| ensures InTime(b.start, b.limit, traces, i) {
        if i > 0 {
          LastArmedTail(b.start, traces, i);
          assert InTime(next.start, b.limit, traces[1..], i - 1) && traces[1..][i - 1] == traces[i];
        }
      }
    }
  }

  /** The process-wide budget, the clock and a socket. */
  class TimedStream {
    var state: Option<Budget>
    var now: nat

    method Init(limit: nat)
      modifies this`state
      ensures state == Some(Budget(now, limit))
    {
      state := Some(Budget(now, limit));
    }

    method Restart()
      modifies this`state
      ensures state == match old(state) case None => None case Some(b) => Some(Budget(now, b.limit))
    {
      if state.Some? {
        state := Some(Budget(now, state.value.limit));
      }
    }

    /** One read or write: arm the socket with what is left, then let the peer have its say. */
    method Operate(peer: Peer) returns (ok: bool)
      requires state.Some? ==> state.value.start <= now
      modifies this`now
      ensures state.Some? ==> Done(old(now) + peer.pause, now, ok) == Meets(state.value.Deadline(), old(now), peer)
      ensures state.None? ==>
        Done(old(now) + peer.pause, now, ok) == Meets(old(now) + peer.pause + DEFAULT_LIMIT, old(now), peer)
    {
      now := now + peer.pause;
      var left := Remaining(state, now);
      if left == None {
        return false;
      }
      if peer.delay < left.value {
        now := now + peer.delay;
        ok := true;
      } else {
        now := now + left.value;
        ok := false;
      }
    }

    /** Operations and waits, one after the other; each wait re-arms the budget at its end. */
    method Perform(actions: seq<Action>) returns (traces: seq<Trace>)
      requires state.Some? && state.value.start <= now
      modifies this
      ensures traces == Run(old(state.value), old(now), actions)
    {
      traces := [];
      ghost var all := Run(state.value, now, actions);
      for i := 0 to |actions|
        invariant state.Some? && state.value.start <= now && |traces| == i
        invariant traces + Run(state.value, now, actions[i..]) == all
      {
        assert actions[i..][0] == actions[i] && actions[i..][1..] == actions[i + 1..];
        ghost var b, before := state.value, now;
        var t: Trace;
        match actions[i] {
          case Io(peer) =>
            var begin := now + peer.pause;
            var ok := Operate(peer);
            t := Done(begin, now, ok);
          case Rearm(wait) =>
            now := now + wait;
            Restart();
            t := Armed(now);
        }
        assert Run(b, before, actions[i..]) == [t] + Run(state.value, now, actions[i + 1..]);
        assert traces + ([t] + Run(state.value, now, actions[i + 1..])) == (traces + [t]) + Run(state.value, now, actions[i + 1..]);
        traces := traces + [t];
      }
      assert actions[|actions|..] == [];
    }

    /** A command: the budget is armed before anything else, so every operation has a deadline. */
    method Command(limit: nat, actions: seq<Action>) returns (traces: seq<Trace>)
      modifies this
      ensures |traces| == |actions| && forall i | 0 <= i < |actions| :: InTime(old(now), limit, traces, i)
    {
      Init(limit);
      BudgetIsDeadline(Budget(now, limit), now, actions);
      traces := Perform(actions);
    }
  }

  /** Between two armings every answered byte costs budget, so a peer gets fewer in than the limit has units. */
  lemma {:induction false} AnsweredInTime(b: Budget, now: nat, actions: seq<Action>)
    requires b.start <= now && forall i | 0 <= i < |actions| :: actions[i].Io? && 0 < actions[i].peer.delay
    requires forall i | 0 <= i < |actions| :: Run(b, now, actions)[i].Done? && Run(b, now, actions)[i].ok
    ensures actions == [] || now + |actions| < b.Deadline()
    decreases actions
  {
    if actions != [] {
      var traces := Run(b, now, actions);
      var t := traces[0];
      assert traces[1..] == Run(b, t.end, actions[1..]);
      forall i | 0 <= i < |actions[1..]| ensures Run(b, t.end, actions[1..])[i].Done? && Run(b, t.end, actions[1..])[i].ok {
        assert traces[1..][i] == traces[i + 1];
      }
      AnsweredInTime(b, t.end, actions[1..]);
    }
  }

  // ---- before the budget is set ----

  /** Operations with no budget armed: each has the default limit from its own beginning. */
  function Unarmed(now: nat, peers: seq<Peer>): (traces: seq<Trace>)
    ensures |traces| == |peers|
    decreases peers
  {
    if peers == [] then []
    else
      var t := Meets(now + peers[0].pause + DEFAULT_LIMIT, now, peers[0]);
      [t] + Unarmed(TimeOf(t), peers[1..])
  }

  function Dribble(n: nat): seq<Peer> {
    if n == 0 then [] else [Peer(0, DEFAULT_LIMIT - 1)] + Dribble(n - 1)
  }

  lemma DribbleStep(now: nat, n: nat)
    requires n > 0
    ensures Unarmed(now, Dribble(n)) == [Done(now, now + 29_999, true)] + Unarmed(now + 29_999, Dribble(n - 1))
  {
    assert Dribble(n)[1..] == Dribble(n - 1);
  }

  /**
   * Why every command starts with `init`: without a budget no time is a deadline, and a peer that
   * answers each operation just in time goes on for as long as it likes.
   */
  lemma {:induction false} NoBudgetNoDeadline(now: nat, n: nat)
    requires n > 0
    ensures var traces := Unarmed(now, Dribble(n));
      && |traces| == n && (forall i | 0 <= i < n :: traces[i].Done? && traces[i].ok)
      && traces[n - 1].end == now + n * 29_999
    decreases n
  {
    DribbleStep(now, n);
    if n > 1 {
      NoBudgetNoDeadline(now + 29_999, n - 1);
    }
  }
}
