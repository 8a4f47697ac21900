/**
 * The heartbeat watch of a subscriber (lib/cluster/subscriber.js:684-711): a check every
 * `delay` milliseconds, and one missed round of grace.
 */
module Heartbeat {

  datatype Phase = BUFFERING | SANE | MISSING_HEARTBEAT | EVICTED

  /** The phase, and when the remote node was last heard of. */
  datatype Watch = Watch(phase: Phase, last: real)

  /** One check at time `now`, eviction prevention being off. */
  function Check(w: Watch, delay: real, now: real): Watch
  {
    if w.phase == EVICTED then w
    else if now - w.last > delay then
      w.(phase := if w.phase == MISSING_HEARTBEAT then EVICTED else MISSING_HEARTBEAT)
    else w.(phase := SANE)
  }

  /** Messages received between two checks: each one counts as a heartbeat, unless the node is evicted. */
  function Hear(w: Watch, beats: seq<real>): Watch
  {
    if beats == [] || w.phase == EVICTED then w else w.(last := beats[|beats| - 1])
  }

  /** The time of the n-th check; the watch starts at `start`. */
  function CheckTime(start: real, delay: real, n: nat): real
  {
    if n == 0 then start else CheckTime(start, delay, n - 1) + delay
  }

  /** The watch after n rounds; round i holds the times of the messages heard between checks i and i+1. */
  function After(w: Watch, start: real, delay: real, rounds: seq<seq<real>>): Watch
  {
    if rounds == [] then w
    else
      var n := |rounds| - 1;
      Check(Hear(After(w, start, delay, rounds[..n]), rounds[n]), delay, CheckTime(start, delay, n + 1))
  }

  predicate Timely(start: real, delay: real, rounds: seq<seq<real>>)
  {
    forall i, j | 0 <= i < |rounds| && 0 <= j < |rounds[i]| ::
      CheckTime(start, delay, i) <= rounds[i][j] <= CheckTime(start, delay, i + 1)
  }

  /** While the node is not evicted, the phase tells how long it has been silent at time `now`. */
  predicate PhaseTells(w: Watch, delay: real, now: real)
  {
    match w.phase
    case SANE => 0.0 <= now - w.last <= delay
    case MISSING_HEARTBEAT => delay < now - w.last <= 2.0 * delay
    case EVICTED => true
    case BUFFERING => false
  }

  /** One round: messages between two checks, then the second check. */
  lemma OneRound(w: Watch, delay: real, now: real, beats: seq<real>)
    requires delay > 0.0 && PhaseTells(w, delay, now)
    requires beats != [] ==> now <= beats[|beats| - 1] <= now + delay
    ensures var checked := Check(Hear(w, beats), delay, now + delay);
            && PhaseTells(checked, delay, now + delay)
            && (w.phase != EVICTED ==> (checked.phase == EVICTED <==> now + delay - checked.last > 2.0 * delay))
  {
  }

  lemma {:induction false} SilenceByPhase(w: Watch, start: real, delay: real, rounds: seq<seq<real>>)
    requires delay > 0.0 && w.phase == SANE && start - delay <= w.last <= start
    requires Timely(start, delay, rounds)
    ensures PhaseTells(After(w, start, delay, rounds), delay, CheckTime(start, delay, |rounds|))
  {
    if rounds != [] {
      var n := |rounds| - 1;
      SilenceByPhase(w, start, delay, rounds[..n]);
      OneRound(After(w, start, delay, rounds[..n]), delay, CheckTime(start, delay, n), rounds[n]);
    }
  }

  /** A check evicts a node exactly when the node has been silent for more than two check delays. */
  lemma EvictedIffSilent(w: Watch, start: real, delay: real, rounds: seq<seq<real>>, next: seq<real>)
    requires delay > 0.0 && w.phase == SANE && start - delay <= w.last <= start
    requires Timely(start, delay, rounds + [next])
    requires After(w, start, delay, rounds).phase != EVICTED
    ensures After(w, start, delay, rounds + [next]).phase == EVICTED
            <==> CheckTime(start, delay, |rounds| + 1) - After(w, start, delay, rounds + [next]).last > 2.0 * delay
  {
    var all := rounds + [next];
    assert all[..|rounds|] == rounds && all[|rounds|] == next;
    TimelyBefore(start, delay, rounds, next);
    SilenceByPhase(w, start, delay, rounds);
    OneRound(After(w, start, delay, rounds), delay, CheckTime(start, delay, |rounds|), next);
  }

  lemma TimelyBefore(start: real, delay: real, rounds: seq<seq<real>>, next: seq<real>)
    requires Timely(start, delay, rounds + [next])
    ensures Timely(start, delay, rounds)
    ensures next != [] ==>
              CheckTime(start, delay, |rounds|) <= next[|next| - 1] <= CheckTime(start, delay, |rounds| + 1)
  {
    var all := rounds + [next];
    forall i, j | 0 <= i < |rounds| && 0 <= j < |rounds[i]|
      ensures CheckTime(start, delay, i) <= rounds[i][j] <= CheckTime(start, delay, i + 1)
    {
      assert all[i][j] == rounds[i][j];
    }
    assert all[|rounds|] == next;
    if next != [] {
      assert all[|rounds|][|next| - 1] == next[|next| - 1];
    }
  }

  /** A node that falls silent is evicted within three check delays. */
  lemma SilentNodeIsEvicted(w: Watch, start: real, delay: real, rounds: seq<seq<real>>)
    requires delay > 0.0 && w.phase == SANE && start - delay <= w.last <= start
    requires Timely(start, delay, rounds)
    requires CheckTime(start, delay, |rounds|) >= After(w, start, delay, rounds).last + 3.0 * delay
    ensures After(w, start, delay, rounds).phase == EVICTED
  {
    SilenceByPhase(w, start, delay, rounds);
  }

  /** The last message heard comes before any silent rounds at the end. */
  lemma {:induction false} SilentRounds(w: Watch, start: real, delay: real, rounds: seq<seq<real>>, silent: nat)
    requires delay > 0.0 && w.phase == SANE && start - delay <= w.last <= start
    requires Timely(start, delay, rounds) && silent <= |rounds|
    requires forall i | |rounds| - silent <= i < |rounds| :: rounds[i] == []
    ensures After(w, start, delay, rounds).phase == EVICTED
            || After(w, start, delay, rounds).last <= CheckTime(start, delay, |rounds| - silent)
    decreases silent
  {
    SilenceByPhase(w, start, delay, rounds);
    if silent > 0 {
      var n := |rounds| - 1;
      SilentRounds(w, start, delay, rounds[..n], silent - 1);
    }
  }

  /** Three rounds in a row without any message evict the node. */
  lemma ThreeSilentRoundsEvict(w: Watch, start: real, delay: real, rounds: seq<seq<real>>)
    requires delay > 0.0 && w.phase == SANE && start - delay <= w.last <= start
    requires Timely(start, delay, rounds) && |rounds| >= 3
    requires forall i | |rounds| - 3 <= i < |rounds| :: rounds[i] == []
    ensures After(w, start, delay, rounds).phase == EVICTED
  {
    SilentRounds(w, start, delay, rounds, 3);
    var n := |rounds|;
    assert CheckTime(start, delay, n - 1) == CheckTime(start, delay, n - 2) + delay;
    assert CheckTime(start, delay, n - 2) == CheckTime(start, delay, n - 3) + delay;
    if After(w, start, delay, rounds).phase != EVICTED {
      SilentNodeIsEvicted(w, start, delay, rounds);
    }
  }

  /** A node heard at least once between any two checks is never evicted. */
  lemma {:induction false} TalkativeNodeStays(w: Watch, start: real, delay: real, rounds: seq<seq<real>>)
    requires delay > 0.0 && w.phase == SANE && start - delay <= w.last <= start
    requires Timely(start, delay, rounds)
    requires forall i | 0 <= i < |rounds| :: rounds[i] != []
    ensures After(w, start, delay, rounds).phase == SANE
  {
    if rounds != [] {
      var n := |rounds| - 1;
      TalkativeNodeStays(w, start, delay, rounds[..n]);
      var beats := rounds[n];
      assert CheckTime(start, delay, n) <= rounds[n][|beats| - 1];
    }
  }
}
