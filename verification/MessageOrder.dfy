/**
 * The message-id check of a subscriber (lib/cluster/subscriber.js:732-765), on its own: which of
 * the ids received from one publisher are handled, before and after the switch to live messages.
 */
module MessageOrder {

  /** `buffering` is true until the end of `sync`. */
  datatype Cursor = Cursor(buffering: bool, last: int)

  datatype Verdict = Skip | Gap | Accept

  datatype Check = Check(verdict: Verdict, cursor: Cursor)

  /** The expected id moves on even when the received one is not the expected one. */
  function Validate(c: Cursor, id: int): Check
  {
    if c.buffering && c.last >= id then Check(Skip, c)
    else if c.last + 1 != id then Check(Gap, c.(last := c.last + 1))
    else Check(Accept, c.(last := c.last + 1))
  }

  /** What became of a sequence of ids: where the cursor is, what was handled, whether a gap was seen. */
  datatype Fed = Fed(cursor: Cursor, accepted: seq<int>, gap: bool)

  function FeedOne(f: Fed, id: int): Fed
  {
    var check := Validate(f.cursor, id);
    Fed(check.cursor,
        if check.verdict == Accept then f.accepted + [id] else f.accepted,
        f.gap || check.verdict == Gap)
  }

  function Feed(f: Fed, ids: seq<int>): Fed
  {
    if ids == [] then f else FeedOne(Feed(f, ids[..|ids| - 1]), ids[|ids| - 1])
  }

  /** `sync(k)` on the buffered messages. */
  function Sync(k: int, buffered: seq<int>): Fed
  {
    var f := Feed(Fed(Cursor(true, k), [], false), buffered);
    f.(cursor := f.cursor.(buffering := false))
  }

  /** `sync(k)` on the buffered messages, then live messages. */
  function FeedRun(k: int, buffered: seq<int>, live: seq<int>): Fed
  {
    Feed(Sync(k, buffered), live)
  }

  predicate Increasing(ids: seq<int>)
  {
    forall i, j | 0 <= i < j < |ids| :: ids[i] < ids[j]
  }

  predicate Consecutive(ids: seq<int>)
  {
    forall i | 0 <= i < |ids| - 1 :: ids[i + 1] == ids[i] + 1
  }

  /** The ids k+1, k+2, … without a hole. */
  predicate BlockAfter(k: int, ids: seq<int>)
  {
    forall i | 0 <= i < |ids| :: ids[i] == k + 1 + i
  }

  /** As long as no gap is seen, what is handled is the block that ends at the cursor: true of any ids. */
  lemma {:induction false} NoGapNoHole(k: int, f: Fed, ids: seq<int>)
    requires BlockAfter(k, f.accepted) && f.cursor.last == k + |f.accepted|
    requires !Feed(f, ids).gap
    ensures BlockAfter(k, Feed(f, ids).accepted)
    ensures Feed(f, ids).cursor.last == k + |Feed(f, ids).accepted|
    ensures forall i | 0 <= i <= |ids| :: !Feed(f, ids[..i]).gap
  {
    if ids != [] {
      var rest := ids[..|ids| - 1];
      NoGapNoHole(k, f, rest);
      forall i | 0 <= i <= |ids|
        ensures !Feed(f, ids[..i]).gap
      {
        if i < |ids| {
          assert ids[..i] == rest[..i];
        } else {
          assert ids[..i] == ids;
        }
      }
    } else {
      assert ids[..0] == ids;
    }
  }

  /** The cursor is behind the last received id. */
  lemma {:induction false} BehindStaysBehind(f: Fed, before: int, ids: seq<int>)
    requires f.cursor.last < before && Increasing([before] + ids)
    ensures Feed(f, ids).accepted == f.accepted
    ensures Feed(f, ids).cursor.last < (if ids == [] then before else ids[|ids| - 1])
    ensures ids != [] ==> Feed(f, ids).gap
  {
    if ids != [] {
      IncreasingLast(before, ids);
      BehindStaysBehind(f, before, ids[..|ids| - 1]);
    }
  }

  lemma IncreasingLast(before: int, ids: seq<int>)
    requires Increasing([before] + ids) && ids != []
    ensures var rest := ids[..|ids| - 1];
            Increasing([before] + rest) && (if rest == [] then before else rest[|rest| - 1]) < ids[|ids| - 1]
  {
    var all := [before] + ids;
    var n := |ids|;
    assert [before] + ids[..n - 1] == all[..n];
    assert all[n - 1] < all[n];
    assert all[n] == ids[n - 1] && all[n - 1] == if n == 1 then before else ids[n - 2];
  }

  lemma {:induction false} FeedSplits(f: Fed, a: seq<int>, b: seq<int>)
    ensures Feed(f, a + b) == Feed(Feed(f, a), b)
  {
    if b == [] {
      assert a + b == a;
    } else {
      FeedSplits(f, a, b[..|b| - 1]);
      assert (a + b)[..|a + b| - 1] == a + b[..|b| - 1];
    }
  }

  /** With increasing ids, a gap that opens ahead of the cursor is final: nothing later is handled. */
  lemma GapAheadIsFinal(f: Fed, id: int, later: seq<int>)
    requires Increasing([id] + later)
    requires Validate(f.cursor, id).verdict == Gap && id > f.cursor.last
    ensures Feed(f, [id] + later).accepted == f.accepted
    ensures Feed(f, [id] + later).gap
  {
    FeedSplits(f, [id], later);
    assert [id][..0] == [];
    assert Feed(f, [id]) == FeedOne(f, id);
    BehindStaysBehind(FeedOne(f, id), id, later);
    if later == [] {
      assert Feed(f, [id] + later).gap;
    }
  }

  /** The state after `sync`: a block without gap, or a cursor left behind for good. */
  lemma {:induction false} SyncOutcome(k: int, buffered: seq<int>)
    requires Increasing(buffered)
    ensures var f := Feed(Fed(Cursor(true, k), [], false), buffered);
            && BlockAfter(k, f.accepted)
            && f.cursor.buffering && f.cursor.last >= k
            && (f.gap ==> buffered != [] && f.cursor.last < buffered[|buffered| - 1])
            && (!f.gap ==> f.cursor.last == k + |f.accepted|)
            && (!f.gap ==> f.cursor.last == if buffered == [] || buffered[|buffered| - 1] <= k then k
                                            else buffered[|buffered| - 1])
  {
    if buffered != [] {
      var rest := buffered[..|buffered| - 1];
      assert Increasing(rest);
      SyncOutcome(k, rest);
      if rest != [] {
        assert rest[|rest| - 1] == buffered[|rest| - 1] < buffered[|rest|];
      }
    }
  }

  /**
   * Handled ids are a block right after the sync id, for every way the run can go on, exactly when
   * the first live message is newer than the sync id.
   */
  lemma ContiguousIffNotStale(k: int, buffered: seq<int>, first: int)
    requires Increasing(buffered + [first])
    ensures (forall later | Increasing(buffered + [first] + later) ::
               BlockAfter(k, FeedRun(k, buffered, [first] + later).accepted))
            <==> first > k
  {
    var f := Sync(k, buffered);
    assert buffered == (buffered + [first])[..|buffered|];
    SyncOutcome(k, buffered);
    if buffered != [] {
      assert (buffered + [first])[|buffered| - 1] < (buffered + [first])[|buffered|];
    }
    if first > f.cursor.last {
      forall later | Increasing(buffered + [first] + later)
        ensures BlockAfter(k, FeedRun(k, buffered, [first] + later).accepted)
      {
        assert [first] + later == (buffered + [first] + later)[|buffered|..];
        FreshStartIsContiguous(k, f, first, later);
      }
    } else {
      StaleStartCanSkip(k, buffered, first);
    }
  }

  lemma FreshStartIsContiguous(k: int, f: Fed, first: int, later: seq<int>)
    requires Increasing([first] + later) && first > f.cursor.last && !f.cursor.buffering
    requires BlockAfter(k, f.accepted) && (!f.gap ==> f.cursor.last == k + |f.accepted|)
    requires f.gap ==> f.cursor.last + 1 < first
    ensures BlockAfter(k, Feed(f, [first] + later).accepted)
  {
    if f.gap || f.cursor.last + 1 != first {
      GapAheadIsFinal(f, first, later);
    } else {
      ContiguousWhileIncreasing(k, f, [first] + later);
    }
  }

  /** From a gap-free live cursor, increasing ids that start above it extend the block and then stop for good. */
  lemma {:induction false} ContiguousWhileIncreasing(k: int, f: Fed, ids: seq<int>)
    requires Increasing(ids) && !f.gap && !f.cursor.buffering
    requires BlockAfter(k, f.accepted) && f.cursor.last == k + |f.accepted|
    requires ids != [] ==> ids[0] > f.cursor.last
    ensures BlockAfter(k, Feed(f, ids).accepted)
    ensures !Feed(f, ids).cursor.buffering
    ensures !Feed(f, ids).gap ==> Feed(f, ids).cursor.last == k + |Feed(f, ids).accepted|
    ensures ids != [] ==> if Feed(f, ids).gap then Feed(f, ids).cursor.last < ids[|ids| - 1]
                          else Feed(f, ids).cursor.last == ids[|ids| - 1]
  {
    if ids != [] {
      var rest := ids[..|ids| - 1];
      assert Increasing(rest);
      ContiguousWhileIncreasing(k, f, rest);
      if rest != [] {
        assert rest[|rest| - 1] == ids[|rest| - 1] < ids[|rest|];
      }
    }
  }

  /** A stale first live message pushes the cursor on, and a lucky jump of the ids is then handled. */
  lemma StaleStartCanSkip(k: int, buffered: seq<int>, first: int)
    requires Increasing(buffered + [first])
    requires first <= Sync(k, buffered).cursor.last
    ensures var f := Sync(k, buffered);
            var later := [f.cursor.last + 2];
            Increasing(buffered + [first] + later)
            && !BlockAfter(k, FeedRun(k, buffered, [first] + later).accepted)
  {
    var f := Sync(k, buffered);
    assert buffered == (buffered + [first])[..|buffered|];
    SyncOutcome(k, buffered);
    if buffered != [] {
      assert (buffered + [first])[|buffered| - 1] < (buffered + [first])[|buffered|];
    }
    assert !f.gap;
    var jump := f.cursor.last + 2;
    IncreasingMore(buffered + [first], jump);
    StaleThenJump(f, first);
    assert (f.accepted + [jump])[|f.accepted|] == jump;
  }

  lemma IncreasingMore(ids: seq<int>, id: int)
    requires Increasing(ids) && ids != [] && ids[|ids| - 1] < id
    ensures Increasing(ids + [id])
  {
    forall i | 0 <= i < |ids|
      ensures ids[i] < id
    {
      assert i < |ids| - 1 ==> ids[i] < ids[|ids| - 1];
    }
  }

  /** A stale id moves the live cursor, so the id after the next one is accepted. */
  lemma StaleThenJump(f: Fed, first: int)
    requires first <= f.cursor.last && !f.cursor.buffering
    ensures Feed(f, [first] + [f.cursor.last + 2]).accepted == f.accepted + [f.cursor.last + 2]
  {
    var jump := f.cursor.last + 2;
    FeedSplits(f, [first], [jump]);
    assert [first][..0] == [] && [jump][..0] == [];
    var g := FeedOne(f, first);
    assert Feed(f, [first]) == g && Feed(g, [jump]) == FeedOne(g, jump);
  }

  /** A concrete run in which a message is handled after a gap: sync at 10, then ids 5 and 12. */
  lemma StaleExample()
    ensures FeedRun(10, [], [5, 12]) == Fed(Cursor(false, 12), [12], true)
    ensures Increasing([5, 12])
  {
    assert [5, 12][..1] == [5];
    assert [5][..0] == [];
  }

  /** On a channel that loses nothing once it delivers, a gap is final even when the first live message is stale. */
  lemma {:induction false} LosslessGapIsFinal(f: Fed, before: int, ids: seq<int>)
    requires Consecutive([before] + ids) && f.cursor.last != before && !f.cursor.buffering
    ensures Feed(f, ids).accepted == f.accepted
    ensures Feed(f, ids).cursor.last - f.cursor.last == |ids| && !Feed(f, ids).cursor.buffering
    ensures |ids| > 0 ==> ids[|ids| - 1] == before + |ids|
  {
    if ids != [] {
      var rest := ids[..|ids| - 1];
      assert [before] + rest == ([before] + ids)[..|ids|];
      ConsecutivePrefix([before] + ids, |ids|);
      LosslessGapIsFinal(f, before, rest);
      assert ([before] + ids)[|ids|] == ([before] + ids)[|ids| - 1] + 1;
      if rest != [] {
        assert ([before] + ids)[|ids| - 1] == rest[|rest| - 1];
      }
    }
  }

  lemma ConsecutivePrefix(ids: seq<int>, n: nat)
    requires Consecutive(ids) && n <= |ids|
    ensures Consecutive(ids[..n])
  {
  }

  lemma {:induction false} LosslessSync(k: int, buffered: seq<int>)
    requires Consecutive(buffered) && buffered != []
    ensures var f := Feed(Fed(Cursor(true, k), [], false), buffered);
            && (!f.gap <==> buffered[0] <= k + 1)
            && f.cursor.buffering
            && (!f.gap ==> f.cursor.last == if buffered[|buffered| - 1] <= k then k else buffered[|buffered| - 1])
            && (f.gap ==> f.cursor.last < buffered[|buffered| - 1])
  {
    var start := Fed(Cursor(true, k), [], false);
    if |buffered| == 1 {
      assert buffered[..0] == [];
      assert Feed(start, buffered) == FeedOne(start, buffered[0]);
    } else {
      var rest := buffered[..|buffered| - 1];
      assert Consecutive(rest);
      LosslessSync(k, rest);
      assert buffered[|buffered| - 1] == buffered[|buffered| - 2] + 1;
      assert rest[|rest| - 1] == buffered[|buffered| - 2];
    }
  }

  lemma {:induction false} LosslessLive(f: Fed, live: seq<int>)
    requires Consecutive(live) && live != [] && !f.gap && !f.cursor.buffering
    ensures !Feed(f, live).gap <==> live[0] == f.cursor.last + 1
    ensures !Feed(f, live).gap ==> Feed(f, live).cursor.last == live[|live| - 1]
    ensures !Feed(f, live).cursor.buffering
  {
    if |live| == 1 {
      assert live[..0] == [];
      assert Feed(f, live) == FeedOne(f, live[0]);
    } else {
      var rest := live[..|live| - 1];
      assert Consecutive(rest);
      LosslessLive(f, rest);
      assert live[|live| - 1] == live[|live| - 2] + 1;
      assert rest[|rest| - 1] == live[|live| - 2];
    }
  }

  /**
   * On a channel that loses nothing, the joiner asks for its own eviction exactly when its buffer
   * starts too late for the snapshot, or its first live message does not continue where `sync` left.
   */
  lemma NoFalseAlarm(k: int, buffered: seq<int>, live: seq<int>)
    requires Consecutive(buffered) && Consecutive(live)
    ensures !FeedRun(k, buffered, live).gap <==>
            && (buffered != [] ==> buffered[0] <= k + 1)
            && (live != [] ==>
                  live[0] == 1 + (if buffered == [] || buffered[|buffered| - 1] <= k then k
                                  else buffered[|buffered| - 1]))
  {
    var f := Sync(k, buffered);
    if buffered != [] {
      LosslessSync(k, buffered);
    }
    if f.gap {
      GapStays(f, live);
    } else if live != [] {
      LosslessLive(f, live);
    }
  }

  lemma {:induction false} GapStays(f: Fed, ids: seq<int>)
    requires f.gap
    ensures Feed(f, ids).gap
  {
    if ids != [] {
      GapStays(f, ids[..|ids| - 1]);
    }
  }
}
