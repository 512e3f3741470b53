/**
 * The reveal cursor of the results view: on a new result it starts at the first
 * reading and a timer advances it by a fixed stride until the whole run is shown,
 * in at most 140 frames.
 */
module Playback {
  import opened Common
  import opened Metrics

  /** The most timer ticks a playback should take, `maxFrames`. */
  const MaxFrames: nat := 140

  /** `pointsPerTick = Math.max(1, Math.ceil(totalPoints / maxFrames))`. */
  function StepSize(total: nat): (s: nat)
    ensures s >= 1
    ensures s * MaxFrames >= total
    ensures s > 1 ==> (s - 1) * MaxFrames < total
  {
    Max(1, (total + MaxFrames - 1) / MaxFrames)
  }

  /** The timer callback: advance by the stride, or land exactly on the total and stop. */
  function NextCursor(cursor: nat, total: nat): (c: nat)
    ensures c == total || c == cursor + StepSize(total)
    ensures cursor + StepSize(total) < total ==> c == cursor + StepSize(total)
    ensures cursor <= total ==> cursor <= c <= total
  {
    var next := cursor + StepSize(total);
    if next >= total then total else next
  }

  /** The cursor after `ticks` timer callbacks on a run of `total > 0` readings. */
  function CursorAfter(total: nat, ticks: nat): nat
    requires total > 0
  {
    if ticks == 0 then 1 else NextCursor(CursorAfter(total, ticks - 1), total)
  }

  lemma Stride(k: nat, s: nat)
    ensures 1 + (k + 1) * s == (1 + k * s) + s
  {
  }

  /** After `k` ticks the cursor is `min(total, 1 + k * stride)`. */
  lemma {:induction false} CursorClosedForm(total: nat, k: nat)
    requires total > 0
    ensures CursorAfter(total, k) == Min(total, 1 + k * StepSize(total))
  {
    if k > 0 {
      CursorClosedForm(total, k - 1);
      Stride(k - 1, StepSize(total));
    }
  }

  /** The cursor never goes back and never passes the total. */
  lemma CursorMonotone(total: nat, j: nat, k: nat)
    requires total > 0 && j <= k
    ensures CursorAfter(total, j) <= CursorAfter(total, k) <= total
  {
    var s := StepSize(total);
    CursorClosedForm(total, j);
    CursorClosedForm(total, k);
    assert j * s <= k * s by {
      MultiplyOrdered(j, k, s);
    }
  }

  lemma MultiplyOrdered(j: nat, k: nat, s: nat)
    requires j <= k
    ensures j * s <= k * s
  {
  }

  /** Within `MaxFrames` ticks the cursor is exactly the total, and it stays there. */
  lemma CursorReachesTotal(total: nat, k: nat)
    requires total > 0 && k >= MaxFrames
    ensures CursorAfter(total, k) == total
  {
    var s := StepSize(total);
    CursorClosedForm(total, k);
    MultiplyOrdered(MaxFrames, k, s);
  }

  /** While the cursor is short of the total, fewer than `MaxFrames` ticks have passed. */
  lemma ShortOfTotalIsEarly(total: nat, k: nat)
    requires total > 0 && CursorAfter(total, k) < total
    ensures k < MaxFrames
  {
    if k >= MaxFrames {
      CursorReachesTotal(total, k);
    }
  }

  /** The playback state of the results view. */
  class Player {
    /** `totalPoints` of the result being played. */
    var total: nat
    /** `playbackIndex`: how many readings are revealed. */
    var cursor: nat
    /** Whether the interval timer is still armed. */
    var running: bool
    /** Timer callbacks since the result arrived. */
    ghost var ticks: nat

    ghost predicate Valid()
      reads this
    {
      && cursor <= total
      && ticks <= MaxFrames
      && (total == 0 ==> cursor == 0 && !running && ticks == 0)
      && (total > 0 ==> cursor == CursorAfter(total, ticks))
      && (running ==> ticks == 0 || cursor < total)
      && (!running && total > 0 ==> cursor == total)
    }

    /** No result yet: nothing revealed, no timer. */
    constructor()
      ensures Valid() && total == 0 && cursor == 0 && !running
    {
      total := 0;
      cursor := 0;
      running := false;
      ticks := 0;
    }

    /**
     * The effect run when a new result arrives: an empty run shows nothing and arms no
     * timer; otherwise the first reading is shown and the timer is armed.
     */
    method Start(totalPoints: nat)
      modifies this
      ensures Valid()
      ensures total == totalPoints && ticks == 0
      ensures totalPoints == 0 ==> cursor == 0 && !running
      ensures totalPoints > 0 ==> cursor == 1 && running
    {
      total := totalPoints;
      ticks := 0;
      if totalPoints <= 0 {
        cursor := 0;
        running := false;
      } else {
        cursor := 1;
        running := true;
      }
    }

    /**
     * One interval callback: advance by the stride; on reaching or passing the total,
     * show exactly the total and disarm the timer. A disarmed timer does nothing.
     */
    method Tick()
      requires Valid()
      modifies this
      ensures Valid() && total == old(total)
      ensures !old(running) ==> cursor == old(cursor) && !running
      ensures old(running) ==> cursor == NextCursor(old(cursor), total)
      ensures old(running) ==> (running <==> cursor < total)
      ensures old(cursor) <= cursor <= total
    {
      if !running {
        return;
      }
      ShortOfTotalIsEarlyWhenRunning(total, ticks, cursor);
      var next := cursor + StepSize(total);
      if next >= total {
        running := false;
        cursor := total;
      } else {
        cursor := next;
      }
      ticks := ticks + 1;
    }

    /** Once the timer is disarmed the bar reads 100 % and the view shows every reading. */
    lemma FinishedShowsWholeRun(nodes: seq<SimNode>)
      requires Valid() && !running && total > 0
      requires Aligned(nodes) && total == TotalPoints(nodes)
      ensures ProgressPct(cursor, total) == 100.0
      ensures Revealed(nodes, cursor) == nodes
    {
      var r := Revealed(nodes, cursor);
      forall j | 0 <= j < |nodes| ensures r[j] == nodes[j] {
        assert nodes[j].series[..|nodes[j].series|] == nodes[j].series;
      }
    }
  }

  /** A running timer with ticks behind it has not yet passed `MaxFrames`. */
  lemma ShortOfTotalIsEarlyWhenRunning(total: nat, ticks: nat, cursor: nat)
    requires total > 0 && cursor == CursorAfter(total, ticks)
    requires ticks == 0 || cursor < total
    ensures ticks < MaxFrames
  {
    if ticks > 0 {
      ShortOfTotalIsEarly(total, ticks);
    }
  }
}
