/**
 * The fixed 4500 ms windows that `run_v16_workflow` walks over the audio:
 * `current_end = min(current_start + 4500, duration_ms)`, then
 * `current_start = current_end`, while `current_start < duration_ms`.
 */
module Timeline {

  const IntervalMs := 4500

  datatype Window = Window(start: nat, end: nat)

  function Min(a: nat, b: nat): nat {
    if a <= b then a else b
  }

  /** The windows the loop visits when it is at `start`. */
  function WindowsFrom(start: nat, duration: nat): seq<Window>
    decreases duration - start
  {
    if start >= duration then []
    else
      var end := Min(start + IntervalMs, duration);
      [Window(start, end)] + WindowsFrom(end, duration)
  }

  /** All windows of a recording of `duration` milliseconds. */
  function Windows(duration: nat): seq<Window> {
    WindowsFrom(0, duration)
  }

  /** Number of windows: the duration divided by 4500, rounded up. */
  function CeilDiv(n: nat, d: nat): nat
    requires d > 0
  {
    (n + d - 1) / d
  }

  /** The windows tile `[start, duration)` without gaps or overlaps. */
  ghost predicate Tiles(ws: seq<Window>, start: nat, duration: nat) {
    && (ws == [] <==> start >= duration)
    && (ws != [] ==> ws[0].start == start && ws[|ws| - 1].end == duration)
    && (forall i :: 0 <= i < |ws| ==> ws[i].start < ws[i].end <= duration)
    && (forall i :: 0 <= i < |ws| - 1 ==> ws[i].end == ws[i + 1].start)
    && (forall i :: 0 <= i < |ws| - 1 ==> ws[i].end - ws[i].start == IntervalMs)
    && (forall i :: 0 <= i < |ws| ==> ws[i].end - ws[i].start <= IntervalMs)
  }

  lemma {:induction false} WindowsFromTile(start: nat, duration: nat)
    ensures Tiles(WindowsFrom(start, duration), start, duration)
    decreases duration - start
  {
    if start < duration {
      var end := Min(start + IntervalMs, duration);
      WindowsFromTile(end, duration);
      var ws := WindowsFrom(start, duration);
      var rest := WindowsFrom(end, duration);
      assert ws == [Window(start, end)] + rest;
      if end == duration {
        assert rest == [];
      } else {
        assert rest != [] && rest[0].start == end;
        assert ws[|ws| - 1] == rest[|rest| - 1];
      }
      forall i | 0 <= i < |ws|
        ensures ws[i].start < ws[i].end <= duration && ws[i].end - ws[i].start <= IntervalMs
      {
        if i > 0 { assert ws[i] == rest[i - 1]; }
      }
      forall i | 0 <= i < |ws| - 1
        ensures ws[i].end == ws[i + 1].start && ws[i].end - ws[i].start == IntervalMs
      {
        assert ws[i + 1] == rest[i];
        if i > 0 { assert ws[i] == rest[i - 1]; }
      }
    }
  }

  lemma {:induction false} WindowsFromCount(start: nat, duration: nat)
    requires start <= duration
    ensures |WindowsFrom(start, duration)| == CeilDiv(duration - start, IntervalMs)
    decreases duration - start
  {
    if start < duration {
      var end := Min(start + IntervalMs, duration);
      WindowsFromCount(end, duration);
      assert |WindowsFrom(start, duration)| == 1 + |WindowsFrom(end, duration)|;
      if end == duration {
        assert duration - start <= IntervalMs;
      } else {
        assert duration - end == duration - start - IntervalMs;
      }
    }
  }

  /**
   * The windows of a recording: the first starts at 0, the last ends at the
   * duration, consecutive windows meet, every window but the last is 4500 ms
   * long, and there are ceil(duration / 4500) of them.
   */
  lemma WindowsTile(duration: nat)
    ensures Tiles(Windows(duration), 0, duration)
    ensures |Windows(duration)| == CeilDiv(duration, IntervalMs)
  {
    WindowsFromTile(0, duration);
    WindowsFromCount(0, duration);
  }

  /** Window starts strictly increase along the sequence. */
  lemma WindowStartsIncrease(ws: seq<Window>, start: nat, duration: nat, i: nat, j: nat)
    requires Tiles(ws, start, duration)
    requires i < j < |ws|
    ensures ws[i].start < ws[j].start && ws[i].end <= ws[j].start
    decreases j - i
  {
    if j > i + 1 {
      WindowStartsIncrease(ws, start, duration, i + 1, j);
    }
  }

  /** Window `i` starts `i` intervals after the first. */
  lemma {:induction false} WindowStartAt(ws: seq<Window>, start: nat, duration: nat, i: nat)
    requires Tiles(ws, start, duration)
    requires i < |ws|
    ensures ws[i].start == start + i * IntervalMs
    decreases i
  {
    if i > 0 {
      WindowStartAt(ws, start, duration, i - 1);
    }
  }

  /** When the duration is a multiple of 4500 ms, every window is a full one, the last included. */
  lemma FullWindowsWhenDivisible(duration: nat)
    requires duration % IntervalMs == 0
    ensures forall i :: 0 <= i < |Windows(duration)| ==> Windows(duration)[i].end == Windows(duration)[i].start + IntervalMs
  {
    WindowsTile(duration);
    var ws := Windows(duration);
    forall i | 0 <= i < |ws| ensures ws[i].end == ws[i].start + IntervalMs {
      if i == |ws| - 1 {
        WindowStartAt(ws, 0, duration, i);
        var k := duration / IntervalMs;
        assert duration == k * IntervalMs;
        assert 0 < (k - i) * IntervalMs <= IntervalMs;
        assert k - i == 1;
      }
    }
  }

  /** The loop state: the windows already visited followed by those still ahead. */
  lemma {:induction false} WindowsFromStep(start: nat, duration: nat)
    requires start < duration
    ensures WindowsFrom(start, duration)
         == [Window(start, Min(start + IntervalMs, duration))] + WindowsFrom(Min(start + IntervalMs, duration), duration)
  {
  }

  /** A recording of 10000 ms is cut into (0,4500), (4500,9000) and (9000,10000). */
  lemma TenSecondExample()
    ensures Windows(10000) == [Window(0, 4500), Window(4500, 9000), Window(9000, 10000)]
  {
    assert WindowsFrom(9000, 10000) == [Window(9000, 10000)] + WindowsFrom(10000, 10000);
    assert WindowsFrom(4500, 10000) == [Window(4500, 9000)] + WindowsFrom(9000, 10000);
    assert WindowsFrom(0, 10000) == [Window(0, 4500)] + WindowsFrom(4500, 10000);
  }
}
