/**
 * The subtitle overlay of the proofreading player. On every time update the
 * first subtitle whose display span, from its start to 4500 ms after it,
 * contains the playback position is shown; in loop mode the position jumps
 * back to the selected sentence once it is 4500 ms past it. Positions are
 * whole milliseconds.
 */
module Playback {
  import opened Wrappers

  /** How long after its start a subtitle stays eligible, and the length of a loop. */
  const ShowMs := 4500

  /** One entry `{"start", "r", "t"}` of the player's subtitle list. */
  datatype Subtitle = Subtitle(start: nat, r: string, t: string)

  predicate Shows(s: Subtitle, nowMs: nat) {
    s.start <= nowMs <= s.start + ShowMs
  }

  /** The overlay markup for one subtitle: the original, a line break, the translation in smaller type. */
  function Caption(s: Subtitle): string {
    s.r + "<br><span style='font-size: 0.85em; opacity: 0.9;'>" + s.t + "</span>"
  }

  /** The index of the first subtitle showing at `nowMs`, if any. */
  function FirstShowing(subs: seq<Subtitle>, nowMs: nat): (r: Option<nat>)
    ensures r.Some? ==> r.value < |subs| && Shows(subs[r.value], nowMs)
    ensures r.Some? ==> forall j :: 0 <= j < r.value ==> !Shows(subs[j], nowMs)
    ensures r.None? <==> forall j :: 0 <= j < |subs| ==> !Shows(subs[j], nowMs)
  {
    if subs == [] then None
    else if Shows(subs[0], nowMs) then Some(0)
    else
      match FirstShowing(subs[1..], nowMs)
      case None => None
      case Some(k) => Some(k + 1)
  }

  /** The search loop of the time-update handler, with the overlay text it leaves. */
  method ActiveSubtitle(subs: seq<Subtitle>, nowMs: nat) returns (active: Option<nat>, found: string)
    ensures active == FirstShowing(subs, nowMs)
    ensures active.Some? ==> found == Caption(subs[active.value])
    ensures active.None? ==> found == ""
  {
    found := "";
    active := None;
    var i := 0;
    while i < |subs|
      invariant 0 <= i <= |subs|
      invariant forall j :: 0 <= j < i ==> !Shows(subs[j], nowMs)
    {
      if nowMs >= subs[i].start && nowMs <= subs[i].start + ShowMs {
        found := Caption(subs[i]);
        active := Some(i);
        return;
      }
      i := i + 1;
    }
  }

  /** What the loop check does to the position: back to the jump target once it is 4500 ms past it. */
  function LoopReset(loopMode: bool, jumpMs: nat, nowMs: nat): (next: nat)
    ensures next == nowMs || next == jumpMs
    ensures !loopMode ==> next == nowMs
    ensures loopMode ==> next < jumpMs + ShowMs
    ensures next != nowMs ==> loopMode && jumpMs + ShowMs <= nowMs
  {
    if loopMode && nowMs >= jumpMs + ShowMs then jumpMs else nowMs
  }

  /** The whole time-update handler: pick the overlay text, then apply the loop check. */
  method OnTimeUpdate(subs: seq<Subtitle>, loopMode: bool, jumpMs: nat, nowMs: nat)
    returns (found: string, next: nat)
    ensures var a := FirstShowing(subs, nowMs);
      && (a.Some? ==> found == Caption(subs[a.value]))
      && (a.None? ==> found == "")
    ensures next == LoopReset(loopMode, jumpMs, nowMs)
  {
    var active;
    active, found := ActiveSubtitle(subs, nowMs);
    next := if loopMode && nowMs >= jumpMs + ShowMs then jumpMs else nowMs;
  }

  /** Consecutive subtitles start at least 4500 ms apart, as the windows of one run do. */
  ghost predicate Spaced(subs: seq<Subtitle>) {
    forall i :: 0 <= i < |subs| - 1 ==> subs[i].start + ShowMs <= subs[i + 1].start
  }

  lemma {:induction false} SpacedApart(subs: seq<Subtitle>, i: nat, j: nat)
    requires Spaced(subs) && i < j < |subs|
    ensures subs[i].start + ShowMs <= subs[j].start
    decreases j - i
  {
    if i + 1 < j {
      SpacedApart(subs, i + 1, j);
    }
  }

  /** Strictly inside a subtitle's span, after its start, that subtitle is the one shown. */
  lemma SpacedShowsCurrent(subs: seq<Subtitle>, k: nat, nowMs: nat)
    requires Spaced(subs) && k < |subs|
    requires subs[k].start < nowMs <= subs[k].start + ShowMs
    ensures FirstShowing(subs, nowMs) == Some(k)
  {
    forall j | 0 <= j < k ensures !Shows(subs[j], nowMs) {
      SpacedApart(subs, j, k);
    }
  }

  /**
   * At the very instant a subtitle starts exactly 4500 ms after the previous
   * one, the previous one is still shown: the first match wins.
   */
  lemma BoundaryShowsPrevious(subs: seq<Subtitle>, k: nat)
    requires Spaced(subs) && 0 < k < |subs|
    requires subs[k - 1].start + ShowMs == subs[k].start
    ensures FirstShowing(subs, subs[k].start) == Some(k - 1)
  {
    forall j | 0 <= j < k - 1 ensures !Shows(subs[j], subs[k].start) {
      SpacedApart(subs, j, k - 1);
    }
  }

  /** Past the span of the last subtitle nothing is shown. */
  lemma SpacedNothingAfterLast(subs: seq<Subtitle>, nowMs: nat)
    requires Spaced(subs) && subs != []
    requires subs[|subs| - 1].start + ShowMs < nowMs
    ensures FirstShowing(subs, nowMs).None?
  {
    forall j | 0 <= j < |subs| - 1 ensures !Shows(subs[j], nowMs) {
      SpacedApart(subs, j, |subs| - 1);
    }
  }

  /**
   * In loop mode, playing the sentence at `subs[k]` from its start, every
   * position the handler leaves is inside that sentence's loop, and past
   * the start the overlay shows that sentence.
   */
  lemma LoopShowsSelected(subs: seq<Subtitle>, k: nat, nowMs: nat)
    requires Spaced(subs) && k < |subs|
    requires subs[k].start <= nowMs
    ensures var next := LoopReset(true, subs[k].start, nowMs);
      && subs[k].start <= next < subs[k].start + ShowMs
      && (subs[k].start < next ==> FirstShowing(subs, next) == Some(k))
  {
    var next := LoopReset(true, subs[k].start, nowMs);
    if subs[k].start < next {
      SpacedShowsCurrent(subs, k, next);
    }
  }
}
