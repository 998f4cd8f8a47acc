/**
 * What a transcription run does, stated window by window: which windows
 * become segments, which requests are made, where a run stops, and how the
 * rows it leaves in the corpus rebuild into the SRT it wrote.
 */
module RunFacts {
  import opened Wrappers
  import opened RobustCall
  import opened Timeline
  import opened Text
  import opened Languages
  import opened Corpus
  import opened Edits
  import opened Subtitles
  import opened Pipeline

  /** Window `w` was recognised and its text survives the silence filter. */
  ghost predicate Accepted(w: Window, asr: Service) {
    Retry(asr(w.start)).Success? && Keep(Retry(asr(w.start)).value)
  }

  /** `s` is the segment of window `w`: the window's bounds, its kept recognition and its translation. */
  ghost predicate SegmentOf(s: Segment, w: Window, asr: Service, mt: Service) {
    && s.start == w.start && s.end == w.end
    && Retry(asr(w.start)) == Success(s.raw) && Keep(s.raw)
    && Retry(mt(w.start)) == Success(s.trans)
  }

  /** The error a window fails with, when either of its services fails. */
  ghost predicate FailsWith(w: Window, asr: Service, mt: Service, e: string) {
    || Retry(asr(w.start)) == Failure(e)
    || (Accepted(w, asr) && Retry(mt(w.start)) == Failure(e))
  }

  /** Every segment in `segs` is the segment of some window in `ws`. */
  ghost predicate FromWindows(segs: seq<Segment>, ws: seq<Window>, asr: Service, mt: Service) {
    forall i :: 0 <= i < |segs| ==> exists j :: 0 <= j < |ws| && SegmentOf(segs[i], ws[j], asr, mt)
  }

  /** Every window in `ws` covers some time. */
  ghost predicate Proper(ws: seq<Window>) {
    forall i :: 0 <= i < |ws| ==> ws[i].start < ws[i].end
  }

  /** Every request a run makes is either a recognition with the language's model or a translation into the target. */
  ghost predicate WellFormedCall(c: ServiceCall, lang: Language, src: string) {
    || (c.Recognize? && c.model == AsrModel(lang) && c.start < c.end)
    || (c.Translate? && c.source == src && c.target == TargetCode && Keep(c.text))
  }

  ghost predicate AllWellFormed(calls: seq<ServiceCall>, lang: Language, src: string) {
    forall k :: 0 <= k < |calls| ==> WellFormedCall(calls[k], lang, src)
  }

  /**
   * The skip rule for one window whose recognition succeeded: a translation
   * request is made exactly when the text is kept, and a segment is added
   * exactly when the text is kept and its translation succeeds.
   */
  lemma SkipRule(p: Progress, w: Window, lang: Language, src: string, asr: Service, mt: Service)
    requires Retry(asr(w.start)).Success?
    ensures var q := StepWindow(p, w, lang, src, asr, mt);
      var raw := Retry(asr(w.start)).value;
      && q.calls[..|p.calls| + 1] == p.calls + [Recognize(AsrModel(lang), w.start, w.end)]
      && (|q.calls| == |p.calls| + 2 <==> Keep(raw))
      && (|q.calls| == |p.calls| + 1 <==> !Keep(raw))
      && (Keep(raw) ==> q.calls[|p.calls| + 1] == Translate(raw, src, TargetCode))
      && (|q.segments| == |p.segments| + 1 <==> Keep(raw) && Retry(mt(w.start)).Success?)
      && (|q.segments| == |p.segments| <==> !(Keep(raw) && Retry(mt(w.start)).Success?))
      && (!Keep(raw) ==> q == Progress(p.segments, p.calls + [Recognize(AsrModel(lang), w.start, w.end)], None))
  {
  }

  /** One window adds at most one segment, which is that window's own; it fails only when one of its services does. */
  lemma StepWindowShape(p: Progress, w: Window, lang: Language, src: string, asr: Service, mt: Service)
    ensures var q := StepWindow(p, w, lang, src, asr, mt);
      && q.segments[..|p.segments|] == p.segments
      && |p.segments| <= |q.segments| <= |p.segments| + 1
      && (|q.segments| == |p.segments| + 1 ==> SegmentOf(q.segments[|p.segments|], w, asr, mt))
      && (q.failure.None? && Accepted(w, asr) ==> |q.segments| == |p.segments| + 1)
      && (q.failure.None? <==> Retry(asr(w.start)).Success? && (Accepted(w, asr) ==> Retry(mt(w.start)).Success?))
      && (q.failure.Some? ==> q.failure.value.window == Some(w) && FailsWith(w, asr, mt, q.failure.value.error))
      && q.calls[..|p.calls|] == p.calls
      && |q.calls| == |p.calls| + |q.segments| - |p.segments| + 1 + (if q.failure.Some? && Accepted(w, asr) then 1 else 0)
  {
    var q := StepWindow(p, w, lang, src, asr, mt);
    assert q.segments[..|p.segments|] == p.segments;
    assert q.calls[..|p.calls|] == p.calls;
  }

  /** Each request of one window is well formed. */
  lemma StepWindowCalls(p: Progress, w: Window, lang: Language, src: string, asr: Service, mt: Service)
    requires w.start < w.end
    ensures var q := StepWindow(p, w, lang, src, asr, mt);
      forall k :: |p.calls| <= k < |q.calls| ==> WellFormedCall(q.calls[k], lang, src)
  {
  }

  /** Every segment of a scan, finished or aborted, is the segment of one of its windows. */
  lemma {:induction false} SegmentsFromWindows(ws: seq<Window>, lang: Language, src: string, asr: Service, mt: Service)
    ensures FromWindows(Scan(ws, lang, src, asr, mt).segments, ws, asr, mt)
  {
    if ws != [] {
      var ws' := ws[..|ws| - 1];
      var w := ws[|ws| - 1];
      SegmentsFromWindows(ws', lang, src, asr, mt);
      var p := Scan(ws', lang, src, asr, mt);
      var q := Scan(ws, lang, src, asr, mt);
      if p.failure.None? {
        StepWindowShape(p, w, lang, src, asr, mt);
      }
      forall i | 0 <= i < |q.segments| ensures exists j :: 0 <= j < |ws| && SegmentOf(q.segments[i], ws[j], asr, mt) {
        if i < |p.segments| {
          assert q.segments[i] == p.segments[i];
          assert FromWindows(p.segments, ws', asr, mt);
          var j :| 0 <= j < |ws'| && SegmentOf(p.segments[i], ws'[j], asr, mt);
          assert ws[j] == ws'[j];
        } else {
          assert SegmentOf(q.segments[i], ws[|ws| - 1], asr, mt);
        }
      }
    }
  }

  ghost predicate StartsIncrease(ws: seq<Window>) {
    forall i, j :: 0 <= i < j < |ws| ==> ws[i].start < ws[j].start
  }

  ghost predicate SegmentStartsIncrease(segs: seq<Segment>) {
    forall i, j :: 0 <= i < j < |segs| ==> segs[i].start < segs[j].start
  }

  /** Over windows in time order the segments are in time order too, so the SRT blocks run forwards. */
  lemma {:induction false} SegmentsInOrder(ws: seq<Window>, lang: Language, src: string, asr: Service, mt: Service)
    requires StartsIncrease(ws)
    ensures SegmentStartsIncrease(Scan(ws, lang, src, asr, mt).segments)
  {
    if ws != [] {
      var ws' := ws[..|ws| - 1];
      var w := ws[|ws| - 1];
      assert StartsIncrease(ws') by {
        forall i, j | 0 <= i < j < |ws'| ensures ws'[i].start < ws'[j].start {
          assert ws'[i] == ws[i] && ws'[j] == ws[j];
        }
      }
      SegmentsInOrder(ws', lang, src, asr, mt);
      SegmentsFromWindows(ws', lang, src, asr, mt);
      var p := Scan(ws', lang, src, asr, mt);
      if p.failure.None? {
        StepWindowShape(p, w, lang, src, asr, mt);
        var q := Scan(ws, lang, src, asr, mt);
        forall i, j | 0 <= i < j < |q.segments| ensures q.segments[i].start < q.segments[j].start {
          assert q.segments[i] == p.segments[i];
          if j < |p.segments| {
            assert q.segments[j] == p.segments[j];
          } else {
            assert FromWindows(p.segments, ws', asr, mt);
            var k :| 0 <= k < |ws'| && SegmentOf(p.segments[i], ws'[k], asr, mt);
            assert ws'[k] == ws[k];
          }
        }
      }
    }
  }

  /**
   * A scan that finishes recognised every window, translated every kept
   * chunk, and holds a segment for every accepted window; it made one
   * recognition request per window and one translation per segment.
   */
  lemma {:induction false} FinishedScan(ws: seq<Window>, lang: Language, src: string, asr: Service, mt: Service)
    requires Scan(ws, lang, src, asr, mt).failure.None?
    ensures var q := Scan(ws, lang, src, asr, mt);
      && (forall j :: 0 <= j < |ws| ==> Retry(asr(ws[j].start)).Success?)
      && (forall j :: 0 <= j < |ws| && Accepted(ws[j], asr) ==>
            exists i :: 0 <= i < |q.segments| && SegmentOf(q.segments[i], ws[j], asr, mt))
      && |q.calls| == |ws| + |q.segments|
  {
    if ws != [] {
      var ws' := ws[..|ws| - 1];
      var w := ws[|ws| - 1];
      var p := Scan(ws', lang, src, asr, mt);
      assert p.failure.None?;
      FinishedScan(ws', lang, src, asr, mt);
      StepWindowShape(p, w, lang, src, asr, mt);
      var q := Scan(ws, lang, src, asr, mt);
      forall j | 0 <= j < |ws| ensures Retry(asr(ws[j].start)).Success? {
        if j < |ws'| {
          assert ws[j] == ws'[j];
        }
      }
      forall j | 0 <= j < |ws| && Accepted(ws[j], asr)
        ensures exists i :: 0 <= i < |q.segments| && SegmentOf(q.segments[i], ws[j], asr, mt)
      {
        if j < |ws'| {
          assert ws[j] == ws'[j];
          var i :| 0 <= i < |p.segments| && SegmentOf(p.segments[i], ws'[j], asr, mt);
          assert q.segments[i] == p.segments[i];
        } else {
          assert SegmentOf(q.segments[|p.segments|], ws[j], asr, mt);
        }
      }
    }
  }

  /** Every request a scan makes is well formed: no translation is ever asked for a dropped chunk. */
  lemma {:induction false} ScanCalls(ws: seq<Window>, lang: Language, src: string, asr: Service, mt: Service)
    requires Proper(ws)
    ensures AllWellFormed(Scan(ws, lang, src, asr, mt).calls, lang, src)
  {
    if ws != [] {
      var ws' := ws[..|ws| - 1];
      var w := ws[|ws| - 1];
      var p := Scan(ws', lang, src, asr, mt);
      var q := Scan(ws, lang, src, asr, mt);
      assert Proper(ws') by {
        forall i | 0 <= i < |ws'| ensures ws'[i].start < ws'[i].end {
          assert ws'[i] == ws[i];
        }
      }
      ScanCalls(ws', lang, src, asr, mt);
      if p.failure.None? {
        StepWindowShape(p, w, lang, src, asr, mt);
        StepWindowCalls(p, w, lang, src, asr, mt);
        assert q == StepWindow(p, w, lang, src, asr, mt);
        forall k | 0 <= k < |q.calls| ensures WellFormedCall(q.calls[k], lang, src) {
          if k < |p.calls| {
            assert q.calls[k] == p.calls[k];
            assert WellFormedCall(p.calls[k], lang, src);
          } else {
            assert WellFormedCall(StepWindow(p, w, lang, src, asr, mt).calls[k], lang, src);
          }
        }
      }
    }
  }

  /** The scan stopped at window `j`: every earlier window went through, and nothing after `j` was looked at. */
  ghost predicate StopsAt(ws: seq<Window>, j: nat, lang: Language, src: string, asr: Service, mt: Service) {
    var q := Scan(ws, lang, src, asr, mt);
    && j < |ws|
    && Scan(ws[..j], lang, src, asr, mt).failure.None?
    && q == Scan(ws[..j + 1], lang, src, asr, mt)
    && q.failure.Some? && q.failure.value.window == Some(ws[j])
    && FailsWith(ws[j], asr, mt, q.failure.value.error)
  }

  /** An aborted scan stopped at the first window whose recognition or translation failed. */
  lemma {:induction false} AbortedScan(ws: seq<Window>, lang: Language, src: string, asr: Service, mt: Service)
    requires Scan(ws, lang, src, asr, mt).failure.Some?
    ensures exists j :: StopsAt(ws, j, lang, src, asr, mt)
  {
    assert ws != [];
    var ws' := ws[..|ws| - 1];
    if Scan(ws', lang, src, asr, mt).failure.Some? {
      AbortedScan(ws', lang, src, asr, mt);
      var j: nat :| StopsAt(ws', j, lang, src, asr, mt);
      StopsAtExtend(ws, j, lang, src, asr, mt);
    } else {
      StopsAtLast(ws, lang, src, asr, mt);
    }
  }

  /** A stop inside the scan of all windows but the last is a stop of the whole scan. */
  lemma StopsAtExtend(ws: seq<Window>, j: nat, lang: Language, src: string, asr: Service, mt: Service)
    requires ws != [] && StopsAt(ws[..|ws| - 1], j, lang, src, asr, mt)
    ensures StopsAt(ws, j, lang, src, asr, mt)
  {
    var ws' := ws[..|ws| - 1];
    assert ws'[..j] == ws[..j] && ws'[..j + 1] == ws[..j + 1];
  }

  /** A scan whose first failure is at its last window stops there. */
  lemma StopsAtLast(ws: seq<Window>, lang: Language, src: string, asr: Service, mt: Service)
    requires ws != [] && Scan(ws[..|ws| - 1], lang, src, asr, mt).failure.None?
    requires Scan(ws, lang, src, asr, mt).failure.Some?
    ensures StopsAt(ws, |ws| - 1, lang, src, asr, mt)
  {
    var ws' := ws[..|ws| - 1];
    StepWindowShape(Scan(ws', lang, src, asr, mt), ws[|ws| - 1], lang, src, asr, mt);
    assert ws[..|ws|] == ws;
  }

  /** The windows of a recording are in time order. */
  lemma WindowsInOrder(duration: nat)
    ensures StartsIncrease(Windows(duration))
  {
    var ws := Windows(duration);
    WindowsTile(duration);
    forall i, j | 0 <= i < j < |ws| ensures ws[i].start < ws[j].start {
      WindowStartsIncrease(ws, 0, duration, i, j);
    }
  }

  /**
   * After a run over a recording whose length is a multiple of 4500 ms,
   * on a video with no earlier rows and with an empty edit buffer, the
   * rebuilt SRT of the export is the SRT the run wrote.
   */
  lemma ExportMatchesRun(lang: Language, duration: nat, src: string, asr: Service, mt: Service,
                         old_: seq<Row>, firstId: nat, path: string, stamp: nat -> string)
    requires duration % IntervalMs == 0
    requires forall x :: x in old_ ==> x.videoPath != path
    ensures var segs := Scan(Windows(duration), lang, src, asr, mt).segments;
      RebuiltSrt(QueryByVideo(old_ + NewRows(firstId, segs, lang, path, stamp), path), []) == FreshSrt(segs)
  {
    var ws := Windows(duration);
    var segs := Scan(ws, lang, src, asr, mt).segments;
    var added := NewRows(firstId, segs, lang, path, stamp);
    WindowsInOrder(duration);
    SegmentsInOrder(ws, lang, src, asr, mt);
    SegmentsFromWindows(ws, lang, src, asr, mt);
    FullWindowsWhenDivisible(duration);
    forall i | 0 <= i < |segs| ensures segs[i].end == segs[i].start + IntervalMs {
      assert FromWindows(segs, ws, asr, mt);
      var j :| 0 <= j < |ws| && SegmentOf(segs[i], ws[j], asr, mt);
    }
    assert SortedByStart(added) by {
      forall i, j | 0 <= i < j < |added| ensures added[i].startMs <= added[j].startMs {
        assert added[i].startMs == segs[i].start && added[j].startMs == segs[j].start;
      }
    }
    QueryOfAppendedRows(old_, added, path);
    RebuiltSrtOfRunRows(firstId, segs, lang, path, stamp);
  }

  /** A failed lookup of the source code aborts the run before any window, with the lookup's error. */
  lemma LookupFailureAborts(lang: Language, duration: nat, lookup: nat -> Attempt<string>, asr: Service, mt: Service)
    requires Retry(lookup).Failure?
    ensures Run(lang, duration, lookup, asr, mt)
         == Progress([], [ResolveSource(Ethnonym(lang))], Some(Abort(None, lookup(MaxAttempts - 1).error)))
  {
    RetryMeaning(lookup);
  }

  /**
   * Three failed recognitions of the first chunk abort the run there:
   * no segment, two requests, and the third attempt's error.
   */
  lemma FirstChunkFails(lang: Language, duration: nat, lookup: nat -> Attempt<string>, asr: Service, mt: Service)
    requires duration > 0 && Retry(lookup).Success?
    requires asr(0)(0).Raised? && asr(0)(1).Raised? && asr(0)(2).Raised?
    ensures var w := Window(0, Min(IntervalMs, duration));
      && Run(lang, duration, lookup, asr, mt)
         == Progress([], [ResolveSource(Ethnonym(lang)), Recognize(AsrModel(lang), w.start, w.end)],
                     Some(Abort(Some(w), asr(0)(2).error)))
      && ResultOf(Run(lang, duration, lookup, asr, mt)) == Aborted(Some(w), asr(0)(2).error)
  {
    var w := Window(0, Min(IntervalMs, duration));
    var src := Retry(lookup).value;
    WindowsFromStep(0, duration);
    var rest := WindowsFrom(w.end, duration);
    assert Windows(duration) == [w] + rest;
    ScanSnoc([], w, lang, src, asr, mt);
    assert [] + [w] == [w];
    ScanStopsAfterFailure([w], rest, lang, src, asr, mt);
  }

  /**
   * A 9000 ms recording whose second chunk is silence: one segment, one
   * translation, and an SRT of a single block numbered 1.
   */
  lemma SilentSecondChunk(lang: Language, src: string, lookup: nat -> Attempt<string>, asr: Service, mt: Service,
                          raw: string, trans: string, silence: string)
    requires Retry(lookup) == Success(src)
    requires Retry(asr(0)) == Success(raw) && Keep(raw) && Retry(mt(0)) == Success(trans)
    requires Retry(asr(IntervalMs)) == Success(silence) && !Keep(silence)
    ensures var p := Run(lang, 2 * IntervalMs, lookup, asr, mt);
      && p.segments == [Segment(0, IntervalMs, raw, trans)]
      && p.calls == [ResolveSource(Ethnonym(lang)), Recognize(AsrModel(lang), 0, IntervalMs),
                     Translate(raw, src, TargetCode), Recognize(AsrModel(lang), IntervalMs, 2 * IntervalMs)]
      && ResultOf(p) == Finished(Block(1, 0, IntervalMs - EndTrimMs, raw, trans))
  {
    SilentSecondChunkScan(lang, src, asr, mt, raw, trans, silence);
    FreshSrtOne(Segment(0, IntervalMs, raw, trans));
  }

  lemma SilentSecondChunkScan(lang: Language, src: string, asr: Service, mt: Service,
                              raw: string, trans: string, silence: string)
    requires Retry(asr(0)) == Success(raw) && Keep(raw) && Retry(mt(0)) == Success(trans)
    requires Retry(asr(IntervalMs)) == Success(silence) && !Keep(silence)
    ensures Scan(Windows(2 * IntervalMs), lang, src, asr, mt)
         == Progress([Segment(0, IntervalMs, raw, trans)],
                     [Recognize(AsrModel(lang), 0, IntervalMs), Translate(raw, src, TargetCode),
                      Recognize(AsrModel(lang), IntervalMs, 2 * IntervalMs)], None)
  {
    var w0, w1 := Window(0, IntervalMs), Window(IntervalMs, 2 * IntervalMs);
    assert WindowsFrom(IntervalMs, 2 * IntervalMs) == [w1] + WindowsFrom(2 * IntervalMs, 2 * IntervalMs);
    assert Windows(2 * IntervalMs) == [w0] + [w1];
    ScanSnoc([], w0, lang, src, asr, mt);
    assert [] + [w0] == [w0];
    ScanSnoc([w0], w1, lang, src, asr, mt);
  }
}
