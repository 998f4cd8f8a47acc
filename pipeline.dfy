/**
 * The transcription run of `run_v16_workflow`: resolve the translation
 * source code, walk the 4500 ms windows in order, recognise each, drop
 * silent chunks, translate and store the others, and assemble the SRT. A
 * service that still fails after its retries aborts the run; rows already
 * inserted stay in the corpus.
 */
module Pipeline {
  import opened Wrappers
  import opened RobustCall
  import opened Timeline
  import opened Text
  import opened Languages
  import opened Corpus
  import opened Subtitles

  /** One `robust_predict` request to an external service, with its arguments. */
  datatype ServiceCall =
    | ResolveSource(ethnonym: string)
    | Recognize(model: string, start: nat, end: nat)
    | Translate(text: string, source: string, target: string)

  /** Where a run stopped: at a window, or (None) at the source-code lookup. */
  datatype Abort = Abort(window: Option<Window>, error: string)

  /** What a run has done so far: accepted segments, requests made, and the failure that stopped it. */
  datatype Progress = Progress(segments: seq<Segment>, calls: seq<ServiceCall>, failure: Option<Abort>)

  datatype RunResult = Finished(srt: string) | Aborted(window: Option<Window>, error: string)

  /** A service as seen by the run: for a window start and an attempt number, what the call does. */
  type Service = nat -> nat -> Attempt<string>

  /** Translating a kept chunk `raw` of window `w` and recording its segment. */
  function TranslateStep(p: Progress, w: Window, raw: string, src: string, mt: Service): Progress {
    var calls := p.calls + [Translate(raw, src, TargetCode)];
    match Retry(mt(w.start))
    case Failure(e) => Progress(p.segments, calls, Some(Abort(Some(w), e)))
    case Success(trans) => Progress(p.segments + [Segment(w.start, w.end, raw, trans)], calls, None)
  }

  /** The body of the while loop for one window. */
  function StepWindow(p: Progress, w: Window, lang: Language, src: string, asr: Service, mt: Service): Progress {
    var calls := p.calls + [Recognize(AsrModel(lang), w.start, w.end)];
    match Retry(asr(w.start))
    case Failure(e) => Progress(p.segments, calls, Some(Abort(Some(w), e)))
    case Success(raw) =>
      if !Keep(raw) then Progress(p.segments, calls, None)
      else TranslateStep(Progress(p.segments, calls, None), w, raw, src, mt)
  }

  /** The loop over a sequence of windows, stopping at the first failure. */
  function Scan(ws: seq<Window>, lang: Language, src: string, asr: Service, mt: Service): Progress {
    if ws == [] then Progress([], [], None)
    else
      var p := Scan(ws[..|ws| - 1], lang, src, asr, mt);
      if p.failure.Some? then p else StepWindow(p, ws[|ws| - 1], lang, src, asr, mt)
  }

  /** A whole run over a recording of `duration` ms. */
  function Run(lang: Language, duration: nat, lookup: nat -> Attempt<string>, asr: Service, mt: Service): Progress {
    var first := [ResolveSource(Ethnonym(lang))];
    match Retry(lookup)
    case Failure(e) => Progress([], first, Some(Abort(None, e)))
    case Success(src) =>
      var p := Scan(Windows(duration), lang, src, asr, mt);
      p.(calls := first + p.calls)
  }

  function ResultOf(p: Progress): RunResult {
    match p.failure
    case Some(a) => Aborted(a.window, a.error)
    case None => Finished(FreshSrt(p.segments))
  }

  lemma ScanSnoc(ws: seq<Window>, w: Window, lang: Language, src: string, asr: Service, mt: Service)
    ensures var p := Scan(ws, lang, src, asr, mt);
      Scan(ws + [w], lang, src, asr, mt) == if p.failure.Some? then p else StepWindow(p, w, lang, src, asr, mt)
  {
    assert (ws + [w])[..|ws|] == ws;
  }

  /** Once a window has failed, later windows are never processed. */
  lemma {:induction false} ScanStopsAfterFailure(a: seq<Window>, b: seq<Window>, lang: Language, src: string,
                                                 asr: Service, mt: Service)
    requires Scan(a, lang, src, asr, mt).failure.Some?
    ensures Scan(a + b, lang, src, asr, mt) == Scan(a, lang, src, asr, mt)
    decreases |b|
  {
    if b != [] {
      var b' := b[..|b| - 1];
      ScanStopsAfterFailure(a, b', lang, src, asr, mt);
      assert a + b == (a + b') + [b[|b| - 1]];
      ScanSnoc(a + b', b[|b| - 1], lang, src, asr, mt);
    } else {
      assert a + b == a;
    }
  }

  /** A run whose source-code lookup succeeds is the window scan, after the lookup request. */
  lemma RunAfterLookup(lang: Language, duration: nat, lookup: nat -> Attempt<string>, asr: Service, mt: Service)
    requires Retry(lookup).Success?
    ensures var p := Scan(Windows(duration), lang, Retry(lookup).value, asr, mt);
      Run(lang, duration, lookup, asr, mt) == p.(calls := [ResolveSource(Ethnonym(lang))] + p.calls)
  {
  }

  /**
   * The end of the loop body for a translated chunk: insert its row and
   * append its SRT block, numbered `idx`, ending 100 ms before the window.
   */
  method StoreSegment(store: CorpusStore, lang: Language, videoPath: string, stamp: nat -> string, seg: Segment,
                      idx: nat, srtContent: seq<string>, ghost segs: seq<Segment>,
                      ghost base: seq<Row>, ghost firstId: nat)
    returns (idx': nat, srtContent': seq<string>)
    requires store.Valid()
    requires idx == |segs| + 1 && srtContent == FreshBlocks(segs)
    requires store.rows == base + NewRows(firstId, segs, lang, videoPath, stamp)
    requires store.nextId == firstId + |segs|
    modifies store
    ensures store.Valid()
    ensures idx' == |segs + [seg]| + 1 && srtContent' == FreshBlocks(segs + [seg])
    ensures store.rows == base + NewRows(firstId, segs + [seg], lang, videoPath, stamp)
    ensures store.nextId == firstId + |segs + [seg]|
  {
    var _ := store.Insert(lang, seg.raw, seg.trans, seg.start, videoPath, stamp(seg.start));
    FreshBlocksSnoc(segs, seg);
    NewRowsSnoc(firstId, segs, seg, lang, videoPath, stamp);
    srtContent' := srtContent + [Block(idx, seg.start, seg.end - EndTrimMs, seg.raw, seg.trans)];
    idx' := idx + 1;
  }

  /**
   * The tail of the loop body for a kept chunk: translate it, then store
   * it as `StoreSegment` does. `segs` and `calls` are the run so far, `base` and
   * `firstId` the rows and the id counter before the run.
   */
  method TranslateAndStore(store: CorpusStore, w: Window, raw: string, lang: Language, videoPath: string,
                           src: string, mt: Service, stamp: nat -> string, idx: nat, srtContent: seq<string>,
                           calls: seq<ServiceCall>, ghost segs: seq<Segment>, ghost base: seq<Row>, ghost firstId: nat)
    returns (failure: Option<Abort>, idx': nat, srtContent': seq<string>, calls': seq<ServiceCall>,
             ghost segs': seq<Segment>)
    requires store.Valid()
    requires idx == |segs| + 1 && srtContent == FreshBlocks(segs)
    requires store.rows == base + NewRows(firstId, segs, lang, videoPath, stamp)
    requires store.nextId == firstId + |segs|
    modifies store
    ensures store.Valid()
    ensures TranslateStep(Progress(segs, calls, None), w, raw, src, mt) == Progress(segs', calls', failure)
    ensures idx' == |segs'| + 1 && srtContent' == FreshBlocks(segs')
    ensures store.rows == base + NewRows(firstId, segs', lang, videoPath, stamp)
    ensures store.nextId == firstId + |segs'|
  {
    calls' := calls + [Translate(raw, src, TargetCode)];
    var trans, _, _ := RobustPredict(mt(w.start));
    if trans.Failure? {
      return Some(Abort(Some(w), trans.error)), idx, srtContent, calls', segs;
    }
    var seg := Segment(w.start, w.end, raw, trans.value);
    idx', srtContent' := StoreSegment(store, lang, videoPath, stamp, seg, idx, srtContent, segs, base, firstId);
    segs' := segs + [seg];
    failure := None;
  }

  /**
   * One pass of the loop body for window `w`: recognise it, skip a silent
   * chunk, and hand a kept one on. `visited` are the windows before this
   * one and `rest` the windows after it; the other arguments are as for
   * `TranslateAndStore`.
   */
  method ProcessWindow(store: CorpusStore, w: Window, lang: Language, videoPath: string, src: string,
                       asr: Service, mt: Service, stamp: nat -> string, idx: nat, srtContent: seq<string>,
                       calls: seq<ServiceCall>, ghost segs: seq<Segment>, ghost visited: seq<Window>,
                       ghost rest: seq<Window>, ghost base: seq<Row>, ghost firstId: nat)
    returns (failure: Option<Abort>, idx': nat, srtContent': seq<string>, calls': seq<ServiceCall>,
             ghost segs': seq<Segment>)
    requires store.Valid()
    requires idx == |segs| + 1 && srtContent == FreshBlocks(segs)
    requires Scan(visited, lang, src, asr, mt) == Progress(segs, calls, None)
    requires store.rows == base + NewRows(firstId, segs, lang, videoPath, stamp)
    requires store.nextId == firstId + |segs|
    modifies store
    ensures store.Valid()
    ensures Scan(visited + [w], lang, src, asr, mt) == Progress(segs', calls', failure)
    ensures failure.Some? ==> Scan(visited + [w] + rest, lang, src, asr, mt) == Scan(visited + [w], lang, src, asr, mt)
    ensures idx' == |segs'| + 1 && srtContent' == FreshBlocks(segs')
    ensures store.rows == base + NewRows(firstId, segs', lang, videoPath, stamp)
    ensures store.nextId == firstId + |segs'|
  {
    ScanSnoc(visited, w, lang, src, asr, mt);
    calls' := calls + [Recognize(AsrModel(lang), w.start, w.end)];
    var raw, _, _ := RobustPredict(asr(w.start));
    if raw.Failure? {
      failure := Some(Abort(Some(w), raw.error));
      ScanStopsAfterFailure(visited + [w], rest, lang, src, asr, mt);
      return failure, idx, srtContent, calls', segs;
    }
    if !Keep(raw.value) {
      return None, idx, srtContent, calls', segs;
    }
    failure, idx', srtContent', calls', segs' :=
      TranslateAndStore(store, w, raw.value, lang, videoPath, src, mt, stamp, idx, srtContent, calls', segs,
                        base, firstId);
    if failure.Some? {
      ScanStopsAfterFailure(visited + [w], rest, lang, src, asr, mt);
    }
  }

  /**
   * The `while current_start < duration_ms` loop, after the source code is
   * known: the requests it makes, where it stopped, the SRT blocks it
   * collected and the rows it inserted are those of `Scan` over the windows.
   */
  method ScanWindows(store: CorpusStore, lang: Language, videoPath: string, durationMs: nat, src: string,
                     asr: Service, mt: Service, stamp: nat -> string)
    returns (failure: Option<Abort>, srtContent: seq<string>, calls: seq<ServiceCall>, ghost segs: seq<Segment>)
    requires store.Valid()
    modifies store
    ensures store.Valid()
    ensures Scan(Windows(durationMs), lang, src, asr, mt) == Progress(segs, calls, failure)
    ensures srtContent == FreshBlocks(segs)
    ensures store.rows == old(store.rows) + NewRows(old(store.nextId), segs, lang, videoPath, stamp)
    ensures store.nextId == old(store.nextId) + |segs|
  {
    var idx := 1;
    var currentStart := 0;
    srtContent, calls, segs := [], [], [];
    ghost var visited: seq<Window> := [];
    while currentStart < durationMs
      invariant currentStart <= durationMs
      invariant visited + WindowsFrom(currentStart, durationMs) == Windows(durationMs)
      invariant Scan(visited, lang, src, asr, mt) == Progress(segs, calls, None)
      invariant idx == |segs| + 1
      invariant srtContent == FreshBlocks(segs)
      invariant store.Valid()
      invariant store.rows == old(store.rows) + NewRows(old(store.nextId), segs, lang, videoPath, stamp)
      invariant store.nextId == old(store.nextId) + |segs|
      decreases durationMs - currentStart
    {
      var currentEnd := Min(currentStart + IntervalMs, durationMs);
      var w := Window(currentStart, currentEnd);
      ghost var rest := WindowsFrom(currentEnd, durationMs);
      assert visited + [w] + rest == Windows(durationMs) by {
        WindowsFromStep(currentStart, durationMs);
      }
      var stepFailure;
      stepFailure, idx, srtContent, calls, segs :=
        ProcessWindow(store, w, lang, videoPath, src, asr, mt, stamp, idx, srtContent, calls, segs, visited, rest,
                      old(store.rows), old(store.nextId));
      if stepFailure.Some? {
        failure := stepFailure;
        return;
      }
      visited := visited + [w];
      currentStart := currentEnd;
    }
    assert WindowsFrom(currentStart, durationMs) == [];
    assert visited == Windows(durationMs);
    failure := None;
  }

  /**
   * `run_v16_workflow` from the source-code lookup to the joined SRT text.
   * `stamp` gives the `created_at` text of the row inserted for the window
   * starting at a given offset; the service oracles stand for the
   * recognition and translation back ends.
   */
  method RunWorkflow(store: CorpusStore, lang: Language, videoPath: string, durationMs: nat,
                     lookup: nat -> Attempt<string>, asr: Service, mt: Service, stamp: nat -> string)
    returns (r: RunResult, calls: seq<ServiceCall>)
    requires store.Valid()
    modifies store
    ensures store.Valid()
    ensures var p := Run(lang, durationMs, lookup, asr, mt);
      && r == ResultOf(p)
      && calls == p.calls
      && store.rows == old(store.rows) + NewRows(old(store.nextId), p.segments, lang, videoPath, stamp)
      && store.nextId == old(store.nextId) + |p.segments|
  {
    calls := [ResolveSource(Ethnonym(lang))];
    var code, _, _ := RobustPredict(lookup);
    if code.Failure? {
      r := Aborted(None, code.error);
      return;
    }
    RunAfterLookup(lang, durationMs, lookup, asr, mt);
    var failure, srtContent, scanCalls, segs := ScanWindows(store, lang, videoPath, durationMs, code.value, asr, mt, stamp);
    calls := calls + scanCalls;
    if failure.Some? {
      r := Aborted(failure.value.window, failure.value.error);
    } else {
      r := Finished(JoinBlocks(srtContent));
    }
  }
}
