/**
 * The proofreading session: the edit buffer `temp_edits`, the time of the
 * last autosave and the player's jump target, with the operations of the
 * proofreading and maintenance tabs that read and write them. The clock is
 * a parameter in milliseconds.
 */
module Workstation {
  import opened Wrappers
  import opened Corpus
  import opened Edits
  import opened Subtitles
  import opened Playback

  /** Autosave runs when more than 60 s have passed since the last one. */
  const AutosaveIntervalMs := 60000

  /** The player's list: every row of the video, in query order, texts read buffer-over-store. */
  function SubtitlesOf(rows: seq<Row>, es: seq<Edit>): (subs: seq<Subtitle>)
    ensures |subs| == |rows|
  {
    seq(|rows|, i requires 0 <= i < |rows| =>
      Subtitle(rows[i].startMs, Overlay(es, EditKey(RawText, rows[i].id), rows[i].rawText),
               Overlay(es, EditKey(TranslatedText, rows[i].id), rows[i].translatedText)))
  }

  /**
   * The export reads the buffer over rows queried before the autosave that
   * precedes it. That is exactly what the store holds for the video once
   * the autosave has run, read with no buffer at all.
   */
  lemma ExportEqualsSavedStore(rows: seq<Row>, es: seq<Edit>, path: string)
    requires AllCanonical(es) && KeysSplittable(es)
    ensures RebuiltSrt(QueryByVideo(rows, path), es) == RebuiltSrt(QueryByVideo(ApplyEdits(rows, es), path), [])
  {
    AutosaveIsMap(rows, es);
    QueryMapRows(rows, SaveMap(es), path);
    RebuiltOfSavedRows(QueryByVideo(rows, path), es);
  }

  /** The player shows the same texts before and after an autosave. */
  lemma SubtitlesStableUnderAutosave(rows: seq<Row>, es: seq<Edit>)
    requires AllCanonical(es) && KeysSplittable(es)
    ensures SubtitlesOf(ApplyEdits(rows, es), es) == SubtitlesOf(rows, es)
    ensures SubtitlesOf(ApplyEdits(rows, es), []) == SubtitlesOf(rows, es)
  {
    var saved := ApplyEdits(rows, es);
    ApplyEditsPointwise(rows, es);
    forall i | 0 <= i < |rows|
      ensures SubtitlesOf(saved, es)[i] == SubtitlesOf(rows, es)[i]
      ensures SubtitlesOf(saved, [])[i] == SubtitlesOf(rows, es)[i]
    {
      OverlayStableUnderAutosave(rows, es, i, RawText);
      OverlayStableUnderAutosave(rows, es, i, TranslatedText);
    }
  }

  /**
   * The per-row save writes the buffered texts of row `id`: afterwards that
   * row holds its buffer-over-store view and every other row is unchanged.
   */
  lemma SaveRowMatchesOverlay(rows: seq<Row>, es: seq<Edit>, id: nat)
    requires Lookup(es, EditKey(RawText, id)).Some? && Lookup(es, EditKey(TranslatedText, id)).Some?
    ensures var saved := SetField(SetField(rows, RawText, id, Lookup(es, EditKey(RawText, id)).value),
                                  TranslatedText, id, Lookup(es, EditKey(TranslatedText, id)).value);
      && |saved| == |rows|
      && (forall i :: 0 <= i < |rows| && rows[i].id == id ==> saved[i] == SavedRow(es, rows[i]))
      && (forall i :: 0 <= i < |rows| && rows[i].id != id ==> saved[i] == rows[i])
  {
    var saved := SetField(SetField(rows, RawText, id, Lookup(es, EditKey(RawText, id)).value),
                          TranslatedText, id, Lookup(es, EditKey(TranslatedText, id)).value);
    forall i | 0 <= i < |rows| ensures rows[i].id == id ==> saved[i] == SavedRow(es, rows[i]) {
      if rows[i].id == id {
        RowsEqual(saved[i], SavedRow(es, rows[i]));
      }
    }
    forall i | 0 <= i < |rows| ensures rows[i].id != id ==> saved[i] == rows[i] {
      if rows[i].id != id {
        RowsEqual(saved[i], rows[i]);
      }
    }
  }

  lemma PutKeepsCanonical(es: seq<Edit>, f: Field, id: nat, v: string)
    requires AllCanonical(es)
    ensures AllCanonical(Put(es, EditKey(f, id), v))
    ensures KeysSplittable(Put(es, EditKey(f, id), v))
  {
    var r := Put(es, EditKey(f, id), v);
    EditKeyCanonical(f, id);
    forall i | 0 <= i < |r| ensures Canonical(r[i].key) {
      if i < |es| {
        assert r[i].key == es[i].key;
      }
    }
  }

  lemma ApplyEditsSnoc(rows: seq<Row>, es: seq<Edit>, i: nat)
    requires KeysSplittable(es) && i < |es|
    ensures KeysSplittable(es[..i]) && KeysSplittable(es[..i + 1])
    ensures ApplyEdits(rows, es[..i + 1]) == ApplyEdit(ApplyEdits(rows, es[..i]), es[i])
  {
    assert es[..i + 1][..i] == es[..i];
  }

  /**
   * One iteration of the autosave loop: a key without `_` is skipped, any
   * other names a column and a row id, and that row's column takes the value.
   */
  method WriteEntry(store: CorpusStore, e: Edit)
    requires store.Valid() && Underscores(e.key) <= 1
    modifies store`rows
    ensures store.Valid()
    ensures store.rows == ApplyEdit(old(store.rows), e)
  {
    if '_' in e.key {
      var t := ParseKey(e.key).value;
      match RowIdOf(t.rid)
      case Some(id) =>
        store.UpdateField(t.field, id, e.value);
      case None =>
    }
  }

  /** The loop of the export that numbers the rows 1..n and joins their rebuilt blocks. */
  method FinalSrt(df: seq<Row>, es: seq<Edit>) returns (srt: string)
    ensures srt == RebuiltSrt(df, es)
  {
    ghost var spec := RebuiltBlocks(df, es);
    var blocks: seq<string> := [];
    var i := 0;
    while i < |df|
      invariant 0 <= i <= |df|
      invariant |blocks| == i && forall j :: 0 <= j < i ==> blocks[j] == spec[j]
    {
      blocks := blocks + [RebuiltBlock(i + 1, df[i], es)];
      i := i + 1;
    }
    assert blocks == spec;
    srt := JoinBlocks(blocks);
  }

  class Session {
    /** `temp_edits`: buffered texts keyed `r_<id>` and `t_<id>`, in insertion order. */
    var edits: seq<Edit>
    /** `last_autosave_time`, in ms. */
    var lastAutosaveMs: int
    /** `play_trigger_s` in ms: where the player starts and where a loop returns. */
    var playTriggerMs: nat
    /** `output_ready` and `final_srt_data`. */
    var outputReady: bool
    var finalSrt: Option<string>

    /** The buffer holds each key once, and every key is one the editor writes. */
    ghost predicate Valid()
      reads this
    {
      DistinctKeys(edits) && AllCanonical(edits) && KeysSplittable(edits)
    }

    /** The session defaults: empty buffer, autosave clock started now, jump target 0. */
    constructor (nowMs: int)
      ensures Valid()
      ensures edits == [] && lastAutosaveMs == nowMs && playTriggerMs == 0
      ensures !outputReady && finalSrt == None
    {
      edits := [];
      lastAutosaveMs := nowMs;
      playTriggerMs := 0;
      outputReady := false;
      finalSrt := None;
    }

    /** A text area returns `v` for field `f` of row `id`: the buffer entry takes it. */
    method EditText(f: Field, id: nat, v: string)
      requires Valid()
      modifies this`edits
      ensures Valid()
      ensures edits == Put(old(edits), EditKey(f, id), v)
    {
      PutKeepsKeysDistinct(edits, EditKey(f, id), v);
      PutKeepsCanonical(edits, f, id, v);
      edits := Put(edits, EditKey(f, id), v);
    }

    /**
     * `perform_autosave`: every buffer entry is written to its row, in
     * buffer order; the buffer itself is kept. An empty buffer does nothing,
     * not even restart the autosave clock.
     */
    method Autosave(store: CorpusStore, nowMs: int)
      requires Valid() && store.Valid()
      modifies store`rows, this`lastAutosaveMs
      ensures store.Valid()
      ensures store.rows == ApplyEdits(old(store.rows), edits)
      ensures lastAutosaveMs == if edits == [] then old(lastAutosaveMs) else nowMs
    {
      if edits == [] {
        return;
      }
      var i := 0;
      while i < |edits|
        invariant 0 <= i <= |edits|
        invariant store.Valid()
        invariant store.rows == ApplyEdits(old(store.rows), edits[..i])
      {
        ApplyEditsSnoc(old(store.rows), edits, i);
        WriteEntry(store, edits[i]);
        i := i + 1;
      }
      assert edits[..|edits|] == edits;
      lastAutosaveMs := nowMs;
    }

    /** The check at the top of the proofreading tab: autosave once more than 60 s have passed. */
    method MaybeAutosave(store: CorpusStore, nowMs: int)
      requires Valid() && store.Valid()
      modifies store`rows, this`lastAutosaveMs
      ensures store.Valid()
      ensures nowMs - old(lastAutosaveMs) > AutosaveIntervalMs ==>
        && store.rows == ApplyEdits(old(store.rows), edits)
        && lastAutosaveMs == if edits == [] then old(lastAutosaveMs) else nowMs
      ensures nowMs - old(lastAutosaveMs) <= AutosaveIntervalMs ==>
        store.rows == old(store.rows) && lastAutosaveMs == old(lastAutosaveMs)
    {
      if nowMs - lastAutosaveMs > AutosaveIntervalMs {
        Autosave(store, nowMs);
      }
    }

    /** The save button of row `id`: both buffered texts of the row go to the store at once. */
    method SaveRow(store: CorpusStore, id: nat)
      requires Valid() && store.Valid()
      requires Lookup(edits, EditKey(RawText, id)).Some? && Lookup(edits, EditKey(TranslatedText, id)).Some?
      modifies store`rows
      ensures store.Valid()
      ensures store.rows == SetField(SetField(old(store.rows), RawText, id, Lookup(edits, EditKey(RawText, id)).value),
                                     TranslatedText, id, Lookup(edits, EditKey(TranslatedText, id)).value)
    {
      store.UpdateRow(id, Lookup(edits, EditKey(RawText, id)).value, Lookup(edits, EditKey(TranslatedText, id)).value);
    }

    /** The play button of a row starting at `startMs`: autosave, then move the jump target there. */
    method Play(store: CorpusStore, startMs: nat, nowMs: int)
      requires Valid() && store.Valid()
      modifies store`rows, this`lastAutosaveMs, this`playTriggerMs
      ensures store.Valid()
      ensures store.rows == ApplyEdits(old(store.rows), edits)
      ensures lastAutosaveMs == if edits == [] then old(lastAutosaveMs) else nowMs
      ensures playTriggerMs == startMs
    {
      Autosave(store, nowMs);
      playTriggerMs := startMs;
    }

    /** The loop that builds the player's subtitle list from the queried rows. */
    method PlayerSubtitles(df: seq<Row>) returns (subs: seq<Subtitle>)
      ensures subs == SubtitlesOf(df, edits)
    {
      ghost var spec := SubtitlesOf(df, edits);
      subs := [];
      var i := 0;
      while i < |df|
        invariant 0 <= i <= |df|
        invariant |subs| == i && forall j :: 0 <= j < i ==> subs[j] == spec[j]
      {
        var cur := Subtitle(df[i].startMs, Overlay(edits, EditKey(RawText, df[i].id), df[i].rawText),
                            Overlay(edits, EditKey(TranslatedText, df[i].id), df[i].translatedText));
        subs := subs + [cur];
        i := i + 1;
      }
    }

    /**
     * The export button: autosave, then rebuild the SRT from `df`, the rows
     * queried when the tab was drawn, reading the buffer over them.
     */
    method Export(store: CorpusStore, df: seq<Row>, nowMs: int) returns (srt: string)
      requires Valid() && store.Valid()
      modifies store`rows, this`lastAutosaveMs, this`outputReady, this`finalSrt
      ensures store.Valid()
      ensures store.rows == ApplyEdits(old(store.rows), edits)
      ensures lastAutosaveMs == if edits == [] then old(lastAutosaveMs) else nowMs
      ensures srt == RebuiltSrt(df, edits)
      ensures finalSrt == Some(srt) && outputReady
    {
      Autosave(store, nowMs);
      srt := FinalSrt(df, edits);
      finalSrt := Some(srt);
      outputReady := true;
    }

    /** The maintenance tab's clear button: every row goes and the export is withdrawn. */
    method ClearHistory(store: CorpusStore)
      requires store.Valid()
      modifies store`rows, this`outputReady
      ensures store.Valid() && store.rows == [] && store.nextId == old(store.nextId)
      ensures !outputReady
    {
      store.DeleteAll();
      outputReady := false;
    }
  }
}
