/**
 * SRT text: the blocks written by a transcription run and the blocks
 * rebuilt from the corpus with the edit buffer laid over it.
 */
module Subtitles {
  import opened Wrappers
  import opened Decimal
  import opened SrtTime
  import opened Corpus
  import opened Edits
  import opened Timeline

  /** A fresh run ends each block 100 ms before its window ends. */
  const EndTrimMs := 100
  /** A rebuilt block always ends 4400 ms after it starts. */
  const RebuiltLengthMs := 4400

  /** An accepted window with its recognised and translated text. */
  datatype Segment = Segment(start: nat, end: nat, raw: string, trans: string)

  /** One block, `"{index}\n{start} --> {end}\n{raw}\n{trans}\n"`. */
  function Block(index: nat, startMs: int, endMs: int, raw: string, trans: string): string {
    NatToString(index) + "\n" + Format(startMs) + " --> " + Format(endMs) + "\n" + raw + "\n" + trans + "\n"
  }

  /** `"\n".join(blocks)`. */
  function JoinBlocks(blocks: seq<string>): (s: string)
    ensures |blocks| == 0 ==> s == ""
    ensures |blocks| == 1 ==> s == blocks[0]
  {
    if |blocks| <= 1 then (if blocks == [] then "" else blocks[0])
    else JoinBlocks(blocks[..|blocks| - 1]) + "\n" + blocks[|blocks| - 1]
  }

  /** The blocks of a run, numbered 1..n over the accepted windows only. */
  function FreshBlocks(segs: seq<Segment>): (bs: seq<string>)
    ensures |bs| == |segs|
  {
    seq(|segs|, i requires 0 <= i < |segs| =>
      Block(i + 1, segs[i].start, segs[i].end - EndTrimMs, segs[i].raw, segs[i].trans))
  }

  function FreshSrt(segs: seq<Segment>): string {
    JoinBlocks(FreshBlocks(segs))
  }

  /** Rebuilt block `i+1` of a row: its start, start + 4400, and the buffer-over-store texts. */
  function RebuiltBlock(index: nat, row: Row, es: seq<Edit>): string {
    Block(index, row.startMs, row.startMs + RebuiltLengthMs,
          Overlay(es, EditKey(RawText, row.id), row.rawText),
          Overlay(es, EditKey(TranslatedText, row.id), row.translatedText))
  }

  function RebuiltBlocks(rows: seq<Row>, es: seq<Edit>): (bs: seq<string>)
    ensures |bs| == |rows|
  {
    seq(|rows|, i requires 0 <= i < |rows| => RebuiltBlock(i + 1, rows[i], es))
  }

  /** The corrected SRT of the final export. */
  function RebuiltSrt(rows: seq<Row>, es: seq<Edit>): string {
    JoinBlocks(RebuiltBlocks(rows, es))
  }

  /** The rows inserted for the segments of a run, ids counting up from `firstId`. */
  function NewRows(firstId: nat, segs: seq<Segment>, lang: Languages.Language, path: string,
                   stamp: nat -> string): (rs: seq<Row>)
    ensures |rs| == |segs|
  {
    seq(|segs|, i requires 0 <= i < |segs| =>
      Row(firstId + i, lang, segs[i].raw, segs[i].trans, segs[i].start, path, stamp(segs[i].start)))
  }

  /** A run with a single accepted window writes exactly that window's block, numbered 1. */
  lemma FreshSrtOne(seg: Segment)
    ensures FreshSrt([seg]) == Block(1, seg.start, seg.end - EndTrimMs, seg.raw, seg.trans)
  {
    assert FreshBlocks([seg])[0] == Block(1, seg.start, seg.end - EndTrimMs, seg.raw, seg.trans);
  }

  lemma FreshBlocksSnoc(segs: seq<Segment>, seg: Segment)
    ensures FreshBlocks(segs + [seg])
         == FreshBlocks(segs) + [Block(|segs| + 1, seg.start, seg.end - EndTrimMs, seg.raw, seg.trans)]
  {
    var a, b := FreshBlocks(segs + [seg]), FreshBlocks(segs) + [Block(|segs| + 1, seg.start, seg.end - EndTrimMs, seg.raw, seg.trans)];
    forall i | 0 <= i < |a| ensures a[i] == b[i] {
      if i < |segs| {
        assert (segs + [seg])[i] == segs[i];
      }
    }
  }

  lemma NewRowsSnoc(firstId: nat, segs: seq<Segment>, seg: Segment, lang: Languages.Language, path: string,
                    stamp: nat -> string)
    ensures NewRows(firstId, segs + [seg], lang, path, stamp)
         == NewRows(firstId, segs, lang, path, stamp)
            + [Row(firstId + |segs|, lang, seg.raw, seg.trans, seg.start, path, stamp(seg.start))]
  {
    var a := NewRows(firstId, segs + [seg], lang, path, stamp);
    var b := NewRows(firstId, segs, lang, path, stamp)
             + [Row(firstId + |segs|, lang, seg.raw, seg.trans, seg.start, path, stamp(seg.start))];
    forall i | 0 <= i < |a| ensures a[i] == b[i] {
      if i < |segs| {
        assert (segs + [seg])[i] == segs[i];
      }
    }
  }

  lemma NewRowsAppend(firstId: nat, segs: seq<Segment>, more: seq<Segment>, lang: Languages.Language, path: string,
                      stamp: nat -> string)
    ensures NewRows(firstId, segs, lang, path, stamp) + NewRows(firstId + |segs|, more, lang, path, stamp)
         == NewRows(firstId, segs + more, lang, path, stamp)
  {
    var a := NewRows(firstId, segs, lang, path, stamp) + NewRows(firstId + |segs|, more, lang, path, stamp);
    var b := NewRows(firstId, segs + more, lang, path, stamp);
    forall i | 0 <= i < |a| ensures a[i] == b[i] {
      if i < |segs| {
        assert (segs + more)[i] == segs[i];
      } else {
        assert (segs + more)[i] == more[i - |segs|];
      }
    }
  }

  /**
   * A rebuilt block agrees with the block a run wrote for a full 4500 ms
   * window when the row carries the segment's texts and the buffer has no
   * entry for it: 4500 - 100 = 4400.
   */
  lemma RebuiltMatchesFreshOnFullWindow(index: nat, seg: Segment, row: Row, es: seq<Edit>)
    requires seg.end == seg.start + IntervalMs
    requires row.startMs == seg.start && row.rawText == seg.raw && row.translatedText == seg.trans
    requires Lookup(es, EditKey(RawText, row.id)).None? && Lookup(es, EditKey(TranslatedText, row.id)).None?
    ensures RebuiltBlock(index, row, es) == Block(index, seg.start, seg.end - EndTrimMs, seg.raw, seg.trans)
  {
  }

  lemma RebuiltBlockOfRunRow(firstId: nat, segs: seq<Segment>, lang: Languages.Language, path: string,
                             stamp: nat -> string, i: nat)
    requires i < |segs| && segs[i].end == segs[i].start + IntervalMs
    ensures RebuiltBlocks(NewRows(firstId, segs, lang, path, stamp), [])[i] == FreshBlocks(segs)[i]
  {
    var rows := NewRows(firstId, segs, lang, path, stamp);
    RebuiltMatchesFreshOnFullWindow(i + 1, segs[i], rows[i], []);
  }

  /**
   * Exporting the rows of a run with an empty buffer reproduces the run's own
   * SRT whenever every accepted window is a full 4500 ms window.
   */
  lemma RebuiltSrtOfRunRows(firstId: nat, segs: seq<Segment>, lang: Languages.Language, path: string,
                            stamp: nat -> string)
    requires forall i :: 0 <= i < |segs| ==> segs[i].end == segs[i].start + IntervalMs
    ensures RebuiltSrt(NewRows(firstId, segs, lang, path, stamp), []) == FreshSrt(segs)
  {
    var rebuilt := RebuiltBlocks(NewRows(firstId, segs, lang, path, stamp), []);
    var written := FreshBlocks(segs);
    forall i | 0 <= i < |segs|
      ensures rebuilt[i] == written[i]
    {
      RebuiltBlockOfRunRow(firstId, segs, lang, path, stamp, i);
    }
    assert rebuilt == written;
  }

  /** Rebuilding from rows already saved with an empty buffer gives what rebuilding the unsaved rows under the buffer gives. */
  lemma RebuiltOfSavedRows(rows: seq<Row>, es: seq<Edit>)
    ensures RebuiltSrt(MapRows(rows, SaveMap(es)), []) == RebuiltSrt(rows, es)
  {
    var saved := RebuiltBlocks(MapRows(rows, SaveMap(es)), []);
    var overlaid := RebuiltBlocks(rows, es);
    forall i | 0 <= i < |rows| ensures saved[i] == overlaid[i] {
      var y := SavedRow(es, rows[i]);
      assert MapRows(rows, SaveMap(es))[i] == y;
      assert Overlay([], EditKey(RawText, y.id), y.rawText) == Overlay(es, EditKey(RawText, rows[i].id), rows[i].rawText);
      assert Overlay([], EditKey(TranslatedText, y.id), y.translatedText)
          == Overlay(es, EditKey(TranslatedText, rows[i].id), rows[i].translatedText);
    }
    assert saved == overlaid;
  }

  /**
   * A last window shorter than 100 ms gets an end stamp earlier than its
   * start stamp (within the first day, where stamps order as times do).
   */
  lemma ShortWindowEndsBeforeStart(seg: Segment)
    requires seg.start < seg.end < seg.start + EndTrimMs
    requires EndTrimMs <= seg.end && seg.start < MsPerDay
    ensures Parse(Format(seg.end - EndTrimMs)) == Some(seg.end - EndTrimMs)
    ensures Parse(Format(seg.start)) == Some(seg.start)
    ensures seg.end - EndTrimMs < seg.start
  {
    ParseFormatWithinDay(seg.end - EndTrimMs);
    ParseFormatWithinDay(seg.start);
  }

  /** A negative offset of less than a day prints as the previous day's clock and reads back one day later. */
  lemma NegativeStampWraps(t: int)
    requires -MsPerDay <= t < 0
    ensures Format(t) == Format(t + MsPerDay)
    ensures Parse(Format(t)) == Some(t + MsPerDay)
  {
    assert t % MsPerDay == t + MsPerDay == (t + MsPerDay) % MsPerDay;
    FormatInjectiveModDay(t, t + MsPerDay);
    ParseFormat(t);
  }

  /**
   * A window ending before 100 ms, as in a recording shorter than 100 ms,
   * gets a negative end offset: its end stamp is the previous day's clock,
   * the same stamp as one day later, which reads back later than the start.
   */
  lemma ShortRecordingEndWraps(seg: Segment)
    requires seg.start < seg.end < EndTrimMs
    ensures Format(seg.end - EndTrimMs) == Format(seg.end - EndTrimMs + MsPerDay)
    ensures Parse(Format(seg.end - EndTrimMs)) == Some(seg.end - EndTrimMs + MsPerDay)
    ensures Parse(Format(seg.start)) == Some(seg.start)
    ensures seg.start < seg.end - EndTrimMs + MsPerDay
  {
    NegativeStampWraps(seg.end - EndTrimMs);
    ParseFormatWithinDay(seg.start);
  }

  /** A 50 ms recording: one window, whose block runs from 00:00:00,000 to 23:59:59,950. */
  lemma ShortRecordingExample()
    ensures Windows(50) == [Window(0, 50)]
    ensures Format(0) == "00:00:00,000"
    ensures Format(50 - EndTrimMs) == "23:59:59,950"
  {
    assert WindowsFrom(0, 50) == [Window(0, 50)] + WindowsFrom(50, 50);
    ExampleZero();
    ExampleMinusFifty();
  }

  /**
   * The case of a 9050 ms recording: its last window is (9000, 9050), and
   * the block written for it runs from 00:00:09,000 to 00:00:08,950.
   */
  lemma ShortWindowExample()
    ensures Windows(9050) == [Window(0, 4500), Window(4500, 9000), Window(9000, 9050)]
    ensures forall k, raw, trans ::
              Block(k, 9000, 9050 - EndTrimMs, raw, trans)
              == NatToString(k) + "\n" + "00:00:09,000" + " --> " + "00:00:08,950" + "\n" + raw + "\n" + trans + "\n"
  {
    assert WindowsFrom(9000, 9050) == [Window(9000, 9050)] + WindowsFrom(9050, 9050);
    assert WindowsFrom(4500, 9050) == [Window(4500, 9000)] + WindowsFrom(9000, 9050);
    assert WindowsFrom(0, 9050) == [Window(0, 4500)] + WindowsFrom(4500, 9050);
    ExampleNineSeconds();
    ExampleEightPointNineFiveSeconds();
  }
}
