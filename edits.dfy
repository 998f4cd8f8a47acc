/**
 * The edit buffer `temp_edits`: a Python dict (insertion-ordered, distinct
 * keys) from keys `r_<id>` / `t_<id>` to the text being edited, the
 * buffer-over-store reads, and what autosave does to the corpus rows.
 */
module Edits {
  import opened Wrappers
  import opened Decimal
  import opened Corpus

  datatype Edit = Edit(key: string, value: string)

  ghost predicate DistinctKeys(es: seq<Edit>) {
    forall i, j :: 0 <= i < j < |es| ==> es[i].key != es[j].key
  }

  /** `temp_edits.get(key)`: the value stored under `k`, if any. */
  function Lookup(es: seq<Edit>, k: string): (r: Option<string>)
    ensures r.Some? <==> exists i :: 0 <= i < |es| && es[i].key == k
    ensures r.Some? ==> exists i :: 0 <= i < |es| && es[i].key == k && es[i].value == r.value
  {
    if es == [] then None
    else if es[|es| - 1].key == k then Some(es[|es| - 1].value)
    else
      var r := Lookup(es[..|es| - 1], k);
      assert forall i :: 0 <= i < |es| - 1 ==> es[..|es| - 1][i] == es[i];
      r
  }

  /** Gives the last entry with key `k` the value `v`, keeping every position. */
  function Replace(es: seq<Edit>, k: string, v: string): (r: seq<Edit>)
    requires Lookup(es, k).Some?
    ensures |r| == |es| && forall i :: 0 <= i < |es| ==> r[i].key == es[i].key
    ensures Lookup(r, k) == Some(v)
    ensures forall k' :: k' != k ==> Lookup(r, k') == Lookup(es, k')
  {
    var prefix, last := es[..|es| - 1], es[|es| - 1];
    if last.key == k then prefix + [Edit(k, v)]
    else
      var r := Replace(prefix, k, v) + [last];
      assert r[..|r| - 1] == Replace(prefix, k, v);
      r
  }

  /**
   * `d[key] = value`: an existing key keeps its place and takes the new
   * value; a new key goes at the end.
   */
  function Put(es: seq<Edit>, k: string, v: string): (r: seq<Edit>)
    ensures Lookup(r, k) == Some(v)
    ensures forall k' :: k' != k ==> Lookup(r, k') == Lookup(es, k')
    ensures Lookup(es, k).Some? ==> |r| == |es| && forall i :: 0 <= i < |es| ==> r[i].key == es[i].key
    ensures Lookup(es, k).None? ==> r == es + [Edit(k, v)]
  {
    if Lookup(es, k).Some? then Replace(es, k, v)
    else
      var r := es + [Edit(k, v)];
      assert r[..|r| - 1] == es;
      r
  }

  lemma PutKeepsKeysDistinct(es: seq<Edit>, k: string, v: string)
    requires DistinctKeys(es)
    ensures DistinctKeys(Put(es, k, v))
  {
    var r := Put(es, k, v);
    if Lookup(es, k).None? {
      assert forall i :: 0 <= i < |es| ==> es[i].key != k;
    }
  }

  /** `temp_edits.get(key, stored)`: the buffered text if there is one, else the stored one. */
  function Overlay(es: seq<Edit>, k: string, stored: string): string {
    Lookup(es, k).GetOr(stored)
  }

  // ---- keys "<prefix>_<id>"

  function Prefix(f: Field): string {
    match f
    case RawText => "r"
    case TranslatedText => "t"
  }

  /** The key written for a field of a row, `f"r_{id}"` or `f"t_{id}"`. */
  function EditKey(f: Field, id: nat): string {
    Prefix(f) + "_" + NatToString(id)
  }

  function Underscores(s: string): nat {
    if s == [] then 0 else (if s[0] == '_' then 1 else 0) + Underscores(s[1..])
  }

  function IndexOf(s: string, c: char): (i: nat)
    requires c in s
    ensures i < |s| && s[i] == c && c !in s[..i]
  {
    if s[0] == c then 0 else 1 + IndexOf(s[1..], c)
  }

  /** What `prefix, rid = key.split('_')` yields, with the column it selects. */
  datatype Target = Target(field: Field, rid: string)

  /**
   * The target of a key: None for a key without '_' (skipped); otherwise
   * `raw_text` when the prefix is exactly "r" and `translated_text` for any
   * other prefix. A key with two or more '_' makes the unpacking raise, which
   * the buffer never holds (its keys are written by `EditKey` only).
   */
  function ParseKey(k: string): (t: Option<Target>)
    requires Underscores(k) <= 1
    ensures t.None? <==> '_' !in k
    ensures t.Some? ==>
      exists i :: (0 <= i < |k| && k[i] == '_' && t.value.rid == k[i + 1..]
                   && t.value.field == (if k[..i] == "r" then RawText else TranslatedText))
  {
    if '_' !in k then None
    else
      var i := IndexOf(k, '_');
      Some(Target(if k[..i] == "r" then RawText else TranslatedText, k[i + 1..]))
  }

  /**
   * The row id that `WHERE id=?` matches for the text `rid`: SQLite compares
   * a digit string with the integer column by value; any other text matches
   * no row.
   */
  function RowIdOf(rid: string): Option<nat> {
    if IsDecimal(rid) then Some(DigitsValue(rid)) else None
  }

  lemma {:induction false} UnderscoresAppend(a: string, b: string)
    ensures Underscores(a + b) == Underscores(a) + Underscores(b)
  {
    if a != [] {
      assert (a + b)[1..] == a[1..] + b;
      UnderscoresAppend(a[1..], b);
    } else {
      assert a + b == b;
    }
  }

  lemma {:induction false} NoUnderscoreInDecimal(s: string)
    requires forall i :: 0 <= i < |s| ==> IsDigit(s[i])
    ensures Underscores(s) == 0
  {
    if s != [] {
      NoUnderscoreInDecimal(s[1..]);
    }
  }

  /** A key written by the buffer has one '_' and parses back to its field and id. */
  lemma ParseEditKey(f: Field, id: nat)
    ensures Underscores(EditKey(f, id)) == 1
    ensures ParseKey(EditKey(f, id)) == Some(Target(f, NatToString(id)))
    ensures RowIdOf(NatToString(id)) == Some(id)
  {
    var k := EditKey(f, id);
    UnderscoresAppend(Prefix(f) + "_", NatToString(id));
    UnderscoresAppend(Prefix(f), "_");
    NoUnderscoreInDecimal(NatToString(id));
    assert k[1] == '_';
    assert IndexOf(k, '_') == 1 by { assert k[0] != '_'; }
    assert k[..1] == Prefix(f);
    assert k[2..] == NatToString(id);
    DigitsValueOfNatToString(id);
  }

  // ---- perform_autosave on the rows of the corpus

  ghost predicate KeysSplittable(es: seq<Edit>) {
    forall i :: 0 <= i < |es| ==> Underscores(es[i].key) <= 1
  }

  /** The entry `e` updates field `f` of the row with id `id`. */
  predicate Targets(e: Edit, f: Field, id: nat) {
    && Underscores(e.key) <= 1
    && ParseKey(e.key).Some?
    && ParseKey(e.key).value.field == f
    && RowIdOf(ParseKey(e.key).value.rid) == Some(id)
  }

  /** One iteration of the autosave loop: at most one field of one row changes. */
  function ApplyEdit(rows: seq<Row>, e: Edit): (r: seq<Row>)
    requires Underscores(e.key) <= 1
    ensures '_' !in e.key ==> r == rows
    ensures |r| == |rows|
    ensures forall i :: 0 <= i < |r| ==> SameKey(r[i], rows[i])
    ensures forall i, g :: 0 <= i < |r| ==>
      GetField(r[i], g) == if Targets(e, g, rows[i].id) then e.value else GetField(rows[i], g)
  {
    match ParseKey(e.key)
    case None => rows
    case Some(t) =>
      match RowIdOf(t.rid)
      case None => rows
      case Some(id) => SetField(rows, t.field, id, e.value)
  }

  /** The whole autosave loop, entries in dict order. */
  function ApplyEdits(rows: seq<Row>, es: seq<Edit>): seq<Row>
    requires KeysSplittable(es)
  {
    if es == [] then rows
    else ApplyEdit(ApplyEdits(rows, es[..|es| - 1]), es[|es| - 1])
  }

  /** The value of the last entry that targets field `f` of row `id`. */
  function LastEditFor(es: seq<Edit>, f: Field, id: nat): Option<string> {
    if es == [] then None
    else if Targets(es[|es| - 1], f, id) then Some(es[|es| - 1].value)
    else LastEditFor(es[..|es| - 1], f, id)
  }

  /**
   * After autosave every row keeps its id and other columns, and each text
   * field holds the value of the last buffer entry aimed at it, or its old
   * value when no entry is. Rows no entry targets do not change.
   */
  lemma {:induction false} ApplyEditsPointwise(rows: seq<Row>, es: seq<Edit>)
    requires KeysSplittable(es)
    ensures |ApplyEdits(rows, es)| == |rows|
    ensures forall i :: 0 <= i < |rows| ==> SameKey(ApplyEdits(rows, es)[i], rows[i])
    ensures forall i, f :: 0 <= i < |rows| ==>
      GetField(ApplyEdits(rows, es)[i], f) == LastEditFor(es, f, rows[i].id).GetOr(GetField(rows[i], f))
  {
    if es != [] {
      ApplyEditsPointwise(rows, es[..|es| - 1]);
    }
  }

  lemma RowsEqual(a: Row, b: Row)
    requires SameKey(a, b)
    requires GetField(a, RawText) == GetField(b, RawText)
    requires GetField(a, TranslatedText) == GetField(b, TranslatedText)
    ensures a == b
  {
  }

  /** Running autosave twice leaves the same rows as running it once. */
  lemma AutosaveIdempotent(rows: seq<Row>, es: seq<Edit>)
    requires KeysSplittable(es)
    ensures ApplyEdits(ApplyEdits(rows, es), es) == ApplyEdits(rows, es)
  {
    var once := ApplyEdits(rows, es);
    var twice := ApplyEdits(once, es);
    ApplyEditsPointwise(rows, es);
    ApplyEditsPointwise(once, es);
    forall i | 0 <= i < |rows|
      ensures twice[i] == once[i]
    {
      RowsEqual(twice[i], once[i]);
    }
  }

  /** A key as the buffer writes it: it parses to a field and id and is respelt exactly. */
  predicate Canonical(k: string) {
    Underscores(k) <= 1 && ParseKey(k).Some? && RowIdOf(ParseKey(k).value.rid).Some?
    && k == EditKey(ParseKey(k).value.field, RowIdOf(ParseKey(k).value.rid).value)
  }

  ghost predicate AllCanonical(es: seq<Edit>) {
    forall i :: 0 <= i < |es| ==> Canonical(es[i].key)
  }

  lemma EditKeyCanonical(f: Field, id: nat)
    ensures Canonical(EditKey(f, id))
  {
    ParseEditKey(f, id);
  }

  /** For keys as the buffer writes them, "targets field f of row id" is "has key EditKey(f, id)". */
  lemma TargetsIffKey(e: Edit, f: Field, id: nat)
    requires Canonical(e.key)
    ensures Targets(e, f, id) <==> e.key == EditKey(f, id)
  {
    ParseEditKey(f, id);
    if e.key == EditKey(f, id) {
      assert Targets(e, f, id);
    }
    if Targets(e, f, id) {
      assert e.key == EditKey(f, id);
    }
  }

  lemma {:induction false} LastEditForIsLookup(es: seq<Edit>, f: Field, id: nat)
    requires AllCanonical(es)
    ensures LastEditFor(es, f, id) == Lookup(es, EditKey(f, id))
  {
    if es != [] {
      TargetsIffKey(es[|es| - 1], f, id);
      LastEditForIsLookup(es[..|es| - 1], f, id);
    }
  }

  /**
   * After autosave of a buffer written by the editor, each stored field of an
   * existing row equals the buffer-over-store value: the buffered text where
   * there is one, the old stored text otherwise.
   */
  lemma AutosaveMatchesOverlay(rows: seq<Row>, es: seq<Edit>, i: nat, f: Field)
    requires AllCanonical(es) && KeysSplittable(es)
    requires i < |rows|
    ensures i < |ApplyEdits(rows, es)|
    ensures GetField(ApplyEdits(rows, es)[i], f) == Overlay(es, EditKey(f, rows[i].id), GetField(rows[i], f))
  {
    ApplyEditsPointwise(rows, es);
    LastEditForIsLookup(es, f, rows[i].id);
  }

  /**
   * The overlay read is the same before and after autosave: reading a stale
   * copy of the rows, as the final export does, shows what the store holds
   * once autosave has run.
   */
  lemma OverlayStableUnderAutosave(rows: seq<Row>, es: seq<Edit>, i: nat, f: Field)
    requires AllCanonical(es) && KeysSplittable(es)
    requires i < |rows|
    ensures var saved := ApplyEdits(rows, es);
      && i < |saved| && saved[i].id == rows[i].id
      && Overlay(es, EditKey(f, rows[i].id), GetField(saved[i], f))
         == Overlay(es, EditKey(f, rows[i].id), GetField(rows[i], f))
      && Overlay(es, EditKey(f, rows[i].id), GetField(saved[i], f)) == GetField(saved[i], f)
  {
    var saved := ApplyEdits(rows, es);
    var k := EditKey(f, rows[i].id);
    ApplyEditsPointwise(rows, es);
    AutosaveMatchesOverlay(rows, es, i, f);
    assert SameKey(saved[i], rows[i]);
    match Lookup(es, k)
    case Some(v) =>
      assert GetField(saved[i], f) == v;
    case None =>
      assert GetField(saved[i], f) == GetField(rows[i], f);
  }

  /** The example: stored "A", buffered "B"; the overlay reads "B" and so does the store after autosave. */
  lemma OverlayExample(row: Row)
    requires row.id == 7 && row.rawText == "A"
    ensures Overlay([Edit("r_7", "B")], EditKey(RawText, row.id), row.rawText) == "B"
    ensures Underscores("r_7") == 1
    ensures ApplyEdits([row], [Edit("r_7", "B")]) == [row.(rawText := "B")]
  {
    assert EditKey(RawText, 7) == "r_7";
    ParseEditKey(RawText, 7);
    var es := [Edit("r_7", "B")];
    AutosaveMatchesOverlay([row], es, 0, RawText);
    ApplyEditsPointwise([row], es);
    LastEditForIsLookup(es, TranslatedText, 7);
    var saved := ApplyEdits([row], es);
    RowsEqual(saved[0], row.(rawText := "B"));
  }

  /** A row as the buffer-over-store read shows it. */
  function SavedRow(es: seq<Edit>, x: Row): (y: Row)
    ensures SameKey(y, x)
    ensures forall f :: GetField(y, f) == Overlay(es, EditKey(f, x.id), GetField(x, f))
  {
    x.(rawText := Overlay(es, EditKey(RawText, x.id), x.rawText),
       translatedText := Overlay(es, EditKey(TranslatedText, x.id), x.translatedText))
  }

  function SaveMap(es: seq<Edit>): Row -> Row {
    x => SavedRow(es, x)
  }

  /** Autosave of a buffer written by the editor rewrites every row into its buffer-over-store view. */
  lemma AutosaveIsMap(rows: seq<Row>, es: seq<Edit>)
    requires AllCanonical(es) && KeysSplittable(es)
    ensures ApplyEdits(rows, es) == MapRows(rows, SaveMap(es))
    ensures KeepsQueryColumns(SaveMap(es))
  {
    var saved, mapped := ApplyEdits(rows, es), MapRows(rows, SaveMap(es));
    ApplyEditsPointwise(rows, es);
    forall i | 0 <= i < |rows| ensures saved[i] == mapped[i] {
      AutosaveMatchesOverlay(rows, es, i, RawText);
      AutosaveMatchesOverlay(rows, es, i, TranslatedText);
      RowsEqual(saved[i], mapped[i]);
    }
  }
}
