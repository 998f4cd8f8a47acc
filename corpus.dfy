/**
 * The `corpus` table: one row per accepted chunk, with an AUTOINCREMENT id,
 * kept in memory in rowid order.
 */
module Corpus {
  import opened Wrappers
  import opened Languages

  /** The two text columns an edit can change. */
  datatype Field = RawText | TranslatedText

  datatype Row = Row(
    id: nat,
    lang: Language,
    rawText: string,
    translatedText: string,
    startMs: nat,
    videoPath: string,
    createdAt: string)

  function GetField(r: Row, f: Field): string {
    match f
    case RawText => r.rawText
    case TranslatedText => r.translatedText
  }

  /** Everything but the two text columns. */
  predicate SameKey(a: Row, b: Row) {
    a.id == b.id && a.lang == b.lang && a.startMs == b.startMs
    && a.videoPath == b.videoPath && a.createdAt == b.createdAt
  }

  function WithField(r: Row, f: Field, v: string): (r': Row)
    ensures SameKey(r', r)
    ensures GetField(r', f) == v
    ensures forall g :: g != f ==> GetField(r', g) == GetField(r, g)
  {
    match f
    case RawText => r.(rawText := v)
    case TranslatedText => r.(translatedText := v)
  }

  /**
   * `UPDATE corpus SET <f>=? WHERE id=?`: the field of the row with that id
   * (if any) takes the new value; every other row and field is unchanged.
   */
  function SetField(rows: seq<Row>, f: Field, id: nat, v: string): (r: seq<Row>)
    ensures |r| == |rows|
    ensures forall i :: 0 <= i < |r| ==> SameKey(r[i], rows[i])
    ensures forall i, g :: 0 <= i < |r| ==>
      GetField(r[i], g) == if rows[i].id == id && g == f then v else GetField(rows[i], g)
    ensures (forall i :: 0 <= i < |rows| ==> rows[i].id != id) ==> r == rows
  {
    seq(|rows|, i requires 0 <= i < |rows| => if rows[i].id == id then WithField(rows[i], f, v) else rows[i])
  }

  ghost predicate IdsIncreasing(rows: seq<Row>) {
    forall i, j :: 0 <= i < j < |rows| ==> rows[i].id < rows[j].id
  }

  // ---- SELECT * FROM corpus WHERE video_path = ? ORDER BY start_ms ASC

  function FilterVideo(rows: seq<Row>, path: string): (r: seq<Row>)
    ensures |r| <= |rows|
  {
    if rows == [] then []
    else if rows[0].videoPath == path then [rows[0]] + FilterVideo(rows[1..], path)
    else FilterVideo(rows[1..], path)
  }

  /** The filter keeps exactly the rows of the video. */
  lemma {:induction false} FilterVideoMembers(rows: seq<Row>, path: string)
    ensures forall x :: x in FilterVideo(rows, path) <==> x in rows && x.videoPath == path
  {
    if rows != [] {
      FilterVideoMembers(rows[1..], path);
      assert rows == [rows[0]] + rows[1..];
    }
  }

  ghost predicate SortedByStart(rows: seq<Row>) {
    forall i, j :: 0 <= i < j < |rows| ==> rows[i].startMs <= rows[j].startMs
  }

  lemma SortedCons(h: Row, t: seq<Row>)
    requires SortedByStart(t)
    requires forall y :: y in t ==> h.startMs <= y.startMs
    ensures SortedByStart([h] + t)
  {
    forall i, j | 0 <= i < j < |[h] + t| ensures ([h] + t)[i].startMs <= ([h] + t)[j].startMs {
      assert ([h] + t)[j] == t[j - 1];
      if i > 0 { assert ([h] + t)[i] == t[i - 1]; }
    }
  }

  /** A sorted tail of the rows after `s[0]`, with `x` added, can follow `s[0]` when `x` starts later. */
  lemma SortedAfterHead(x: Row, s: seq<Row>, t: seq<Row>)
    requires SortedByStart(s) && s != [] && s[0].startMs < x.startMs
    requires SortedByStart(t) && multiset(t) == multiset(s[1..]) + multiset{x}
    ensures SortedByStart([s[0]] + t)
  {
    forall y | y in t ensures s[0].startMs <= y.startMs {
      assert y in multiset(t);
      if y != x { assert y in s[1..]; }
    }
    SortedCons(s[0], t);
  }

  /** Places `x` before the first row that does not start earlier (ties keep `x` first). */
  function InsertByStart(x: Row, s: seq<Row>): (r: seq<Row>)
    ensures multiset(r) == multiset(s) + multiset{x}
    ensures SortedByStart(s) ==> SortedByStart(r)
  {
    if s == [] || x.startMs <= s[0].startMs then [x] + s
    else
      var t := InsertByStart(x, s[1..]);
      assert s == [s[0]] + s[1..];
      assert SortedByStart(s) ==> SortedByStart([s[0]] + t) by {
        if SortedByStart(s) {
          SortedAfterHead(x, s, t);
        }
      }
      [s[0]] + t
  }

  /** `ORDER BY start_ms ASC`: a stable insertion sort (rows that tie stay in rowid order). */
  function SortByStart(rows: seq<Row>): (r: seq<Row>)
    ensures multiset(r) == multiset(rows)
    ensures SortedByStart(r)
  {
    if rows == [] then []
    else
      assert rows == [rows[0]] + rows[1..];
      InsertByStart(rows[0], SortByStart(rows[1..]))
  }

  /** Rows that are already in start order come back unchanged. */
  lemma {:induction false} SortSortedIsIdentity(rows: seq<Row>)
    requires SortedByStart(rows)
    ensures SortByStart(rows) == rows
  {
    if rows != [] {
      SortSortedIsIdentity(rows[1..]);
      assert rows == [rows[0]] + rows[1..];
    }
  }

  /**
   * The rows of one video, in start order: sorted, and a permutation of the
   * rows of the table whose `video_path` is `path`.
   */
  function QueryByVideo(rows: seq<Row>, path: string): (r: seq<Row>)
    ensures SortedByStart(r)
    ensures multiset(r) == multiset(FilterVideo(rows, path))
    ensures forall x :: x in r <==> x in rows && x.videoPath == path
  {
    FilterVideoMembers(rows, path);
    var q := SortByStart(FilterVideo(rows, path));
    assert forall x :: x in q <==> x in multiset(q);
    q
  }

  lemma {:induction false} FilterAppend(a: seq<Row>, b: seq<Row>, path: string)
    ensures FilterVideo(a + b, path) == FilterVideo(a, path) + FilterVideo(b, path)
  {
    if a != [] {
      FilterAppend(a[1..], b, path);
      assert (a + b)[0] == a[0] && (a + b)[1..] == a[1..] + b;
      var fa, fb := FilterVideo(a[1..], path), FilterVideo(b, path);
      assert [a[0]] + (fa + fb) == ([a[0]] + fa) + fb;
    } else {
      assert a + b == b;
    }
  }

  lemma {:induction false} FilterNoneMatch(rows: seq<Row>, path: string)
    requires forall x :: x in rows ==> x.videoPath != path
    ensures FilterVideo(rows, path) == []
  {
    if rows != [] {
      assert rows[0] in rows;
      FilterNoneMatch(rows[1..], path);
    }
  }

  lemma {:induction false} FilterAllMatch(rows: seq<Row>, path: string)
    requires forall i :: 0 <= i < |rows| ==> rows[i].videoPath == path
    ensures FilterVideo(rows, path) == rows
  {
    if rows != [] {
      FilterAllMatch(rows[1..], path);
    }
  }

  /**
   * When no earlier row belongs to the video, the query returns the rows
   * appended for it, in their own order, provided they are in start order.
   */
  lemma QueryOfAppendedRows(old_: seq<Row>, added: seq<Row>, path: string)
    requires forall x :: x in old_ ==> x.videoPath != path
    requires forall i :: 0 <= i < |added| ==> added[i].videoPath == path
    requires SortedByStart(added)
    ensures QueryByVideo(old_ + added, path) == added
  {
    FilterAppend(old_, added, path);
    FilterAllMatch(added, path);
    FilterNoneMatch(old_, path);
    assert FilterVideo(old_ + added, path) == added;
    SortSortedIsIdentity(added);
  }

  // ---- Changing only the text columns commutes with the query

  /** `g` applied to every row. */
  function MapRows(rows: seq<Row>, g: Row -> Row): (r: seq<Row>)
    ensures |r| == |rows|
  {
    seq(|rows|, i requires 0 <= i < |rows| => g(rows[i]))
  }

  /** `g` leaves alone the two columns the query looks at. */
  ghost predicate KeepsQueryColumns(g: Row -> Row) {
    forall x :: g(x).startMs == x.startMs && g(x).videoPath == x.videoPath
  }

  lemma MapRowsCons(x: Row, s: seq<Row>, g: Row -> Row)
    ensures MapRows([x] + s, g) == [g(x)] + MapRows(s, g)
  {
  }

  lemma {:induction false} FilterMapRows(rows: seq<Row>, g: Row -> Row, path: string)
    requires KeepsQueryColumns(g)
    ensures FilterVideo(MapRows(rows, g), path) == MapRows(FilterVideo(rows, path), g)
  {
    if rows != [] {
      FilterMapRows(rows[1..], g, path);
      assert MapRows(rows, g)[1..] == MapRows(rows[1..], g);
      assert rows == [rows[0]] + rows[1..];
      MapRowsCons(rows[0], FilterVideo(rows[1..], path), g);
    }
  }

  lemma {:induction false} InsertMapRows(x: Row, s: seq<Row>, g: Row -> Row)
    requires KeepsQueryColumns(g)
    ensures InsertByStart(g(x), MapRows(s, g)) == MapRows(InsertByStart(x, s), g)
  {
    MapRowsCons(x, s, g);
    if s != [] && x.startMs > s[0].startMs {
      InsertMapRows(x, s[1..], g);
      assert MapRows(s, g)[1..] == MapRows(s[1..], g);
      MapRowsCons(s[0], InsertByStart(x, s[1..]), g);
    }
  }

  lemma {:induction false} SortMapRows(rows: seq<Row>, g: Row -> Row)
    requires KeepsQueryColumns(g)
    ensures SortByStart(MapRows(rows, g)) == MapRows(SortByStart(rows), g)
  {
    if rows != [] {
      SortMapRows(rows[1..], g);
      assert MapRows(rows, g)[1..] == MapRows(rows[1..], g);
      InsertMapRows(rows[0], SortByStart(rows[1..]), g);
    }
  }

  /**
   * Rewriting text columns and then querying gives the query's rows with
   * the same rewrite: the same rows, in the same order.
   */
  lemma QueryMapRows(rows: seq<Row>, g: Row -> Row, path: string)
    requires KeepsQueryColumns(g)
    ensures QueryByVideo(MapRows(rows, g), path) == MapRows(QueryByVideo(rows, path), g)
  {
    FilterMapRows(rows, g, path);
    SortMapRows(FilterVideo(rows, path), g);
  }

  // ---- SELECT video_path, lang FROM corpus ORDER BY created_at DESC LIMIT 1

  /** Text comparison of SQLite's BINARY collation: lexicographic by character. */
  predicate LexLe(a: string, b: string)
    decreases |a|
  {
    a == [] || (b != [] && (a[0] < b[0] || (a[0] == b[0] && LexLe(a[1..], b[1..]))))
  }

  lemma {:induction false} LexLeTotal(a: string, b: string)
    ensures LexLe(a, b) || LexLe(b, a)
    decreases |a|
  {
    if a != [] && b != [] && a[0] == b[0] {
      LexLeTotal(a[1..], b[1..]);
    }
  }

  lemma {:induction false} LexLeReflexive(a: string)
    ensures LexLe(a, a)
    decreases |a|
  {
    if a != [] {
      LexLeReflexive(a[1..]);
    }
  }

  lemma {:induction false} LexLeTransitive(a: string, b: string, c: string)
    requires LexLe(a, b) && LexLe(b, c)
    ensures LexLe(a, c)
    decreases |a|
  {
    if a != [] && b != [] && c != [] && a[0] == b[0] && b[0] == c[0] {
      LexLeTransitive(a[1..], b[1..], c[1..]);
    }
  }

  /**
   * A row with the greatest `created_at`, or None on an empty table. Which
   * of several rows with the same timestamp is returned is not promised.
   */
  function Latest(rows: seq<Row>): (r: Option<Row>)
    ensures r.None? <==> rows == []
    ensures r.Some? ==> r.value in rows
    ensures r.Some? ==> forall x :: x in rows ==> LexLe(x.createdAt, r.value.createdAt)
  {
    if rows == [] then None
    else
      var last := rows[|rows| - 1];
      var prefix := rows[..|rows| - 1];
      assert rows == prefix + [last];
      match Latest(prefix)
      case None =>
        LexLeReflexive(last.createdAt);
        Some(last)
      case Some(m) =>
        if LexLe(m.createdAt, last.createdAt) then
          LexLeReflexive(last.createdAt);
          assert forall x :: x in prefix ==> LexLe(x.createdAt, last.createdAt) by {
            forall x | x in prefix ensures LexLe(x.createdAt, last.createdAt) {
              LexLeTransitive(x.createdAt, m.createdAt, last.createdAt);
            }
          }
          Some(last)
        else
          LexLeTotal(m.createdAt, last.createdAt);
          Some(m)
  }

  /** The corpus table with its AUTOINCREMENT counter. */
  class CorpusStore {
    /** The rows, in rowid order. */
    var rows: seq<Row>
    /** The id the next insert receives; never reused, even after a delete. */
    var nextId: nat

    ghost predicate Valid()
      reads this
    {
      && nextId >= 1
      && (forall i :: 0 <= i < |rows| ==> 1 <= rows[i].id < nextId)
      && IdsIncreasing(rows)
    }

    /** `CREATE TABLE IF NOT EXISTS corpus` on a fresh database. */
    constructor ()
      ensures Valid() && rows == [] && nextId == 1
    {
      rows := [];
      nextId := 1;
    }

    /** `INSERT INTO corpus (...) VALUES (...)`: the new row gets an id above every existing one. */
    method Insert(lang: Language, rawText: string, translatedText: string, startMs: nat,
                  videoPath: string, createdAt: string) returns (id: nat)
      requires Valid()
      modifies this
      ensures Valid()
      ensures id == old(nextId) && nextId == id + 1
      ensures forall x :: x in old(rows) ==> x.id < id
      ensures rows == old(rows) + [Row(id, lang, rawText, translatedText, startMs, videoPath, createdAt)]
    {
      id := nextId;
      rows := rows + [Row(id, lang, rawText, translatedText, startMs, videoPath, createdAt)];
      nextId := nextId + 1;
    }

    /** `UPDATE corpus SET <f>=? WHERE id=?` (autosave, one buffered field). */
    method UpdateField(f: Field, id: nat, v: string)
      requires Valid()
      modifies this`rows
      ensures Valid()
      ensures rows == SetField(old(rows), f, id, v)
    {
      rows := SetField(rows, f, id, v);
    }

    /** `UPDATE corpus SET raw_text=?, translated_text=? WHERE id=?` (the per-row save). */
    method UpdateRow(id: nat, rawText: string, translatedText: string)
      requires Valid()
      modifies this`rows
      ensures Valid()
      ensures rows == SetField(SetField(old(rows), RawText, id, rawText), TranslatedText, id, translatedText)
    {
      rows := SetField(SetField(rows, RawText, id, rawText), TranslatedText, id, translatedText);
    }

    /** `DELETE FROM corpus`: every row goes; the id counter does not restart. */
    method DeleteAll()
      requires Valid()
      modifies this`rows
      ensures Valid() && rows == [] && nextId == old(nextId)
    {
      rows := [];
    }

    /** The proofreading query: the rows of one video, in start order. */
    function Query(path: string): (r: seq<Row>)
      reads this
      ensures SortedByStart(r)
      ensures multiset(r) == multiset(FilterVideo(rows, path))
      ensures forall x :: x in r <==> x in rows && x.videoPath == path
    {
      QueryByVideo(rows, path)
    }

    /** The row the proofreading tab opens on: one with the greatest `created_at`. */
    function LatestRow(): (r: Option<Row>)
      reads this
      ensures r.None? <==> rows == []
      ensures r.Some? ==> r.value in rows && forall x :: x in rows ==> LexLe(x.createdAt, r.value.createdAt)
    {
      Latest(rows)
    }
  }
}
