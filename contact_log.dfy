/**
 * The contact store of model/wsjtx_db.py: the `qsos` table with its two
 * unique indices, SQLite's INSERT OR REPLACE, the six-field lookup, the mode
 * table and the ADIF export sink.
 */
module ContactLog {
  import opened Wrappers
  import opened Text
  import opened Types

  /** One row of the `qsos` table: the logged contact and the session it was logged in. */
  datatype Row = Row(qso: Qso, ordinalOn: int, band: int, park: string, shift: string)

  /** The columns of the unique index `hunter`. */
  datatype HunterKey = HunterKey(dxCall: string, mode: string, ordinalOn: int, band: int)

  /** The columns of the unique index `activator`. */
  datatype ActivatorKey = ActivatorKey(
    dxCall: string, mode: string, ordinalOn: int, band: int, park: string, shift: string)

  function Hunter(x: Row): HunterKey
  {
    HunterKey(x.qso.dxCall, x.qso.mode, x.ordinalOn, x.band)
  }

  function Activator(x: Row): ActivatorKey
  {
    ActivatorKey(x.qso.dxCall, x.qso.mode, x.ordinalOn, x.band, x.park, x.shift)
  }

  /** The `hunter` index holds: no two rows share its columns. */
  ghost predicate HunterUnique(rows: seq<Row>)
  {
    forall i, j :: 0 <= i < j < |rows| ==> Hunter(rows[i]) != Hunter(rows[j])
  }

  /** The `activator` index holds: no two rows share its columns. */
  ghost predicate ActivatorUnique(rows: seq<Row>)
  {
    forall i, j :: 0 <= i < j < |rows| ==> Activator(rows[i]) != Activator(rows[j])
  }

  /** The hunter columns are among the activator columns, so the hunter index implies the other. */
  lemma HunterUniqueIsActivatorUnique(rows: seq<Row>)
    requires HunterUnique(rows)
    ensures ActivatorUnique(rows)
  {
  }

  /** The row `add` stores: the record's columns, then the session's ordinal, band, park and shift. */
  function NewRow(d: Qso, ctx: Session): (x: Row)
    ensures x.qso == d
    ensures x.ordinalOn == ctx.ordinal && x.band == ctx.band
    ensures x.park == ctx.park && x.shift == ctx.shift
  {
    Row(d, ctx.ordinal, ctx.band, ctx.park, ctx.shift)
  }

  /** Inserting `row` would violate a unique index because of `x`. */
  predicate Conflicts(x: Row, row: Row)
  {
    Activator(x) == Activator(row) || Hunter(x) == Hunter(row)
  }

  /** The rows REPLACE keeps: every row that conflicts with `row` on either index is deleted. */
  function Surviving(rows: seq<Row>, row: Row): (kept: seq<Row>)
    ensures forall x :: multiset(kept)[x] == if Conflicts(x, row) then 0 else multiset(rows)[x]
  {
    if rows == [] then []
    else
      assert rows == [rows[0]] + rows[1..];
      (if Conflicts(rows[0], row) then [] else [rows[0]]) + Surviving(rows[1..], row)
  }

  /** `insert or replace`: delete the conflicting rows, then append the new row. */
  function InsertOrReplace(rows: seq<Row>, row: Row): seq<Row>
  {
    Surviving(rows, row) + [row]
  }

  /** A conflict on either index is the same as sharing the hunter key. */
  lemma ConflictsIsHunterMatch(x: Row, row: Row)
    ensures Conflicts(x, row) <==> Hunter(x) == Hunter(row)
  {
  }

  lemma SurvivingMembers(rows: seq<Row>, row: Row)
    ensures forall x :: x in Surviving(rows, row) ==> x in rows && Hunter(x) != Hunter(row)
  {
    forall x | x in Surviving(rows, row) ensures x in rows && Hunter(x) != Hunter(row) {
      assert x in multiset(Surviving(rows, row));
    }
  }

  lemma UniqueTail(rows: seq<Row>)
    requires rows != [] && HunterUnique(rows)
    ensures HunterUnique(rows[1..])
    ensures forall x :: x in rows[1..] ==> Hunter(x) != Hunter(rows[0])
  {
    var t := rows[1..];
    forall i, j | 0 <= i < j < |t| ensures Hunter(t[i]) != Hunter(t[j]) {
      assert t[i] == rows[i + 1] && t[j] == rows[j + 1];
    }
    forall x | x in t ensures Hunter(x) != Hunter(rows[0]) {
      var j :| 0 <= j < |t| && t[j] == x;
      assert rows[j + 1] == x;
    }
  }

  lemma UniqueCons(h: Row, k: seq<Row>)
    requires HunterUnique(k)
    requires forall x :: x in k ==> Hunter(x) != Hunter(h)
    ensures HunterUnique([h] + k)
  {
    var u := [h] + k;
    forall i, j | 0 <= i < j < |u| ensures Hunter(u[i]) != Hunter(u[j]) {
      assert u[j] == k[j - 1];
      if i > 0 {
        assert u[i] == k[i - 1];
      } else {
        assert u[j] in k;
      }
    }
  }

  lemma {:induction false} SurvivingUnique(rows: seq<Row>, row: Row)
    requires HunterUnique(rows)
    ensures HunterUnique(Surviving(rows, row))
    decreases |rows|
  {
    if rows != [] {
      var h, t := rows[0], rows[1..];
      UniqueTail(rows);
      SurvivingUnique(t, row);
      var k := Surviving(t, row);
      SurvivingMembers(t, row);
      if !Conflicts(h, row) {
        UniqueCons(h, k);
      }
    }
  }

  /** `add` keeps the table's invariant: the hunter key stays unique. */
  lemma {:induction false} InsertOrReplaceUnique(rows: seq<Row>, row: Row)
    requires HunterUnique(rows)
    ensures HunterUnique(InsertOrReplace(rows, row))
  {
    SurvivingUnique(rows, row);
    SurvivingMembers(rows, row);
    var k := Surviving(rows, row);
    var u := InsertOrReplace(rows, row);
    forall i, j | 0 <= i < j < |u| ensures Hunter(u[i]) != Hunter(u[j]) {
      if j == |u| - 1 {
        assert u[i] in k;
      } else {
        assert u[i] == k[i] && u[j] == k[j];
      }
    }
  }

  /** After `add`, the new row is the one and only row carrying its hunter key. */
  lemma {:induction false} InsertOrReplaceSole(rows: seq<Row>, row: Row)
    ensures var u := InsertOrReplace(rows, row);
      && u[|u| - 1] == row
      && forall i :: 0 <= i < |u| ==> (Hunter(u[i]) == Hunter(row) <==> i == |u| - 1)
  {
    var k := Surviving(rows, row);
    var u := InsertOrReplace(rows, row);
    forall i | 0 <= i < |u| - 1 ensures Hunter(u[i]) != Hunter(row) {
      assert u[i] == k[i];
      assert u[i] in multiset(k);
    }
  }

  /** `add` leaves every row of another hunter key where it was, as often as it was. */
  lemma InsertOrReplaceKeepsOthers(rows: seq<Row>, row: Row)
    ensures forall x :: Hunter(x) != Hunter(row) ==>
      multiset(InsertOrReplace(rows, row))[x] == multiset(rows)[x]
  {
  }

  /** `select exists(... where dx_call=? and mode=? and ...)`: some row carries key `k`. */
  function HasRow(rows: seq<Row>, k: ActivatorKey): (found: bool)
    ensures found <==> exists i :: 0 <= i < |rows| && Activator(rows[i]) == k
  {
    if rows == [] then false
    else if Activator(rows[0]) == k then true
    else
      assert forall i :: 1 <= i < |rows| ==> rows[i] == rows[1..][i - 1];
      HasRow(rows[1..], k)
  }

  /** The marker characters the radio app uses for its modes, mapped to mode names (`mode_lu`). */
  const ModeTable: map<string, string> := map[
    "`" := "FST4", "+" := "FT4", "~" := "FT8", "$" := "JT4",
    "@" := "JT9", "#" := "JT65", ":" := "Q65", "&" := "MSK144"]

  /** `mode_lu.get(marker, '')`. */
  function ModeLu(marker: string): (name: string)
    ensures name != "" <==> |marker| == 1 && marker[0] in "`+~$@#:&"
    ensures name in {"", "FST4", "FT4", "FT8", "JT4", "JT9", "JT65", "Q65", "MSK144"}
  {
    if |marker| == 1 then
      assert marker == [marker[0]];
      if marker in ModeTable then ModeTable[marker] else ""
    else ""
  }

  /** The key `exists` looks up: the call, the decode's mode name and the session context. */
  function QueryKey(dxCall: string, d: Decode, ctx: Session): ActivatorKey
  {
    ActivatorKey(dxCall, ModeLu(d.mode), ctx.ordinal, ctx.band, ctx.park, ctx.shift)
  }

  /** Right after logging `q`, `exists` finds the call when the decode's marker names `q`'s mode. */
  lemma {:induction false} ExistsAfterAdd(rows: seq<Row>, q: Qso, ctx: Session, d: Decode)
    requires ModeLu(d.mode) == q.mode
    ensures HasRow(InsertOrReplace(rows, NewRow(q, ctx)), QueryKey(q.dxCall, d, ctx))
  {
    var u := InsertOrReplace(rows, NewRow(q, ctx));
    assert Activator(u[|u| - 1]) == QueryKey(q.dxCall, d, ctx);
  }

  /** Logging a contact changes no `exists` answer for a different call, mode, ordinal or band. */
  lemma {:induction false} ExistsElsewhereUnchanged(rows: seq<Row>, row: Row, k: ActivatorKey)
    requires HunterKey(k.dxCall, k.mode, k.ordinalOn, k.band) != Hunter(row)
    ensures HasRow(InsertOrReplace(rows, row), k) == HasRow(rows, k)
  {
    var u := InsertOrReplace(rows, row);
    if HasRow(rows, k) {
      var i :| 0 <= i < |rows| && Activator(rows[i]) == k;
      assert rows[i] in multiset(rows);
      assert rows[i] in multiset(u);
    }
    if HasRow(u, k) {
      var i :| 0 <= i < |u| && Activator(u[i]) == k;
      assert u[i] in multiset(u);
      assert u[i] in multiset(rows);
    }
  }

  /**
   * The replacement works at the hunter key: logging a contact for a call,
   * mode, ordinal and band already logged from another park or shift deletes
   * that earlier row, so `exists` no longer finds it.
   */
  lemma {:induction false} AddDisplacesOtherPark(rows: seq<Row>, row: Row, earlier: Row)
    requires HunterUnique(rows)
    requires earlier in rows && Hunter(earlier) == Hunter(row) && Activator(earlier) != Activator(row)
    ensures !HasRow(InsertOrReplace(rows, row), Activator(earlier))
  {
    var u := InsertOrReplace(rows, row);
    if HasRow(u, Activator(earlier)) {
      var i :| 0 <= i < |u| && Activator(u[i]) == Activator(earlier);
      InsertOrReplaceSole(rows, row);
      assert false;
    }
  }

  /** The ADIF header terminator. */
  const EndOfHeader: string := "<EOH>\n"

  /** How an ADIF append ends: the new sink contents, or IndexError for a text without a header end. */
  datatype LogWrite = Wrote(sink: string) | NoHeader

  /**
   * `add_log` on a sink: a missing file receives the text verbatim; an
   * existing one receives `text.split('<EOH>\n')[1]`.
   */
  function AppendLog(sink: Option<string>, text: string): LogWrite
  {
    match sink
    case None => Wrote(text)
    case Some(s) =>
      var parts := Split(text, EndOfHeader);
      if |parts| < 2 then NoHeader else Wrote(s + parts[1])
  }

  /**
   * The sink is append-only. Appending to an existing sink fails exactly when
   * the text holds no header end; otherwise what is appended is the text
   * between the first header end and the next one (or the end of the text).
   */
  lemma {:induction false} AppendLogSegment(sink: Option<string>, text: string)
    ensures sink.None? ==> AppendLog(sink, text) == Wrote(text)
    ensures sink.Some? ==> (AppendLog(sink, text).NoHeader? <==> SepFree(text, EndOfHeader))
    ensures sink.Some? && AppendLog(sink, text).Wrote? ==>
      var w := AppendLog(sink, text).sink;
      var seg := w[|sink.value|..];
      var head := Split(text, EndOfHeader)[0];
      && sink.value <= w
      && SepFree(head, EndOfHeader) && SepFree(seg, EndOfHeader)
      && head + EndOfHeader + seg <= text
      && (|text| == |head + EndOfHeader + seg| || OccursAt(text, EndOfHeader, |head + EndOfHeader + seg|))
  {
    if sink.Some? {
      var parts := Split(text, EndOfHeader);
      SplitJoin(text, EndOfHeader);
      if |parts| < 2 {
        assert text == parts[0];
      } else {
        var head, seg := parts[0], parts[1];
        assert parts[1..][0] == seg;
        assert text == head + EndOfHeader + Join(parts[1..], EndOfHeader);
        var pre := head + EndOfHeader;
        assert OccursAt(text, EndOfHeader, |head|) by {
          assert text[|head|..|head| + |EndOfHeader|] == EndOfHeader;
        }
        if |parts| == 2 {
          assert Join(parts[1..], EndOfHeader) == seg;
        } else {
          var more := Join(parts[2..], EndOfHeader);
          assert parts[1..][1..] == parts[2..];
          assert Join(parts[1..], EndOfHeader) == seg + EndOfHeader + more;
          assert text == pre + seg + EndOfHeader + more;
          assert text[|pre + seg|..|pre + seg| + |EndOfHeader|] == EndOfHeader;
        }
        var w := sink.value + seg;
        assert w[|sink.value|..] == seg;
      }
    }
  }

  /** The contact store: the `qsos` table and the ADIF export file (absent until first written). */
  class WsjtxDb {
    var rows: seq<Row>
    var adif: Option<string>

    ghost predicate Valid()
      reads this
    {
      HunterUnique(rows)
    }

    /** Opens the store over an existing table, which its unique indices keep free of duplicates. */
    constructor(rows0: seq<Row>, adif0: Option<string>)
      requires HunterUnique(rows0)
      ensures Valid() && rows == rows0 && adif == adif0
    {
      rows := rows0;
      adif := adif0;
    }

    /** `exists(dx_call, d)`: some row matches all six queried columns. */
    function Exists(dxCall: string, d: Decode, ctx: Session): (found: bool)
      reads this
      ensures found <==>
        exists i :: 0 <= i < |rows|
          && rows[i].qso.dxCall == dxCall && rows[i].qso.mode == ModeLu(d.mode)
          && rows[i].ordinalOn == ctx.ordinal && rows[i].band == ctx.band
          && rows[i].park == ctx.park && rows[i].shift == ctx.shift
    {
      HasRow(rows, QueryKey(dxCall, d, ctx))
    }

    /** `add(d)`: insert or replace the record with the session's ordinal, band, park and shift. */
    method Add(d: Qso, ctx: Session)
      requires Valid()
      modifies this`rows
      ensures Valid()
      ensures rows == InsertOrReplace(old(rows), NewRow(d, ctx))
      ensures rows != []
      ensures var x := rows[|rows| - 1];
        && x.qso == d && x.ordinalOn == ctx.ordinal && x.band == ctx.band
        && x.park == ctx.park && x.shift == ctx.shift
      ensures forall i :: 0 <= i < |rows| ==>
        (Hunter(rows[i]) == HunterKey(d.dxCall, d.mode, ctx.ordinal, ctx.band) <==> i == |rows| - 1)
      ensures forall x :: Hunter(x) != HunterKey(d.dxCall, d.mode, ctx.ordinal, ctx.band) ==>
        multiset(rows)[x] == multiset(old(rows))[x]
    {
      InsertOrReplaceUnique(rows, NewRow(d, ctx));
      InsertOrReplaceSole(rows, NewRow(d, ctx));
      InsertOrReplaceKeepsOthers(rows, NewRow(d, ctx));
      rows := InsertOrReplace(rows, NewRow(d, ctx));
    }

    /** `add_log(text)`: append to the export file, stripping the header when the file exists. */
    method AddLog(text: string) returns (outcome: Outcome)
      modifies this`adif
      ensures match AppendLog(old(adif), text)
        case Wrote(s) => adif == Some(s) && outcome == Done
        case NoHeader => adif == old(adif) && outcome == Raised(IndexError)
    {
      var fileExists := adif.Some?;
      var t := text;
      if fileExists {
        var parts := Split(text, EndOfHeader);
        if |parts| < 2 {
          return Raised(IndexError);
        }
        t := parts[1];
        adif := Some(adif.value + t);
      } else {
        adif := Some(t);
      }
      outcome := Done;
    }
  }
}
