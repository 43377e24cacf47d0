/** The dead-letter table as the list of rows it is: nothing but the MERGE keeps a record from having two. */
module DlqTable {
  import opened Basics
  import opened Events
  import opened Dlq
  import opened DlqRegister
  import opened RawBytes
  import Texts

  datatype TableRow = TableRow(id: DlqId, row: Row)

  /** The ids of the source, each once. */
  function DistinctSourceIds(sources: seq<Source>): (ids: seq<DlqId>)
    ensures forall id :: id in ids <==> id in SourceIds(sources)
    ensures forall i, j :: 0 <= i < j < |ids| ==> ids[i] != ids[j]
  {
    if sources == [] then []
    else
      var n := |sources| - 1;
      assert sources == sources[..n] + [sources[n]];
      var ids := DistinctSourceIds(sources[..n]);
      if sources[n].id in ids then ids else ids + [sources[n].id]
  }

  /** The MERGE source after the window: one row for each id. */
  function Windowed(sources: seq<Source>): (w: seq<Source>)
    ensures forall s :: s in w <==> Latest(sources, s.id) == Some(s)
    ensures forall i, j :: 0 <= i < j < |w| ==> w[i].id != w[j].id
  {
    var ids := DistinctSourceIds(sources);
    var w := seq(|ids|, i requires 0 <= i < |ids| => Latest(sources, ids[i]).value);
    assert forall i :: 0 <= i < |ids| ==> ids[i] in SourceIds(sources) && w[i].id == ids[i];
    assert forall s: Source :: Latest(sources, s.id) == Some(s) ==> s.id in ids;
    w
  }

  /** WHEN MATCHED, row by row. */
  function Updated(rows: seq<TableRow>, sources: seq<Source>): (u: seq<TableRow>)
    ensures |u| == |rows|
    ensures forall i :: 0 <= i < |rows| ==>
              u[i].id == rows[i].id && Some(u[i].row) == MergeOne(Some(rows[i].row), Latest(sources, rows[i].id))
  {
    seq(|rows|, i requires 0 <= i < |rows| =>
      TableRow(rows[i].id, MergeOne(Some(rows[i].row), Latest(sources, rows[i].id)).value))
  }

  predicate HasRow(rows: seq<TableRow>, id: DlqId) {
    exists i :: 0 <= i < |rows| && rows[i].id == id
  }

  predicate Inserts(rows: seq<TableRow>, s: Source) {
    !s.isReplay && !HasRow(rows, s.id)
  }

  /** WHEN NOT MATCHED AND NOT s.is_replay. */
  function Inserted(rows: seq<TableRow>, windowed: seq<Source>): (t: seq<TableRow>)
    ensures forall x :: x in t ==>
              exists s :: s in windowed && s.id == x.id && Inserts(rows, s) && MergeOne(None, Some(s)) == Some(x.row)
  {
    if windowed == [] then []
    else
      var n := |windowed| - 1;
      var s := windowed[n];
      var before := Inserted(rows, windowed[..n]);
      assert windowed == windowed[..n] + [s];
      if Inserts(rows, s) then before + [TableRow(s.id, MergeOne(None, Some(s)).value)] else before
  }

  ghost predicate UniqueIds(rows: seq<TableRow>) {
    forall i, j :: 0 <= i < j < |rows| ==> rows[i].id != rows[j].id
  }

  lemma UniqueSnoc(rows: seq<TableRow>, t: TableRow)
    requires UniqueIds(rows) && !HasRow(rows, t.id)
    ensures UniqueIds(rows + [t])
  {
  }

  lemma {:induction false} InsertedIds(rows: seq<TableRow>, windowed: seq<Source>)
    requires forall i, j :: 0 <= i < j < |windowed| ==> windowed[i].id != windowed[j].id
    ensures UniqueIds(Inserted(rows, windowed))
  {
    if windowed != [] {
      var n := |windowed| - 1;
      var before, s := Inserted(rows, windowed[..n]), windowed[n];
      InsertedIds(rows, windowed[..n]);
      if Inserts(rows, s) {
        assert !HasRow(before, s.id) by {
          forall i | 0 <= i < |before| ensures before[i].id != s.id {
            assert before[i] in before;
          }
        }
        UniqueSnoc(before, TableRow(s.id, MergeOne(None, Some(s)).value));
      }
    }
  }

  lemma {:induction false} InsertedAll(rows: seq<TableRow>, windowed: seq<Source>, s: Source)
    requires s in windowed && Inserts(rows, s)
    ensures TableRow(s.id, MergeOne(None, Some(s)).value) in Inserted(rows, windowed)
  {
    var n := |windowed| - 1;
    assert windowed == windowed[..n] + [windowed[n]];
    if s in windowed[..n] { InsertedAll(rows, windowed[..n], s); }
  }

  function MergeRows(rows: seq<TableRow>, sources: seq<Source>): seq<TableRow> {
    Updated(rows, sources) + Inserted(rows, Windowed(sources))
  }

  /** One row per record, and the table the register theorems speak of. */
  ghost predicate Represents(rows: seq<TableRow>, table: Table) {
    && UniqueIds(rows)
    && (forall t :: t in rows ==> Get(table, t.id) == Some(t.row))
    && (forall id :: id in table ==> HasRow(rows, id))
  }

  /** The MERGE keeps one row per record, and does to each what the register says. */
  lemma MergeKeepsRowsUnique(rows: seq<TableRow>, table: Table, sources: seq<Source>)
    requires Represents(rows, table)
    ensures Represents(MergeRows(rows, sources), Merge(table, sources))
  {
    RowsUnique(rows, sources);
    RowsMatch(rows, table, sources);
    RowsComplete(rows, table, sources);
  }

  lemma NoClash(matched: seq<TableRow>, added: seq<TableRow>)
    requires UniqueIds(matched) && UniqueIds(added) && forall j :: 0 <= j < |added| ==> !HasRow(matched, added[j].id)
    ensures UniqueIds(matched + added)
  {
    var all := matched + added;
    assert forall i :: 0 <= i < |matched| ==> all[i] == matched[i] && HasRow(matched, matched[i].id);
    assert forall j :: |matched| <= j < |all| ==> all[j] == added[j - |matched|];
  }

  lemma RowsUnique(rows: seq<TableRow>, sources: seq<Source>)
    requires UniqueIds(rows)
    ensures UniqueIds(MergeRows(rows, sources))
  {
    var matched, added := Updated(rows, sources), Inserted(rows, Windowed(sources));
    InsertedIds(rows, Windowed(sources));
    assert forall id :: HasRow(matched, id) ==> HasRow(rows, id);
    forall j | 0 <= j < |added| ensures !HasRow(matched, added[j].id) {
      assert added[j] in added;
    }
    NoClash(matched, added);
  }

  lemma RowsMatch(rows: seq<TableRow>, table: Table, sources: seq<Source>)
    requires Represents(rows, table)
    ensures forall t :: t in MergeRows(rows, sources) ==> Get(Merge(table, sources), t.id) == Some(t.row)
  {
    var matched: seq<TableRow>, added: seq<TableRow> := Updated(rows, sources), Inserted(rows, Windowed(sources));
    forall t: TableRow | t in matched + added ensures Get(Merge(table, sources), t.id) == Some(t.row) {
      assert Get(Merge(table, sources), t.id) == MergeOne(Get(table, t.id), Latest(sources, t.id));
      if t in matched {
        var i :| 0 <= i < |matched| && matched[i] == t;
        assert rows[i] in rows;
      } else {
        assert t in added;
        assert !HasRow(rows, t.id);
      }
    }
  }

  lemma RowsComplete(rows: seq<TableRow>, table: Table, sources: seq<Source>)
    requires Represents(rows, table)
    ensures forall id :: id in Merge(table, sources) ==> HasRow(MergeRows(rows, sources), id)
  {
    hide Updated, Inserted, Windowed, Merge;
    var matched, added := Updated(rows, sources), Inserted(rows, Windowed(sources));
    forall id | id in Merge(table, sources) ensures HasRow(matched + added, id) {
      assert Get(Merge(table, sources), id) == MergeOne(Get(table, id), Latest(sources, id));
      if HasRow(rows, id) {
        var i :| 0 <= i < |rows| && rows[i].id == id;
        RowAt(matched, added, i);
      } else {
        assert id !in table;
        InsertedRow(rows, sources, id, Merge(table, sources)[id], added);
        var j :| 0 <= j < |added| && added[j].id == id;
        RowAt(matched, added, |matched| + j);
      }
    }
  }

  lemma RowAt(a: seq<TableRow>, b: seq<TableRow>, i: nat)
    requires i < |a| + |b|
    ensures HasRow(a + b, if i < |a| then a[i].id else b[i - |a|].id)
  {
    assert (a + b)[i] == if i < |a| then a[i] else b[i - |a|];
  }

  lemma InsertedRow(rows: seq<TableRow>, sources: seq<Source>, id: DlqId, row: Row, added: seq<TableRow>)
    requires !HasRow(rows, id) && MergeOne(None, Latest(sources, id)) == Some(row)
    requires added == Inserted(rows, Windowed(sources))
    ensures HasRow(added, id)
  {
    hide Inserted, Windowed;
    var s := Latest(sources, id).value;
    assert s in Windowed(sources);
    InsertedAll(rows, Windowed(sources), s);
    assert TableRow(id, row) in added;
  }

  /** The table after any list of executed MERGE statements, repeated ones included. */
  function MergeRowsRun(run: seq<seq<Source>>): seq<TableRow> {
    if run == [] then [] else MergeRows(MergeRowsRun(run[..|run| - 1]), run[|run| - 1])
  }

  /** The DLQ holds at most one row per rejected record, whatever batches were merged into it and however often. */
  lemma {:induction false} AtMostOneRowPerRecord(run: seq<seq<Source>>)
    ensures Represents(MergeRowsRun(run), MergeRun(map[], run))
  {
    if run != [] {
      var n := |run| - 1;
      AtMostOneRowPerRecord(run[..n]);
      MergeKeepsRowsUnique(MergeRowsRun(run[..n]), MergeRun(map[], run[..n]), run[n]);
    }
  }

  /** It holds exactly one for a record whose rejection was, in some batch, the newest row of the record, and none for
      any other. */
  lemma ExactlyOneRow(run: seq<seq<Source>>, id: DlqId)
    ensures HasRow(MergeRowsRun(run), id) <==> SomeOriginalWins(run, id)
    ensures UniqueIds(MergeRowsRun(run))
  {
    var rows := MergeRowsRun(run);
    AtMostOneRowPerRecord(run);
    RowExists(map[], run, id);
    if i :| 0 <= i < |rows| && rows[i].id == id { assert rows[i] in rows; }
  }

  lemma NoRowWithoutOriginal(run: seq<seq<Source>>)
    requires forall id :: !SomeOriginalWins(run, id)
    ensures MergeRowsRun(run) == []
  {
    hide MergeRowsRun, SomeOriginalWins;
    if MergeRowsRun(run) != [] { ExactlyOneRow(run, MergeRowsRun(run)[0].id); }
  }

  /** So a rejected record can be left without a row: with its rejected replay in the first batch, nothing is
      inserted. */
  lemma RejectedTwiceHasNoRow(body: Option<seq<byte>>)
    ensures var original := Decoded("lakeflow.shop.orders", 0, 0, None, None, body, Rejected("CONTRACT_VIOLATION"));
            var replay := Decoded("lakeflow.replay.cdc", 0, 1, Some(DlqId("lakeflow.shop.orders", 0, 0)), None,
                                  body, Rejected("CONTRACT_VIOLATION"));
            MergeRowsRun([Sources([original, replay], 0)]) == []
  {
    hide RawText;
    var id := DlqId("lakeflow.shop.orders", 0, 0);
    var original := Decoded("lakeflow.shop.orders", 0, 0, None, None, body, Rejected("CONTRACT_VIOLATION"));
    var replay := Decoded("lakeflow.replay.cdc", 0, 1, Some(id), None, body, Rejected("CONTRACT_VIOLATION"));
    var run := [Sources([original, replay], 0)];
    SourcesOfTwo(original, replay, 0);
    LatestOfTwo(SourceOf(original, 0), SourceOf(replay, 0));
    Texts.PositionOrder(0, 0, 0, 1);
    assert run[0] == [SourceOf(original, 0), SourceOf(replay, 0)];
    forall other ensures !OriginalWins(run[0], other) {
      assert other in SourceIds(run[0]) ==> other == id;
    }
    NoRowWithoutOriginal(run);
  }
}
