/** The silver join and MERGE as they are written: on the stored first key column, not on the key text. */
module SinkColumns {
  import opened Basics
  import opened Events
  import opened SinkPlan
  import Identity

  /** A stored column value, and what CAST(... AS STRING) prints of it. */
  datatype Cell = Cell(value: string, printed: string)

  /** A key as the decoder spells it, column by column, and the first column as the silver table stores it. */
  datatype KeyColumns = KeyColumns(texts: seq<string>, first: Cell)

  /** The key columns behind each key text in use. */
  type Columns = map<Key, KeyColumns>

  /** A contract with `arity` key columns; the decoder joins their texts with bars. */
  predicate KeyedBy(columns: Columns, arity: nat) {
    arity >= 1 && forall k :: k in columns ==> |columns[k].texts| == arity && Identity.JoinKey(columns[k].texts) == k.pk
  }

  /** The first key column of a stored row, the one the sink joins and merges on. */
  function First(columns: Columns, k: Key): Cell {
    if k in columns then columns[k].first else Cell(k.pk, k.pk)
  }

  /** The stored first column prints as the key text the decoder made. True of one string or integer key column; not of
      composite keys, nor of decimal, date-time, boolean or float columns that are stored in another form. */
  predicate PrintsAsText(columns: Columns, k: Key) {
    First(columns, k).printed == k.pk
  }

  predicate PrintsKeys(columns: Columns, keys: set<Key>) {
    forall k :: k in keys ==> PrintsAsText(columns, k)
  }

  /** Where the stored first column prints as the decoder's text of that column, it prints as the key text exactly for
      one-column keys. */
  lemma TextIsFirstColumn(columns: Columns, arity: nat, k: Key)
    requires KeyedBy(columns, arity) && k in columns && First(columns, k).printed == columns[k].texts[0]
    ensures PrintsAsText(columns, k) <==> arity == 1
  {
    if arity > 1 { assert |Identity.JoinKey(columns[k].texts)| > |columns[k].texts[0]|; }
  }

  // ----------------------------------------------------------------- the baseline join

  /** candidates.join(silver, "primary_key", "left"): the silver side offers its printed first key column. */
  function Joined(columns: Columns, silver: Silver, k: Key): set<Key> {
    set j | j in silver && j.table == k.table && First(columns, j).printed == k.pk
  }

  /** The baselines of the joined rows; a left join without a match has one row with none. */
  function JoinedBaselines(columns: Columns, silver: Silver, k: Key, stamp: Stamp): set<Option<int>> {
    if Joined(columns, silver, k) == {} then {None}
    else set j | j in Joined(columns, silver, k) :: Baseline(silver[j], stamp)
  }

  /** The label of an event against one baseline. */
  function LabelAgainst(unique: map<EventId, ChangeEvent>, dups: set<EventId>, baseline: Option<int>, id: EventId)
    : Outcome
    requires id in unique
  {
    if id in dups then Duplicate
    else if baseline.Some? && unique[id].change.lsn <= baseline.value then Stale
    else if Outranked(unique, dups, id) then Superseded
    else Applied
  }

  /** The labels of an event's rows after the join. */
  function JoinedLabels(columns: Columns, silver: Silver, unique: map<EventId, ChangeEvent>, dups: set<EventId>,
                        stamp: Stamp, id: EventId): set<Outcome>
    requires id in unique
  {
    set b | b in JoinedBaselines(columns, silver, unique[id].change.key, stamp) :: LabelAgainst(unique, dups, b, id)
  }

  /** The join finds the row of the event's key and nothing else exactly when that row, if there is one, prints as the
      key text, and no other row of the table does. */
  lemma JoinIsKeyed(columns: Columns, silver: Silver, k: Key)
    ensures Joined(columns, silver, k) == (if k in silver then {k} else {}) <==>
            (k in silver ==> PrintsAsText(columns, k)) &&
            forall j :: j in silver && j.table == k.table && j != k ==> First(columns, j).printed != k.pk
  {
    assert forall j :: j in Joined(columns, silver, k) <==>
                       j in silver && j.table == k.table && First(columns, j).printed == k.pk;
  }

  /** Where stored keys print as their key texts the join is the keyed lookup, and labels are those of the plan, for
      every table and every event. */
  lemma PrintedKeyJoin(columns: Columns, silver: Silver, unique: map<EventId, ChangeEvent>, dups: set<EventId>,
                       stamp: Stamp, id: EventId)
    requires PrintsKeys(columns, silver.Keys) && id in unique
    ensures var k := unique[id].change.key;
            && Joined(columns, silver, k) == (if k in silver then {k} else {})
            && JoinedBaselines(columns, silver, k, stamp) == {Get(Baselines(silver, stamp), k)}
    ensures JoinedLabels(columns, silver, unique, dups, stamp, id) ==
            {Label(unique, dups, Baselines(silver, stamp), id)}
  {
    var k := unique[id].change.key;
    JoinIsKeyed(columns, silver, k);
    assert Get(Baselines(silver, stamp), k) == if k in silver then Baseline(silver[k], stamp) else None;
    assert JoinedBaselines(columns, silver, k, stamp) == {Get(Baselines(silver, stamp), k)};
    assert LabelAgainst(unique, dups, Get(Baselines(silver, stamp), k), id) ==
           Label(unique, dups, Baselines(silver, stamp), id);
  }

  /** An event whose key text no stored row prints finds no baseline and is never labelled stale, however new its row:
      only the guard inside the MERGE is left. */
  lemma LostBaseline(columns: Columns, silver: Silver, unique: map<EventId, ChangeEvent>, dups: set<EventId>,
                     stamp: Stamp, id: EventId)
    requires id in unique && Joined(columns, silver, unique[id].change.key) == {}
    ensures JoinedLabels(columns, silver, unique, dups, stamp, id) == {LabelAgainst(unique, dups, None, id)}
    ensures Stale !in JoinedLabels(columns, silver, unique, dups, stamp, id)
  {
    assert JoinedBaselines(columns, silver, unique[id].change.key, stamp) == {None};
  }

  /** That is the fate of every event of a composite key, unless some first column contains a bar. */
  lemma CompositeBaselineIsLost(columns: Columns, arity: nat, silver: Silver, unique: map<EventId, ChangeEvent>,
                                dups: set<EventId>, stamp: Stamp, id: EventId)
    requires KeyedBy(columns, arity) && arity > 1 && id in unique && unique[id].change.key in columns
    requires forall j :: j in silver ==> Identity.NoBar(First(columns, j).printed)
    ensures Joined(columns, silver, unique[id].change.key) == {}
    ensures JoinedLabels(columns, silver, unique, dups, stamp, id) == {LabelAgainst(unique, dups, None, id)}
    ensures Stale !in JoinedLabels(columns, silver, unique, dups, stamp, id)
  {
    var k := unique[id].change.key;
    var texts := columns[k].texts;
    assert texts[0] + "|" + Identity.JoinKey(texts[1..]) == k.pk;
    assert k.pk[|texts[0]|] == '|';
    assert !Identity.NoBar(k.pk);
    LostBaseline(columns, silver, unique, dups, stamp, id);
  }

  /** And of a one-column decimal(p,2) key spelled "1.5" and stored as 1.50: an event older than the row is applied. */
  lemma RescaledKeyLosesBaseline(stamp: Stamp)
    requires stamp != Stamp("first", 0)
    ensures var k := Key("shop.rates", "1.5");
            var columns: Columns := map[k := KeyColumns(["1.5"], Cell("1.50", "1.50"))];
            var silver: Silver := map[k := SilverRow(None, false, 5, None, "e5", Stamp("first", 0))];
            var unique := map["e3" := ChangeEvent("e3", Change(k, Update, 3, 0, None), "t", 0, 0)];
            && KeyedBy(columns, 1)
            && JoinedLabels(columns, silver, unique, {}, stamp, "e3") == {Applied}
            && Label(unique, {}, Baselines(silver, stamp), "e3") == Stale
  {
    var k := Key("shop.rates", "1.5");
    var columns: Columns := map[k := KeyColumns(["1.5"], Cell("1.50", "1.50"))];
    var silver: Silver := map[k := SilverRow(None, false, 5, None, "e5", Stamp("first", 0))];
    var unique := map["e3" := ChangeEvent("e3", Change(k, Update, 3, 0, None), "t", 0, 0)];
    assert |"1.5"| != |"1.50"|;
    LostBaseline(columns, silver, unique, {}, stamp, "e3");
    assert Get(Baselines(silver, stamp), k) == Baseline(silver[k], stamp);
  }

  // ------------------------------------------------------------------------- the MERGE

  /** A physical row: the key its columns spell, and the rest. */
  datatype Stored = Stored(key: Key, row: SilverRow)

  /** The rows after a MERGE: what became of each row, and the inserted ones. */
  datatype Merged =
    | CardinalityViolation
    | Merged(kept: map<Key, Stored>, inserted: map<Key, Stored>)

  /** ON t.pk = s.pk, for the first key column as it is stored. */
  predicate Matches(columns: Columns, winners: map<Key, ChangeEvent>, table: string, j: Key, w: Key) {
    w in winners && w.table == table && First(columns, j) == First(columns, w)
  }

  /** Two source rows for one target row: the MERGE fails. */
  ghost predicate Ambiguous(columns: Columns, silver: Silver, winners: map<Key, ChangeEvent>, table: string) {
    exists j, v, w {:trigger Matches(columns, winners, table, j, v), Matches(columns, winners, table, j, w)} ::
      j in silver && v != w && Matches(columns, winners, table, j, v) && Matches(columns, winners, table, j, w)
  }

  /** WHEN MATCHED: a delete leaves the key columns alone, an upsert overwrites all columns but the first. */
  function Touched(j: Key, row: SilverRow, w: Key, e: ChangeEvent, stamp: Stamp): Stored {
    if e.change.lsn <= row.sourceLsn then Stored(j, row)
    else Stored(if e.change.op == Delete then j else w, MergeRow(Some(row), e, stamp))
  }

  ghost function MatchedRow(columns: Columns, silver: Silver, winners: map<Key, ChangeEvent>, table: string,
                            stamp: Stamp, j: Key): Stored
    requires j in silver
  {
    if w :| Matches(columns, winners, table, j, w) then Touched(j, silver[j], w, winners[w], stamp)
    else Stored(j, silver[j])
  }

  /** The MERGE of one table. */
  ghost function MergeByColumn(columns: Columns, silver: Silver, winners: map<Key, ChangeEvent>, table: string,
                               stamp: Stamp): Merged {
    if Ambiguous(columns, silver, winners, table) then CardinalityViolation
    else Merged(map j | j in silver :: MatchedRow(columns, silver, winners, table, stamp, j),
                map w | w in winners && w.table == table && Unmatched(columns, silver, w)
                  :: Stored(w, MergeRow(None, winners[w], stamp)))
  }

  /** WHEN NOT MATCHED. */
  predicate Unmatched(columns: Columns, silver: Silver, w: Key) {
    forall j :: j in silver ==> First(columns, j) != First(columns, w)
  }

  function Rows(silver: Silver): set<Stored> {
    set k | k in silver :: Stored(k, silver[k])
  }

  ghost predicate Holds(m: Merged, x: Stored) {
    m.Merged? && ((exists j :: j in m.kept && m.kept[j] == x) || (exists w :: w in m.inserted && m.inserted[w] == x))
  }

  /** The merged table is the keyed one: the same rows, and as many. */
  ghost predicate Same(m: Merged, keyed: Silver) {
    && m.Merged?
    && (forall x :: Holds(m, x) <==> x in Rows(keyed))
    && |m.kept| + |m.inserted| == |keyed|
  }

  /** A row that shares its first column with the source row of another key is out of its reach: that key has its own
      row, and the guard keeps the source row off this one. */
  predicate OutOfReach(silver: Silver, winners: map<Key, ChangeEvent>, j: Key, w: Key)
    requires j in silver && w in winners
  {
    w in silver && winners[w].change.lsn <= silver[j].sourceLsn
  }

  /** The first column separates the stored rows from the source rows of other keys, as far as it has to. */
  ghost predicate Separates(columns: Columns, silver: Silver, winners: map<Key, ChangeEvent>, table: string) {
    && !Ambiguous(columns, silver, winners, table)
    && forall j, w {:trigger Matches(columns, winners, table, j, w)} ::
         j in silver && Matches(columns, winners, table, j, w) && j != w ==> OutOfReach(silver, winners, j, w)
  }

  ghost predicate OneTable(silver: Silver, table: string) {
    forall j :: j in silver ==> j.table == table
  }

  /** A key with its own source row is matched by no other. */
  lemma OwnMatchOnly(columns: Columns, silver: Silver, winners: map<Key, ChangeEvent>, table: string, j: Key, w: Key)
    requires OneTable(silver, table) && !Ambiguous(columns, silver, winners, table)
    requires j in silver && j in winners && Matches(columns, winners, table, j, w)
    ensures w == j
  {
    assert Matches(columns, winners, table, j, j);
  }

  lemma MatchedBy(columns: Columns, silver: Silver, winners: map<Key, ChangeEvent>, table: string, stamp: Stamp, j: Key,
                  w: Key)
    requires !Ambiguous(columns, silver, winners, table) && j in silver && Matches(columns, winners, table, j, w)
    ensures MatchedRow(columns, silver, winners, table, stamp, j) == Touched(j, silver[j], w, winners[w], stamp)
  {
  }

  lemma KeptAgrees(columns: Columns, silver: Silver, winners: map<Key, ChangeEvent>, table: string, stamp: Stamp,
                   j: Key)
    requires OneTable(silver, table) && Separates(columns, silver, winners, table) && j in silver
    ensures j in MergeTable(silver, winners, table, stamp)
    ensures MatchedRow(columns, silver, winners, table, stamp, j) ==
            Stored(j, MergeTable(silver, winners, table, stamp)[j])
  {
    var keyed := MergeTable(silver, winners, table, stamp);
    assert Get(keyed, j) == if j in winners && j.table == table then Some(MergeRow(Get(silver, j), winners[j], stamp))
                            else Get(silver, j);
    if w :| Matches(columns, winners, table, j, w) {
      MatchedBy(columns, silver, winners, table, stamp, j, w);
      if j in winners { OwnMatchOnly(columns, silver, winners, table, j, w); }
    } else {
      assert j in winners ==> Matches(columns, winners, table, j, j);
    }
  }

  lemma InsertedAgrees(columns: Columns, silver: Silver, winners: map<Key, ChangeEvent>, table: string, stamp: Stamp,
                       w: Key)
    requires OneTable(silver, table) && Separates(columns, silver, winners, table)
    ensures w in winners && w.table == table && Unmatched(columns, silver, w) <==>
            w in MergeTable(silver, winners, table, stamp) && w !in silver
    ensures w in MergeTable(silver, winners, table, stamp) && w !in silver ==>
              MergeTable(silver, winners, table, stamp)[w] == MergeRow(None, winners[w], stamp)
  {
    var keyed := MergeTable(silver, winners, table, stamp);
    assert Get(keyed, w) == if w in winners && w.table == table then Some(MergeRow(Get(silver, w), winners[w], stamp))
                            else Get(silver, w);
    if w in winners && w.table == table && w !in silver && !Unmatched(columns, silver, w) {
      var j :| j in silver && First(columns, j) == First(columns, w);
      assert Matches(columns, winners, table, j, w);
    }
  }

  lemma SeparatesIsSame(columns: Columns, silver: Silver, winners: map<Key, ChangeEvent>, table: string, stamp: Stamp)
    requires OneTable(silver, table) && Separates(columns, silver, winners, table)
    ensures Same(MergeByColumn(columns, silver, winners, table, stamp), MergeTable(silver, winners, table, stamp))
  {
    hide MergeTable, Separates, MatchedRow, Unmatched;
    var keyed := MergeTable(silver, winners, table, stamp);
    var m := MergeByColumn(columns, silver, winners, table, stamp);
    assert !Ambiguous(columns, silver, winners, table) by { NotAmbiguous(columns, silver, winners, table); }
    forall j | j in silver ensures j in keyed && m.kept[j] == Stored(j, keyed[j]) {
      KeptAgrees(columns, silver, winners, table, stamp, j);
    }
    forall w
      ensures w in m.inserted <==> w in keyed && w !in silver
      ensures w in m.inserted ==> m.inserted[w] == Stored(w, keyed[w])
    {
      InsertedAgrees(columns, silver, winners, table, stamp, w);
    }
    KeysSplit(m.kept.Keys, m.inserted.Keys, keyed.Keys);
    SameFrom(m, keyed);
  }

  lemma NotAmbiguous(columns: Columns, silver: Silver, winners: map<Key, ChangeEvent>, table: string)
    requires Separates(columns, silver, winners, table)
    ensures !Ambiguous(columns, silver, winners, table)
  {
  }

  lemma CountsAdd(kept: map<Key, Stored>, inserted: map<Key, Stored>, keyed: Silver)
    requires keyed.Keys == kept.Keys + inserted.Keys && kept.Keys !! inserted.Keys
    ensures |kept| + |inserted| == |keyed|
  {
    assert |kept| == |kept.Keys| && |inserted| == |inserted.Keys| && |keyed| == |keyed.Keys|;
  }

  lemma SameRows(m: Merged, keyed: Silver, x: Stored)
    requires m.Merged? && m.kept.Keys + m.inserted.Keys == keyed.Keys
    requires forall j :: j in m.kept ==> m.kept[j] == Stored(j, keyed[j])
    requires forall w :: w in m.inserted ==> m.inserted[w] == Stored(w, keyed[w])
    ensures Holds(m, x) <==> x in Rows(keyed)
  {
    if x in Rows(keyed) {
      assert x.key in m.kept.Keys + m.inserted.Keys && x == Stored(x.key, keyed[x.key]);
    }
  }

  lemma SameFrom(m: Merged, keyed: Silver)
    requires m.Merged? && keyed.Keys == m.kept.Keys + m.inserted.Keys && m.kept.Keys !! m.inserted.Keys
    requires forall j :: j in m.kept ==> m.kept[j] == Stored(j, keyed[j])
    requires forall w :: w in m.inserted ==> m.inserted[w] == Stored(w, keyed[w])
    ensures Same(m, keyed)
  {
    hide Holds, Rows;
    CountsAdd(m.kept, m.inserted, keyed);
    forall x ensures Holds(m, x) <==> x in Rows(keyed) {
      SameRows(m, keyed, x);
    }
  }

  lemma KeysSplit(part: set<Key>, rest: set<Key>, all: set<Key>)
    requires part <= all && forall k :: k in rest <==> k in all && k !in part
    ensures all == part + rest && part !! rest
  {
  }

  /** A source row that passes the guard of another key's row overwrites it, and the row is gone. */
  lemma RowIsLost(columns: Columns, silver: Silver, winners: map<Key, ChangeEvent>, table: string, stamp: Stamp,
                  j: Key, w: Key)
    requires OneTable(silver, table) && !Ambiguous(columns, silver, winners, table)
    requires j in silver && Matches(columns, winners, table, j, w) && j != w
    requires winners[w].change.lsn > silver[j].sourceLsn
    ensures !Holds(MergeByColumn(columns, silver, winners, table, stamp), Stored(j, silver[j]))
    ensures Stored(j, silver[j]) in Rows(MergeTable(silver, winners, table, stamp))
  {
    var keyed := MergeTable(silver, winners, table, stamp);
    assert j !in winners by { if j in winners { OwnMatchOnly(columns, silver, winners, table, j, w); assert false; } }
    assert Get(keyed, j) == Get(silver, j);
    MatchedBy(columns, silver, winners, table, stamp, j, w);
    forall i | i in silver ensures MatchedRow(columns, silver, winners, table, stamp, i) != Stored(j, silver[j]) {
    }
  }

  /** A source row whose first column is taken by another key's row is not inserted. */
  lemma RowIsMissing(columns: Columns, silver: Silver, winners: map<Key, ChangeEvent>, table: string, stamp: Stamp,
                     j: Key, w: Key)
    requires OneTable(silver, table) && !Ambiguous(columns, silver, winners, table)
    requires j in silver && Matches(columns, winners, table, j, w) && w !in silver
    ensures !Holds(MergeByColumn(columns, silver, winners, table, stamp), Stored(w, MergeRow(None, winners[w], stamp)))
    ensures Stored(w, MergeRow(None, winners[w], stamp)) in Rows(MergeTable(silver, winners, table, stamp))
  {
    var keyed := MergeTable(silver, winners, table, stamp);
    assert Get(keyed, w) == Some(MergeRow(None, winners[w], stamp));
    assert !Unmatched(columns, silver, w);
    forall i | i in silver
      ensures MatchedRow(columns, silver, winners, table, stamp, i) != Stored(w, MergeRow(None, winners[w], stamp))
    {
    }
  }

  /** The MERGE on the first key column leaves the table of the MERGE on the whole key exactly when no target row has
      two source rows and every row that shares its first column with the source row of another key is out of its
      reach. */
  lemma MergeIsKeyed(columns: Columns, silver: Silver, winners: map<Key, ChangeEvent>, table: string, stamp: Stamp)
    requires OneTable(silver, table)
    ensures Same(MergeByColumn(columns, silver, winners, table, stamp), MergeTable(silver, winners, table, stamp)) <==>
            Separates(columns, silver, winners, table)
  {
    hide MergeTable, MergeByColumn, Holds, Rows;
    var m := MergeByColumn(columns, silver, winners, table, stamp);
    if Separates(columns, silver, winners, table) {
      SeparatesIsSame(columns, silver, winners, table, stamp);
    }
    if Same(m, MergeTable(silver, winners, table, stamp)) {
      assert !Ambiguous(columns, silver, winners, table) by { NoViolation(columns, silver, winners, table, stamp); }
      forall j, w | j in silver && Matches(columns, winners, table, j, w) && j != w
        ensures OutOfReach(silver, winners, j, w)
      {
        if winners[w].change.lsn > silver[j].sourceLsn {
          RowIsLost(columns, silver, winners, table, stamp, j, w);
          assert false;
        } else if w !in silver {
          RowIsMissing(columns, silver, winners, table, stamp, j, w);
          assert false;
        }
      }
    }
  }

  lemma NoViolation(columns: Columns, silver: Silver, winners: map<Key, ChangeEvent>, table: string, stamp: Stamp)
    requires MergeByColumn(columns, silver, winners, table, stamp).Merged?
    ensures !Ambiguous(columns, silver, winners, table)
  {
  }

  /** Where stored keys print as their key texts the two are the same MERGE, for every table and every batch. */
  lemma PrintedKeyMerge(columns: Columns, silver: Silver, winners: map<Key, ChangeEvent>, table: string, stamp: Stamp)
    requires PrintsKeys(columns, silver.Keys + winners.Keys) && OneTable(silver, table)
    ensures Same(MergeByColumn(columns, silver, winners, table, stamp), MergeTable(silver, winners, table, stamp))
  {
    forall j, w | j in silver && Matches(columns, winners, table, j, w) ensures j == w {
      assert PrintsAsText(columns, j) && PrintsAsText(columns, w);
    }
    MergeIsKeyed(columns, silver, winners, table, stamp);
  }

  /** Two texts of one stored value are two keys to the window and one row to the MERGE, which always fails. */
  lemma OneValueTwoTexts(stamp: Stamp)
    ensures var a, b := Key("shop.rates", "1.0"), Key("shop.rates", "1.00");
            var columns: Columns := map[a := KeyColumns(["1.0"], Cell("1.00", "1.00")),
                                        b := KeyColumns(["1.00"], Cell("1.00", "1.00"))];
            var silver: Silver := map[a := SilverRow(None, false, 1, None, "e1", Stamp("first", 0))];
            var winners := map[a := ChangeEvent("e2", Change(a, Update, 2, 0, None), "t", 0, 0),
                               b := ChangeEvent("e3", Change(b, Update, 3, 0, None), "t", 0, 1)];
            KeyedBy(columns, 1) && MergeByColumn(columns, silver, winners, "shop.rates", stamp) == CardinalityViolation
  {
    var a, b := Key("shop.rates", "1.0"), Key("shop.rates", "1.00");
    assert |a.pk| != |b.pk|;
    var columns: Columns := map[a := KeyColumns(["1.0"], Cell("1.00", "1.00")),
                                b := KeyColumns(["1.00"], Cell("1.00", "1.00"))];
    var winners := map[a := ChangeEvent("e2", Change(a, Update, 2, 0, None), "t", 0, 0),
                       b := ChangeEvent("e3", Change(b, Update, 3, 0, None), "t", 0, 1)];
    assert Matches(columns, winners, "shop.rates", a, a) && Matches(columns, winners, "shop.rates", a, b);
  }

  /** With two key columns it goes wrong: an update of (a, c) overwrites the row of (a, b), which no event touched. */
  lemma SharedFirstColumnLosesRow(stamp: Stamp)
    ensures var b, c := Key("shop.lines", "a|b"), Key("shop.lines", "a|c");
            var first := Cell("a", "a");
            var columns: Columns := map[b := KeyColumns(["a", "b"], first), c := KeyColumns(["a", "c"], first)];
            var row := SilverRow(None, false, 1, None, "e1", Stamp("first", 0));
            var e := ChangeEvent("e2", Change(c, Create, 2, 0, None), "t", 0, 0);
            var m := MergeByColumn(columns, map[b := row], map[c := e], "shop.lines", stamp);
            && KeyedBy(columns, 2)
            && !Holds(m, Stored(b, row))
            && Holds(m, Stored(c, SilverRow(None, false, 2, Some(1), "e2", stamp)))
            && !Same(m, MergeTable(map[b := row], map[c := e], "shop.lines", stamp))
  {
    var b, c := Key("shop.lines", "a|b"), Key("shop.lines", "a|c");
    var first := Cell("a", "a");
    var columns: Columns := map[b := KeyColumns(["a", "b"], first), c := KeyColumns(["a", "c"], first)];
    var row := SilverRow(None, false, 1, None, "e1", Stamp("first", 0));
    var e := ChangeEvent("e2", Change(c, Create, 2, 0, None), "t", 0, 0);
    var silver: Silver := map[b := row];
    var winners := map[c := e];
    assert ["a", "b"][1..] == ["b"] && ["a", "c"][1..] == ["c"];
    assert b != c by { assert "a|b"[2] != "a|c"[2]; }
    assert !Ambiguous(columns, silver, winners, "shop.lines");
    assert Matches(columns, winners, "shop.lines", b, c);
    RowIsLost(columns, silver, winners, "shop.lines", stamp, b, c);
    MatchedBy(columns, silver, winners, "shop.lines", stamp, b, c);
    var m := MergeByColumn(columns, silver, winners, "shop.lines", stamp);
    assert b in m.kept && m.kept[b] == Stored(c, SilverRow(None, false, 2, Some(1), "e2", stamp));
  }
}
