/** The dead-letter register over whole runs: last writer wins, however the replays are batched. */
module DlqRegister {
  import opened Basics
  import opened Events
  import opened Dlq
  import opened RawBytes
  import Texts

  type Table = map<DlqId, Row>

  /** The register after a list of MERGE sources, one per batch. */
  function MergeRun(table: Table, run: seq<seq<Source>>): Table {
    if run == [] then table else Merge(MergeRun(table, run[..|run| - 1]), run[|run| - 1])
  }

  predicate IsReplayOf(s: Source, id: DlqId) {
    s.id == id && s.isReplay
  }

  ghost predicate InRun(run: seq<seq<Source>>, s: Source) {
    exists i :: 0 <= i < |run| && s in run[i]
  }

  /** A replay of the record, somewhere in the run. */
  ghost predicate Replay(run: seq<seq<Source>>, id: DlqId, s: Source) {
    InRun(run, s) && IsReplayOf(s, id)
  }

  ghost predicate ReplayAt(run: seq<seq<Source>>, id: DlqId, position: string, status: Status) {
    exists s :: Replay(run, id, s) && s.position == position && s.status == status
  }

  function CountReplays(sources: seq<Source>, id: DlqId): nat {
    if sources == [] then 0
    else CountReplays(sources[..|sources| - 1], id) + if IsReplayOf(sources[|sources| - 1], id) then 1 else 0
  }

  function CountRunReplays(run: seq<seq<Source>>, id: DlqId): nat {
    if run == [] then 0 else CountRunReplays(run[..|run| - 1], id) + CountReplays(run[|run| - 1], id)
  }

  /** The row has seen every replay of its record in the batch. */
  ghost predicate UpToDate(row: Row, sources: seq<Source>, id: DlqId) {
    forall s {:trigger s in sources} :: s in sources && IsReplayOf(s, id) ==> !Newer(row, s.position)
  }

  /** The rejected record itself does not arrive in the same batch as its replays. */
  ghost predicate NoOriginal(sources: seq<Source>, id: DlqId) {
    forall s {:trigger s in sources} :: s in sources && s.id == id ==> s.isReplay
  }

  lemma NotNewerTrans(row: Row, a: string, b: string)
    requires !Newer(row, a) && !Texts.StrLess(a, b)
    ensures !Newer(row, b)
  {
    Texts.StrLessTotal(a, b);
    if Newer(row, b) { Texts.StrLessTransitive(row.lastPosition.value, b, a); }
  }

  // ------------------------------------------------------------------- one batch

  /** Exactly when a batch leaves the register up to date: the latest row of the record is a replay, or the register
      was up to date already. The other case, a redelivered original outranking newer replays, drops them. */
  lemma BatchBringsUpToDate(table: Table, sources: seq<Source>, id: DlqId)
    requires id in table && id in SourceIds(sources)
    ensures id in Merge(table, sources)
    ensures UpToDate(Merge(table, sources)[id], sources, id) <==>
            Latest(sources, id).value.isReplay || UpToDate(table[id], sources, id)
  {
    var after := Merge(table, sources);
    var top := Latest(sources, id).value;
    assert Get(after, id) == MergeOne(Get(table, id), Some(top));
    if top.isReplay {
      Texts.StrLessIrreflexive(top.position);
      forall s | s in sources && IsReplayOf(s, id) ensures !Newer(after[id], s.position) {
        LatestIsLatest(sources, id, s);
        NotNewerTrans(after[id], top.position, s.position);
      }
    }
  }

  /** The masking does happen: after a wipe redelivers everything at once, a replay of an open record is dropped. */
  lemma OriginalMasksReplay(body: Option<seq<byte>>)
    ensures var id := DlqId("lakeflow.shop.orders", 1, 0);
            var raw := RawRecord(RawText(None), RawText(body));
            var original := Decoded("lakeflow.shop.orders", 1, 0, None, None, body, Rejected("CONTRACT_VIOLATION"));
            var change := Change(Key("shop.orders", "o1"), Create, 10, 0, None);
            var replay := Decoded("lakeflow.replay.cdc", 0, 0, Some(id), None, body, Valid("e1", change));
            var open := Row(raw, "CONTRACT_VIOLATION", Open, 0, None, None, 0);
            var closed := Row(raw, "CONTRACT_VIOLATION", Replayed, 1, Some(Texts.Position(0, 0)), Some(1), 0);
            && Get(Merge(map[id := open], Sources([original, replay], 0)), id) == Some(open)
            && Get(Merge(Merge(map[id := open], Sources([original], 0)), Sources([replay], 1)), id) == Some(closed)
  {
    hide RawText, Texts.StrLess, Texts.Position, Sources, Merge, MergeOne, Latest;
    var id := DlqId("lakeflow.shop.orders", 1, 0);
    var original := Decoded("lakeflow.shop.orders", 1, 0, None, None, body, Rejected("CONTRACT_VIOLATION"));
    var change := Change(Key("shop.orders", "o1"), Create, 10, 0, None);
    var replay := Decoded("lakeflow.replay.cdc", 0, 0, Some(id), None, body, Valid("e1", change));
    var open := Row(RawRecord(RawText(None), RawText(body)), "CONTRACT_VIOLATION", Open, 0, None, None, 0);
    var table := map[id := open];
    Texts.PositionOrder(1, 0, 0, 0);
    SourcesOfTwo(original, replay, 0);
    LatestOfTwo(SourceOf(original, 0), SourceOf(replay, 0));
    assert Get(Merge(table, Sources([original, replay], 0)), id) == MergeOne(Some(open), Some(SourceOf(original, 0)));
    MergeSingle(table, original, 0);
    MergeSingle(Merge(table, Sources([original], 0)), replay, 1);
    OriginalThenReplay(open, SourceOf(original, 0), SourceOf(replay, 1));
  }

  lemma OriginalThenReplay(row: Row, original: Source, replay: Source)
    requires row.lastPosition.None? && !original.isReplay && replay.isReplay && replay.error.None?
    ensures MergeOne(Some(row), Some(original)) == Some(row)
    ensures MergeOne(Some(row), Some(replay)) ==
            Some(Row(row.raw, row.error, replay.status, row.attempts + 1, Some(replay.position), replay.resolvedBatch,
                     row.batch))
  {
  }

  lemma SourcesOfOne(r: Decoded, batch: nat)
    requires Relevant(r)
    ensures Sources([r], batch) == [SourceOf(r, batch)]
  {
    assert [r][..0] == [];
    assert Sources([], batch) == [];
  }

  lemma SourcesOfTwo(r: Decoded, q: Decoded, batch: nat)
    requires Relevant(r) && Relevant(q)
    ensures Sources([r, q], batch) == [SourceOf(r, batch), SourceOf(q, batch)]
  {
    assert [r, q][..1] == [r];
    SourcesOfOne(r, batch);
  }

  lemma LatestOfOne(s: Source)
    ensures Latest([s], s.id) == Some(s)
  {
    assert [s][..0] == [];
  }

  lemma MergeSingle(table: Table, r: Decoded, batch: nat)
    requires Relevant(r)
    ensures var s := SourceOf(r, batch);
            Get(Merge(table, Sources([r], batch)), s.id) == MergeOne(Get(table, s.id), Some(s))
  {
    SourcesOfOne(r, batch);
    LatestOfOne(SourceOf(r, batch));
  }

  lemma LatestOfTwo(s: Source, t: Source)
    requires s.id == t.id
    ensures Latest([s, t], s.id) == Some(if Texts.StrLess(s.position, t.position) then t else s)
  {
    assert [s, t][..1] == [s];
    LatestOfOne(s);
  }

  // ----------------------------------------------------------------- whole runs

  /** The register of a record after a run: the newest replay, or what it was when nothing newer came. */
  ghost predicate IsRegisterOf(row: Row, before: Row, run: seq<seq<Source>>, id: DlqId) {
    && (forall s {:trigger Replay(run, id, s)} :: Replay(run, id, s) ==> !Newer(row, s.position))
    && (if exists s :: Replay(run, id, s) && Newer(before, s.position) then
          && row.lastPosition.Some?
          && Newer(before, row.lastPosition.value)
          && ReplayAt(run, id, row.lastPosition.value, row.status)
        else row == before)
  }

  lemma InRunSnoc(run: seq<seq<Source>>, s: Source)
    requires run != []
    ensures InRun(run, s) <==> InRun(run[..|run| - 1], s) || s in run[|run| - 1]
  {
    var init := run[..|run| - 1];
    if InRun(init, s) {
      var i :| 0 <= i < |init| && s in init[i];
      assert s in run[i];
    }
    if InRun(run, s) && s !in run[|run| - 1] {
      var i :| 0 <= i < |run| && s in run[i];
      assert s in init[i];
    }
  }

  /** The newest row the batch holds for the record is this replay: the one the MERGE looks at. */
  ghost predicate Wins(sources: seq<Source>, id: DlqId, s: Source) {
    Latest(sources, id) == Some(s) && s.isReplay
  }

  ghost predicate Winner(run: seq<seq<Source>>, id: DlqId, s: Source) {
    exists k :: 0 <= k < |run| && Wins(run[k], id, s)
  }

  ghost predicate NoReplayNewer(before: Row, run: seq<seq<Source>>, id: DlqId) {
    forall s {:trigger Replay(run, id, s)} :: Replay(run, id, s) ==> !Newer(before, s.position)
  }

  /** No replay of the run has a higher position. */
  ghost predicate IsGreatest(run: seq<seq<Source>>, id: DlqId, position: string) {
    forall s {:trigger Replay(run, id, s)} :: Replay(run, id, s) ==> !Texts.StrLess(position, s.position)
  }

  /** A replay at the greatest position is the newest row of the record in its batch. */
  ghost predicate GreatestWins(run: seq<seq<Source>>, id: DlqId) {
    exists w :: Winner(run, id, w) && IsGreatest(run, id, w.position)
  }

  /** No original hides what the run has to say about the row. */
  ghost predicate Unmasked(before: Row, run: seq<seq<Source>>, id: DlqId) {
    NoReplayNewer(before, run, id) || GreatestWins(run, id)
  }

  /** What holds of every run, masked or not: the row is past every winning replay, and is one of them or untouched. */
  ghost predicate HoldsWinner(row: Row, before: Row, run: seq<seq<Source>>, id: DlqId) {
    && (forall w {:trigger Winner(run, id, w)} :: Winner(run, id, w) ==> !Newer(row, w.position))
    && (row == before ||
        exists w :: Winner(run, id, w) && Newer(before, w.position) &&
                    row.lastPosition == Some(w.position) && row.status == w.status)
  }

  lemma WinnerSnoc(run: seq<seq<Source>>, id: DlqId, s: Source)
    requires run != []
    ensures Winner(run, id, s) <==> Winner(run[..|run| - 1], id, s) || Wins(run[|run| - 1], id, s)
  {
    hide Wins;
    var n := |run| - 1;
    if Winner(run[..n], id, s) {
      var k :| 0 <= k < n && Wins(run[..n][k], id, s);
      assert Wins(run[k], id, s);
    }
    if Winner(run, id, s) && !Wins(run[n], id, s) {
      var k :| 0 <= k < |run| && Wins(run[k], id, s);
      assert Wins(run[..n][k], id, s);
    }
  }

  lemma WinnerIsReplay(run: seq<seq<Source>>, id: DlqId, s: Source)
    requires Winner(run, id, s)
    ensures Replay(run, id, s)
  {
  }

  lemma NewerTrans(row: Row, a: string, b: string)
    requires Newer(row, a) && !Texts.StrLess(b, a)
    ensures Newer(row, b)
  {
    Texts.StrLessTotal(a, b);
    if row.lastPosition.Some? && Texts.StrLess(a, b) { Texts.StrLessTransitive(row.lastPosition.value, a, b); }
  }

  /** What one more batch does to a row. */
  lemma MergeStep(table: Table, sources: seq<Source>, id: DlqId)
    requires id in table
    ensures id in Merge(table, sources)
    ensures var row, next := table[id], Merge(table, sources)[id];
            || next == row
            || (exists w :: Wins(sources, id, w) && Newer(row, w.position) && next.lastPosition == Some(w.position) &&
                            next.status == w.status && next.attempts == row.attempts + 1)
    ensures forall w :: Wins(sources, id, w) ==> !Newer(Merge(table, sources)[id], w.position)
    ensures forall p: string :: !Newer(table[id], p) ==> !Newer(Merge(table, sources)[id], p)
  {
    var next := Merge(table, sources);
    assert Get(next, id) == MergeOne(Get(table, id), Latest(sources, id));
    if id in SourceIds(sources) {
      var top := Latest(sources, id).value;
      Texts.StrLessIrreflexive(top.position);
      if top.isReplay && Newer(table[id], top.position) {
        assert Wins(sources, id, top);
        forall p: string | !Newer(table[id], p) ensures !Newer(next[id], p) {
          if Newer(next[id], p) { Texts.StrLessTransitive(table[id].lastPosition.value, top.position, p); }
        }
      }
    }
  }

  lemma {:induction false} ReplaysCounted(sources: seq<Source>, id: DlqId)
    ensures (exists s :: s in sources && IsReplayOf(s, id)) ==> CountReplays(sources, id) >= 1
  {
    if sources != [] {
      var n := |sources| - 1;
      assert sources == sources[..n] + [sources[n]];
      ReplaysCounted(sources[..n], id);
    }
  }

  lemma WinnerCounted(sources: seq<Source>, id: DlqId, w: Source)
    requires Wins(sources, id, w)
    ensures CountReplays(sources, id) >= 1
  {
    ReplaysCounted(sources, id);
  }

  /** The unconditional part: over every run the row is the maximum of the winning replays; it is never lost, never
      moves back, and its attempts never exceed the replays. */
  lemma {:induction false} WinnersOverRuns(table: Table, run: seq<seq<Source>>, id: DlqId)
    requires id in table
    ensures id in MergeRun(table, run) && HoldsWinner(MergeRun(table, run)[id], table[id], run, id)
    ensures table[id].attempts <= MergeRun(table, run)[id].attempts <= table[id].attempts + CountRunReplays(run, id)
    ensures forall p: string :: !Newer(table[id], p) ==> !Newer(MergeRun(table, run)[id], p)
  {
    hide Wins, Winner, Newer, Merge, CountReplays;
    if run == [] {
      NoWinner(id);
    } else {
      var n := |run| - 1;
      var init := run[..n];
      var mid := MergeRun(table, init);
      WinnersOverRuns(table, init, id);
      MergeStep(mid, run[n], id);
      var row := Merge(mid, run[n])[id];
      forall w ensures Winner(run, id, w) <==> Winner(init, id, w) || Wins(run[n], id, w) {
        WinnerSnoc(run, id, w);
      }
      if row != mid[id] {
        var w :| Wins(run[n], id, w) && Newer(mid[id], w.position) && row.lastPosition == Some(w.position) &&
                 row.status == w.status && row.attempts == mid[id].attempts + 1;
        WinnerCounted(run[n], id, w);
        assert Winner(run, id, w) && Newer(table[id], w.position);
      }
    }
  }

  lemma NoWinner(id: DlqId)
    ensures forall w :: !Winner([], id, w)
  {
  }

  /** The row is the register of all the run's replays exactly when no original masks them. */
  lemma RegisterExact(row: Row, before: Row, run: seq<seq<Source>>, id: DlqId)
    requires HoldsWinner(row, before, run, id)
    ensures IsRegisterOf(row, before, run, id) <==> Unmasked(before, run, id)
  {
    hide Winner, InRun, IsReplayOf;
    forall w | Winner(run, id, w) ensures Replay(run, id, w) {
      WinnerIsReplay(run, id, w);
    }
    if GreatestWins(run, id) { GreatestIsRegister(row, before, run, id); }
    if IsRegisterOf(row, before, run, id) { RegisterIsUnmasked(row, before, run, id); }
  }

  lemma GreatestIsRegister(row: Row, before: Row, run: seq<seq<Source>>, id: DlqId)
    requires HoldsWinner(row, before, run, id) && GreatestWins(run, id)
    ensures IsRegisterOf(row, before, run, id)
  {
    hide Winner, InRun, IsReplayOf;
    var w :| Winner(run, id, w) && IsGreatest(run, id, w.position);
    forall s | Replay(run, id, s) ensures !Newer(row, s.position) {
      NotNewerTrans(row, w.position, s.position);
    }
    if s :| Replay(run, id, s) && Newer(before, s.position) {
      NewerTrans(before, s.position, w.position);
      var v :| Winner(run, id, v) && Newer(before, v.position) && row.lastPosition == Some(v.position) &&
               row.status == v.status;
      WinnerIsReplay(run, id, v);
    } else if row != before {
      var v :| Winner(run, id, v) && Newer(before, v.position);
      WinnerIsReplay(run, id, v);
      assert false;
    }
  }

  lemma RegisterIsUnmasked(row: Row, before: Row, run: seq<seq<Source>>, id: DlqId)
    requires HoldsWinner(row, before, run, id) && IsRegisterOf(row, before, run, id)
    ensures Unmasked(before, run, id)
  {
    hide Winner, InRun, IsReplayOf;
    if s :| Replay(run, id, s) && Newer(before, s.position) {
      if row.lastPosition.Some? { Texts.StrLessIrreflexive(row.lastPosition.value); }
      var w :| Winner(run, id, w) && Newer(before, w.position) && row.lastPosition == Some(w.position);
      assert IsGreatest(run, id, w.position);
    }
  }

  /** Last writer wins over every run and every batching, redelivered originals included: the row keeps the maximum
      replay position and the outcome of the replay there if and only if nothing in the run is newer than the row, or a
      replay at the greatest position is the newest row of the record in its batch. */
  lemma RegisterOverRuns(table: Table, run: seq<seq<Source>>, id: DlqId)
    requires id in table
    ensures id in MergeRun(table, run)
    ensures IsRegisterOf(MergeRun(table, run)[id], table[id], run, id) <==> Unmasked(table[id], run, id)
    ensures table[id].attempts <= MergeRun(table, run)[id].attempts <= table[id].attempts + CountRunReplays(run, id)
  {
    WinnersOverRuns(table, run, id);
    RegisterExact(MergeRun(table, run)[id], table[id], run, id);
  }

  /** In particular nothing is masked when no batch holds the original beside its replays. */
  lemma {:induction false} ApartIsUnmasked(before: Row, run: seq<seq<Source>>, id: DlqId)
    requires forall k :: 0 <= k < |run| ==> NoOriginal(run[k], id) || NoReplay(run[k], id)
    ensures Unmasked(before, run, id)
    ensures GreatestWins(run, id) || forall s :: !Replay(run, id, s)
  {
    if run != [] {
      var n := |run| - 1;
      var init := run[..n];
      assert forall k :: 0 <= k < n ==> init[k] == run[k];
      ApartIsUnmasked(before, init, id);
      forall s ensures Replay(run, id, s) <==> Replay(init, id, s) || (s in run[n] && IsReplayOf(s, id)) {
        InRunSnoc(run, s);
      }
      forall w ensures Winner(run, id, w) <==> Winner(init, id, w) || Wins(run[n], id, w) {
        WinnerSnoc(run, id, w);
      }
      if !NoReplay(run[n], id) { BatchWinner(init, run, id); }
    }
  }

  ghost predicate NoReplay(sources: seq<Source>, id: DlqId) {
    forall s {:trigger s in sources} :: s in sources ==> !IsReplayOf(s, id)
  }

  /** The newest replay of the last batch, or the greatest winner before it, is the greatest of the longer run. */
  lemma BatchWinner(init: seq<seq<Source>>, run: seq<seq<Source>>, id: DlqId)
    requires run != [] && NoOriginal(run[|run| - 1], id) && !NoReplay(run[|run| - 1], id)
    requires GreatestWins(init, id) || forall s :: !Replay(init, id, s)
    requires forall s :: Replay(run, id, s) <==> Replay(init, id, s) || (s in run[|run| - 1] && IsReplayOf(s, id))
    requires forall w :: Winner(run, id, w) <==> Winner(init, id, w) || Wins(run[|run| - 1], id, w)
    ensures GreatestWins(run, id)
  {
    hide Winner, Replay;
    var last := run[|run| - 1];
    var r :| r in last && IsReplayOf(r, id);
    LatestIsLatest(last, id, r);
    var top := Latest(last, id).value;
    assert Wins(last, id, top);
    forall s | s in last && IsReplayOf(s, id) ensures !Texts.StrLess(top.position, s.position) {
      LatestIsLatest(last, id, s);
    }
    if GreatestWins(init, id) {
      var w :| Winner(init, id, w) && IsGreatest(init, id, w.position);
      GreaterOfTwo(init, run, id, w, top);
    } else {
      assert IsGreatest(run, id, top.position);
    }
  }

  lemma GreaterOfTwo(init: seq<seq<Source>>, run: seq<seq<Source>>, id: DlqId, w: Source, top: Source)
    requires run != [] && Winner(run, id, w) && Winner(run, id, top) && IsGreatest(init, id, w.position)
    requires forall s :: Replay(run, id, s) <==> Replay(init, id, s) || (s in run[|run| - 1] && IsReplayOf(s, id))
    requires forall s {:trigger s in run[|run| - 1]} ::
               s in run[|run| - 1] && IsReplayOf(s, id) ==> !Texts.StrLess(top.position, s.position)
    ensures GreatestWins(run, id)
  {
    hide Winner, Replay;
    if Texts.StrLess(w.position, top.position) {
      forall s | Replay(run, id, s) ensures !Texts.StrLess(top.position, s.position) {
        if Texts.StrLess(top.position, s.position) {
          Texts.StrLessTransitive(w.position, top.position, s.position);
        }
      }
      assert IsGreatest(run, id, top.position);
    } else {
      forall s | Replay(run, id, s) ensures !Texts.StrLess(w.position, s.position) {
        Texts.StrLessTotal(w.position, top.position);
        if Texts.StrLess(w.position, s.position) && Texts.StrLess(top.position, w.position) {
          Texts.StrLessTransitive(top.position, w.position, s.position);
        }
      }
      assert IsGreatest(run, id, w.position);
    }
  }

  /** Two batchings of the same replays, neither masked, leave the same position and status. */
  lemma BatchingIrrelevant(table: Table, run1: seq<seq<Source>>, run2: seq<seq<Source>>, id: DlqId)
    requires id in table && Unmasked(table[id], run1, id) && Unmasked(table[id], run2, id)
    requires SameReplays(run1, run2, id) && SameReplays(run2, run1, id)
    ensures id in MergeRun(table, run1) && id in MergeRun(table, run2)
    ensures MergeRun(table, run1)[id].lastPosition == MergeRun(table, run2)[id].lastPosition
    ensures MergeRun(table, run1)[id].status == MergeRun(table, run2)[id].status
  {
    RegisterOverRuns(table, run1, id);
    RegisterOverRuns(table, run2, id);
    SameRegister(MergeRun(table, run1)[id], MergeRun(table, run2)[id], table[id], run1, run2, id);
  }

  /** Every replay of run1 has a counterpart in run2, and a position names one outcome. */
  ghost predicate SameReplays(run1: seq<seq<Source>>, run2: seq<seq<Source>>, id: DlqId) {
    forall s {:trigger Replay(run1, id, s)} :: Replay(run1, id, s) ==>
      && ReplayAt(run2, id, s.position, s.status)
      && forall t {:trigger Replay(run2, id, t)} ::
           Replay(run2, id, t) && t.position == s.position ==> t.status == s.status
  }

  lemma SameRegister(a: Row, b: Row, before: Row, run1: seq<seq<Source>>, run2: seq<seq<Source>>, id: DlqId)
    requires SameReplays(run1, run2, id) && SameReplays(run2, run1, id)
    requires IsRegisterOf(a, before, run1, id) && IsRegisterOf(b, before, run2, id)
    ensures a.lastPosition == b.lastPosition && a.status == b.status
  {
    hide InRun, Newer, IsReplayOf;
    if s :| Replay(run1, id, s) && Newer(before, s.position) {
      SomeReplayNewer(before, run1, run2, id, s);
      var x :| Replay(run1, id, x) && x.position == a.lastPosition.value && x.status == a.status;
      var y :| Replay(run2, id, y) && y.position == b.lastPosition.value && y.status == b.status;
      NotBelowEachOther(a, b, before, run1, run2, id, x, y);
    } else {
      if t :| Replay(run2, id, t) && Newer(before, t.position) {
        SomeReplayNewer(before, run2, run1, id, t);
      }
    }
  }

  lemma SomeReplayNewer(before: Row, run1: seq<seq<Source>>, run2: seq<seq<Source>>, id: DlqId, s: Source)
    requires SameReplays(run1, run2, id) && Replay(run1, id, s) && Newer(before, s.position)
    ensures exists t :: Replay(run2, id, t) && Newer(before, t.position)
  {
    hide InRun, Newer, IsReplayOf;
    var t :| Replay(run2, id, t) && t.position == s.position && t.status == s.status;
  }

  lemma NotBelowEachOther(a: Row, b: Row, before: Row, run1: seq<seq<Source>>, run2: seq<seq<Source>>, id: DlqId,
                          x: Source, y: Source)
    requires SameReplays(run1, run2, id) && SameReplays(run2, run1, id)
    requires IsRegisterOf(a, before, run1, id) && IsRegisterOf(b, before, run2, id)
    requires Replay(run1, id, x) && a.lastPosition == Some(x.position)
    requires Replay(run2, id, y) && b.lastPosition == Some(y.position)
    ensures x.position == y.position && x.status == y.status
  {
    hide InRun, IsReplayOf;
    var x' :| Replay(run2, id, x') && x'.position == x.position && x'.status == x.status;
    var y' :| Replay(run1, id, y') && y'.position == y.position && y'.status == y.status;
    assert !Newer(a, y'.position) && !Newer(b, x'.position);
    Texts.StrLessTotal(x.position, y.position);
  }

  // ------------------------------------------------------------ when there is a row

  /** The newest row the batch holds for the record is its rejection, not a replay of it: the one the MERGE inserts. */
  ghost predicate OriginalWins(sources: seq<Source>, id: DlqId) {
    Latest(sources, id).Some? && !Latest(sources, id).value.isReplay
  }

  ghost predicate SomeOriginalWins(run: seq<seq<Source>>, id: DlqId) {
    exists k :: 0 <= k < |run| && OriginalWins(run[k], id)
  }

  lemma OriginalWinsSnoc(run: seq<seq<Source>>, id: DlqId)
    requires run != []
    ensures SomeOriginalWins(run, id) <==>
            SomeOriginalWins(run[..|run| - 1], id) || OriginalWins(run[|run| - 1], id)
  {
    hide OriginalWins;
    var n := |run| - 1;
    if SomeOriginalWins(run[..n], id) {
      var k :| 0 <= k < n && OriginalWins(run[..n][k], id);
      assert OriginalWins(run[k], id);
    }
    if SomeOriginalWins(run, id) && !OriginalWins(run[n], id) {
      var k :| 0 <= k < |run| && OriginalWins(run[k], id);
      assert OriginalWins(run[..n][k], id);
    }
  }

  /** Exactly which records have a row after a run: those that had one, and those whose rejection was, in some batch,
      the newest row of the record. */
  lemma {:induction false} RowExists(table: Table, run: seq<seq<Source>>, id: DlqId)
    ensures id in MergeRun(table, run) <==> id in table || SomeOriginalWins(run, id)
  {
    if run != [] {
      var n := |run| - 1;
      var mid := MergeRun(table, run[..n]);
      RowExists(table, run[..n], id);
      OriginalWinsSnoc(run, id);
      assert Get(Merge(mid, run[n]), id) == MergeOne(Get(mid, id), Latest(run[n], id));
    }
  }

  // -------------------------------------------------------------- counting attempts

  function ReplayPositions(run: seq<seq<Source>>, id: DlqId): (positions: set<string>)
  {
    set i, s | 0 <= i < |run| && s in run[i] && IsReplayOf(s, id) :: s.position
  }

  /** Replay positions a row has moved over. */
  function PositionsPassed(before: Row, row: Row, run: seq<seq<Source>>, id: DlqId): set<string> {
    set p | p in ReplayPositions(run, id) && Newer(before, p) && !Newer(row, p)
  }

  lemma PositionsGrow(run: seq<seq<Source>>, id: DlqId)
    requires run != []
    ensures ReplayPositions(run[..|run| - 1], id) <= ReplayPositions(run, id)
    ensures forall w :: Wins(run[|run| - 1], id, w) ==> w.position in ReplayPositions(run, id)
  {
    var n := |run| - 1;
    forall p | p in ReplayPositions(run[..n], id) ensures p in ReplayPositions(run, id) {
      var i, s :| 0 <= i < n && s in run[..n][i] && IsReplayOf(s, id) && s.position == p;
      assert s in run[i];
    }
    forall w | Wins(run[n], id, w) ensures w.position in ReplayPositions(run, id) {
      assert w in run[n];
    }
  }

  lemma PassedOneMore(before: Row, mid: Row, row: Row, init: seq<seq<Source>>, run: seq<seq<Source>>, id: DlqId,
                      w: Source)
    requires ReplayPositions(init, id) <= ReplayPositions(run, id) && w.position in ReplayPositions(run, id)
    requires Newer(mid, w.position) && Newer(before, w.position) && row.lastPosition == Some(w.position)
    requires forall p: string :: !Newer(mid, p) ==> !Newer(row, p)
    ensures |PositionsPassed(before, row, run, id)| >= |PositionsPassed(before, mid, init, id)| + 1
  {
    hide ReplayPositions;
    Texts.StrLessIrreflexive(w.position);
    var less, more := PositionsPassed(before, mid, init, id), PositionsPassed(before, row, run, id);
    assert w.position !in less && less + {w.position} <= more;
    SubsetCount(less + {w.position}, more);
  }

  lemma SubsetCount(a: set<string>, b: set<string>)
    requires a <= b
    ensures |a| <= |b|
  {
    assert b == a + (b - a);
  }

  /** Every attempt moves the row over a replay position of its own, so merging a batch again never counts a replay
      twice: the attempts of a run are at most the distinct replay positions it moved over. */
  lemma {:induction false} AttemptsAreReplays(table: Table, run: seq<seq<Source>>, id: DlqId)
    requires id in table
    ensures id in MergeRun(table, run)
    ensures var row := MergeRun(table, run)[id];
            row.attempts <= table[id].attempts + |PositionsPassed(table[id], row, run, id)|
  {
    WinnersOverRuns(table, run, id);
    if run != [] {
      hide Wins, Winner, Newer, Merge, CountReplays, HoldsWinner, ReplayPositions, PositionsPassed;
      var n := |run| - 1;
      var init := run[..n];
      var mid := MergeRun(table, init);
      WinnersOverRuns(table, init, id);
      AttemptsAreReplays(table, init, id);
      MergeStep(mid, run[n], id);
      PositionsGrow(run, id);
      var row := Merge(mid, run[n])[id];
      if row == mid[id] {
        PassedNoLess(table[id], row, init, run, id);
      } else {
        var w :| Wins(run[n], id, w) && Newer(mid[id], w.position) && row.lastPosition == Some(w.position) &&
                 row.attempts == mid[id].attempts + 1;
        assert Newer(table[id], w.position);
        PassedOneMore(table[id], mid[id], row, init, run, id, w);
      }
    }
  }

  lemma PassedNoLess(before: Row, row: Row, init: seq<seq<Source>>, run: seq<seq<Source>>, id: DlqId)
    requires ReplayPositions(init, id) <= ReplayPositions(run, id)
    ensures |PositionsPassed(before, row, init, id)| <= |PositionsPassed(before, row, run, id)|
  {
    SubsetCount(PositionsPassed(before, row, init, id), PositionsPassed(before, row, run, id));
  }

  /** In numbers: the register of a record holds the greatest (partition, offset) among its replays. */
  lemma RegisterHoldsGreatest(row: Row, before: Row, run: seq<seq<Source>>, id: DlqId, s: Source,
                              p: nat, o: nat, p': nat, o': nat)
    requires IsRegisterOf(row, before, run, id) && Replay(run, id, s)
    requires s.position == Texts.Position(p, o) && row.lastPosition == Some(Texts.Position(p', o'))
    requires p < 100_000 && p' < 100_000 && o < 100_000_000_000_000_000_000 && o' < 100_000_000_000_000_000_000
    ensures !Texts.PairLess(p', o', p, o)
  {
    Texts.PositionOrder(p', o', p, o);
  }

  /** Replays of a record that has no row yet leave no trace; the first rejection of it inserts the row, once. */
  lemma OnlyOriginalsInsert(table: Table, sources: seq<Source>, id: DlqId)
    requires id !in table
    ensures id in Merge(table, sources) <==> id in SourceIds(sources) && !Latest(sources, id).value.isReplay
    ensures id in Merge(table, sources) ==>
              Merge(table, sources)[id].status == Open && Merge(table, sources)[id].attempts == 0 &&
              Merge(table, sources)[id].lastPosition == None
  {
    assert Get(Merge(table, sources), id) == MergeOne(None, Latest(sources, id));
  }
}
