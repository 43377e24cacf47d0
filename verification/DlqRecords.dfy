/** The dead-letter table in terms of the Kafka records merged into it: what each row says, and who says so. */
module DlqRecords {
  import opened Basics
  import opened Events
  import opened RawBytes
  import opened SinkBatch
  import opened SinkRun
  import opened SinkWrites
  import opened DlqRegister
  import opened DlqRuns
  import opened DlqReplay
  import Dlq
  import Texts

  /** The rejection of the record itself. */
  predicate Rejects(r: Decoded, id: DlqId) {
    r.payload.Rejected? && r.replayOf.None? &&
    r.topic == id.topic && r.partition == id.partition && r.offset == id.offset
  }

  /** A replay of the record that came through, or was rejected again. */
  predicate Replays(r: Decoded, id: DlqId) {
    r.replayOf == Some(id) && !r.payload.Tombstone?
  }

  predicate Concerns(r: Decoded, id: DlqId) {
    Rejects(r, id) || Replays(r, id)
  }

  /** No record of the batch about the same rejection has a higher position. */
  ghost predicate Newest(records: seq<Decoded>, id: DlqId, r: Decoded) {
    && r in records && Concerns(r, id)
    && forall q {:trigger q in records} :: q in records && Concerns(q, id) ==>
         !Texts.StrLess(PositionOf(r), PositionOf(q))
  }

  /** The row stores the key and value that arrived, and the reason. */
  predicate Stores(row: Dlq.Row, r: Decoded, batch: nat) {
    && row.raw.key == RawText(r.key) && row.raw.value == RawText(r.value)
    && row.batch == batch
  }

  predicate IsInserted(row: Dlq.Row, r: Decoded, batch: nat) {
    && Stores(row, r, batch)
    && r.payload.Rejected? && row.error == r.payload.error
    && row.status.Open? && row.attempts == 0 && row.lastPosition.None? && row.resolvedBatch.None?
  }

  /** What a replay leaves in the columns it writes: resolved in this batch, or open with the new reason. */
  predicate Ended(row: Dlq.Row, error: string, r: Decoded, batch: nat) {
    && row.lastPosition == Some(PositionOf(r))
    && (r.payload.Valid? ==> row.status.Replayed? && row.resolvedBatch == Some(batch) && row.error == error)
    && (r.payload.Rejected? ==> row.status.Open? && row.resolvedBatch.None? && row.error == r.payload.error)
  }

  predicate IsUpdated(was: Dlq.Row, row: Dlq.Row, r: Decoded, batch: nat) {
    && row.raw == was.raw && row.batch == was.batch
    && row.attempts == was.attempts + 1
    && Ended(row, was.error, r, batch)
  }

  /** What the newest record does: a rejection inserts the row and never touches it again, a replay updates it if it is
      newer than the last one and never inserts it. */
  predicate Decides(was: Option<Dlq.Row>, row: Option<Dlq.Row>, r: Decoded, batch: nat) {
    if r.replayOf.None? then
      if was.None? then row.Some? && IsInserted(row.value, r, batch) else row == was
    else if was.Some? && (was.value.lastPosition.None? ||
                          Texts.StrLess(was.value.lastPosition.value, PositionOf(r))) then
      row.Some? && IsUpdated(was.value, row.value, r, batch)
    else row == was
  }

  lemma SourceConcerns(r: Decoded, batch: nat, id: DlqId)
    ensures Concerns(r, id) <==> Dlq.Relevant(r) && Dlq.SourceOf(r, batch).id == id
    ensures Dlq.Relevant(r) ==> Dlq.SourceOf(r, batch).position == PositionOf(r)
  {
    hide RawText;
  }

  lemma SourceDecides(was: Option<Dlq.Row>, r: Decoded, batch: nat, id: DlqId)
    requires Concerns(r, id) && Dlq.Relevant(r)
    ensures Decides(was, Dlq.MergeOne(was, Some(Dlq.SourceOf(r, batch))), r, batch)
  {
    hide RawText, Texts.StrLess, Texts.Position;
  }

  /** One MERGE in terms of records: a row nobody speaks about stays, and otherwise a newest record about it decides. */
  lemma MergeByRecords(table: Table, records: seq<Decoded>, batch: nat, id: DlqId)
    ensures (forall r {:trigger r in records} :: r in records ==> !Concerns(r, id)) ==>
              Get(Dlq.Merge(table, Dlq.Sources(records, batch)), id) == Get(table, id)
    ensures (exists r :: r in records && Concerns(r, id)) ==>
              exists r :: Newest(records, id, r) &&
                          Decides(Get(table, id), Get(Dlq.Merge(table, Dlq.Sources(records, batch)), id), r, batch)
  {
    hide Dlq.SourceOf, Dlq.Sources, Dlq.MergeOne, Concerns, Decides;
    var sources := Dlq.Sources(records, batch);
    assert Get(Dlq.Merge(table, sources), id) == Dlq.MergeOne(Get(table, id), Dlq.Latest(sources, id));
    var top := Dlq.Latest(sources, id);
    forall q | q in records && Concerns(q, id)
      ensures top.Some? && !Texts.StrLess(top.value.position, PositionOf(q))
    {
      SourceConcerns(q, batch, id);
      SourcesInRecords(records, batch, Dlq.SourceOf(q, batch));
      Dlq.LatestIsLatest(sources, id, Dlq.SourceOf(q, batch));
    }
    if top.Some? {
      SourcesInRecords(records, batch, top.value);
      var r :| r in records && Dlq.Relevant(r) && top.value == Dlq.SourceOf(r, batch);
      SourceConcerns(r, batch, id);
      SourceDecides(Get(table, id), r, batch, id);
      assert Newest(records, id, r);
    } else {
      MergeNone(Get(table, id));
    }
  }

  lemma MergeNone(was: Option<Dlq.Row>)
    ensures Dlq.MergeOne(was, None) == was
  {
  }

  // ------------------------------------------------------------------- over runs

  /** The record was rejected in the k-th MERGE. */
  predicate RejectedAt(merges: seq<DlqMerge>, k: nat, id: DlqId, r: Decoded) {
    k < |merges| && r in merges[k].records && Rejects(r, id)
  }

  predicate ReplayedAt(merges: seq<DlqMerge>, k: nat, id: DlqId, r: Decoded) {
    k < |merges| && r in merges[k].records && Replays(r, id)
  }

  /** Some rejection of the record, first or repeated, gave this reason. */
  ghost predicate Reason(merges: seq<DlqMerge>, id: DlqId, error: string) {
    exists k: nat, r :: k < |merges| && r in merges[k].records && Concerns(r, id) && r.payload == Rejected(error)
  }

  ghost predicate Origin(merges: seq<DlqMerge>, id: DlqId, row: Dlq.Row) {
    exists k: nat, r :: RejectedAt(merges, k, id, r) && Stores(row, r, merges[k].batch)
  }

  ghost predicate LastWord(merges: seq<DlqMerge>, id: DlqId, row: Dlq.Row) {
    exists k: nat, r :: ReplayedAt(merges, k, id, r) && Ended(row, row.error, r, merges[k].batch)
  }

  /** A row holds the bytes of a rejection, a reason some rejection gave, and the outcome of its last replay, or it is
      open and was never replayed. */
  ghost predicate Explained(merges: seq<DlqMerge>, id: DlqId, row: Dlq.Row) {
    && Origin(merges, id, row) && Reason(merges, id, row.error)
    && (row.lastPosition.None? ==> row.status.Open? && row.attempts == 0 && row.resolvedBatch.None?)
    && (row.lastPosition.Some? ==> row.attempts > 0 && LastWord(merges, id, row))
  }

  lemma OriginStays(merges: seq<DlqMerge>, more: seq<DlqMerge>, id: DlqId, row: Dlq.Row, next: Dlq.Row)
    requires merges <= more && Origin(merges, id, row) && next.raw == row.raw && next.batch == row.batch
    ensures Origin(more, id, next)
  {
    hide RawText, Rejects;
    var k: nat, r :| RejectedAt(merges, k, id, r) && Stores(row, r, merges[k].batch);
    assert RejectedAt(more, k, id, r) && Stores(next, r, more[k].batch);
  }

  lemma ReasonStays(merges: seq<DlqMerge>, more: seq<DlqMerge>, id: DlqId, error: string)
    requires merges <= more && Reason(merges, id, error)
    ensures Reason(more, id, error)
  {
    hide Concerns;
    var k: nat, r :| k < |merges| && r in merges[k].records && Concerns(r, id) && r.payload == Rejected(error);
    assert r in more[k].records;
  }

  lemma LastWordStays(merges: seq<DlqMerge>, more: seq<DlqMerge>, id: DlqId, row: Dlq.Row)
    requires merges <= more && LastWord(merges, id, row)
    ensures LastWord(more, id, row)
  {
    hide Ended, Replays;
    var k: nat, r :| ReplayedAt(merges, k, id, r) && Ended(row, row.error, r, merges[k].batch);
    assert ReplayedAt(more, k, id, r) && Ended(row, row.error, r, more[k].batch);
  }

  lemma ExplainedStays(merges: seq<DlqMerge>, more: seq<DlqMerge>, id: DlqId, row: Dlq.Row)
    requires merges <= more && Explained(merges, id, row)
    ensures Explained(more, id, row)
  {
    hide Origin, Reason, LastWord;
    OriginStays(merges, more, id, row, row);
    ReasonStays(merges, more, id, row.error);
    if row.lastPosition.Some? { LastWordStays(merges, more, id, row); }
  }

  lemma InsertedIsExplained(merges: seq<DlqMerge>, k: nat, id: DlqId, row: Dlq.Row, r: Decoded)
    requires RejectedAt(merges, k, id, r) && IsInserted(row, r, merges[k].batch)
    ensures Explained(merges, id, row)
  {
    hide RawText;
  }

  lemma UpdatedIsExplained(merges: seq<DlqMerge>, more: seq<DlqMerge>, k: nat, id: DlqId, was: Dlq.Row, row: Dlq.Row,
                           r: Decoded)
    requires merges <= more && Explained(merges, id, was)
    requires ReplayedAt(more, k, id, r) && IsUpdated(was, row, r, more[k].batch)
    ensures Explained(more, id, row)
  {
    hide Origin, Reason, RawText;
    OriginStays(merges, more, id, was, row);
    ReasonStays(merges, more, id, was.error);
    if r.payload.Rejected? {
      assert Reason(more, id, row.error) by { ReasonOf(more, k, id, r); }
    }
    assert ReplayedAt(more, k, id, r) && Ended(row, row.error, r, more[k].batch);
  }

  lemma ReasonOf(merges: seq<DlqMerge>, k: nat, id: DlqId, r: Decoded)
    requires k < |merges| && r in merges[k].records && Concerns(r, id) && r.payload.Rejected?
    ensures Reason(merges, id, r.payload.error)
  {
  }

  lemma DecidedIsExplained(merges: seq<DlqMerge>, more: seq<DlqMerge>, id: DlqId, was: Option<Dlq.Row>,
                           row: Option<Dlq.Row>, r: Decoded)
    requires merges <= more && |more| == |merges| + 1 && r in more[|merges|].records && Concerns(r, id)
    requires Decides(was, row, r, more[|merges|].batch) && (was.Some? ==> Explained(merges, id, was.value))
    ensures row.Some? ==> Explained(more, id, row.value)
  {
    hide Explained, IsInserted, IsUpdated, Texts.StrLess;
    var k := |merges|;
    if row == was {
      if row.Some? { ExplainedStays(merges, more, id, row.value); }
    } else if was.None? {
      InsertedIsExplained(more, k, id, row.value, r);
    } else {
      UpdatedIsExplained(merges, more, k, id, was.value, row.value, r);
    }
  }

  lemma {:induction false} MergesExplain(merges: seq<DlqMerge>, id: DlqId)
    ensures var t := MergeRun(map[], SourcesOf(merges)); id in t ==> Explained(merges, id, t[id])
  {
    hide Explained, Dlq.Merge, Dlq.Sources, Decides, Concerns;
    if merges != [] {
      var n := |merges| - 1;
      var init, m := merges[..n], merges[n];
      var before := MergeRun(map[], SourcesOf(init));
      MergesExplain(init, id);
      assert SourcesOf(merges)[..n] == SourcesOf(init);
      var after := Dlq.Merge(before, Dlq.Sources(m.records, m.batch));
      MergeByRecords(before, m.records, m.batch, id);
      if r :| Newest(m.records, id, r) && Decides(Get(before, id), Get(after, id), r, m.batch) {
        DecidedIsExplained(init, merges, id, Get(before, id), Get(after, id), r);
      } else if id in before {
        ExplainedStays(init, merges, id, before[id]);
      }
    }
  }

  /** In every state of every run, every row of the table is explained by the records that were merged: its key and
      value are the bytes of a rejection of exactly that record, its reason was given by a rejection, and its status,
      position and resolving batch are what one of its replays ended with. */
  lemma EveryRowIsExplained(h: History, cfg: Config, epoch: string, actions: seq<Action>, s: State, id: DlqId)
    requires IsRun(h, cfg, epoch, actions, s) && id in s.lake.dlq
    ensures Explained(DlqMerges(cfg, s.writes), id, s.lake.dlq[id])
  {
    hide IsRun, Explained, MergeRun;
    RunFromWrites(h, cfg, epoch, actions, s);
    MergesExplain(DlqMerges(cfg, s.writes), id);
  }

  /** Rejected and replayed, over every run: what the endpoint sends for a row is the key and value of a rejection of
      that very record, if and only if neither was UTF-8 text beginning with "base64:". */
  lemma RunReplaysTheRejectedBytes(h: History, cfg: Config, epoch: string, actions: seq<Action>, s: State,
                                   ids: seq<DlqId>, sent: Request) returns (k: nat, r: Decoded)
    requires IsRun(h, cfg, epoch, actions, s) && Issued(s.lake.dlq, ids, sent)
    ensures RejectedAt(DlqMerges(cfg, s.writes), k, sent.replayOf, r)
    ensures sent.key == r.key && sent.value == r.value <==> !LooksLikeBase64(r.key) && !LooksLikeBase64(r.value)
  {
    hide IsRun, DlqMerges, RawText, Raw, Rejects, LooksLikeBase64, LastWord, Reason;
    var merges, row := DlqMerges(cfg, s.writes), s.lake.dlq[sent.replayOf];
    EveryRowIsExplained(h, cfg, epoch, actions, s, sent.replayOf);
    k, r :| RejectedAt(merges, k, sent.replayOf, r) && Stores(row, r, merges[k].batch);
    RejectedBytesAreReplayed(s.lake.dlq, ids, sent, r.key, r.value);
  }
}
