/** The dead-letter table as a last-writer-wins register per rejected record. */
module Dlq {
  import opened Basics
  import opened Events
  import opened RawBytes
  import Texts

  datatype Status = Open | Replayed

  datatype Row = Row(raw: RawRecord, error: string, status: Status, attempts: nat, lastPosition: Option<string>,
                     resolvedBatch: Option<nat>, batch: nat)

  /** One row of the MERGE source: a rejected record, or a replay that decoded. */
  datatype Source = Source(id: DlqId, isReplay: bool, position: string, error: Option<string>, status: Status,
                           resolvedBatch: Option<nat>, raw: RawRecord, batch: nat)

  predicate Relevant(r: Decoded) {
    r.payload.Rejected? || (r.payload.Valid? && r.replayOf.Some?)
  }

  function SourceOf(r: Decoded, batch: nat): Source
    requires Relevant(r)
  {
    var position := Texts.Position(r.partition, r.offset);
    var raw := RawRecord(RawText(r.key), RawText(r.value));
    if r.payload.Rejected? then
      Source(if r.replayOf.Some? then r.replayOf.value else DlqId(r.topic, r.partition, r.offset),
             r.replayOf.Some?, position, Some(r.payload.error), Open, None, raw, batch)
    else
      Source(r.replayOf.value, true, position, None, Replayed, Some(batch), raw, batch)
  }

  function Sources(records: seq<Decoded>, batch: nat): seq<Source> {
    if records == [] then []
    else
      var n := |records| - 1;
      Sources(records[..n], batch) + if Relevant(records[n]) then [SourceOf(records[n], batch)] else []
  }

  function SourceIds(sources: seq<Source>): set<DlqId> {
    set s | s in sources :: s.id
  }

  /** row_number() over (partition by dlq_id order by replay_position desc) = 1. */
  function Latest(sources: seq<Source>, id: DlqId): (r: Option<Source>)
    ensures r.Some? <==> id in SourceIds(sources)
    ensures r.Some? ==> r.value in sources && r.value.id == id
  {
    if sources == [] then None
    else
      var n := |sources| - 1;
      assert sources == sources[..n] + [sources[n]];
      var best := Latest(sources[..n], id);
      var s := sources[n];
      if s.id == id && (best.None? || Texts.StrLess(best.value.position, s.position)) then Some(s) else best
  }

  lemma {:induction false} LatestIsLatest(sources: seq<Source>, id: DlqId, s: Source)
    requires s in sources && s.id == id
    ensures Latest(sources, id).Some? && !Texts.StrLess(Latest(sources, id).value.position, s.position)
  {
    var n := |sources| - 1;
    assert sources == sources[..n] + [sources[n]];
    var best := Latest(sources[..n], id);
    Texts.StrLessIrreflexive(s.position);
    if s in sources[..n] {
      LatestIsLatest(sources[..n], id, s);
      if Texts.StrLess(best.value.position, sources[n].position) && Texts.StrLess(sources[n].position, s.position) {
        Texts.StrLessTransitive(best.value.position, sources[n].position, s.position);
      }
    }
  }

  /** Does the replay at `position` come after everything the row has seen? */
  predicate Newer(row: Row, position: string) {
    row.lastPosition.None? || Texts.StrLess(row.lastPosition.value, position)
  }

  /** What the MERGE does with the row of one dlq_id. */
  function MergeOne(row: Option<Row>, source: Option<Source>): Option<Row> {
    match (row, source)
    case (_, None) => row
    case (Some(t), Some(s)) =>
      if s.isReplay && Newer(t, s.position) then
        Some(t.(attempts := t.attempts + 1, lastPosition := Some(s.position), status := s.status,
             error := if s.error.Some? then s.error.value else t.error, resolvedBatch := s.resolvedBatch))
      else row
    case (None, Some(s)) =>
      if s.isReplay then None
      else Some(Row(s.raw, if s.error.Some? then s.error.value else "", Open, 0, None, None, s.batch))
  }

  function Merge(table: map<DlqId, Row>, sources: seq<Source>): (t: map<DlqId, Row>)
    ensures forall id :: Get(t, id) == MergeOne(Get(table, id), Latest(sources, id))
  {
    map id | id in table.Keys + SourceIds(sources) && MergeOne(Get(table, id), Latest(sources, id)).Some?
      :: MergeOne(Get(table, id), Latest(sources, id)).value
  }

  /** Merging the same batch twice is merging it once. */
  lemma MergeIdempotent(table: map<DlqId, Row>, sources: seq<Source>)
    ensures Merge(Merge(table, sources), sources) == Merge(table, sources)
  {
    var once := Merge(table, sources);
    forall id ensures Get(Merge(once, sources), id) == Get(once, id) {
      var s := Latest(sources, id);
      if s.Some? { Texts.StrLessIrreflexive(s.value.position); }
    }
    MapsEqualByGet(Merge(once, sources), once);
  }
}
