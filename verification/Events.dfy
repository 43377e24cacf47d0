/** Change events, Kafka records after decoding, and the source history they come from. */
module Events {
  import opened Basics
  import opened RawBytes
  import Texts

  type EventId = string

  /** A normalized row image, column by column. */
  type Image = map<string, string>

  datatype Op = Create | Update | Delete | Read

  datatype Key = Key(table: string, pk: string)

  /** What an event id stands for: everything about a change except where Kafka delivered it. */
  datatype Change = Change(key: Key, op: Op, lsn: int, tsMs: int, image: Option<Image>)

  datatype ChangeEvent = ChangeEvent(id: EventId, change: Change, topic: string, partition: int, offset: int)

  /** sha256 of the Kafka coordinates of a rejected record, taken to be collision-free. */
  datatype DlqId = DlqId(topic: string, partition: int, offset: int)

  datatype Payload =
    | Valid(id: EventId, change: Change)
    | Rejected(error: string)
    | Tombstone

  /** A record's key and value as the dead-letter table stores them; a null key or value stays null. */
  datatype RawRecord = RawRecord(key: Option<string>, value: Option<string>)

  /** One Kafka record after decoding: the bytes that arrived, the lakeflow-replay-of header and what decoding made of
      the record. */
  datatype Decoded = Decoded(topic: string, partition: nat, offset: nat, replayOf: Option<DlqId>,
                             key: Option<seq<byte>>, value: Option<seq<byte>>, payload: Payload)

  function ValidEvents(records: seq<Decoded>): seq<ChangeEvent> {
    if records == [] then []
    else
      var r := records[|records| - 1];
      ValidEvents(records[..|records| - 1]) +
      if r.payload.Valid? then [ChangeEvent(r.payload.id, r.payload.change, r.topic, r.partition, r.offset)] else []
  }

  /** The valid events of a batch are its valid records, field by field. */
  lemma {:induction false} ValidEventsExact(records: seq<Decoded>, e: ChangeEvent)
    ensures e in ValidEvents(records) <==>
            exists r :: r in records && r.payload.Valid? && r.payload.id == e.id && r.payload.change == e.change &&
                        r.topic == e.topic && r.partition == e.partition && r.offset == e.offset
  {
    if records != [] {
      var n := |records| - 1;
      assert records == records[..n] + [records[n]];
      ValidEventsExact(records[..n], e);
    }
  }

  // ------------------------------------------------------------- source history

  /** The changes the source database made, by event id. */
  type History = map<EventId, Change>

  predicate SameRow(h: History, i: EventId, j: EventId) {
    i in h && j in h && i != j && h[i].key == h[j].key
  }

  /** Row locks serialize the changes of one row, so they carry distinct LSNs. */
  ghost predicate DistinctLsns(h: History) {
    forall i, j {:trigger SameRow(h, i, j)} :: SameRow(h, i, j) ==> h[i].lsn != h[j].lsn
  }

  /** Every event is a redelivery-stable copy of a change of the history. */
  ghost predicate From(h: History, events: seq<ChangeEvent>) {
    forall e {:trigger e in events} :: e in events ==> e.id in h && h[e.id] == e.change
  }

  ghost predicate InTables(tables: seq<string>, events: seq<ChangeEvent>) {
    forall e {:trigger e in events} :: e in events ==> e.change.key.table in tables
  }

  // ---------------------------------------------------------------- Kafka order

  predicate CoordLess(a: ChangeEvent, b: ChangeEvent) {
    Texts.StrLess(a.topic, b.topic) ||
    (a.topic == b.topic && (a.partition < b.partition || (a.partition == b.partition && a.offset < b.offset)))
  }

  lemma CoordOrder(a: ChangeEvent, b: ChangeEvent, c: ChangeEvent)
    ensures !CoordLess(a, a)
    ensures CoordLess(a, b) && CoordLess(b, c) ==> CoordLess(a, c)
    ensures !CoordLess(b, a) && !CoordLess(c, b) ==> !CoordLess(c, a)
  {
    Texts.StrLessIrreflexive(a.topic);
    if Texts.StrLess(a.topic, b.topic) && Texts.StrLess(b.topic, c.topic) {
      Texts.StrLessTransitive(a.topic, b.topic, c.topic);
    }
    if Texts.StrLess(c.topic, a.topic) {
      Texts.StrLessTotal(a.topic, b.topic);
      Texts.StrLessTotal(b.topic, c.topic);
      if Texts.StrLess(a.topic, b.topic) { Texts.StrLessTransitive(c.topic, a.topic, b.topic); }
    }
    Texts.StrLessTotal(a.topic, b.topic);
    Texts.StrLessTotal(b.topic, c.topic);
  }

  function Ids(events: seq<ChangeEvent>): set<EventId> {
    set e | e in events :: e.id
  }

  /** `e` replaces the occurrence kept so far when it has the same id and comes strictly earlier. */
  function Earlier(kept: Option<ChangeEvent>, e: ChangeEvent, id: EventId): Option<ChangeEvent> {
    if e.id == id && (kept.None? || CoordLess(e, kept.value)) then Some(e) else kept
  }

  /** The first occurrence of an id by (topic, partition, offset), which deduplication keeps. */
  function FirstOf(events: seq<ChangeEvent>, id: EventId): (r: Option<ChangeEvent>)
    ensures r.Some? <==> id in Ids(events)
    ensures r.Some? ==> r.value in events && r.value.id == id
  {
    if events == [] then None
    else
      var n := |events| - 1;
      assert events == events[..n] + [events[n]];
      Earlier(FirstOf(events[..n], id), events[n], id)
  }

  function First(events: seq<ChangeEvent>, id: EventId): (e: ChangeEvent)
    requires id in Ids(events)
    ensures e in events && e.id == id
  {
    FirstOf(events, id).value
  }

  /** One row per event id: the first occurrence of each. */
  function Kept(events: seq<ChangeEvent>): (kept: map<EventId, ChangeEvent>)
    ensures kept.Keys == Ids(events)
    ensures forall id :: id in kept ==> kept[id].id == id && kept[id] in events
  {
    map id | id in Ids(events) :: First(events, id)
  }

  /** The events of a deduplicated batch are true copies of their changes. */
  ghost predicate KeptFrom(h: History, kept: map<EventId, ChangeEvent>) {
    forall id :: id in kept ==> kept[id].id == id && id in h && h[id] == kept[id].change
  }

  lemma KeptIsFrom(h: History, events: seq<ChangeEvent>)
    requires From(h, events)
    ensures KeptFrom(h, Kept(events))
  {
  }

  /** No occurrence of the id comes before the one that is kept. */
  lemma {:induction false} FirstOfIsFirst(events: seq<ChangeEvent>, id: EventId, e: ChangeEvent)
    requires e in events && e.id == id
    ensures FirstOf(events, id).Some? && !CoordLess(e, FirstOf(events, id).value)
  {
    var n := |events| - 1;
    assert events == events[..n] + [events[n]];
    var kept := FirstOf(events[..n], id);
    CoordOrder(e, e, e);
    if e in events[..n] {
      FirstOfIsFirst(events[..n], id, e);
      CoordOrder(e, events[n], kept.value);
    } else if kept.Some? {
      CoordOrder(e, kept.value, e);
    }
  }

  /** In topic, partition and offset: the occurrence that is kept is the earliest one. */
  lemma KeptIsEarliest(events: seq<ChangeEvent>, id: EventId, e: ChangeEvent)
    requires e in events && e.id == id
    ensures var kept := FirstOf(events, id);
            && kept.Some? && kept.value in events && kept.value.id == id
            && (kept.value.topic == e.topic || Texts.StrLess(kept.value.topic, e.topic))
            && (kept.value.topic == e.topic ==> kept.value.partition <= e.partition)
            && (kept.value.topic == e.topic && kept.value.partition == e.partition ==> kept.value.offset <= e.offset)
  {
    FirstOfIsFirst(events, id, e);
    Texts.StrLessTotal(FirstOf(events, id).value.topic, e.topic);
  }

  /** Higher (lsn, offset): the order that decides the batch-latest event of a key. */
  predicate Outranks(a: ChangeEvent, b: ChangeEvent) {
    a.change.lsn > b.change.lsn || (a.change.lsn == b.change.lsn && a.offset > b.offset)
  }

  /** Smallest and largest source timestamp of a batch; an empty batch has none, and 0 stands in. */
  function MinTs(events: seq<ChangeEvent>): (t: int)
    ensures forall e {:trigger e in events} :: e in events ==> t <= e.change.tsMs
    ensures events != [] ==> exists e :: e in events && e.change.tsMs == t
  {
    if events == [] then 0
    else
      var n := |events| - 1;
      assert events == events[..n] + [events[n]];
      if n == 0 || events[n].change.tsMs < MinTs(events[..n]) then events[n].change.tsMs else MinTs(events[..n])
  }

  function MaxTs(events: seq<ChangeEvent>): (t: int)
    ensures forall e {:trigger e in events} :: e in events ==> e.change.tsMs <= t
    ensures events != [] ==> exists e :: e in events && e.change.tsMs == t
  {
    if events == [] then 0
    else
      var n := |events| - 1;
      assert events == events[..n] + [events[n]];
      if n == 0 || events[n].change.tsMs > MaxTs(events[..n]) then events[n].change.tsMs else MaxTs(events[..n])
  }
}
