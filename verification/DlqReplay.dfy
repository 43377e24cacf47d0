/** The replay endpoint: which rejected records are sent again, and with which bytes. */
module DlqReplay {
  import opened Basics
  import opened Events
  import opened Dlq
  import opened RawBytes
  import opened DlqRegister

  /** One record produced to the replay topic; the id travels in the lakeflow-replay-of header. */
  datatype Request = Request(replayOf: DlqId, key: Option<seq<byte>>, value: Option<seq<byte>>)

  /** SELECT ... WHERE dlq_id IN (ids) AND status = 'open' */
  function OpenRows(table: Table, ids: seq<DlqId>): set<DlqId> {
    set id | id in ids && id in table && table[id].status == Open
  }

  /** The request carries the stored key and value of an open row. */
  predicate Issued(table: Table, ids: seq<DlqId>, r: Request) {
    && r.replayOf in ids && r.replayOf in table && table[r.replayOf].status.Open?
    && Raw(table[r.replayOf].raw.key) == Ok(r.key)
    && Raw(table[r.replayOf].raw.value) == Ok(r.value)
  }

  /** A stored key or value that is not base64 after its prefix: decoding it raises. */
  predicate Undecodable(raw: RawRecord) {
    Raw(raw.key).Err? || Raw(raw.value).Err?
  }

  function SentIds(sent: seq<Request>): set<DlqId> {
    set r | r in sent :: r.replayOf
  }

  lemma SentSnoc(sent: seq<Request>, r: Request)
    ensures SentIds(sent + [r]) == SentIds(sent) + {r.replayOf}
  {
    assert forall q :: q in sent + [r] <==> q in sent || q == r;
  }

  /** Every open row that was asked for is sent once, and the other ids are reported missing. A stored text that does
      not decode raises before it is sent; what went out before stays out. */
  method Replay(table: Table, ids: seq<DlqId>) returns (sent: seq<Request>, missing: set<DlqId>, failed: Option<DlqId>)
    ensures forall r :: r in sent ==> Issued(table, ids, r)
    ensures forall i, j :: 0 <= i < j < |sent| ==> sent[i].replayOf != sent[j].replayOf
    ensures failed.None? ==>
              forall id :: id in SentIds(sent) <==> id in ids && id in table && table[id].status.Open?
    ensures failed.None? ==>
              forall id :: id in missing <==> id in ids && !(id in table && table[id].status.Open?)
    ensures failed.Some? ==>
              && failed.value in ids && failed.value in table && table[failed.value].status.Open?
              && Undecodable(table[failed.value].raw) && failed.value !in SentIds(sent) && missing == {}
  {
    var rows := OpenRows(table, ids);
    var todo := rows;
    sent, missing, failed := [], {}, None;
    while todo != {}
      invariant todo <= rows
      invariant forall r :: r in sent ==> Issued(table, ids, r)
      invariant forall i, j :: 0 <= i < j < |sent| ==> sent[i].replayOf != sent[j].replayOf
      invariant SentIds(sent) == rows - todo
    {
      var id :| id in todo;
      var key, value := Raw(table[id].raw.key), Raw(table[id].raw.value);
      if key.Err? || value.Err? { return sent, {}, Some(id); }
      todo := todo - {id};
      var request := Request(id, key.value, value.value);
      SentSnoc(sent, request);
      assert forall i :: 0 <= i < |sent| ==> sent[i].replayOf in SentIds(sent);
      sent := sent + [request];
    }
    missing := (set id | id in ids) - rows;
  }

  /** UTF-8 text that begins with the marker of the base64 form: the one thing the stored text misreads. */
  predicate LooksLikeBase64(data: Option<seq<byte>>) {
    data.Some? && Decode(data.value).Some? && HasPrefix(Decode(data.value).value)
  }

  /** What the pipeline receives is what it rejected: a replayed record has the rejected key and value if and only if
      neither of them was UTF-8 text beginning with "base64:". */
  lemma RejectedBytesAreReplayed(table: Table, ids: seq<DlqId>, r: Request, key: Option<seq<byte>>,
                                 value: Option<seq<byte>>)
    requires Issued(table, ids, r) && table[r.replayOf].raw == RawRecord(RawText(key), RawText(value))
    ensures r.key == key && r.value == value <==> !LooksLikeBase64(key) && !LooksLikeBase64(value)
  {
    hide RawText, Raw, Decode, HasPrefix;
    ReplaySendsTheRejectedBytes(key);
    ReplaySendsTheRejectedBytes(value);
  }

  /** The row a replay was issued for is still there, with the bytes it stored first, when the replay is processed. */
  lemma {:induction false} RowsStay(table: Table, run: seq<seq<Source>>, id: DlqId)
    requires id in table
    ensures id in MergeRun(table, run) && MergeRun(table, run)[id].raw == table[id].raw
  {
    if run != [] {
      var n := |run| - 1;
      RowsStay(table, run[..n], id);
      var mid := MergeRun(table, run[..n]);
      assert Get(Merge(mid, run[n]), id) == MergeOne(Get(mid, id), Latest(run[n], id));
    }
  }
}
