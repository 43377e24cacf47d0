/** The tracer's bounded event log and its per-key index. */
module Tracer {
  import opened Basics

  datatype Coord = Coord(topic: string, partition: int, offset: int)

  /** A summarized record; `summary` stands for the remaining trace identifiers. */
  datatype Event = Event(coord: Coord, key: Option<string>, summary: string)

  datatype BucketKey = BucketKey(topic: string, key: Option<string>)

  type Index = map<BucketKey, seq<Event>>

  datatype State = State(log: seq<Event>, index: Index)

  function BucketOf(e: Event): BucketKey {
    BucketKey(e.coord.topic, e.key)
  }

  /** Only a non-empty key is indexed. */
  predicate Keyed(k: BucketKey) {
    k.key.Some? && k.key.value != ""
  }

  /** The events of the log in one bucket, in log order: what a full scan would return. */
  function Filter(log: seq<Event>, k: BucketKey): seq<Event> {
    if log == [] then []
    else (if BucketOf(log[0]) == k then [log[0]] else []) + Filter(log[1..], k)
  }

  // ----------------------------------------------------------- one arrival, as a step

  /** OrderedDict assignment: an existing coordinate keeps its place, a new one goes last. */
  function SetItem(log: seq<Event>, e: Event): seq<Event> {
    if log == [] then [e]
    else if log[0].coord == e.coord then [e] + log[1..]
    else [log[0]] + SetItem(log[1..], e)
  }

  function AddToBucket(index: Index, e: Event): Index {
    if Keyed(BucketOf(e)) then
      index[BucketOf(e) := (if BucketOf(e) in index then index[BucketOf(e)] else []) + [e]]
    else index
  }

  /** list.remove when the element is there. */
  function RemoveFirst(s: seq<Event>, e: Event): seq<Event> {
    if s == [] then []
    else if s[0] == e then s[1..]
    else [s[0]] + RemoveFirst(s[1..], e)
  }

  function DropFromBucket(index: Index, e: Event): Index {
    var k := BucketOf(e);
    if k !in index || index[k] == [] then index
    else if RemoveFirst(index[k], e) == [] then index - {k}
    else index[k := RemoveFirst(index[k], e)]
  }

  function Evict(s: State, maxEvents: nat): State
    decreases |s.log|
  {
    if |s.log| > maxEvents then Evict(State(s.log[1..], DropFromBucket(s.index, s.log[0])), maxEvents) else s
  }

  function Step(s: State, e: Event, maxEvents: nat): State {
    Evict(State(SetItem(s.log, e), AddToBucket(s.index, e)), maxEvents)
  }

  function After(arrivals: seq<Event>, maxEvents: nat): State {
    if arrivals == [] then State([], map[])
    else Step(After(arrivals[..|arrivals| - 1], maxEvents), arrivals[|arrivals| - 1], maxEvents)
  }

  // ------------------------------------------------------------------------ the tracer

  const MAX_BATCHES := 500
  const MAX_ARRIVALS := 100_000

  /** One consumed Kafka message: the wall clock, its timestamp, the parsed ops record (absent when it is not JSON) and
      the summarized change. */
  datatype Message = Message(clock: real, timestampMs: int, record: Option<string>, event: Event)

  /** What subscribers are sent. */
  datatype Frame = BatchFrame(record: string) | EventFrame(event: Event)

  /** deque(maxlen=n).append */
  function Append<T>(deque: seq<T>, x: T, n: nat): seq<T> {
    var more := deque + [x];
    if |more| > n then more[|more| - n..] else more
  }

  /** The last n elements, oldest first. */
  function LastOf<T>(s: seq<T>, n: nat): (last: seq<T>)
    ensures |last| == if |s| > n then n else |s|
    ensures forall i :: 0 <= i < |last| ==> last[i] == s[|s| - |last| + i]
  {
    if |s| > n then s[|s| - n..] else s
  }

  /** A bounded deque that holds the last n elements still does after one more. */
  lemma AppendKeepsLast<T>(s: seq<T>, x: T, n: nat)
    ensures Append(LastOf(s, n), x, n) == LastOf(s + [x], n)
  {
  }

  class Tracer {
    const opsTopic: string
    const heartbeatTopic: string
    const maxEvents: nat
    var events: seq<Event>
    var byKey: Index
    var batches: seq<string>
    var arrivals: seq<(real, string)>
    var lastHeartbeatMs: Option<int>
    ghost var received: seq<Message>

    constructor (opsTopic: string, heartbeatTopic: string, maxEvents: nat)
      ensures this.opsTopic == opsTopic && this.heartbeatTopic == heartbeatTopic && this.maxEvents == maxEvents
      ensures Valid() && received == [] && batches == [] && arrivals == [] && lastHeartbeatMs == None
    {
      this.opsTopic, this.heartbeatTopic, this.maxEvents := opsTopic, heartbeatTopic, maxEvents;
      events, byKey, batches, arrivals, lastHeartbeatMs := [], map[], [], [], None;
      received := [];
    }

    function Log(): State
      reads this
    {
      State(events, byKey)
    }

    predicate IsOps(m: Message) {
      m.event.coord.topic == opsTopic
    }

    predicate IsHeartbeat(m: Message) {
      m.event.coord.topic != opsTopic && m.event.coord.topic == heartbeatTopic
    }

    predicate IsChange(m: Message) {
      m.event.coord.topic != opsTopic && m.event.coord.topic != heartbeatTopic
    }

    /** The changes among some messages, in order. */
    function Changes(messages: seq<Message>): seq<Event> {
      if messages == [] then []
      else
        var n := |messages| - 1;
        Changes(messages[..n]) + if IsChange(messages[n]) then [messages[n].event] else []
    }

    /** When each change was consumed, and from which topic. */
    function ArrivalsOf(messages: seq<Message>): seq<(real, string)> {
      if messages == [] then []
      else
        var n := |messages| - 1;
        ArrivalsOf(messages[..n]) +
        if IsChange(messages[n]) then [(messages[n].clock, messages[n].event.coord.topic)] else []
    }

    /** The ops records that parsed. */
    function OpsRecords(messages: seq<Message>): seq<string> {
      if messages == [] then []
      else
        var n := |messages| - 1;
        OpsRecords(messages[..n]) +
        if IsOps(messages[n]) && messages[n].record.Some? then [messages[n].record.value] else []
    }

    function LastHeartbeat(messages: seq<Message>): Option<int> {
      if messages == [] then None
      else
        var n := |messages| - 1;
        if IsHeartbeat(messages[n]) then Some(messages[n].timestampMs) else LastHeartbeat(messages[..n])
    }

    lemma OneMoreMessage(before: seq<Message>, m: Message)
      ensures var all := before + [m];
              && Changes(all) == (if IsChange(m) then Changes(before) + [m.event] else Changes(before))
              && ArrivalsOf(all) == (if IsChange(m) then ArrivalsOf(before) + [(m.clock, m.event.coord.topic)]
                                     else ArrivalsOf(before))
              && OpsRecords(all) == (if IsOps(m) && m.record.Some? then OpsRecords(before) + [m.record.value]
                                     else OpsRecords(before))
              && LastHeartbeat(all) == if IsHeartbeat(m) then Some(m.timestampMs) else LastHeartbeat(before)
    {
      assert (before + [m])[..|before|] == before;
    }

    /** The changes received so far. */
    ghost function History(): seq<Event>
      reads this
    {
      Changes(received)
    }

    /** Everything the tracer holds is what the messages received so far leave: log and index, the last batches, the
        last arrivals and the last heartbeat. */
    ghost predicate Valid()
      reads this
    {
      && Log() == After(Changes(received), maxEvents)
      && batches == LastOf(OpsRecords(received), 500)
      && arrivals == LastOf(ArrivalsOf(received), 100_000)
      && lastHeartbeatMs == LastHeartbeat(received)
    }

    /** An ops record goes to the batch list, a heartbeat to its timestamp, and a change to log, index and arrivals. */
    method Handle(m: Message) returns (published: Option<Frame>)
      requires Valid()
      modifies this
      ensures Valid() && received == old(received) + [m]
      ensures Log() == (if IsChange(m) then Step(old(Log()), m.event, maxEvents) else old(Log()))
      ensures arrivals == (if IsChange(m) then Append(old(arrivals), (m.clock, m.event.coord.topic), MAX_ARRIVALS)
                           else old(arrivals))
      ensures batches == (if m.event.coord.topic == opsTopic && m.record.Some?
                          then Append(old(batches), m.record.value, MAX_BATCHES) else old(batches))
      ensures lastHeartbeatMs == (if m.event.coord.topic != opsTopic && m.event.coord.topic == heartbeatTopic
                                  then Some(m.timestampMs) else old(lastHeartbeatMs))
      ensures published == if IsChange(m) then Some(EventFrame(m.event))
                           else if m.event.coord.topic == opsTopic && m.record.Some?
                           then Some(BatchFrame(m.record.value))
                           else None
    {
      ghost var before := received;
      received := received + [m];
      OneMoreMessage(before, m);
      AppendKeepsLast(OpsRecords(before), if m.record.Some? then m.record.value else "", MAX_BATCHES);
      AppendKeepsLast(ArrivalsOf(before), (m.clock, m.event.coord.topic), MAX_ARRIVALS);
      var topic := m.event.coord.topic;
      if topic == opsTopic {
        if m.record.None? { return None; }
        batches := Append(batches, m.record.value, MAX_BATCHES);
        return Some(BatchFrame(m.record.value));
      }
      if topic == heartbeatTopic {
        lastHeartbeatMs := Some(m.timestampMs);
        return None;
      }
      var event := m.event;
      arrivals := Append(arrivals, (m.clock, topic), MAX_ARRIVALS);
      events := SetItem(events, event);
      byKey := AddToBucket(byKey, event);
      ghost var arrived := Log();
      while |events| > maxEvents
        invariant batches == old(batches) && lastHeartbeatMs == old(lastHeartbeatMs) && received == before + [m]
        invariant arrivals == Append(old(arrivals), (m.clock, topic), MAX_ARRIVALS)
        invariant Evict(Log(), maxEvents) == Evict(arrived, maxEvents)
        decreases |events|
      {
        var oldest := events[0];
        events := events[1..];
        byKey := DropFromBucket(byKey, oldest);
      }
      assert (Changes(before) + [event])[..|Changes(before)|] == Changes(before);
      published := Some(EventFrame(event));
    }

    /** The events of a key, newest last: exactly those of the log, unless a record of a key came twice while it was
        there. When no coordinate came twice, the log is the last `maxEvents` changes. */
    method EventsFor(topic: string, key: string) returns (found: seq<Event>)
      requires Valid()
      ensures found == Bucket(After(History(), maxEvents), BucketKey(topic, Some(key)))
      ensures key == "" ==> found == []
      ensures OneRecordPerCoord(History()) && NoKeyedRedelivery(History(), maxEvents) && key != "" ==>
                found == Filter(events, BucketKey(topic, Some(key)))
      ensures DistinctCoords(History()) && key != "" ==>
                found == Filter(LastOf(History(), maxEvents), BucketKey(topic, Some(key)))
    {
      ghost var history := Changes(received);
      OnlyKeyed(history, maxEvents, BucketKey(topic, Some(key)));
      hide After, NoKeyedRedelivery, OneRecordPerCoord, Filter, Indexed, DistinctCoords;
      var k := BucketKey(topic, Some(key));
      found := if k in byKey then byKey[k] else [];
      if DistinctCoords(history) {
        DistinctIsNoRedelivery(history, maxEvents);
        LogIsTheLastArrivals(history, maxEvents);
      }
      if OneRecordPerCoord(history) && NoKeyedRedelivery(history, maxEvents) && key != "" {
        IndexAgreesExactly(history, maxEvents);
        BucketIsScan(Log(), k);
      }
    }
  }

  /** The scan, said without its recursion: it picks the events of one topic and key and keeps their order. */
  lemma {:induction false} FilterScans(log: seq<Event>, more: seq<Event>, e: Event, k: BucketKey)
    ensures Filter([], k) == []
    ensures Filter([e], k) == if e.coord.topic == k.topic && e.key == k.key then [e] else []
    ensures Filter(log + more, k) == Filter(log, k) + Filter(more, k)
  {
    if log == [] {
      assert log + more == more;
    } else {
      assert (log + more)[1..] == log[1..] + more;
      FilterScans(log[1..], more, e, k);
    }
  }

  lemma {:induction false} EvictKeyed(s: State, maxEvents: nat, k: BucketKey)
    requires k !in s.index
    ensures k !in Evict(s, maxEvents).index
    decreases |s.log|
  {
    if |s.log| > maxEvents { EvictKeyed(State(s.log[1..], DropFromBucket(s.index, s.log[0])), maxEvents, k); }
  }

  /** A record without a key, or with an empty one, is never indexed. */
  lemma {:induction false} OnlyKeyed(arrivals: seq<Event>, maxEvents: nat, k: BucketKey)
    ensures !(k.key.Some? && k.key.value != "") ==> k !in After(arrivals, maxEvents).index
  {
    if arrivals != [] && !(k.key.Some? && k.key.value != "") {
      var n := |arrivals| - 1;
      var before, e := After(arrivals[..n], maxEvents), arrivals[n];
      OnlyKeyed(arrivals[..n], maxEvents, k);
      EvictKeyed(State(SetItem(before.log, e), AddToBucket(before.index, e)), maxEvents, k);
    }
  }

  function Bucket(s: State, k: BucketKey): seq<Event> {
    if k in s.index then s.index[k] else []
  }

  lemma BucketIsScan(s: State, k: BucketKey)
    requires Indexed(s) && Keyed(k)
    ensures Bucket(s, k) == Filter(s.log, k)
  {
    var scan := Filter(s.log, k);
    assert Get(s.index, k) == if Keyed(k) && scan != [] then Some(scan) else None;
  }

  // ------------------------------------------------------------------- the agreement

  /** Every bucket is the scan of the log for its key; no bucket is empty and no key is missing. */
  ghost predicate Indexed(s: State) {
    forall k {:trigger Filter(s.log, k)} ::
      Get(s.index, k) == if Keyed(k) && Filter(s.log, k) != [] then Some(Filter(s.log, k)) else None
  }

  ghost predicate DistinctCoords(log: seq<Event>) {
    forall i, j :: 0 <= i < j < |log| ==> log[i].coord != log[j].coord
  }

  predicate HasCoord(log: seq<Event>, c: Coord) {
    exists i :: 0 <= i < |log| && log[i].coord == c
  }

  lemma {:induction false} FilterSnoc(log: seq<Event>, e: Event, k: BucketKey)
    ensures Filter(log + [e], k) == Filter(log, k) + if BucketOf(e) == k then [e] else []
  {
    if log != [] {
      assert (log + [e])[1..] == log[1..] + [e];
      FilterSnoc(log[1..], e, k);
    }
  }

  lemma {:induction false} SetItemNew(log: seq<Event>, e: Event)
    requires !HasCoord(log, e.coord)
    ensures SetItem(log, e) == log + [e]
  {
    if log != [] {
      assert log[0].coord != e.coord;
      assert forall i :: 0 <= i < |log| - 1 ==> log[1..][i] == log[i + 1];
      SetItemNew(log[1..], e);
    }
  }

  lemma {:induction false} SetItemSame(log: seq<Event>, e: Event)
    requires e in log && DistinctCoords(log)
    ensures SetItem(log, e) == log
  {
    if log[0].coord == e.coord {
      assert log[0] == e;
    } else {
      SetItemSame(log[1..], e);
    }
  }

  lemma AddKeepsIndex(s: State, e: Event)
    requires Indexed(s)
    ensures Indexed(State(s.log + [e], AddToBucket(s.index, e)))
  {
    var s' := State(s.log + [e], AddToBucket(s.index, e));
    forall k ensures Get(s'.index, k) == if Keyed(k) && Filter(s'.log, k) != [] then Some(Filter(s'.log, k)) else None {
      FilterSnoc(s.log, e, k);
      assert Filter(s.log, k) + [] == Filter(s.log, k);
    }
  }

  lemma DropKeepsIndex(s: State)
    requires Indexed(s) && s.log != []
    ensures Indexed(State(s.log[1..], DropFromBucket(s.index, s.log[0])))
  {
    var s' := State(s.log[1..], DropFromBucket(s.index, s.log[0]));
    forall k ensures Get(s'.index, k) == if Keyed(k) && Filter(s'.log, k) != [] then Some(Filter(s'.log, k)) else None {
      assert Filter(s.log, k) == (if BucketOf(s.log[0]) == k then [s.log[0]] else []) + Filter(s'.log, k);
      assert [] + Filter(s'.log, k) == Filter(s'.log, k);
    }
  }

  /** Without its first element, a longer list has the same tail. */
  lemma TailDrop(s: seq<Event>, n: nat)
    requires |s| > n
    ensures LastOf(s[1..], n) == LastOf(s, n)
  {
    var k := |s| - n;
    assert s[1..][k - 1..] == s[k..];
  }

  lemma {:induction false} EvictLog(s: State, maxEvents: nat)
    ensures Evict(s, maxEvents).log == LastOf(s.log, maxEvents)
    decreases |s.log|
  {
    if |s.log| > maxEvents {
      hide DropFromBucket, LastOf;
      var next := State(s.log[1..], DropFromBucket(s.index, s.log[0]));
      assert Evict(s, maxEvents) == Evict(next, maxEvents);
      EvictLog(next, maxEvents);
      TailDrop(s.log, maxEvents);
    }
  }

  lemma {:induction false} EvictKeepsIndex(s: State, maxEvents: nat)
    requires Indexed(s)
    ensures Indexed(Evict(s, maxEvents))
    decreases |s.log|
  {
    if |s.log| > maxEvents {
      hide Indexed, DropFromBucket;
      var next := State(s.log[1..], DropFromBucket(s.index, s.log[0]));
      assert Evict(s, maxEvents) == Evict(next, maxEvents);
      DropKeepsIndex(s);
      EvictKeepsIndex(next, maxEvents);
    }
  }

  lemma TailSnoc(s: seq<Event>, e: Event, n: nat)
    ensures LastOf(LastOf(s, n) + [e], n) == LastOf(s + [e], n)
  {
    if |s| > n {
      assert s[|s| - n..] + [e] == (s + [e])[|s| - n..];
    }
  }

  lemma TailIsNew(s: seq<Event>, e: Event, n: nat)
    requires DistinctCoords(s + [e])
    ensures !HasCoord(LastOf(s, n), e.coord) && DistinctCoords(s)
  {
    var all := s + [e];
    assert all[|s|] == e && forall i :: 0 <= i < |s| ==> all[i] == s[i];
    var cut := if |s| > n then |s| - n else 0;
    assert LastOf(s, n) == s[cut..];
  }

  /** A record at a new coordinate joins the log, the oldest surplus leaves it, and the index keeps up. */
  lemma NewCoordKeepsIndex(s: State, e: Event, maxEvents: nat)
    requires Indexed(s) && !HasCoord(s.log, e.coord)
    ensures Indexed(Step(s, e, maxEvents)) && Step(s, e, maxEvents).log == LastOf(s.log + [e], maxEvents)
  {
    hide Indexed;
    SetItemNew(s.log, e);
    AddKeepsIndex(s, e);
    EvictLog(State(s.log + [e], AddToBucket(s.index, e)), maxEvents);
    EvictKeepsIndex(State(s.log + [e], AddToBucket(s.index, e)), maxEvents);
  }

  /** For records with distinct coordinates, after any sequence of arrivals and evictions the log is the last
      maxEvents arrivals in order, and every bucket is the scan of the log for its key. */
  lemma {:induction false} LogIsTheLastArrivals(arrivals: seq<Event>, maxEvents: nat)
    requires DistinctCoords(arrivals)
    ensures After(arrivals, maxEvents).log == LastOf(arrivals, maxEvents)
    ensures Indexed(After(arrivals, maxEvents))
  {
    if arrivals == [] {
      assert forall k :: Filter([], k) == [];
    } else {
      hide Indexed, Step, LastOf, DistinctCoords;
      var before, e := arrivals[..|arrivals| - 1], arrivals[|arrivals| - 1];
      assert arrivals == before + [e];
      TailIsNew(before, e, maxEvents);
      LogIsTheLastArrivals(before, maxEvents);
      NewCoordKeepsIndex(After(before, maxEvents), e, maxEvents);
      TailSnoc(before, e, maxEvents);
    }
  }

  /** When the very same record is delivered again while its event is still in the log, the index keeps agreeing with
      the log exactly when the record has no key. */
  lemma RedeliveryBreaksIndex(s: State, e: Event, maxEvents: nat)
    requires Indexed(s) && DistinctCoords(s.log) && |s.log| <= maxEvents && e in s.log
    ensures Step(s, e, maxEvents).log == s.log
    ensures Indexed(Step(s, e, maxEvents)) <==> !Keyed(BucketOf(e))
  {
    SetItemSame(s.log, e);
    hide DistinctCoords, SetItem;
    assert Step(s, e, maxEvents) == State(s.log, AddToBucket(s.index, e));
    if Keyed(BucketOf(e)) { TooLong(s, BucketOf(e), e); }
  }

  /** A bucket with one more entry than the scan disagrees with it. */
  lemma TooLong(s: State, k: BucketKey, e: Event)
    requires Indexed(s) && Keyed(k) && k == BucketOf(e)
    ensures !Indexed(State(s.log, AddToBucket(s.index, e)))
  {
    var scan := Filter(s.log, k);
    var s' := State(s.log, AddToBucket(s.index, e));
    assert Get(s'.index, k) == Some(scan + [e]);
    assert |scan + [e]| == |scan| + 1;
    assert Filter(s'.log, k) == scan;
  }

  // ---------------------------------------------------- redelivery over whole histories

  /** A coordinate always brings the same record. */
  ghost predicate OneRecordPerCoord(arrivals: seq<Event>) {
    forall i, j :: 0 <= i < |arrivals| && 0 <= j < |arrivals| && arrivals[i].coord == arrivals[j].coord ==>
      arrivals[i] == arrivals[j]
  }

  /** The i-th arrival is still in the log when it arrives again. */
  predicate Redelivered(arrivals: seq<Event>, i: int, maxEvents: nat)
    requires 0 <= i < |arrivals|
  {
    arrivals[i] in After(arrivals[..i], maxEvents).log
  }

  /** No keyed record arrives while its event is in the log. */
  ghost predicate NoKeyedRedelivery(arrivals: seq<Event>, maxEvents: nat) {
    forall i {:trigger Redelivered(arrivals, i, maxEvents)} ::
      0 <= i < |arrivals| && Redelivered(arrivals, i, maxEvents) ==> !Keyed(BucketOf(arrivals[i]))
  }

  /** How many more entries an event has in its bucket than places in the log. */
  function Excess(s: State, e: Event): int {
    multiset(Bucket(s, BucketOf(e)))[e] as int - multiset(s.log)[e] as int
  }

  /** Every keyed event of the log is in its bucket. */
  ghost predicate Covered(s: State) {
    forall e {:trigger Excess(s, e)} :: Keyed(BucketOf(e)) ==> Excess(s, e) >= 0
  }

  lemma {:induction false} RemoveFirstCount(s: seq<Event>, x: Event, e: Event)
    ensures multiset(RemoveFirst(s, x))[e] == multiset(s)[e] - if e == x && x in s then 1 else 0
  {
    if s != [] {
      assert s == [s[0]] + s[1..];
      if s[0] != x { RemoveFirstCount(s[1..], x, e); }
    }
  }

  lemma {:induction false} FilterCount(log: seq<Event>, e: Event)
    ensures multiset(Filter(log, BucketOf(e)))[e] == multiset(log)[e]
  {
    if log != [] {
      assert log == [log[0]] + log[1..];
      FilterCount(log[1..], e);
    }
  }

  /** An agreeing index has no entry too many. */
  lemma IndexedHasNoExcess(s: State, e: Event)
    requires Indexed(s) && Keyed(BucketOf(e))
    ensures Excess(s, e) == 0
  {
    BucketIsScan(s, BucketOf(e));
    FilterCount(s.log, e);
  }

  lemma BucketAfterAdd(index: Index, x: Event, k: BucketKey, log: seq<Event>)
    requires Keyed(k)
    ensures Bucket(State(log, AddToBucket(index, x)), k) ==
            Bucket(State(log, index), k) + if BucketOf(x) == k then [x] else []
  {
    assert Bucket(State(log, index), k) + [] == Bucket(State(log, index), k);
  }

  lemma BucketAfterDrop(index: Index, x: Event, k: BucketKey, log: seq<Event>)
    ensures Bucket(State(log, DropFromBucket(index, x)), k) ==
            if BucketOf(x) == k then RemoveFirst(Bucket(State(log, index), k), x) else Bucket(State(log, index), k)
  {
  }

  /** A new event adds to log and bucket alike; one already in the log adds to its bucket only. */
  lemma ExcessAfterAdd(s: State, x: Event, e: Event)
    requires Keyed(BucketOf(e)) && DistinctCoords(s.log) && (HasCoord(s.log, x.coord) ==> x in s.log)
    ensures var next := State(SetItem(s.log, x), AddToBucket(s.index, x));
            Excess(next, e) == Excess(s, e) + if x == e && x in s.log then 1 else 0
  {
    BucketAfterAdd(s.index, x, BucketOf(e), SetItem(s.log, x));
    var was, now := Bucket(s, BucketOf(e)), Bucket(State(SetItem(s.log, x), AddToBucket(s.index, x)), BucketOf(e));
    assert multiset(now)[e] == multiset(was)[e] + if x == e then 1 else 0;
    if x in s.log {
      SetItemSame(s.log, x);
    } else {
      SetItemNew(s.log, x);
      assert multiset(s.log + [x])[e] == multiset(s.log)[e] + if x == e then 1 else 0;
    }
  }

  /** Dropping the oldest event takes it from log and bucket alike. */
  lemma ExcessAfterDrop(s: State, e: Event)
    requires Keyed(BucketOf(e)) && Covered(s) && s.log != []
    ensures Excess(State(s.log[1..], DropFromBucket(s.index, s.log[0])), e) == Excess(s, e)
  {
    var x := s.log[0];
    assert s.log == [x] + s.log[1..];
    BucketAfterDrop(s.index, x, BucketOf(e), s.log[1..]);
    var bucket := Bucket(s, BucketOf(e));
    RemoveFirstCount(bucket, x, e);
    if x == e {
      assert Excess(s, e) >= 0 && multiset(s.log)[e] >= 1;
      assert e in multiset(bucket);
    }
  }

  lemma {:induction false} ExcessAfterEvict(s: State, maxEvents: nat, e: Event)
    requires Keyed(BucketOf(e)) && Covered(s)
    ensures Covered(Evict(s, maxEvents)) && Excess(Evict(s, maxEvents), e) == Excess(s, e)
    decreases |s.log|
  {
    if |s.log| > maxEvents {
      var next := State(s.log[1..], DropFromBucket(s.index, s.log[0]));
      forall x | Keyed(BucketOf(x)) ensures Excess(next, x) == Excess(s, x) {
        ExcessAfterDrop(s, x);
      }
      ExcessAfterEvict(next, maxEvents, e);
    }
  }

  lemma OneRecordInit(arrivals: seq<Event>)
    requires OneRecordPerCoord(arrivals) && arrivals != []
    ensures OneRecordPerCoord(arrivals[..|arrivals| - 1])
  {
  }

  /** The log of any history: distinct coordinates, at most `maxEvents`, nothing that did not arrive. */
  lemma {:induction false} LogOfHistory(arrivals: seq<Event>, maxEvents: nat)
    requires OneRecordPerCoord(arrivals)
    ensures var log := After(arrivals, maxEvents).log;
            DistinctCoords(log) && |log| <= maxEvents && forall x :: x in log ==> x in arrivals
  {
    if arrivals != [] {
      hide Evict, AddToBucket, DistinctCoords;
      var n := |arrivals| - 1;
      var e, before := arrivals[n], After(arrivals[..n], maxEvents);
      OneRecordInit(arrivals);
      LogOfHistory(arrivals[..n], maxEvents);
      EvictLog(State(SetItem(before.log, e), AddToBucket(before.index, e)), maxEvents);
      SameOrNew(arrivals, before.log, e);
      if e in before.log {
        SetItemSame(before.log, e);
      } else {
        SetItemNew(before.log, e);
        TailDistinct(before.log, e, maxEvents);
      }
    }
  }

  lemma TailDistinct(log: seq<Event>, e: Event, n: nat)
    requires DistinctCoords(log) && !HasCoord(log, e.coord)
    ensures DistinctCoords(LastOf(log + [e], n)) && forall x :: x in LastOf(log + [e], n) ==> x in log || x == e
  {
    var all := log + [e];
    assert DistinctCoords(all);
    var cut := if |all| > n then |all| - n else 0;
    assert LastOf(all, n) == all[cut..];
  }

  /** With one record per coordinate, an arrival whose coordinate is in the log is in the log. */
  lemma SameOrNew(arrivals: seq<Event>, log: seq<Event>, e: Event)
    requires OneRecordPerCoord(arrivals) && arrivals != [] && e == arrivals[|arrivals| - 1]
    requires forall x :: x in log ==> x in arrivals[..|arrivals| - 1]
    ensures HasCoord(log, e.coord) ==> e in log
  {
    if HasCoord(log, e.coord) {
      var i :| 0 <= i < |log| && log[i].coord == e.coord;
      assert log[i] in log;
      var j :| 0 <= j < |arrivals| - 1 && arrivals[j] == log[i];
    }
  }

  /** How often an event arrived while it was in the log. */
  function Redeliveries(arrivals: seq<Event>, maxEvents: nat, e: Event): nat {
    if arrivals == [] then 0
    else
      var n := |arrivals| - 1;
      Redeliveries(arrivals[..n], maxEvents, e) +
      if arrivals[n] == e && Redelivered(arrivals, n, maxEvents) then 1 else 0
  }

  lemma NoArrivals(maxEvents: nat)
    ensures Covered(After([], maxEvents)) && forall e :: Excess(After([], maxEvents), e) == 0
  {
  }

  /** One arrival: only a redelivery of the event itself adds to its excess. */
  lemma StepExcess(s: State, x: Event, maxEvents: nat, e: Event)
    requires Covered(s) && DistinctCoords(s.log) && (HasCoord(s.log, x.coord) ==> x in s.log)
    ensures Covered(Step(s, x, maxEvents))
    ensures Keyed(BucketOf(e)) ==>
              Excess(Step(s, x, maxEvents), e) == Excess(s, e) + if x == e && x in s.log then 1 else 0
  {
    hide Evict, Excess, SetItem, AddToBucket, DistinctCoords, HasCoord;
    var added := State(SetItem(s.log, x), AddToBucket(s.index, x));
    forall y | Keyed(BucketOf(y)) ensures Excess(added, y) >= 0 {
      ExcessAfterAdd(s, x, y);
    }
    ExcessAfterEvict(added, maxEvents, AnyKeyed(e));
    if Keyed(BucketOf(e)) {
      ExcessAfterAdd(s, x, e);
    }
  }

  /** Every redelivery of a keyed record leaves one entry too many in the index, and no eviction ever takes it away. */
  lemma {:induction false} ExcessCountsRedeliveries(arrivals: seq<Event>, maxEvents: nat, e: Event)
    requires OneRecordPerCoord(arrivals)
    ensures Covered(After(arrivals, maxEvents))
    ensures Keyed(BucketOf(e)) ==> Excess(After(arrivals, maxEvents), e) == Redeliveries(arrivals, maxEvents, e)
  {
    NoArrivals(maxEvents);
    if arrivals != [] {
      hide Step, Excess, DistinctCoords, OneRecordPerCoord, HasCoord, Covered;
      var n := |arrivals| - 1;
      OneRecordInit(arrivals);
      LogOfHistory(arrivals[..n], maxEvents);
      SameOrNew(arrivals, After(arrivals[..n], maxEvents).log, arrivals[n]);
      ExcessCountsRedeliveries(arrivals[..n], maxEvents, e);
      StepExcess(After(arrivals[..n], maxEvents), arrivals[n], maxEvents, e);
    }
  }

  function AnyKeyed(e: Event): (k: Event)
    ensures Keyed(BucketOf(k))
  {
    if Keyed(BucketOf(e)) then e else e.(key := Some("k"))
  }

  lemma {:induction false} CountedRedelivery(arrivals: seq<Event>, maxEvents: nat, i: nat)
    requires i < |arrivals| && Redelivered(arrivals, i, maxEvents)
    ensures Redeliveries(arrivals, maxEvents, arrivals[i]) >= 1
  {
    hide After;
    var n := |arrivals| - 1;
    if i < n {
      assert arrivals[..n][..i] == arrivals[..i] && arrivals[..n][i] == arrivals[i];
      CountedRedelivery(arrivals[..n], maxEvents, i);
    }
  }

  lemma {:induction false} NoRedeliveryKeepsIndex(arrivals: seq<Event>, maxEvents: nat)
    requires OneRecordPerCoord(arrivals) && NoKeyedRedelivery(arrivals, maxEvents)
    ensures Indexed(After(arrivals, maxEvents))
  {
    if arrivals == [] {
      assert forall k :: Filter([], k) == [];
    } else {
      hide Indexed, Evict, SetItem, AddToBucket, DistinctCoords, OneRecordPerCoord, NoKeyedRedelivery;
      var n := |arrivals| - 1;
      var x, before := arrivals[n], After(arrivals[..n], maxEvents);
      OneRecordInit(arrivals);
      NoRedeliveryInit(arrivals, maxEvents);
      NoRedeliveryKeepsIndex(arrivals[..n], maxEvents);
      LogOfHistory(arrivals[..n], maxEvents);
      SameOrNew(arrivals, before.log, x);
      if x in before.log {
        RedeliveryBreaksIndex(before, x, maxEvents);
      } else {
        NewCoordKeepsIndex(before, x, maxEvents);
      }
    }
  }

  lemma NoRedeliveryInit(arrivals: seq<Event>, maxEvents: nat)
    requires NoKeyedRedelivery(arrivals, maxEvents) && arrivals != []
    ensures var n := |arrivals| - 1;
            && NoKeyedRedelivery(arrivals[..n], maxEvents)
            && (arrivals[n] in After(arrivals[..n], maxEvents).log ==> !Keyed(BucketOf(arrivals[n])))
  {
    hide After;
    var n := |arrivals| - 1;
    forall i | 0 <= i < n && Redelivered(arrivals[..n], i, maxEvents) ensures !Keyed(BucketOf(arrivals[..n][i])) {
      assert arrivals[..n][..i] == arrivals[..i];
      assert Redelivered(arrivals, i, maxEvents);
    }
    assert Redelivered(arrivals, n, maxEvents) <==> arrivals[n] in After(arrivals[..n], maxEvents).log;
  }

  /** Exactly when the index can be trusted: while a coordinate always brings the same record, it agrees with the log
      after a history if and only if no keyed record ever arrived while its event was in the log. */
  lemma IndexAgreesExactly(arrivals: seq<Event>, maxEvents: nat)
    requires OneRecordPerCoord(arrivals)
    ensures Indexed(After(arrivals, maxEvents)) <==> NoKeyedRedelivery(arrivals, maxEvents)
  {
    hide Indexed, Excess, After;
    if NoKeyedRedelivery(arrivals, maxEvents) {
      NoRedeliveryKeepsIndex(arrivals, maxEvents);
    }
    if Indexed(After(arrivals, maxEvents)) {
      forall i | 0 <= i < |arrivals| && Redelivered(arrivals, i, maxEvents) ensures !Keyed(BucketOf(arrivals[i])) {
        if Keyed(BucketOf(arrivals[i])) {
          CountedRedelivery(arrivals, maxEvents, i);
          ExcessCountsRedeliveries(arrivals, maxEvents, arrivals[i]);
          IndexedHasNoExcess(After(arrivals, maxEvents), arrivals[i]);
          assert false;
        }
      }
    }
  }

  lemma DistinctIsNoRedelivery(arrivals: seq<Event>, maxEvents: nat)
    requires DistinctCoords(arrivals)
    ensures OneRecordPerCoord(arrivals) && NoKeyedRedelivery(arrivals, maxEvents)
  {
    assert OneRecordPerCoord(arrivals);
    forall i | 0 <= i < |arrivals| ensures !Redelivered(arrivals, i, maxEvents) {
      LogOfHistory(arrivals[..i], maxEvents);
    }
  }

  /** The leftover outlives the event: after the eviction events_for still returns a record the log no longer holds. */
  lemma StaleEntrySurvivesEviction(e: Event, f: Event)
    requires e.coord != f.coord && Keyed(BucketOf(e)) && BucketOf(f) != BucketOf(e)
    ensures var s := After([e, e, f], 1);
            s.log == [f] && Get(s.index, BucketOf(e)) == Some([e])
  {
    assert [e, e, f][..2] == [e, e] && [e, e][..1] == [e] && [e][..0] == [];
    assert After([e], 1) == Step(After([], 1), e, 1) == State([e], map[BucketOf(e) := [e]]) by {
      assert [] + [e] == [e];
    }
    assert After([e, e], 1) == State([e], map[BucketOf(e) := [e, e]]) by {
      assert SetItem([e], e) == [e] + [] == [e] && [e] + [e] == [e, e];
    }
    var full := State([e, f], AddToBucket(map[BucketOf(e) := [e, e]], f));
    assert After([e, e, f], 1) == Evict(full, 1) by {
      assert SetItem([e], f) == [e] + SetItem([], f) == [e, f];
    }
    assert RemoveFirst([e, e], e) == [e];
    assert Evict(full, 1) == Evict(State([f], DropFromBucket(full.index, e)), 1);
  }
}
