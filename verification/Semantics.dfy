/** The reference model: plan_batch and apply_plan, loop by loop. */
module Semantics {
  import opened Basics
  import opened Events

  datatype Outcome = Applied | Superseded | Stale

  datatype Row = Row(values: Option<Image>, isDeleted: bool, sourceLsn: int, prevSourceLsn: Option<int>,
                     eventId: EventId, batchId: int)

  datatype BatchPlan = BatchPlan(batchId: int, outcomes: map<EventId, Outcome>, late: set<EventId>,
                                 inBatchDuplicates: nat, priorDuplicates: set<EventId>, bronzeAppends: seq<EventId>,
                                 toApply: seq<ChangeEvent>, watermarkAfter: int)

  // -------------------------------------------------------- sorting by Kafka order

  /** Every event comes no earlier than those before it. */
  ghost predicate Ordered(s: seq<ChangeEvent>) {
    forall i :: 0 <= i < |s| ==> Follows(s[..i], s[i])
  }

  ghost predicate Follows(s: seq<ChangeEvent>, e: ChangeEvent) {
    forall x {:trigger x in s} :: x in s ==> !CoordLess(e, x)
  }

  function Insert(s: seq<ChangeEvent>, e: ChangeEvent): seq<ChangeEvent> {
    if s == [] || !CoordLess(e, s[|s| - 1]) then s + [e]
    else Insert(s[..|s| - 1], e) + [s[|s| - 1]]
  }

  /** A stable sort by (topic, partition, offset). */
  function Sorted(s: seq<ChangeEvent>): seq<ChangeEvent> {
    if s == [] then [] else Insert(Sorted(s[..|s| - 1]), s[|s| - 1])
  }

  lemma FirstOfSnoc(s: seq<ChangeEvent>, e: ChangeEvent, id: EventId)
    ensures FirstOf(s + [e], id) == Earlier(FirstOf(s, id), e, id)
  {
    assert (s + [e])[..|s|] == s;
  }

  lemma IdsSnoc(s: seq<ChangeEvent>, e: ChangeEvent)
    ensures Ids(s + [e]) == Ids(s) + {e.id}
  {
    forall x | x in s + [e] ensures x in s || x == e {
    }
    assert forall x :: x in s ==> x in s + [e];
    assert e in s + [e];
  }

  lemma {:induction false} InsertFirst(s: seq<ChangeEvent>, e: ChangeEvent, id: EventId)
    ensures FirstOf(Insert(s, e), id) == Earlier(FirstOf(s, id), e, id)
  {
    var n := |s| - 1;
    if s == [] || !CoordLess(e, s[n]) {
      FirstOfSnoc(s, e, id);
    } else {
      var front, last := s[..n], s[n];
      assert s == front + [last];
      InsertFirst(front, e, id);
      FirstOfSnoc(front, last, id);
      FirstOfSnoc(Insert(front, e), last, id);
      InsertKeepsFirst(FirstOf(front, id), e, last, id);
    }
  }

  lemma {:induction false} InsertOrdered(s: seq<ChangeEvent>, e: ChangeEvent)
    requires Ordered(s)
    ensures Ordered(Insert(s, e)) && multiset(Insert(s, e)) == multiset(s) + multiset{e}
  {
    var n := |s| - 1;
    if s == [] {
      OrderedSnoc([], e);
    } else {
      var front, last := s[..n], s[n];
      assert s == front + [last];
      OrderedInit(front, last);
      if CoordLess(e, last) {
        InsertOrdered(front, e);
        var t := Insert(front, e);
        forall x | x in t ensures !CoordLess(last, x) {
          assert x in multiset(t);
          assert x == e || x in front;
          CoordOrder(last, e, last);
        }
        OrderedSnoc(t, last);
      } else {
        forall x | x in s ensures !CoordLess(e, x) {
          CoordOrder(x, last, e);
        }
        OrderedSnoc(s, e);
      }
    }
  }

  lemma OrderedSnoc(s: seq<ChangeEvent>, e: ChangeEvent)
    requires Ordered(s) && Follows(s, e)
    ensures Ordered(s + [e])
  {
    var t := s + [e];
    forall i | 0 <= i < |t| ensures Follows(t[..i], t[i]) {
      assert t[..i] == s[..i];
    }
  }

  lemma OrderedInit(s: seq<ChangeEvent>, e: ChangeEvent)
    requires Ordered(s + [e])
    ensures Ordered(s) && Follows(s, e)
  {
    var t := s + [e];
    assert t[..|s|] == s && Follows(t[..|s|], t[|s|]);
    forall i | 0 <= i < |s| ensures Follows(s[..i], s[i]) {
      assert t[..i] == s[..i] && Follows(t[..i], t[i]);
    }
  }

  lemma InsertKeepsFirst(kept: Option<ChangeEvent>, e: ChangeEvent, last: ChangeEvent, id: EventId)
    requires CoordLess(e, last)
    ensures Earlier(Earlier(kept, e, id), last, id) == Earlier(Earlier(kept, last, id), e, id)
  {
    CoordOrder(e, last, e);
    if kept.Some? {
      CoordOrder(e, last, kept.value);
    }
  }

  lemma {:induction false} SortedIsOrdered(s: seq<ChangeEvent>)
    ensures Ordered(Sorted(s)) && multiset(Sorted(s)) == multiset(s)
  {
    if s != [] {
      var n := |s| - 1;
      assert s == s[..n] + [s[n]];
      SortedIsOrdered(s[..n]);
      InsertOrdered(Sorted(s[..n]), s[n]);
    }
  }

  lemma {:induction false} SortedKeepsFirst(s: seq<ChangeEvent>, id: EventId)
    ensures FirstOf(Sorted(s), id) == FirstOf(s, id)
  {
    if s != [] {
      var n := |s| - 1;
      SortedKeepsFirst(s[..n], id);
      InsertFirst(Sorted(s[..n]), s[n], id);
    }
  }

  // --------------------------------------------------------------- what a plan means

  predicate IsPrior(bronze: map<EventId, int>, batchId: int, id: EventId) {
    id in bronze && bronze[id] < batchId
  }

  /** The kept events that are not prior duplicates. */
  function Candidates(kept: map<EventId, ChangeEvent>, bronze: map<EventId, int>,
                      batchId: int): map<EventId, ChangeEvent> {
    map id | id in kept && !IsPrior(bronze, batchId, id) :: kept[id]
  }

  function Baseline(silver: map<Key, Row>, key: Key, batchId: int): Option<int> {
    if key !in silver then None
    else if silver[key].batchId == batchId then silver[key].prevSourceLsn
    else Some(silver[key].sourceLsn)
  }

  predicate IsStale(silver: map<Key, Row>, batchId: int, e: ChangeEvent) {
    var baseline := Baseline(silver, e.change.key, batchId);
    baseline.Some? && e.change.lsn <= baseline.value
  }

  predicate SameKey(a: ChangeEvent, b: ChangeEvent) {
    a.change.key == b.change.key
  }

  predicate Beats(a: ChangeEvent, b: ChangeEvent) {
    SameKey(a, b) && Outranks(a, b)
  }

  /** Outcomes: stale by the baseline; among the rest of a key exactly one is applied, nothing outranks it, and the
      others are superseded by it. */
  ghost predicate OutcomesOk(outcomes: map<EventId, Outcome>, candidates: map<EventId, ChangeEvent>,
                             silver: map<Key, Row>, batchId: int) {
    && outcomes.Keys == candidates.Keys
    && (forall id :: id in candidates ==> (outcomes[id] == Stale <==> IsStale(silver, batchId, candidates[id])))
    && (forall id, j {:trigger Beats(candidates[j], candidates[id])} ::
          id in candidates && j in candidates && outcomes[id] == Applied ==> !Beats(candidates[j], candidates[id]))
    && (forall id, j {:trigger SameKey(candidates[id], candidates[j])} ::
          id in candidates && j in candidates && outcomes[id] == Applied && outcomes[j] == Applied && id != j
          ==> !SameKey(candidates[id], candidates[j]))
    && (forall id :: id in candidates && outcomes[id] == Superseded ==>
          exists j :: j in candidates && j != id && outcomes[j] == Applied && SameKey(candidates[j], candidates[id]) &&
                      !Beats(candidates[id], candidates[j]))
  }

  ghost predicate DistinctIds(s: seq<ChangeEvent>) {
    forall i, j :: 0 <= i < j < |s| ==> s[i].id != s[j].id
  }

  /** How a plan labels the first occurrences it keeps. */
  ghost predicate LabelsOf(plan: BatchPlan, kept: map<EventId, ChangeEvent>, candidates: map<EventId, ChangeEvent>,
                           silver: map<Key, Row>, batchId: int, watermark: int) {
    && OutcomesOk(plan.outcomes, candidates, silver, batchId)
    && plan.late == (set id | id in candidates && candidates[id].change.tsMs < watermark)
    && plan.priorDuplicates == kept.Keys - candidates.Keys
  }

  /** Everything plan_batch promises about its result, in terms of the first occurrences it keeps. */
  ghost predicate IsPlanOfKept(plan: BatchPlan, batchId: int, count: nat, kept: map<EventId, ChangeEvent>,
                               silver: map<Key, Row>, bronze: map<EventId, int>, watermark: int, lateness: int) {
    var candidates := Candidates(kept, bronze, batchId);
    && plan.batchId == batchId
    && LabelsOf(plan, kept, candidates, silver, batchId, watermark)
    && plan.inBatchDuplicates == count - |kept|
    && (forall id :: id in plan.bronzeAppends <==> id in kept && id !in bronze)
    && (forall i, j :: 0 <= i < j < |plan.bronzeAppends| ==> plan.bronzeAppends[i] != plan.bronzeAppends[j])
    && DistinctIds(plan.toApply)
    && (forall e :: e in plan.toApply <==>
          e.id in candidates && plan.outcomes[e.id] == Applied && e == candidates[e.id])
    && WatermarkOk(plan.watermarkAfter, watermark, candidates, lateness)
  }

  ghost predicate IsPlanOf(plan: BatchPlan, batchId: int, events: seq<ChangeEvent>, silver: map<Key, Row>,
                           bronze: map<EventId, int>, watermark: int, lateness: int) {
    IsPlanOfKept(plan, batchId, |events|, Kept(events), silver, bronze, watermark, lateness)
  }

  /** The least watermark that is at least the old one and every candidate's timestamp minus the lateness. */
  ghost predicate WatermarkOk(after: int, before: int, candidates: map<EventId, ChangeEvent>, lateness: int) {
    && after >= before
    && (forall id :: id in candidates ==> after >= candidates[id].change.tsMs - lateness)
    && (after == before || exists id :: id in candidates && after == candidates[id].change.tsMs - lateness)
  }

  /** A list of the events of `kept`, once each. */
  ghost predicate Picks(s: seq<ChangeEvent>, kept: map<EventId, ChangeEvent>) {
    && DistinctIds(s) && Ids(s) == kept.Keys
    && (forall e :: e in s ==> e.id in kept && e == kept[e.id])
  }

  // ------------------------------------------------------------------------ the loops

  /** The dict of first occurrences after one more event in Kafka order. */
  lemma KeptSnoc(before: seq<ChangeEvent>, event: ChangeEvent)
    requires Follows(before, event)
    ensures Kept(before + [event]) == if event.id in Kept(before) then Kept(before) else Kept(before)[event.id := event]
  {
    IdsSnoc(before, event);
    forall id | id in Ids(before) ensures First(before + [event], id) == First(before, id) {
      FirstOfSnoc(before, event, id);
    }
    FirstOfSnoc(before, event, event.id);
  }

  lemma KeptSorted(events: seq<ChangeEvent>)
    ensures |Sorted(events)| == |events| && Kept(Sorted(events)) == Kept(events)
  {
    SortedIsOrdered(events);
    assert |multiset(Sorted(events))| == |multiset(events)|;
    forall id ensures FirstOf(Sorted(events), id) == FirstOf(events, id) {
      SortedKeepsFirst(events, id);
    }
    forall id ensures id in Ids(Sorted(events)) <==> id in Ids(events) {
      assert FirstOf(events, id).Some? <==> id in Ids(events);
      assert FirstOf(Sorted(events), id).Some? <==> id in Ids(Sorted(events));
    }
  }

  lemma OneMore(kept: map<EventId, ChangeEvent>, event: ChangeEvent)
    requires event.id !in kept
    ensures |kept[event.id := event]| == |kept| + 1
  {
  }

  lemma PicksNothing()
    ensures Picks([], map[])
  {
  }

  lemma PicksSnoc(s: seq<ChangeEvent>, kept: map<EventId, ChangeEvent>, event: ChangeEvent)
    requires Picks(s, kept) && event.id !in kept
    ensures Picks(s + [event], kept[event.id := event])
  {
    IdsSnoc(s, event);
    forall i | 0 <= i < |s| ensures s[i].id != event.id {
      assert s[i].id in Ids(s);
    }
  }

  lemma KeptStep(ordered: seq<ChangeEvent>, i: nat, kept: map<EventId, ChangeEvent>)
    requires Ordered(ordered) && i < |ordered| && kept == Kept(ordered[..i])
    ensures Kept(ordered[..i + 1]) == if ordered[i].id in kept then kept else kept[ordered[i].id := ordered[i]]
  {
    assert Follows(ordered[..i], ordered[i]);
    assert ordered[..i + 1] == ordered[..i] + [ordered[i]];
    KeptSnoc(ordered[..i], ordered[i]);
  }

  /** Filling the insertion-ordered dict `seen`: its values in order, and the dict itself. */
  method FirstOccurrences(ordered: seq<ChangeEvent>) returns (values: seq<ChangeEvent>, duplicates: nat)
    requires Ordered(ordered)
    ensures Picks(values, Kept(ordered))
    ensures duplicates == |ordered| - |Kept(ordered)|
  {
    hide Kept, Picks, Ordered;
    PicksNothing();
    var seen: map<EventId, ChangeEvent> := map[];
    values, duplicates := [], 0;
    var i := 0;
    while i < |ordered|
      invariant 0 <= i <= |ordered|
      invariant seen == Kept(ordered[..i])
      invariant Picks(values, seen)
      invariant |seen| + duplicates == i
    {
      var event := ordered[i];
      KeptStep(ordered, i, seen);
      if event.id in seen {
        duplicates := duplicates + 1;
      } else {
        PicksSnoc(values, seen, event);
        OneMore(seen, event);
        values, seen := values + [event], seen[event.id := event];
      }
      i := i + 1;
    }
    WholeTake(ordered, i);
  }

  lemma WholeTake(s: seq<ChangeEvent>, i: nat)
    requires i == |s|
    ensures s[..i] == s
  {
  }

  method Deduplicate(events: seq<ChangeEvent>) returns (seen: seq<ChangeEvent>, duplicates: nat)
    ensures Picks(seen, Kept(events))
    ensures duplicates == |events| - |Kept(events)|
  {
    SortedIsOrdered(events);
    seen, duplicates := FirstOccurrences(Sorted(events));
    KeptSorted(events);
  }

  /** Candidates, prior duplicates and bronze appends after some of the kept events. */
  ghost predicate Selected(seen: seq<ChangeEvent>, bronze: map<EventId, int>, batchId: int,
                           candidates: seq<ChangeEvent>, prior: set<EventId>, appends: seq<EventId>) {
    && DistinctIds(candidates)
    && (forall e :: e in candidates <==> e in seen && !IsPrior(bronze, batchId, e.id))
    && (forall id :: id in prior <==> id in Ids(seen) && IsPrior(bronze, batchId, id))
    && (forall id :: id in appends <==> id in Ids(seen) && id !in bronze)
    && (forall i, j :: 0 <= i < j < |appends| ==> appends[i] != appends[j])
  }

  lemma SelectPrior(seen: seq<ChangeEvent>, bronze: map<EventId, int>, batchId: int, candidates: seq<ChangeEvent>,
                    prior: set<EventId>, appends: seq<EventId>, event: ChangeEvent)
    requires Selected(seen, bronze, batchId, candidates, prior, appends) && IsPrior(bronze, batchId, event.id)
    ensures Selected(seen + [event], bronze, batchId, candidates, prior + {event.id}, appends)
  {
    IdsSnoc(seen, event);
  }

  lemma SelectCandidate(seen: seq<ChangeEvent>, bronze: map<EventId, int>, batchId: int, candidates: seq<ChangeEvent>,
                        prior: set<EventId>, appends: seq<EventId>, event: ChangeEvent)
    requires Selected(seen, bronze, batchId, candidates, prior, appends) && !IsPrior(bronze, batchId, event.id)
    requires event.id !in Ids(seen)
    ensures Selected(seen + [event], bronze, batchId, candidates + [event], prior,
                     if event.id in bronze then appends else appends + [event.id])
  {
    IdsSnoc(seen, event);
    forall i | 0 <= i < |candidates| ensures candidates[i].id != event.id {
      assert candidates[i] in candidates;
    }
    forall i | 0 <= i < |appends| ensures appends[i] != event.id {
      assert appends[i] in appends;
    }
  }

  lemma SelectedAll(seen: seq<ChangeEvent>, kept: map<EventId, ChangeEvent>, bronze: map<EventId, int>, batchId: int,
                    candidates: seq<ChangeEvent>, prior: set<EventId>, appends: seq<EventId>)
    requires Picks(seen, kept) && Selected(seen, bronze, batchId, candidates, prior, appends)
    ensures Picks(candidates, Candidates(kept, bronze, batchId))
    ensures prior == kept.Keys - Candidates(kept, bronze, batchId).Keys
    ensures forall id :: id in appends <==> id in kept && id !in bronze
    ensures forall i, j :: 0 <= i < j < |appends| ==> appends[i] != appends[j]
  {
    CandidatesInList(seen, kept);
    forall id | id in Candidates(kept, bronze, batchId) ensures id in Ids(candidates) {
      assert kept[id] in candidates;
    }
  }

  lemma NextId(seen: seq<ChangeEvent>, i: nat)
    requires DistinctIds(seen) && i < |seen|
    ensures seen[..i + 1] == seen[..i] + [seen[i]] && seen[i].id !in Ids(seen[..i])
  {
  }

  method SelectCandidates(seen: seq<ChangeEvent>, ghost kept: map<EventId, ChangeEvent>, bronze: map<EventId, int>,
                          batchId: int)
    returns (candidates: seq<ChangeEvent>, prior: set<EventId>, appends: seq<EventId>)
    requires Picks(seen, kept)
    ensures Picks(candidates, Candidates(kept, bronze, batchId))
    ensures prior == kept.Keys - Candidates(kept, bronze, batchId).Keys
    ensures forall id :: id in appends <==> id in kept && id !in bronze
    ensures forall i, j :: 0 <= i < j < |appends| ==> appends[i] != appends[j]
  {
    assert DistinctIds(seen);
    hide Picks, Selected, DistinctIds, Ids;
    candidates, prior, appends := [], {}, [];
    NothingSelected(bronze, batchId);
    var i := 0;
    assert seen[..i] == [];
    while i < |seen|
      invariant 0 <= i <= |seen|
      invariant Selected(seen[..i], bronze, batchId, candidates, prior, appends)
    {
      var event := seen[i];
      NextId(seen, i);
      if event.id in bronze && bronze[event.id] < batchId {
        SelectPrior(seen[..i], bronze, batchId, candidates, prior, appends, event);
        prior := prior + {event.id};
      } else {
        SelectCandidate(seen[..i], bronze, batchId, candidates, prior, appends, event);
        candidates := candidates + [event];
        if event.id !in bronze {
          appends := appends + [event.id];
        }
      }
      i := i + 1;
    }
    assert seen[..i] == seen;
    SelectedAll(seen, kept, bronze, batchId, candidates, prior, appends);
  }

  lemma NothingSelected(bronze: map<EventId, int>, batchId: int)
    ensures Selected([], bronze, batchId, [], {}, [])
  {
  }

  /** For each key the candidate of highest (lsn, offset), the first one on ties. */
  method LatestPerKey(candidates: seq<ChangeEvent>) returns (latest: map<Key, ChangeEvent>)
    ensures IsLatestOf(candidates, latest)
  {
    latest := map[];
    var i := 0;
    while i < |candidates|
      invariant 0 <= i <= |candidates|
      invariant IsLatestOf(candidates[..i], latest)
    {
      var event := candidates[i];
      var key := event.change.key;
      assert candidates[..i + 1] == candidates[..i] + [event];
      if key !in latest || Outranks(event, latest[key]) {
        latest := latest[key := event];
      }
      i := i + 1;
    }
    assert candidates[..i] == candidates;
  }

  ghost predicate IsLatestOf(candidates: seq<ChangeEvent>, latest: map<Key, ChangeEvent>) {
    && (forall e :: e in candidates ==> e.change.key in latest && !Outranks(e, latest[e.change.key]))
    && (forall k :: k in latest ==> latest[k] in candidates && latest[k].change.key == k)
  }

  function Decide(silver: map<Key, Row>, batchId: int, latest: map<Key, ChangeEvent>, e: ChangeEvent): Outcome
    requires e.change.key in latest
  {
    if IsStale(silver, batchId, e) then Stale
    else if latest[e.change.key] != e then Superseded
    else Applied
  }

  ghost predicate Decided(candidates: seq<ChangeEvent>, silver: map<Key, Row>, batchId: int,
                          latest: map<Key, ChangeEvent>,
                          outcomes: map<EventId, Outcome>) {
    && outcomes.Keys == Ids(candidates)
    && forall e :: e in candidates ==> e.change.key in latest && outcomes[e.id] == Decide(silver, batchId, latest, e)
  }

  ghost predicate Chosen(candidates: seq<ChangeEvent>, silver: map<Key, Row>, batchId: int,
                         latest: map<Key, ChangeEvent>, toApply: seq<ChangeEvent>) {
    && (forall e :: e in candidates ==> e.change.key in latest)
    && DistinctIds(toApply)
    && (forall e :: e in toApply <==> e in candidates && Decide(silver, batchId, latest, e) == Applied)
  }

  lemma DecidedSnoc(candidates: seq<ChangeEvent>, silver: map<Key, Row>, batchId: int, latest: map<Key, ChangeEvent>,
                    outcomes: map<EventId, Outcome>, event: ChangeEvent)
    requires Decided(candidates, silver, batchId, latest, outcomes)
    requires event.change.key in latest && event.id !in Ids(candidates)
    ensures Decided(candidates + [event], silver, batchId, latest,
                    outcomes[event.id := Decide(silver, batchId, latest, event)])
  {
    hide Decide;
    IdsSnoc(candidates, event);
  }

  lemma ChosenSnoc(candidates: seq<ChangeEvent>, silver: map<Key, Row>, batchId: int, latest: map<Key, ChangeEvent>,
                   toApply: seq<ChangeEvent>, event: ChangeEvent)
    requires Chosen(candidates, silver, batchId, latest, toApply)
    requires event.change.key in latest && event.id !in Ids(candidates)
    ensures Chosen(candidates + [event], silver, batchId, latest,
                   if Decide(silver, batchId, latest, event) == Applied then toApply + [event] else toApply)
  {
    hide Decide;
    forall i | 0 <= i < |toApply| ensures toApply[i].id != event.id {
      assert toApply[i] in toApply;
    }
  }

  lemma NothingDecided(silver: map<Key, Row>, batchId: int, latest: map<Key, ChangeEvent>)
    ensures Decided([], silver, batchId, latest, map[]) && Chosen([], silver, batchId, latest, [])
  {
  }

  /** The outcome loop over the candidates. */
  method Decisions(candidates: seq<ChangeEvent>, silver: map<Key, Row>, batchId: int, latest: map<Key, ChangeEvent>)
    returns (outcomes: map<EventId, Outcome>, toApply: seq<ChangeEvent>)
    requires DistinctIds(candidates)
    requires forall e :: e in candidates ==> e.change.key in latest
    ensures Decided(candidates, silver, batchId, latest, outcomes)
    ensures Chosen(candidates, silver, batchId, latest, toApply)
  {
    hide Decided, Chosen, DistinctIds, Ids, Decide;
    outcomes, toApply := map[], [];
    NothingDecided(silver, batchId, latest);
    var i := 0;
    assert candidates[..i] == [];
    while i < |candidates|
      invariant 0 <= i <= |candidates|
      invariant Decided(candidates[..i], silver, batchId, latest, outcomes)
      invariant Chosen(candidates[..i], silver, batchId, latest, toApply)
    {
      var event := candidates[i];
      NextId(candidates, i);
      DecidedSnoc(candidates[..i], silver, batchId, latest, outcomes, event);
      ChosenSnoc(candidates[..i], silver, batchId, latest, toApply, event);
      outcomes := outcomes[event.id := Decide(silver, batchId, latest, event)];
      if outcomes[event.id] == Applied {
        toApply := toApply + [event];
      }
      i := i + 1;
    }
    assert candidates[..i] == candidates;
  }

  method LateIds(candidates: seq<ChangeEvent>, watermark: int) returns (late: set<EventId>)
    ensures late == set e | e in candidates && e.change.tsMs < watermark :: e.id
  {
    late := {};
    var i := 0;
    while i < |candidates|
      invariant 0 <= i <= |candidates|
      invariant late == set e | e in candidates[..i] && e.change.tsMs < watermark :: e.id
    {
      assert candidates[..i + 1] == candidates[..i] + [candidates[i]];
      if candidates[i].change.tsMs < watermark {
        late := late + {candidates[i].id};
      }
      i := i + 1;
    }
    assert candidates[..i] == candidates;
  }

  method PlanBatch(batchId: int, events: seq<ChangeEvent>, silver: map<Key, Row>, bronze: map<EventId, int>,
                   watermark: int, lateness: int) returns (plan: BatchPlan)
    ensures IsPlanOf(plan, batchId, events, silver, bronze, watermark, lateness)
  {
    var seen, duplicates := Deduplicate(events);
    ghost var kept := Kept(events);
    var candidates, prior, appends := SelectCandidates(seen, kept, bronze, batchId);
    ghost var picked := Candidates(kept, bronze, batchId);
    var latest := LatestPerKey(candidates);
    CandidatesInList(candidates, picked);
    var outcomes, toApply := Decisions(candidates, silver, batchId, latest);
    PlanOutcomes(silver, batchId, candidates, picked, latest, outcomes);
    var late := LateIds(candidates, watermark);
    LateByMap(candidates, picked, watermark);
    var after := watermark;
    if candidates != [] {
      var top := MaxTs(candidates);
      after := Max(watermark, top - lateness);
      AdvancedWatermark(candidates, picked, watermark, top, lateness);
    }
    plan := BatchPlan(batchId, outcomes, late, duplicates, prior, appends, toApply, after);
  }

  lemma CandidatesInList(s: seq<ChangeEvent>, kept: map<EventId, ChangeEvent>)
    requires Picks(s, kept)
    ensures forall id :: id in kept ==> kept[id] in s && kept[id].id == id
    ensures forall e :: e in s <==> e.id in kept && e == kept[e.id]
  {
    forall id | id in kept ensures kept[id] in s && kept[id].id == id {
      assert id in Ids(s);
    }
  }

  lemma LateByMap(s: seq<ChangeEvent>, kept: map<EventId, ChangeEvent>, watermark: int)
    requires Picks(s, kept)
    ensures (set e | e in s && e.change.tsMs < watermark :: e.id) ==
            set id | id in kept && kept[id].change.tsMs < watermark
  {
    CandidatesInList(s, kept);
  }

  lemma AdvancedWatermark(s: seq<ChangeEvent>, kept: map<EventId, ChangeEvent>, before: int, top: int, lateness: int)
    requires Picks(s, kept) && (forall e :: e in s ==> e.change.tsMs <= top)
    requires exists e :: e in s && e.change.tsMs == top
    ensures WatermarkOk(Max(before, top - lateness), before, kept, lateness)
  {
    CandidatesInList(s, kept);
    var e :| e in s && e.change.tsMs == top;
    assert e.id in kept && top - lateness == kept[e.id].change.tsMs - lateness;
  }

  lemma PlanOutcomes(silver: map<Key, Row>, batchId: int, candidates: seq<ChangeEvent>,
                     picked: map<EventId, ChangeEvent>,
                     latest: map<Key, ChangeEvent>, outcomes: map<EventId, Outcome>)
    requires Picks(candidates, picked) && IsLatestOf(candidates, latest)
    requires Decided(candidates, silver, batchId, latest, outcomes)
    ensures OutcomesOk(outcomes, picked, silver, batchId)
  {
    CandidatesInList(candidates, picked);
    DecisionsAreOk(silver, batchId, picked, latest, outcomes);
  }

  lemma DecisionsAreOk(silver: map<Key, Row>, batchId: int, picked: map<EventId, ChangeEvent>,
                       latest: map<Key, ChangeEvent>, outcomes: map<EventId, Outcome>)
    requires forall id :: id in picked ==> picked[id].change.key in latest && picked[id].id == id
    requires forall id :: id in picked ==> !Outranks(picked[id], latest[picked[id].change.key])
    requires forall k :: k in latest ==>
               latest[k].id in picked && picked[latest[k].id] == latest[k] && latest[k].change.key == k
    requires outcomes.Keys == picked.Keys
    requires forall id :: id in picked ==> outcomes[id] == Decide(silver, batchId, latest, picked[id])
    ensures OutcomesOk(outcomes, picked, silver, batchId)
  {
    forall id | id in picked && outcomes[id] == Superseded
      ensures exists j :: j in picked && j != id && outcomes[j] == Applied && SameKey(picked[j], picked[id]) &&
                          !Beats(picked[id], picked[j])
    {
      var best := latest[picked[id].change.key];
      assert best.id in picked && picked[best.id] == best;
      assert !IsStale(silver, batchId, best);
    }
  }

  // ------------------------------------------------------------------- applying a plan

  /** The row apply_plan leaves for one event: unchanged unless the event is strictly newer. */
  function ApplyOne(row: Option<Row>, e: ChangeEvent, batchId: int): Row {
    if row.Some? && e.change.lsn <= row.value.sourceLsn then row.value
    else
      var prev := if row.Some? then Some(row.value.sourceLsn) else None;
      if e.change.op == Delete then
        Row(if row.Some? then row.value.values else e.change.image, true, e.change.lsn, prev, e.id, batchId)
      else
        Row(e.change.image, false, e.change.lsn, prev, e.id, batchId)
  }

  function ApplyAll(rows: map<Key, Row>, events: seq<ChangeEvent>, batchId: int): map<Key, Row> {
    if events == [] then rows
    else
      var e := events[|events| - 1];
      var before := ApplyAll(rows, events[..|events| - 1], batchId);
      before[e.change.key := ApplyOne(Get(before, e.change.key), e, batchId)]
  }

  /** The silver dict that apply_plan mutates. */
  class SilverStore {
    var rows: map<Key, Row>

    constructor (rows: map<Key, Row>)
      ensures this.rows == rows
    {
      this.rows := rows;
    }

    method ApplyPlan(plan: BatchPlan)
      modifies this
      ensures rows == ApplyAll(old(rows), plan.toApply, plan.batchId)
      ensures DistinctKeys(plan.toApply) ==> IsEffect(old(rows), plan.toApply, plan.batchId, rows)
    {
      var i := 0;
      while i < |plan.toApply|
        invariant 0 <= i <= |plan.toApply|
        invariant rows == ApplyAll(old(rows), plan.toApply[..i], plan.batchId)
      {
        var event := plan.toApply[i];
        var key := event.change.key;
        assert plan.toApply[..i + 1][..i] == plan.toApply[..i];
        if key in rows && event.change.lsn <= rows[key].sourceLsn {
          assert rows[key := rows[key]] == rows;
        } else {
          var prev := if key in rows then Some(rows[key].sourceLsn) else None;
          if event.change.op == Delete {
            var values := if key in rows then rows[key].values else event.change.image;
            rows := rows[key := Row(values, true, event.change.lsn, prev, event.id, plan.batchId)];
          } else {
            rows := rows[key := Row(event.change.image, false, event.change.lsn, prev, event.id, plan.batchId)];
          }
        }
        i := i + 1;
      }
      assert plan.toApply[..i] == plan.toApply;
      if DistinctKeys(plan.toApply) { PlanEffect(old(rows), plan.toApply, plan.batchId); }
    }
  }

  /** Every event applied is covered afterwards, and no row ever loses LSN. */
  lemma {:induction false} ApplyCovers(rows: map<Key, Row>, events: seq<ChangeEvent>, batchId: int)
    ensures var after := ApplyAll(rows, events, batchId);
            && (forall e :: e in events ==> e.change.key in after && e.change.lsn <= after[e.change.key].sourceLsn)
            && (forall k :: k in rows ==> k in after && rows[k].sourceLsn <= after[k].sourceLsn)
  {
    if events != [] {
      var n := |events| - 1;
      assert events == events[..n] + [events[n]];
      ApplyCovers(rows, events[..n], batchId);
    }
  }

  lemma {:induction false} ApplyCovered(rows: map<Key, Row>, events: seq<ChangeEvent>, batchId: int)
    requires forall e :: e in events ==> e.change.key in rows && e.change.lsn <= rows[e.change.key].sourceLsn
    ensures ApplyAll(rows, events, batchId) == rows
  {
    if events != [] {
      ApplyCovered(rows, events[..|events| - 1], batchId);
    }
  }

  /** Re-applying a plan changes nothing. */
  lemma ApplyIdempotent(rows: map<Key, Row>, events: seq<ChangeEvent>, batchId: int)
    ensures ApplyAll(ApplyAll(rows, events, batchId), events, batchId) == ApplyAll(rows, events, batchId)
  {
    ApplyCovers(rows, events, batchId);
    ApplyCovered(ApplyAll(rows, events, batchId), events, batchId);
  }

  ghost predicate DistinctKeys(events: seq<ChangeEvent>) {
    forall i, j :: 0 <= i < j < |events| ==> events[i].change.key != events[j].change.key
  }

  lemma LastKeyIsNew(events: seq<ChangeEvent>)
    requires DistinctKeys(events) && events != []
    ensures DistinctKeys(events[..|events| - 1])
    ensures forall e :: e in events[..|events| - 1] ==> e.change.key != events[|events| - 1].change.key
  {
    forall e | e in events[..|events| - 1] ensures e.change.key != events[|events| - 1].change.key {
      var i :| 0 <= i < |events| - 1 && events[i] == e;
    }
  }

  /** With one event per key, applying them in turn is one guarded merge per key. */
  lemma {:induction false} ApplyPerKey(rows: map<Key, Row>, events: seq<ChangeEvent>, batchId: int, k: Key)
    requires DistinctKeys(events)
    ensures forall e :: e in events && e.change.key == k ==>
              Get(ApplyAll(rows, events, batchId), k) == Some(ApplyOne(Get(rows, k), e, batchId))
    ensures (forall e :: e in events ==> e.change.key != k) ==> Get(ApplyAll(rows, events, batchId), k) == Get(rows, k)
  {
    hide ApplyOne;
    if events != [] {
      var n := |events| - 1;
      LastKeyIsNew(events);
      assert events == events[..n] + [events[n]];
      ApplyPerKey(rows, events[..n], batchId, k);
    }
  }

  /** A row as an event leaves it. A delete keeps the values it found, and without a row its own before image. */
  predicate WrittenBy(row: Row, was: Option<Row>, e: ChangeEvent, batchId: int) {
    && row.sourceLsn == e.change.lsn && row.eventId == e.id && row.batchId == batchId
    && (row.isDeleted <==> e.change.op == Delete)
    && (was.None? ==> row.prevSourceLsn.None? && row.values == e.change.image)
    && (was.Some? ==> row.prevSourceLsn == Some(was.value.sourceLsn))
    && (was.Some? && e.change.op != Delete ==> row.values == e.change.image)
    && (was.Some? && e.change.op == Delete ==> row.values == was.value.values)
  }

  predicate IsNewer(e: ChangeEvent, rows: map<Key, Row>) {
    e.change.key in rows ==> e.change.lsn > rows[e.change.key].sourceLsn
  }

  /** What applying a plan does to a row: nothing without a newer event of its key, and otherwise that event writes
      it. */
  ghost predicate IsEffect(rows: map<Key, Row>, events: seq<ChangeEvent>, batchId: int, after: map<Key, Row>) {
    && (forall k :: (forall e :: e in events && e.change.key == k ==> !IsNewer(e, rows)) ==>
          Get(after, k) == Get(rows, k))
    && (forall e :: e in events && IsNewer(e, rows) ==>
          e.change.key in after && WrittenBy(after[e.change.key], Get(rows, e.change.key), e, batchId))
  }

  lemma PlanEffect(rows: map<Key, Row>, events: seq<ChangeEvent>, batchId: int)
    requires DistinctKeys(events)
    ensures IsEffect(rows, events, batchId, ApplyAll(rows, events, batchId))
  {
    hide ApplyAll;
    var after := ApplyAll(rows, events, batchId);
    forall k | forall e :: e in events && e.change.key == k ==> !IsNewer(e, rows)
      ensures Get(after, k) == Get(rows, k)
    {
      ApplyPerKey(rows, events, batchId, k);
      if e :| e in events && e.change.key == k { assert !IsNewer(e, rows); }
    }
    forall e | e in events && IsNewer(e, rows)
      ensures e.change.key in after && WrittenBy(after[e.change.key], Get(rows, e.change.key), e, batchId)
    {
      ApplyPerKey(rows, events, batchId, e.change.key);
    }
  }

  /** A deleted row has the values it had before the batch, and a live one that the batch wrote has the image of an
      event of the batch. */
  lemma ValuesAfterPlan(rows: map<Key, Row>, events: seq<ChangeEvent>, batchId: int, k: Key)
    requires DistinctKeys(events) && k in rows
    ensures var after := ApplyAll(rows, events, batchId);
            && k in after
            && (after[k].isDeleted ==> after[k].values == rows[k].values)
            && (!after[k].isDeleted && after[k] != rows[k] ==>
                  exists e :: e in events && e.change.key == k && after[k].values == e.change.image)
  {
    PlanEffect(rows, events, batchId);
    if e :| e in events && e.change.key == k && IsNewer(e, rows) {
      assert WrittenBy(ApplyAll(rows, events, batchId)[k], Get(rows, k), e, batchId);
    } else {
      assert Get(ApplyAll(rows, events, batchId), k) == Get(rows, k);
    }
  }

  /** A tombstone remembers the live row it deleted, or its own before image when it never saw one. Applied after the
      create it keeps the create's values; batched with it, where only the delete is applied, it keeps its own. The two
      orders therefore agree on the values exactly when the two images are the same, and always on the rest. */
  lemma TombstoneValuesDependOnBatching(create: ChangeEvent, delete: ChangeEvent, batch1: int, batch2: int)
    requires create.change.key == delete.change.key && create.change.lsn < delete.change.lsn
    requires create.change.op != Delete && delete.change.op == Delete
    ensures var k := create.change.key;
            var apart := Get(ApplyAll(ApplyAll(map[], [create], batch1), [delete], batch2), k);
            var together := Get(ApplyAll(map[], [delete], batch2), k);
            && apart.Some? && together.Some?
            && (apart.value.values == together.value.values <==> create.change.image == delete.change.image)
            && apart.value.isDeleted == together.value.isDeleted == true
            && apart.value.sourceLsn == together.value.sourceLsn && apart.value.eventId == together.value.eventId
  {
    ApplySingle(map[], create, batch1);
    ApplySingle(ApplyAll(map[], [create], batch1), delete, batch2);
    ApplySingle(map[], delete, batch2);
  }

  lemma ApplySingle(rows: map<Key, Row>, e: ChangeEvent, batchId: int)
    ensures ApplyAll(rows, [e], batchId) == rows[e.change.key := ApplyOne(Get(rows, e.change.key), e, batchId)]
  {
    assert [e][..0] == [];
  }
}
