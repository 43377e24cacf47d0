/** The sink's relational plan of one micro-batch and the three table writes it drives. */
module SinkPlan {
  import opened Basics
  import opened Events

  datatype Stamp = Stamp(epoch: string, batch: nat)

  datatype Outcome = Applied | Superseded | Stale | Duplicate

  datatype SilverRow = SilverRow(values: Option<Image>, isDeleted: bool, sourceLsn: int, prevSourceLsn: Option<int>,
                                 eventId: EventId, stamp: Stamp)

  type Silver = map<Key, SilverRow>

  datatype BronzeRow = BronzeRow(event: ChangeEvent, outcome: Outcome, late: bool, stamp: Stamp)

  /** An append-only table: nothing in its type forbids a second row for an event id. */
  type Bronze = multiset<BronzeRow>

  datatype Planned = Planned(event: ChangeEvent, outcome: Outcome, late: bool)

  type Plan = map<EventId, Planned>

  // ------------------------------------------------------------------- the plan

  /** The bronze rows of an id that a lookup pruned to source timestamps [lo, hi] sees. */
  predicate InLookup(bronze: Bronze, id: EventId, lo: int, hi: int) {
    exists r :: r in bronze && r.event.id == id && lo <= r.event.change.tsMs <= hi
  }

  /** Found in bronze, but not written by an earlier attempt of this very batch. */
  predicate PriorDup(bronze: Bronze, id: EventId, lo: int, hi: int, stamp: Stamp) {
    exists r :: r in bronze && r.event.id == id && lo <= r.event.change.tsMs <= hi && r.stamp != stamp
  }

  function PriorDups(valid: seq<ChangeEvent>, bronze: Bronze, stamp: Stamp): set<EventId> {
    set id | id in Ids(valid) && PriorDup(bronze, id, MinTs(valid), MaxTs(valid), stamp)
  }

  /** The LSN a silver row had before this batch; an earlier attempt of the batch left it in prevSourceLsn. */
  function Baseline(row: SilverRow, stamp: Stamp): Option<int> {
    if row.stamp == stamp then row.prevSourceLsn else Some(row.sourceLsn)
  }

  function Baselines(silver: Silver, stamp: Stamp): (b: map<Key, int>)
    ensures forall k :: Get(b, k) == if k in silver then Baseline(silver[k], stamp) else None
  {
    map k | k in silver && Baseline(silver[k], stamp).Some? :: Baseline(silver[k], stamp).value
  }

  /** row_number() over (partition by key order by lsn desc, offset desc) > 1, among the candidates. */
  predicate Outranked(unique: map<EventId, ChangeEvent>, dups: set<EventId>, id: EventId)
    requires id in unique
  {
    exists j :: j in unique && j !in dups && unique[j].change.key == unique[id].change.key &&
                Outranks(unique[j], unique[id])
  }

  predicate IsStale(baselines: map<Key, int>, e: ChangeEvent) {
    e.change.key in baselines && e.change.lsn <= baselines[e.change.key]
  }

  function Label(unique: map<EventId, ChangeEvent>, dups: set<EventId>, baselines: map<Key, int>, id: EventId): Outcome
    requires id in unique
  {
    if id in dups then Duplicate
    else if IsStale(baselines, unique[id]) then Stale
    else if Outranked(unique, dups, id) then Superseded
    else Applied
  }

  function MakePlan(unique: map<EventId, ChangeEvent>, dups: set<EventId>, baselines: map<Key, int>,
                    watermark: int): (plan: Plan)
    ensures plan.Keys == unique.Keys
    ensures forall id :: id in plan ==> plan[id].event == unique[id]
  {
    map id | id in unique :: Planned(unique[id], Label(unique, dups, baselines, id), unique[id].change.tsMs < watermark)
  }

  function PlanOn(valid: seq<ChangeEvent>, silver: Silver, bronze: Bronze, stamp: Stamp, watermark: int): Plan {
    MakePlan(Kept(valid), PriorDups(valid, bronze, stamp), Baselines(silver, stamp), watermark)
  }

  // ----------------------------------------------------------------- the writes

  predicate IsApplied(plan: Plan, id: EventId) {
    id in plan && plan[id].outcome == Applied
  }

  /** The MERGE source holds at most one row per key. */
  ghost predicate OnePerKey(plan: Plan) {
    forall i, j {:trigger IsApplied(plan, i), IsApplied(plan, j)} ::
      IsApplied(plan, i) && IsApplied(plan, j) && i != j ==> plan[i].event.change.key != plan[j].event.change.key
  }

  function Winners(plan: Plan): (w: map<Key, ChangeEvent>)
    requires OnePerKey(plan)
    ensures forall id {:trigger IsApplied(plan, id)} :: IsApplied(plan, id) ==>
              plan[id].event.change.key in w && w[plan[id].event.change.key] == plan[id].event
    ensures forall k :: k in w ==> w[k].change.key == k && exists id :: IsApplied(plan, id) && plan[id].event == w[k]
  {
    map id | id in plan && IsApplied(plan, id) :: plan[id].event.change.key := plan[id].event
  }

  /** The guarded MERGE of one source row into the row of its key. */
  function MergeRow(row: Option<SilverRow>, e: ChangeEvent, stamp: Stamp): SilverRow {
    match row
    case None => SilverRow(e.change.image, e.change.op == Delete, e.change.lsn, None, e.id, stamp)
    case Some(t) =>
      if e.change.lsn <= t.sourceLsn then t
      else if e.change.op == Delete then SilverRow(t.values, true, e.change.lsn, Some(t.sourceLsn), e.id, stamp)
      else SilverRow(e.change.image, false, e.change.lsn, Some(t.sourceLsn), e.id, stamp)
  }

  /** One MERGE statement: the silver table of one source table. */
  function MergeTable(silver: Silver, winners: map<Key, ChangeEvent>, table: string, stamp: Stamp): (s: Silver)
    ensures forall k :: Get(s, k) == if k in winners && k.table == table
                                     then Some(MergeRow(Get(silver, k), winners[k], stamp)) else Get(silver, k)
  {
    map k | k in silver.Keys + winners.Keys && (k in silver || k.table == table)
      :: if k in winners && k.table == table then MergeRow(Get(silver, k), winners[k], stamp) else silver[k]
  }

  /** All MERGE statements of a batch together. */
  function MergeAll(silver: Silver, winners: map<Key, ChangeEvent>, stamp: Stamp): (s: Silver)
    ensures forall k :: Get(s, k) == if k in winners then Some(MergeRow(Get(silver, k), winners[k], stamp))
                                     else Get(silver, k)
  {
    map k | k in silver.Keys + winners.Keys
      :: if k in winners then MergeRow(Get(silver, k), winners[k], stamp) else silver[k]
  }

  /** The planned rows bronze does not hold yet: a left anti join, recomputed on every attempt. */
  function FreshRows(bronze: Bronze, plan: Plan, lo: int, hi: int, stamp: Stamp): set<BronzeRow> {
    set id | id in plan && plan[id].outcome != Duplicate && !InLookup(bronze, id, lo, hi)
      :: BronzeRow(plan[id].event, plan[id].outcome, plan[id].late, stamp)
  }

  function Append(bronze: Bronze, plan: Plan, valid: seq<ChangeEvent>, stamp: Stamp): Bronze {
    bronze + multiset(FreshRows(bronze, plan, MinTs(valid), MaxTs(valid), stamp))
  }

  // -------------------------------------------------- properties of a single plan

  /** Two candidates of one key. */
  predicate Rivals(unique: map<EventId, ChangeEvent>, dups: set<EventId>, i: EventId, j: EventId) {
    i in unique && j in unique && i !in dups && j !in dups && i != j && unique[i].change.key == unique[j].change.key
  }

  /** Candidates of one key differ in LSN or offset, the order that decides between them. */
  ghost predicate DistinctRanks(unique: map<EventId, ChangeEvent>, dups: set<EventId>) {
    forall i, j {:trigger Rivals(unique, dups, i, j)} :: Rivals(unique, dups, i, j) ==>
      unique[i].change.lsn != unique[j].change.lsn || unique[i].offset != unique[j].offset
  }

  /** Events of a source whose rows have distinct LSNs never tie. */
  lemma RanksFromLsns(h: History, unique: map<EventId, ChangeEvent>, dups: set<EventId>)
    requires DistinctLsns(h) && KeptFrom(h, unique)
    ensures DistinctRanks(unique, dups)
  {
    forall i, j | Rivals(unique, dups, i, j) ensures unique[i].change.lsn != unique[j].change.lsn {
      assert SameRow(h, i, j);
    }
  }

  /** Distinct events of one key never tie, so the row_number window has exactly one first row per key. */
  lemma PlanIsOnePerKey(unique: map<EventId, ChangeEvent>, dups: set<EventId>, baselines: map<Key, int>, watermark: int)
    requires DistinctRanks(unique, dups)
    ensures OnePerKey(MakePlan(unique, dups, baselines, watermark))
  {
    forall i, j | Rivals(unique, dups, i, j) ensures Outranked(unique, dups, i) || Outranked(unique, dups, j) {
      assert Outranks(unique[i], unique[j]) || Outranks(unique[j], unique[i]);
    }
    var plan := MakePlan(unique, dups, baselines, watermark);
    forall i, j | IsApplied(plan, i) && IsApplied(plan, j) && i != j
      ensures plan[i].event.change.key != plan[j].event.change.key
    {
      assert !Rivals(unique, dups, i, j);
    }
  }

  /** The highest candidate of a key by LSN and then offset. */
  lemma TopCandidate(unique: map<EventId, ChangeEvent>, dups: set<EventId>, id: EventId) returns (top: EventId)
    requires DistinctRanks(unique, dups) && id in unique && id !in dups
    ensures top in unique && top !in dups && unique[top].change.key == unique[id].change.key
    ensures forall j :: Rivals(unique, dups, j, top) ==> Outranks(unique[top], unique[j])
  {
    var rivals := set j | j in unique && j !in dups && unique[j].change.key == unique[id].change.key;
    var lsns := set j | j in rivals :: unique[j].change.lsn;
    assert id in rivals && unique[id].change.lsn in lsns;
    MaxExists(lsns);
    var m :| IsMax(lsns, m);
    var latest := set j | j in rivals && unique[j].change.lsn == m;
    var offsets := set j | j in latest :: unique[j].offset;
    var one :| one in rivals && unique[one].change.lsn == m;
    assert one in latest && unique[one].offset in offsets;
    MaxExists(offsets);
    var o :| IsMax(offsets, o);
    top :| top in latest && unique[top].offset == o;
    forall j | Rivals(unique, dups, j, top) ensures Outranks(unique[top], unique[j]) {
      assert j in rivals && unique[j].change.lsn in lsns;
      if unique[j].change.lsn == m { assert j in latest && unique[j].offset in offsets; }
    }
  }

  /** A fresh candidate of a key is never lost: the key's highest candidate is applied instead of it. */
  lemma CandidateHasWinner(unique: map<EventId, ChangeEvent>, dups: set<EventId>, baselines: map<Key, int>, id: EventId)
    returns (top: EventId)
    requires DistinctRanks(unique, dups)
    requires id in unique && id !in dups && !IsStale(baselines, unique[id])
    ensures top in unique && top !in dups && Label(unique, dups, baselines, top) == Applied
    ensures unique[top].change.key == unique[id].change.key && unique[id].change.lsn <= unique[top].change.lsn
    ensures forall j :: Rivals(unique, dups, j, top) ==> Outranks(unique[top], unique[j])
  {
    top := TopCandidate(unique, dups, id);
    assert id != top ==> Rivals(unique, dups, id, top);
    forall j | j in unique && j !in dups && unique[j].change.key == unique[top].change.key
      ensures !Outranks(unique[j], unique[top])
    {
      assert j != top ==> Rivals(unique, dups, j, top);
    }
    assert !Outranked(unique, dups, top);
  }
}
