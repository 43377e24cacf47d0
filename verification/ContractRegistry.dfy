/** The version list of one contract: what loading accepts, and which version a record is classified under. */
module ContractRegistry {
  import opened Basics
  import opened Contracts

  // ------------------------------------------------------------------------ loading

  datatype LoadError =
    | DuplicateVersions
    | NotOneCurrent(found: nat)
    | CurrentNotHighest
    | NotCompatible(newer: nat, older: nat)

  function CountCurrent(versions: seq<Contract>): nat {
    if versions == [] then 0
    else CountCurrent(versions[..|versions| - 1]) + if versions[|versions| - 1].current then 1 else 0
  }

  ghost predicate DistinctVersions(versions: seq<Contract>) {
    forall i, j :: 0 <= i < j < |versions| ==> versions[i].version != versions[j].version
  }

  /** The pairs version j's own compatibility mode asks about. */
  predicate MustRead(versions: seq<Contract>, i: int, j: int) {
    0 <= i < j < |versions| && (versions[j].transitive || i == j - 1)
  }

  ghost predicate Reads(versions: seq<Contract>, i: int, j: int)
    requires 0 <= i < |versions| && 0 <= j < |versions|
  {
    Compatible(versions[i], versions[j])
  }

  /** Every pair its mode asks about is compatible. */
  ghost predicate ChainOk(versions: seq<Contract>) {
    forall i, j {:trigger MustRead(versions, i, j)} :: MustRead(versions, i, j) ==> Reads(versions, i, j)
  }

  /** Every older version is readable by every newer one. */
  ghost predicate AllPairsOk(versions: seq<Contract>) {
    forall i, j {:trigger Reads(versions, i, j)} :: 0 <= i < j < |versions| ==> Reads(versions, i, j)
  }

  ghost predicate Loads(versions: seq<Contract>) {
    && DistinctVersions(versions)
    && CountCurrent(versions) == 1
    && versions[|versions| - 1].current
    && ChainOk(versions)
  }

  method HasDuplicates(versions: seq<Contract>) returns (found: bool)
    ensures found <==> !DistinctVersions(versions)
  {
    var seen: set<int> := {};
    var i := 0;
    while i < |versions|
      invariant 0 <= i <= |versions|
      invariant forall k :: 0 <= k < i ==> versions[k].version in seen
      invariant forall v :: v in seen ==> exists k :: 0 <= k < i && versions[k].version == v
      invariant forall a, b :: 0 <= a < b < i ==> versions[a].version != versions[b].version
    {
      if versions[i].version in seen { return true; }
      seen := seen + {versions[i].version};
      i := i + 1;
    }
    found := false;
  }

  /** _validate_versions on a non-empty list sorted by version. The result names the first rule that fails, and for
      an incompatible pair the first such pair in load order. */
  method ValidateVersions(versions: seq<Contract>) returns (r: Result<(), LoadError>)
    requires versions != [] && forall c :: c in versions ==> Listed(c)
    ensures r.Ok? <==> Loads(versions)
    ensures r == Err(DuplicateVersions) <==> !DistinctVersions(versions)
    ensures r.Err? && r.error.NotOneCurrent? <==> DistinctVersions(versions) && CountCurrent(versions) != 1
    ensures r.Err? && r.error.NotOneCurrent? ==> r.error.found == CountCurrent(versions)
    ensures r == Err(CurrentNotHighest) <==>
            DistinctVersions(versions) && CountCurrent(versions) == 1 && !versions[|versions| - 1].current
    ensures r.Err? && r.error.NotCompatible? ==>
              var j, i := r.error.newer, r.error.older;
              && MustRead(versions, i, j) && !Reads(versions, i, j)
              && (forall i', j' {:trigger MustRead(versions, i', j')} ::
                    MustRead(versions, i', j') && (j' < j || (j' == j && i' < i)) ==> Reads(versions, i', j'))
  {
    hide Compatible;
    var duplicates := HasDuplicates(versions);
    if duplicates { return Err(DuplicateVersions); }
    var count := 0;
    var k := 0;
    while k < |versions|
      invariant 0 <= k <= |versions| && count == CountCurrent(versions[..k])
    {
      assert versions[..k + 1][..k] == versions[..k];
      if versions[k].current { count := count + 1; }
      k := k + 1;
    }
    assert versions[..k] == versions;
    if count != 1 { return Err(NotOneCurrent(count)); }
    if !versions[|versions| - 1].current { return Err(CurrentNotHighest); }
    var j := 1;
    while j < |versions|
      invariant 1 <= j <= |versions|
      invariant forall i', j' {:trigger MustRead(versions, i', j')} ::
        MustRead(versions, i', j') && j' < j ==> Reads(versions, i', j')
    {
      var i := if versions[j].transitive then 0 else j - 1;
      while i < j
        invariant 0 <= i <= j
        invariant forall i', j' {:trigger MustRead(versions, i', j')} ::
          MustRead(versions, i', j') && (j' < j || (j' == j && i' < i)) ==> Reads(versions, i', j')
      {
        var problems := CheckBackwardCompatible(versions[i], versions[j]);
        if problems != [] {
          assert MustRead(versions, i, j);
          return Err(NotCompatible(j, i));
        }
        i := i + 1;
      }
      j := j + 1;
    }
    r := Ok(());
  }

  // ------------------------------------------------- the two compatibility modes

  /** A field that comes back after a gap is compatible with what it was before. */
  ghost predicate ReturnsCompatible(versions: seq<Contract>) {
    forall i, j {:trigger ReturnsOk(versions, i, j)} :: 0 <= i < j < |versions| ==> ReturnsOk(versions, i, j)
  }

  /** What versions i and j share and the version before j lacks. */
  ghost predicate ReturnsOk(versions: seq<Contract>, i: int, j: int)
    requires 0 <= i < j < |versions|
  {
    forall n :: n in versions[i].fields && n in versions[j].fields && n !in versions[j - 1].fields ==>
      FieldCompatible(versions[i].fields[n], versions[j].fields[n])
  }

  /** A list is compatible throughout exactly when its modes accept it and every field that was dropped and added
      again came back compatible with every version that had it. Whichever modes the versions name, BACKWARD and
      BACKWARD_TRANSITIVE differ on nothing else. */
  lemma ModesAgree(versions: seq<Contract>)
    ensures AllPairsOk(versions) <==> ChainOk(versions) && ReturnsCompatible(versions)
  {
    hide Compatible, FieldCompatible;
    if AllPairsOk(versions) {
      forall i, j | MustRead(versions, i, j) ensures Reads(versions, i, j) {
      }
      forall i, j | 0 <= i < j < |versions| ensures ReturnsOk(versions, i, j) {
        assert Reads(versions, i, j);
        PairReturns(versions, i, j);
      }
    }
    if ChainOk(versions) && ReturnsCompatible(versions) {
      forall i, j | 0 <= i < j < |versions| ensures Reads(versions, i, j) {
        ChainReaches(versions, i, j);
      }
    }
  }

  lemma PairReturns(versions: seq<Contract>, i: int, j: int)
    requires 0 <= i < j < |versions| && Reads(versions, i, j)
    ensures ReturnsOk(versions, i, j)
  {
    forall n | n in versions[i].fields && n in versions[j].fields
      ensures FieldCompatible(versions[i].fields[n], versions[j].fields[n])
    {
      SharedFieldsCompatible(versions[i], versions[j], n);
    }
  }

  lemma {:induction false} ChainReaches(versions: seq<Contract>, i: nat, j: nat)
    requires ReturnsCompatible(versions) && ChainOk(versions) && i < j < |versions|
    ensures Reads(versions, i, j)
    decreases j - i
  {
    hide Compatible, FieldCompatible;
    if i == j - 1 {
      assert MustRead(versions, i, j);
    } else {
      ChainReaches(versions, i, j - 1);
      assert MustRead(versions, j - 1, j);
      assert ReturnsOk(versions, i, j);
      CompatibleTransitive(versions[i], versions[j - 1], versions[j]);
    }
  }

  /** No field disappears and comes back. */
  ghost predicate Convex(versions: seq<Contract>) {
    forall i, k, j, n :: 0 <= i < k < j < |versions| && n in versions[i].fields && n in versions[j].fields ==>
      n in versions[k].fields
  }

  /** In particular the two modes accept the same lists as long as no dropped field is added again. */
  lemma ConvexModesAgree(versions: seq<Contract>)
    requires Convex(versions)
    ensures ChainOk(versions) <==> AllPairsOk(versions)
  {
    hide FieldCompatible;
    forall i, j | 0 <= i < j < |versions| ensures ReturnsOk(versions, i, j) {
    }
    ModesAgree(versions);
  }

  /** A field dropped and added again with another type passes BACKWARD and fails BACKWARD_TRANSITIVE; a record of v1
      is then classified under v1 although the current version rejects it. */
  lemma DroppedAndReadded(lib: Library)
    ensures var v1 := Contract(1, false, false, ["id"], "shop.orders", "orders", ["id"], ["id", "qty"],
                               map["id" := TEXT, "qty" := TEXT]);
            var v2 := Contract(2, false, false, ["id"], "shop.orders", "orders", ["id"], ["id"], map["id" := TEXT]);
            var v3 := Contract(3, true, false, ["id"], "shop.orders", "orders", ["id"], ["id", "qty"],
                               map["id" := TEXT, "qty" := WHOLE]);
            var record := Obj(map["id" := Str("o1"), "qty" := Str("two")]);
            && ChainOk([v1, v2, v3]) && !AllPairsOk([v1, v2, v3])
            && Accepts(lib, [v1, v2, v3], record, 0) && !Valid(lib, v3, record)
  {
    var v1 := Contract(1, false, false, ["id"], "shop.orders", "orders", ["id"], ["id", "qty"],
                       map["id" := TEXT, "qty" := TEXT]);
    var v2 := Contract(2, false, false, ["id"], "shop.orders", "orders", ["id"], ["id"], map["id" := TEXT]);
    var v3 := Contract(3, true, false, ["id"], "shop.orders", "orders", ["id"], ["id", "qty"],
                       map["id" := TEXT, "qty" := WHOLE]);
    var record := Obj(map["id" := Str("o1"), "qty" := Str("two")]);
    assert Compatible(v1, v2) && Compatible(v2, v3) by {
      forall p ensures !IsProblem(v1, v2, p) && !IsProblem(v2, v3, p) {
      }
    }
    assert !Compatible(v1, v3) by { assert IsProblem(v1, v3, Field("qty", TypeNarrowed)); }
    assert !Reads([v1, v2, v3], 0, 2);
    assert Valid(lib, v1, record) by {
      forall v ensures !Violates(lib, v1, record, v) {
      }
    }
    assert Violates(lib, v3, record, Broken("qty", OfType));
  }

  // ----------------------------------------------------------------- classification

  ghost predicate Known(versions: seq<Contract>, n: string) {
    exists i :: 0 <= i < |versions| && n in versions[i].fields
  }

  /** Version i defines every field of the record that some version defines. */
  ghost predicate Candidate(versions: seq<Contract>, record: Json, i: int)
    requires 0 <= i < |versions| && record.Obj?
  {
    forall n :: n in record.members && Known(versions, n) ==> n in versions[i].fields
  }

  ghost predicate Accepts(lib: Library, versions: seq<Contract>, record: Json, i: int) {
    record.Obj? && 0 <= i < |versions| && Candidate(versions, record, i) && Valid(lib, versions[i], record)
  }

  datatype Classification = Classification(valid: bool, version: Option<int>, violations: seq<Violation>,
                                           drift: set<string>)

  /** The first accepting version decides; without one, the violations are those of the current version. */
  ghost predicate IsClassification(lib: Library, versions: seq<Contract>, record: Json, c: Classification)
    requires versions != []
  {
    && (c.valid <==> exists i :: Accepts(lib, versions, record, i))
    && (c.valid ==> c.violations == [] && exists i :: FirstAccepting(lib, versions, record, i) &&
                                                     c.version == Some(versions[i].version))
    && (!c.valid ==> c.version == None &&
                     forall v :: v in c.violations <==> Violates(lib, versions[|versions| - 1], record, v))
    && (forall n :: n in c.drift <==> record.Obj? && n in record.members && !Known(versions, n))
  }

  ghost predicate FirstAccepting(lib: Library, versions: seq<Contract>, record: Json, i: int) {
    Accepts(lib, versions, record, i) && forall k :: 0 <= k < i ==> !Accepts(lib, versions, record, k)
  }

  ghost predicate LastDefining(versions: seq<Contract>, n: string, i: int) {
    0 <= i < |versions| && n in versions[i].fields && forall k :: i < k < |versions| ==> n !in versions[k].fields
  }

  ghost predicate IsLastSpec(versions: seq<Contract>, n: string, spec: FieldSpec) {
    exists i :: LastDefining(versions, n, i) && versions[i].fields[n] == spec
  }

  /** Union of the fields of all versions; the last version that defines a field wins. */
  method AllFields(versions: seq<Contract>) returns (merged: map<string, FieldSpec>)
    ensures forall n :: n in merged <==> Known(versions, n)
    ensures forall n :: n in merged ==> IsLastSpec(versions, n, merged[n])
  {
    hide Known, IsLastSpec;
    merged := map[];
    NothingKnown();
    var i := 0;
    assert versions[..i] == [];
    while i < |versions|
      invariant 0 <= i <= |versions|
      invariant forall n :: n in merged <==> Known(versions[..i], n)
      invariant forall n :: n in merged ==> IsLastSpec(versions[..i], n, merged[n])
    {
      assert versions[..i + 1] == versions[..i] + [versions[i]];
      forall n
        ensures n in merged + versions[i].fields <==> Known(versions[..i + 1], n)
        ensures n in versions[i].fields ==> IsLastSpec(versions[..i + 1], n, versions[i].fields[n])
        ensures n !in versions[i].fields && n in merged ==> IsLastSpec(versions[..i + 1], n, merged[n])
      {
        PromotionKnows(versions[..i], versions[i], n);
        if n in versions[i].fields {
          NewSpec(versions[..i], versions[i], n);
        } else if n in merged {
          SameSpec(versions[..i], versions[i], n, merged[n]);
        }
      }
      merged := merged + versions[i].fields;
      i := i + 1;
    }
    assert versions[..i] == versions;
  }

  lemma NothingKnown()
    ensures forall n :: !Known([], n)
  {
  }

  lemma NewSpec(versions: seq<Contract>, more: Contract, n: string)
    requires n in more.fields
    ensures IsLastSpec(versions + [more], n, more.fields[n])
  {
    assert LastDefining(versions + [more], n, |versions|);
  }

  lemma SameSpec(versions: seq<Contract>, more: Contract, n: string, spec: FieldSpec)
    requires n !in more.fields && IsLastSpec(versions, n, spec)
    ensures IsLastSpec(versions + [more], n, spec)
  {
    var i :| LastDefining(versions, n, i) && versions[i].fields[n] == spec;
    assert LastDefining(versions + [more], n, i);
  }

  lemma CandidateIsUsed(versions: seq<Contract>, record: Json, known: map<string, FieldSpec>, i: nat)
    requires record.Obj? && i < |versions|
    requires forall n :: n in known <==> Known(versions, n)
    ensures Candidate(versions, record, i) <==>
            (set k | k in record.members && k in known) <= versions[i].fields.Keys
  {
    var used := set k | k in record.members && k in known;
    assert forall k :: k in used <==> k in record.members && Known(versions, k);
  }

  /** Earliest active version that validates the record, among those that define all its known fields. */
  method Classify(lib: Library, versions: seq<Contract>, record: Json) returns (c: Classification)
    requires versions != [] && forall v :: v in versions ==> Listed(v)
    ensures IsClassification(lib, versions, record, c)
  {
    hide Valid, Violates, Known, Candidate;
    var current := versions[|versions| - 1];
    if !record.Obj? {
      var violations := Validate(lib, current, record);
      return Classification(false, None, violations, {});
    }
    var known := AllFields(versions);
    var drift := set k | k in record.members && k !in known;
    var used := set k | k in record.members && k in known;
    var i := 0;
    while i < |versions|
      invariant 0 <= i <= |versions|
      invariant forall k :: 0 <= k < i ==> !Accepts(lib, versions, record, k)
    {
      CandidateIsUsed(versions, record, known, i);
      if used <= versions[i].fields.Keys {
        var violations := Validate(lib, versions[i], record);
        if violations == [] {
          assert FirstAccepting(lib, versions, record, i);
          return Classification(true, Some(versions[i].version), [], drift);
        }
      }
      i := i + 1;
    }
    var violations := Validate(lib, current, record);
    c := Classification(false, None, violations, drift);
  }

  // ------------------------------------------------------ what the search amounts to

  /** In a list where all pairs are compatible, a record accepted by a version is valid under every later one. */
  lemma AcceptedForGood(lib: Library, versions: seq<Contract>, record: Json, i: nat, j: nat)
    requires AllPairsOk(versions) && i < j < |versions| && Accepts(lib, versions, record, i)
    ensures Valid(lib, versions[j], record)
  {
    hide Compatible, Valid;
    assert Reads(versions, i, j);
    CompatibilityIsSound(lib, versions[i], versions[j], record);
    assert forall n :: n in versions[j].fields ==> Known(versions, n);
  }

  /** The search collapses to one check: some version accepts if and only if the last candidate validates. */
  lemma SearchCollapses(lib: Library, versions: seq<Contract>, record: Json, last: nat)
    requires AllPairsOk(versions) && record.Obj? && last < |versions| && Candidate(versions, record, last)
    requires forall k :: last < k < |versions| ==> !Candidate(versions, record, k)
    ensures (exists i :: Accepts(lib, versions, record, i)) <==> Valid(lib, versions[last], record)
  {
    if i :| Accepts(lib, versions, record, i) {
      if i < last { AcceptedForGood(lib, versions, record, i, last); }
    }
    if Valid(lib, versions[last], record) {
      assert Accepts(lib, versions, record, last);
    }
  }

  /** Fields are only ever added. */
  ghost predicate NeverDrops(versions: seq<Contract>) {
    forall i, j :: 0 <= i < j < |versions| ==> versions[i].fields.Keys <= versions[j].fields.Keys
  }

  /** If no version drops a field, under either compatibility mode, a record is classified valid exactly when the
      current version validates it. */
  lemma CurrentDecides(lib: Library, versions: seq<Contract>, record: Json, c: Classification)
    requires versions != [] && ChainOk(versions) && NeverDrops(versions)
    requires IsClassification(lib, versions, record, c)
    ensures c.valid <==> Valid(lib, versions[|versions| - 1], record)
  {
    hide Valid, ChainOk, AllPairsOk, NeverDrops, Convex, Known;
    var last := |versions| - 1;
    NeverDropsIsConvex(versions);
    ConvexModesAgree(versions);
    if record.Obj? {
      LastKnowsAll(versions);
      SearchCollapses(lib, versions, record, last);
    } else {
      NotAnObjectIsInvalid(lib, versions[last], record);
    }
  }

  lemma NeverDropsIsConvex(versions: seq<Contract>)
    requires NeverDrops(versions)
    ensures Convex(versions)
  {
  }

  lemma LastKnowsAll(versions: seq<Contract>)
    requires versions != [] && NeverDrops(versions)
    ensures forall n :: Known(versions, n) ==> n in versions[|versions| - 1].fields
  {
    forall n | Known(versions, n) ensures n in versions[|versions| - 1].fields {
      var i :| 0 <= i < |versions| && n in versions[i].fields;
      assert n in versions[i].fields.Keys;
    }
  }

  lemma NotAnObjectIsInvalid(lib: Library, c: Contract, record: Json)
    requires !record.Obj?
    ensures !Valid(lib, c, record)
  {
    assert Violates(lib, c, record, NotAnObject);
  }

  /** A field no version knew before the promotion. */
  ghost predicate Introduces(versions: seq<Contract>, promoted: Contract, n: string) {
    n in promoted.fields && !Known(versions, n)
  }

  lemma PromotionKnows(versions: seq<Contract>, promoted: Contract, n: string)
    ensures Known(versions + [promoted], n) <==> Known(versions, n) || n in promoted.fields
  {
    var more := versions + [promoted];
    if Known(versions, n) {
      var i :| 0 <= i < |versions| && n in versions[i].fields;
      assert n in more[i].fields;
    }
    if n in promoted.fields { assert n in more[|versions|].fields; }
  }

  lemma PromotionCandidates(lib: Library, versions: seq<Contract>, promoted: Contract, record: Json, i: nat)
    requires record.Obj? && i < |versions|
    ensures Candidate(versions + [promoted], record, i) <==>
            Candidate(versions, record, i) && !exists n :: n in record.members && Introduces(versions, promoted, n)
  {
    hide Known;
    var more := versions + [promoted];
    forall n ensures Known(more, n) <==> Known(versions, n) || n in promoted.fields {
      PromotionKnows(versions, promoted, n);
    }
    assert forall n :: n in versions[i].fields ==> Known(versions, n) by { KnownFields(versions, i); }
    assert more[i] == versions[i];
  }

  lemma KnownFields(versions: seq<Contract>, i: nat)
    requires i < |versions|
    ensures forall n :: n in versions[i].fields ==> Known(versions, n)
  {
  }

  /** Promoting a new version keeps the verdict and the version stamp of a valid record exactly when the record carries
      no field the new version introduces. */
  lemma PromotionKeepsStamp(lib: Library, versions: seq<Contract>, promoted: Contract, record: Json,
                            before: Classification, after: Classification)
    requires versions != [] && DistinctVersions(versions + [promoted])
    requires IsClassification(lib, versions, record, before) && before.valid
    requires IsClassification(lib, versions + [promoted], record, after)
    ensures record.Obj?
    ensures after.valid && after.version == before.version <==>
            !exists n :: n in record.members && Introduces(versions, promoted, n)
  {
    hide Valid, Candidate, Introduces, Known;
    var more := versions + [promoted];
    var i :| FirstAccepting(lib, versions, record, i) && before.version == Some(versions[i].version);
    forall k | 0 <= k < |versions|
      ensures Accepts(lib, more, record, k) <==>
              Accepts(lib, versions, record, k) && !exists n :: n in record.members && Introduces(versions, promoted, n)
    {
      PromotionCandidates(lib, versions, promoted, record, k);
      assert more[k] == versions[k];
    }
    if exists n :: n in record.members && Introduces(versions, promoted, n) {
      if after.valid {
        var k :| FirstAccepting(lib, more, record, k) && after.version == Some(more[k].version);
        assert k == |versions|;
        assert more[i].version != more[k].version;
      }
    } else {
      assert FirstAccepting(lib, more, record, i);
      var k :| FirstAccepting(lib, more, record, k) && after.version == Some(more[k].version);
      assert k == i;
    }
  }
}
