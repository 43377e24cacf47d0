/** What the field rules and the compatibility check mean for JSON values. */
module ContractMeaning {
  import opened Basics
  import opened Decimals
  import opened Contracts

  /** Which values a list of types lets through: a whole number passes for `number`, and nothing else crosses over. */
  predicate Admits(types: set<JsonType>, v: Json) {
    match v
    case Null => NullType in types
    case Bool(_) => BooleanType in types
    case Int(_) => IntegerType in types || NumberType in types
    case Num(_) => NumberType in types
    case Str(_) => StringType in types
    case Obj(_) => ObjectType in types
    case Arr(_) => ArrayType in types
  }

  /** Equality as the enum test sees it: true, 1 and 1.0 are one value, and so are false, 0 and 0.0. */
  predicate SameValue(a: Json, b: Json) {
    match (a, b)
    case (Bool(p), Int(n)) => n == if p then 1 else 0
    case (Int(n), Bool(p)) => n == if p then 1 else 0
    case (Bool(p), Num(x)) => x == if p then 1.0 else 0.0
    case (Num(x), Bool(p)) => x == if p then 1.0 else 0.0
    case (Int(n), Num(x)) => x == n as real
    case (Num(x), Int(n)) => x == n as real
    case _ => a == b
  }

  /** No enum lets everything through. */
  predicate Among(values: Option<seq<Json>>, v: Json) {
    values.Some? ==> exists i :: 0 <= i < |values.value| && SameValue(v, values.value[i])
  }

  /** The rules for strings. */
  predicate AcceptsText(lib: Library, spec: FieldSpec, s: string) {
    && (spec.pattern.Some? ==> lib.search(spec.pattern.value, s))
    && (spec.format.Some? ==> lib.matches(spec.format.value, s))
    && (spec.minLength.Some? ==> spec.minLength.value <= |s|)
    && (spec.maxLength.Some? ==> |s| <= spec.maxLength.value)
    && (spec.decimal.Some? ==>
          var (precision, scale) := spec.decimal.value;
          lib.parse(s).Some? && FitsDecimal(lib.parse(s).value, precision, scale))
  }

  /** What a field accepts: null where it is allowed, and otherwise a value of its type, among its enum, whose text
      keeps the text rules. */
  predicate Accepts(lib: Library, spec: FieldSpec, v: Json) {
    && Admits(spec.types, v)
    && (!v.Null? ==> Among(spec.enum, v))
    && (v.Str? ==> AcceptsText(lib, spec, v.s))
  }

  /** What a contract accepts: an object with every required field, whose declared fields are all accepted. */
  ghost predicate AcceptsRecord(lib: Library, c: Contract, record: Json) {
    && record.Obj?
    && (forall name :: name in c.required ==> name in record.members)
    && (forall name :: name in c.fields && name in record.members ==>
          Accepts(lib, c.fields[name], record.members[name]))
  }

  lemma ComparedIsSame(a: Json, b: Json)
    ensures ComparedAs(a) == ComparedAs(b) <==> SameValue(a, b)
  {
  }

  lemma AmongIsEnum(values: seq<Json>, v: Json)
    ensures ComparedAs(v) in EnumValues(values) <==> Among(Some(values), v)
  {
    hide ComparedAs, SameValue;
    if ComparedAs(v) in EnumValues(values) {
      var w :| w in values && ComparedAs(w) == ComparedAs(v);
      var i :| 0 <= i < |values| && values[i] == w;
      ComparedIsSame(v, values[i]);
    }
    if i :| 0 <= i < |values| && SameValue(v, values[i]) {
      ComparedIsSame(v, values[i]);
      assert values[i] in values;
    }
  }

  /** The type rules, on constructors and types alone. */
  lemma TypeRules(lib: Library, spec: FieldSpec, v: Json)
    ensures Breaks(lib, spec, v, NotNull) <==> v.Null? && !Admits(spec.types, v)
    ensures Breaks(lib, spec, v, OfType) <==> !v.Null? && !Admits(spec.types, v)
    ensures Typed(spec, v) <==> !v.Null? && Admits(spec.types, v)
  {
  }

  lemma EnumRule(lib: Library, spec: FieldSpec, v: Json)
    ensures Breaks(lib, spec, v, InEnum) <==> !v.Null? && Admits(spec.types, v) && !Among(spec.enum, v)
  {
    hide ComparedAs, SameValue, EnumValues, Admits;
    TypeRules(lib, spec, v);
    if spec.enum.Some? { AmongIsEnum(spec.enum.value, v); }
  }

  lemma TextRules(lib: Library, spec: FieldSpec, s: string)
    requires Typed(spec, Str(s))
    ensures AcceptsText(lib, spec, s) <==> forall rule :: rule !in {NotNull, OfType, InEnum} ==>
                                             !Breaks(lib, spec, Str(s), rule)
  {
    hide FitsDecimal, Typed;
    if AcceptsText(lib, spec, s) {
    } else {
      assert Breaks(lib, spec, Str(s), MatchesPattern) || Breaks(lib, spec, Str(s), MatchesFormat) ||
             Breaks(lib, spec, Str(s), LongEnough) || Breaks(lib, spec, Str(s), ShortEnough) ||
             Breaks(lib, spec, Str(s), FitsColumn);
    }
  }

  lemma NoTextRules(lib: Library, spec: FieldSpec, v: Json, rule: Rule)
    requires rule !in {NotNull, OfType, InEnum} && Breaks(lib, spec, v, rule)
    ensures Typed(spec, v) && v.Str?
  {
  }

  /** A field breaks no rule exactly when it accepts the value. */
  lemma FieldOkMeans(lib: Library, spec: FieldSpec, v: Json)
    ensures FieldOk(lib, spec, v) <==> Accepts(lib, spec, v)
  {
    hide Breaks, Admits, Among, AcceptsText, Typed;
    TypeRules(lib, spec, v);
    EnumRule(lib, spec, v);
    if v.Str? && Typed(spec, v) { TextRules(lib, spec, v.s); }
    if FieldOk(lib, spec, v) {
      assert !Breaks(lib, spec, v, NotNull) && !Breaks(lib, spec, v, OfType) && !Breaks(lib, spec, v, InEnum);
    }
    if Accepts(lib, spec, v) {
      forall rule ensures !Breaks(lib, spec, v, rule) {
        if rule !in {NotNull, OfType, InEnum} && Breaks(lib, spec, v, rule) { NoTextRules(lib, spec, v, rule); }
      }
    }
  }

  /** A record has no violation exactly when the contract accepts it. */
  lemma ValidMeans(lib: Library, c: Contract, record: Json)
    ensures Valid(lib, c, record) <==> AcceptsRecord(lib, c, record)
  {
    hide Breaks, Accepts, FieldOk;
    if Valid(lib, c, record) {
      assert !Violates(lib, c, record, NotAnObject);
      forall name | name in c.required ensures name in record.members {
        assert !Violates(lib, c, record, Missing(name));
      }
      forall name | name in c.fields && name in record.members
        ensures Accepts(lib, c.fields[name], record.members[name])
      {
        ValidField(lib, c, record, name);
        FieldOkMeans(lib, c.fields[name], record.members[name]);
      }
    }
    if AcceptsRecord(lib, c, record) {
      forall v ensures !Violates(lib, c, record, v) {
        if v.Broken? && v.name in c.fields && v.name in record.members {
          FieldOkMeans(lib, c.fields[v.name], record.members[v.name]);
          NoneBroken(lib, c.fields[v.name], record.members[v.name], v.rule);
        }
      }
    }
  }

  lemma NoneBroken(lib: Library, spec: FieldSpec, v: Json, rule: Rule)
    requires FieldOk(lib, spec, v)
    ensures !Breaks(lib, spec, v, rule)
  {
  }

  // ------------------------------------------------------------- what is a narrowing

  function ValueOf(t: JsonType): Json {
    match t
    case NullType => Null
    case BooleanType => Bool(true)
    case IntegerType => Int(0)
    case NumberType => Num(0.5)
    case StringType => Str("")
    case ObjectType => Obj(map[])
    case ArrayType => Arr([])
  }

  /** Types are narrowed exactly when some value of the older version is lost. */
  lemma TypesNarrowed(was: FieldSpec, now: FieldSpec)
    ensures Narrows(was, now, TypeNarrowed) <==> exists v :: Admits(was.types, v) && !Admits(now.types, v)
  {
    if t :| t in was.types && t !in Widened(now.types) {
      assert Admits(was.types, ValueOf(t)) && !Admits(now.types, ValueOf(t));
    }
    if v :| Admits(was.types, v) && !Admits(now.types, v) {
      assert !(was.types <= Widened(now.types)) by {
        if v.Int? {
          assert IntegerType !in Widened(now.types) && NumberType !in Widened(now.types);
        } else {
          assert TypeOf(v) in was.types && TypeOf(v) !in Widened(now.types);
        }
      }
    }
  }

  /** A finite list of values leaves some whole number out. */
  lemma {:induction false} Unlisted(values: seq<Json>) returns (n: int)
    ensures forall m :: m >= n ==> !Among(Some(values), Int(m))
  {
    n := 2;
    if values != [] {
      var k := |values| - 1;
      n := Unlisted(values[..k]);
      match values[k] {
        case Bool(_) => if n < 2 { n := 2; }
        case Int(i) => if n <= i { n := i + 1; }
        case Num(x) => if n as real <= x { n := x.Floor + 1; }
        case _ =>
      }
      forall m | m >= n ensures !Among(Some(values), Int(m)) {
        assert !SameValue(Int(m), values[k]);
        assert !Among(Some(values[..k]), Int(m));
        forall i | 0 <= i < |values| ensures !SameValue(Int(m), values[i]) {
          if i < k { assert values[i] == values[..k][i]; }
        }
      }
    }
  }

  /** Enums are narrowed exactly when some value of the older version is lost. */
  lemma EnumsNarrowed(was: FieldSpec, now: FieldSpec)
    ensures Narrows(was, now, EnumNarrowed) <==> exists v :: Among(was.enum, v) && !Among(now.enum, v)
  {
    hide ComparedAs, SameValue, Among;
    if now.enum.None? {
      forall v ensures Among(now.enum, v) { NoEnum(v); }
    } else if was.enum.None? {
      var n := Unlisted(now.enum.value);
      NoEnum(Int(n));
      assert Among(was.enum, Int(n)) && !Among(now.enum, Int(n));
    } else {
      forall v ensures Among(was.enum, v) <==> ComparedAs(v) in EnumValues(was.enum.value) {
        AmongIsEnum(was.enum.value, v);
      }
      forall v ensures Among(now.enum, v) <==> ComparedAs(v) in EnumValues(now.enum.value) {
        AmongIsEnum(now.enum.value, v);
      }
      if c :| c in EnumValues(was.enum.value) && c !in EnumValues(now.enum.value) {
        var w :| w in was.enum.value && ComparedAs(w) == c;
        assert Among(was.enum, w) && !Among(now.enum, w);
      }
    }
  }

  lemma NoEnum(v: Json)
    ensures Among(None, v)
  {
  }

  predicate LengthOk(least: Option<int>, most: Option<int>, n: nat) {
    (least.Some? ==> least.value <= n) && (most.Some? ==> n <= most.value)
  }

  /** Length bounds lose a length exactly when they are flagged, a lower bound below one aside: that one excludes
      nothing. */
  lemma LengthsNarrowed(was: FieldSpec, now: FieldSpec)
    requires now.maxLength.Some? ==> now.maxLength.value >= 0
    ensures Narrows(was, now, MaxLengthReduced) <==>
            exists n :: LengthOk(None, was.maxLength, n) && !LengthOk(None, now.maxLength, n)
    ensures Narrows(was, now, MinLengthIncreased) && now.minLength.value > 0 <==>
            exists n :: LengthOk(was.minLength, None, n) && !LengthOk(now.minLength, None, n)
  {
    if Narrows(was, now, MaxLengthReduced) {
      assert LengthOk(None, was.maxLength, now.maxLength.value + 1) &&
             !LengthOk(None, now.maxLength, now.maxLength.value + 1);
    }
    if Narrows(was, now, MinLengthIncreased) && now.minLength.value > 0 {
      assert LengthOk(was.minLength, None, now.minLength.value - 1) &&
             !LengthOk(now.minLength, None, now.minLength.value - 1);
    }
  }

  lemma OneDigit(n: nat)
    requires n < 10
    ensures Digits(n) == 1
  {
  }

  /** A number with a given number of digits. */
  lemma {:induction false} WithDigits(k: nat) returns (n: nat)
    requires k >= 1
    ensures n > 0 && Digits(n) == k
  {
    if k == 1 {
      n := 1;
    } else {
      var m := WithDigits(k - 1);
      n := m * 10;
      assert n / 10 == m;
    }
  }

  /** A changed decimal column loses a number exactly when it has fewer fraction or fewer integer places. Every such
      change is flagged; a larger scale that keeps the integer places is flagged too, and loses nothing. */
  lemma DecimalsNarrowed(was: FieldSpec, now: FieldSpec, p: nat, s: nat, p': nat, s': nat)
    requires was.decimal == Some((p, s)) && now.decimal == Some((p', s')) && s <= p && s' <= p'
    ensures (exists d :: FitsDecimal(d, p, s) && !FitsDecimal(d, p', s')) <==> s' < s || p' - s' < p - s
    ensures (exists d :: FitsDecimal(d, p, s) && !FitsDecimal(d, p', s')) ==> Narrows(was, now, DecimalNarrowed)
    ensures Narrows(was, now, DecimalNarrowed) <==> s' != s || p' - s' < p - s
  {
    if s' < s {
      OneDigit(1);
      assert FitsDecimal(Decimal(1, 0 - s), p, s) && !FitsDecimal(Decimal(1, 0 - s), p', s');
    } else if p' - s' < p - s {
      var n := WithDigits(p - s);
      assert FitsDecimal(Decimal(n, 0), p, s) && !FitsDecimal(Decimal(n, 0), p', s');
    }
  }

  /** A version that leaves the key, the source and the shared fields as they were, and requires nothing new, is
      compatible. */
  lemma UnchangedIsCompatible(was: Contract, now: Contract)
    requires was.primaryKey == now.primaryKey && was.table == now.table && was.topic == now.topic
    requires forall name :: name in now.required ==> name in was.required
    requires forall name :: name in was.fields && name in now.fields ==> was.fields[name] == now.fields[name]
    ensures Compatible(was, now)
  {
    forall p ensures !IsProblem(was, now, p) {
    }
  }

  /** Compatible versions agree on where records come from, on how rows are identified, and on how each shared field
      is masked and scaled. */
  lemma CompatibleAgree(was: Contract, now: Contract)
    requires Compatible(was, now)
    ensures was.primaryKey == now.primaryKey && was.table == now.table && was.topic == now.topic
    ensures forall name :: name in now.required ==> name in was.required
    ensures forall name :: name in was.fields && name in now.fields ==>
              && was.fields[name].pii == now.fields[name].pii
              && (was.fields[name].decimal.Some? <==> now.fields[name].decimal.Some?)
              && (was.fields[name].decimal.Some? ==>
                    was.fields[name].decimal.value.1 == now.fields[name].decimal.value.1)
  {
    assert !IsProblem(was, now, KeyChanged) && !IsProblem(was, now, SourceChanged);
    forall name | name in now.required ensures name in was.required {
      assert !IsProblem(was, now, BecameRequired(name));
    }
    forall name | name in was.fields && name in now.fields
      ensures !Narrows(was.fields[name], now.fields[name], PiiChanged)
      ensures !Narrows(was.fields[name], now.fields[name], DecimalAddedOrRemoved)
      ensures !Narrows(was.fields[name], now.fields[name], DecimalNarrowed)
    {
      SharedFieldsCompatible(was, now, name);
      assert FieldCompatible(was.fields[name], now.fields[name]);
    }
  }
}
