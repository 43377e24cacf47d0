/** Data contracts: record validation and the syntactic compatibility check between two versions. */
module Contracts {
  import opened Basics
  import opened Decimals

  /** A decoded JSON value. */
  datatype Json =
    | Null
    | Bool(b: bool)
    | Int(n: int)
    | Num(x: real)
    | Str(s: string)
    | Obj(members: map<string, Json>)
    | Arr(items: seq<Json>)

  datatype JsonType = NullType | BooleanType | IntegerType | NumberType | StringType | ObjectType | ArrayType

  function TypeOf(v: Json): JsonType {
    match v
    case Null => NullType
    case Bool(_) => BooleanType
    case Int(_) => IntegerType
    case Num(_) => NumberType
    case Str(_) => StringType
    case Obj(_) => ObjectType
    case Arr(_) => ArrayType
  }

  /** What == compares: True, 1 and 1.0 are one value. */
  datatype Comparable = Number(x: real) | Other(v: Json)

  function ComparedAs(v: Json): Comparable {
    match v
    case Bool(b) => Number(if b then 1.0 else 0.0)
    case Int(n) => Number(n as real)
    case Num(x) => Number(x)
    case _ => Other(v)
  }

  datatype Format = Uuid | DateTime | Email

  /** The library calls validation makes: re.search, the three format checks and decimal.Decimal (None when the text
      is not a finite number). */
  datatype Library = Library(search: (string, string) -> bool, matches: (Format, string) -> bool,
                             parse: string -> Option<Decimal>)

  datatype PiiHandling = Keep | Hash | Drop

  datatype FieldSpec = FieldSpec(types: set<JsonType>, enum: Option<seq<Json>>, pattern: Option<string>,
                                 format: Option<Format>, minLength: Option<int>, maxLength: Option<int>,
                                 decimal: Option<(int, int)>, pii: PiiHandling)

  datatype Contract = Contract(version: int, current: bool, transitive: bool, primaryKey: seq<string>, table: string,
                               topic: string, required: seq<string>, names: seq<string>, fields: map<string, FieldSpec>)

  /** `names` lists the keys of the fields dict in its order. */
  ghost predicate Listed(c: Contract) {
    forall n :: n in c.names <==> n in c.fields
  }

  datatype Rule = NotNull | OfType | InEnum | MatchesPattern | MatchesFormat | LongEnough | ShortEnough | FitsColumn

  datatype Violation =
    | NotAnObject
    | Missing(name: string)
    | Broken(name: string, rule: Rule)

  function Widened(types: set<JsonType>): set<JsonType> {
    types + if NumberType in types then {IntegerType} else {}
  }

  function EnumValues(values: seq<Json>): set<Comparable> {
    set v | v in values :: ComparedAs(v)
  }

  // ------------------------------------------------------------------ validation

  /** What each rule forbids. The later rules are only looked at when the value has an allowed, non-null type. */
  predicate Breaks(lib: Library, spec: FieldSpec, v: Json, rule: Rule) {
    match rule
    case NotNull => v.Null? && NullType !in spec.types
    case OfType => !v.Null? && TypeOf(v) !in Widened(spec.types)
    case InEnum => Typed(spec, v) && spec.enum.Some? && ComparedAs(v) !in EnumValues(spec.enum.value)
    case MatchesPattern => Typed(spec, v) && v.Str? && spec.pattern.Some? && !lib.search(spec.pattern.value, v.s)
    case MatchesFormat => Typed(spec, v) && v.Str? && spec.format.Some? && !lib.matches(spec.format.value, v.s)
    case LongEnough => Typed(spec, v) && v.Str? && spec.minLength.Some? && |v.s| < spec.minLength.value
    case ShortEnough => Typed(spec, v) && v.Str? && spec.maxLength.Some? && |v.s| > spec.maxLength.value
    case FitsColumn => Typed(spec, v) && v.Str? && spec.decimal.Some? && !FitsText(lib, v.s, spec.decimal.value)
  }

  predicate Typed(spec: FieldSpec, v: Json) {
    !v.Null? && TypeOf(v) in Widened(spec.types)
  }

  predicate FitsText(lib: Library, text: string, column: (int, int)) {
    lib.parse(text).Some? && FitsDecimal(lib.parse(text).value, column.0, column.1)
  }

  ghost predicate FieldOk(lib: Library, spec: FieldSpec, v: Json) {
    forall rule :: !Breaks(lib, spec, v, rule)
  }

  predicate Violates(lib: Library, c: Contract, record: Json, v: Violation) {
    match v
    case NotAnObject => !record.Obj?
    case Missing(name) => record.Obj? && name in c.required && name !in record.members
    case Broken(name, rule) =>
      record.Obj? && name in c.fields && name in record.members &&
      Breaks(lib, c.fields[name], record.members[name], rule)
  }

  ghost predicate Valid(lib: Library, c: Contract, record: Json) {
    forall v :: !Violates(lib, c, record, v)
  }

  /** if c: out.append(x) */
  function AppendIf<T(!new)>(out: seq<T>, c: bool, x: T): (r: seq<T>)
    ensures forall y :: y in r <==> y in out || (c && y == x)
    ensures r == [] <==> out == [] && !c
  {
    if c then out + [x] else out
  }

  function Named(name: string, rules: seq<Rule>): (r: seq<Violation>)
    ensures forall v :: v in r <==> v.Broken? && v.name == name && v.rule in rules
  {
    if rules == [] then []
    else
      var n := |rules| - 1;
      assert rules == rules[..n] + [rules[n]];
      Named(name, rules[..n]) + [Broken(name, rules[n])]
  }

  method CheckValue(lib: Library, spec: FieldSpec, value: Json) returns (out: seq<Rule>)
    ensures forall rule :: rule in out <==> Breaks(lib, spec, value, rule)
    ensures out == [] <==> FieldOk(lib, spec, value)
  {
    hide AppendIf;
    out := [];
    if value.Null? {
      out := AppendIf(out, NullType !in spec.types, NotNull);
    } else {
      var allowed := spec.types;
      if NumberType in allowed { allowed := allowed + {IntegerType}; }
      if TypeOf(value) !in allowed {
        out := [OfType];
      } else {
        out := AppendIf(out, spec.enum.Some? && ComparedAs(value) !in EnumValues(spec.enum.value), InEnum);
        if value.Str? {
          var more := CheckText(lib, spec, value.s);
          out := out + more;
        }
      }
    }
    assert out != [] ==> out[0] in out;
  }

  method CheckText(lib: Library, spec: FieldSpec, s: string) returns (out: seq<Rule>)
    requires StringType in spec.types
    ensures forall rule :: rule in out <==> rule != InEnum && Breaks(lib, spec, Str(s), rule)
  {
    hide AppendIf;
    out := [];
    out := AppendIf(out, spec.pattern.Some? && !lib.search(spec.pattern.value, s), MatchesPattern);
    out := AppendIf(out, spec.format.Some? && !lib.matches(spec.format.value, s), MatchesFormat);
    out := AppendIf(out, spec.minLength.Some? && |s| < spec.minLength.value, LongEnough);
    out := AppendIf(out, spec.maxLength.Some? && |s| > spec.maxLength.value, ShortEnough);
    out := AppendIf(out, spec.decimal.Some? && !FitsText(lib, s, spec.decimal.value), FitsColumn);
  }

  /** The violations of a record, exactly: none is missed and none is made up. */
  method Validate(lib: Library, c: Contract, record: Json) returns (out: seq<Violation>)
    requires Listed(c)
    ensures forall v :: v in out <==> Violates(lib, c, record, v)
    ensures out == [] <==> Valid(lib, c, record)
  {
    if !record.Obj? {
      out := [NotAnObject];
      assert NotAnObject in out;
      return;
    }
    out := [];
    var i := 0;
    while i < |c.required|
      invariant 0 <= i <= |c.required|
      invariant forall v :: v in out <==> v.Missing? && v.name in c.required[..i] && v.name !in record.members
    {
      if c.required[i] !in record.members { out := out + [Missing(c.required[i])]; }
      i := i + 1;
    }
    var j := 0;
    while j < |c.names|
      invariant 0 <= j <= |c.names|
      invariant forall v :: v in out <==> Violates(lib, c, record, v) && (v.Broken? ==> v.name in c.names[..j])
    {
      var name := c.names[j];
      if name in record.members {
        var broken := CheckValue(lib, c.fields[name], record.members[name]);
        out := out + Named(name, broken);
      }
      j := j + 1;
    }
    assert out != [] ==> out[0] in out;
  }

  // --------------------------------------------------------------- compatibility

  datatype Narrowing =
    | TypeNarrowed
    | EnumNarrowed
    | PatternChanged
    | FormatChanged
    | MaxLengthReduced
    | MinLengthIncreased
    | DecimalNarrowed
    | DecimalAddedOrRemoved
    | PiiChanged

  datatype Problem =
    | KeyChanged
    | SourceChanged
    | BecameRequired(name: string)
    | Field(name: string, change: Narrowing)

  predicate Narrows(was: FieldSpec, now: FieldSpec, change: Narrowing) {
    match change
    case TypeNarrowed => !(was.types <= Widened(now.types))
    case EnumNarrowed =>
      now.enum.Some? && (was.enum.None? || !(EnumValues(was.enum.value) <= EnumValues(now.enum.value)))
    case PatternChanged => now.pattern.Some? && now.pattern != was.pattern
    case FormatChanged => now.format.Some? && now.format != was.format
    case MaxLengthReduced => now.maxLength.Some? && (was.maxLength.None? || now.maxLength.value < was.maxLength.value)
    case MinLengthIncreased => now.minLength.Some? && (was.minLength.None? || now.minLength.value > was.minLength.value)
    case DecimalNarrowed =>
      was.decimal.Some? && now.decimal.Some? &&
      (now.decimal.value.1 != was.decimal.value.1 || now.decimal.value.0 < was.decimal.value.0)
    case DecimalAddedOrRemoved => was.decimal.Some? != now.decimal.Some?
    case PiiChanged => was.pii != now.pii
  }

  ghost predicate FieldCompatible(was: FieldSpec, now: FieldSpec) {
    forall change :: !Narrows(was, now, change)
  }

  /** Why the newer version cannot be trusted to read what the other one accepted. */
  predicate IsProblem(was: Contract, now: Contract, p: Problem) {
    match p
    case KeyChanged => was.primaryKey != now.primaryKey
    case SourceChanged => was.table != now.table || was.topic != now.topic
    case BecameRequired(n) => n in now.required && n !in was.required
    case Field(n, change) => n in now.fields && n in was.fields && Narrows(was.fields[n], now.fields[n], change)
  }

  ghost predicate Compatible(was: Contract, now: Contract) {
    forall p :: !IsProblem(was, now, p)
  }

  predicate IsShape(change: Narrowing) {
    change.TypeNarrowed? || change.EnumNarrowed? || change.PatternChanged? || change.FormatChanged?
  }

  method CompareFields(was: FieldSpec, now: FieldSpec) returns (changes: seq<Narrowing>)
    ensures forall c :: c in changes <==> Narrows(was, now, c)
  {
    var shapes := CompareShapes(was, now);
    var bounds := CompareBounds(was, now);
    changes := shapes + bounds;
  }

  method CompareShapes(was: FieldSpec, now: FieldSpec) returns (changes: seq<Narrowing>)
    ensures forall c :: c in changes <==> IsShape(c) && Narrows(was, now, c)
  {
    hide AppendIf;
    changes := [];
    var widened := now.types;
    if NumberType in widened { widened := widened + {IntegerType}; }
    changes := AppendIf(changes, !(was.types <= widened), TypeNarrowed);
    changes := AppendIf(changes, now.enum.Some? && (was.enum.None? ||
                                   !(EnumValues(was.enum.value) <= EnumValues(now.enum.value))), EnumNarrowed);
    changes := AppendIf(changes, now.pattern.Some? && now.pattern != was.pattern, PatternChanged);
    changes := AppendIf(changes, now.format.Some? && now.format != was.format, FormatChanged);
  }

  method CompareBounds(was: FieldSpec, now: FieldSpec) returns (changes: seq<Narrowing>)
    ensures forall c :: c in changes <==> !IsShape(c) && Narrows(was, now, c)
  {
    hide AppendIf;
    changes := [];
    changes := AppendIf(changes, now.maxLength.Some? && (was.maxLength.None? ||
                                   now.maxLength.value < was.maxLength.value), MaxLengthReduced);
    changes := AppendIf(changes, now.minLength.Some? && (was.minLength.None? ||
                                   now.minLength.value > was.minLength.value), MinLengthIncreased);
    if was.decimal.Some? && now.decimal.Some? {
      changes := AppendIf(changes, now.decimal.value.1 != was.decimal.value.1 ||
                                   now.decimal.value.0 < was.decimal.value.0, DecimalNarrowed);
    } else {
      changes := AppendIf(changes, was.decimal.Some? != now.decimal.Some?, DecimalAddedOrRemoved);
    }
    changes := AppendIf(changes, was.pii != now.pii, PiiChanged);
  }

  function OfField(name: string, changes: seq<Narrowing>): (r: seq<Problem>)
    ensures forall p :: p in r <==> p.Field? && p.name == name && p.change in changes
  {
    if changes == [] then []
    else
      var n := |changes| - 1;
      assert changes == changes[..n] + [changes[n]];
      OfField(name, changes[..n]) + [Field(name, changes[n])]
  }

  /** The problems, exactly; an empty list means compatible. */
  method CheckBackwardCompatible(was: Contract, now: Contract) returns (problems: seq<Problem>)
    requires Listed(now)
    ensures forall p :: p in problems <==> IsProblem(was, now, p)
    ensures problems == [] <==> Compatible(was, now)
  {
    problems := [];
    if was.primaryKey != now.primaryKey { problems := problems + [KeyChanged]; }
    if was.table != now.table || was.topic != now.topic { problems := problems + [SourceChanged]; }
    var i := 0;
    while i < |now.required|
      invariant 0 <= i <= |now.required|
      invariant forall p :: p in problems <==>
        IsProblem(was, now, p) && !p.Field? && (p.BecameRequired? ==> p.name in now.required[..i])
    {
      if now.required[i] !in was.required { problems := problems + [BecameRequired(now.required[i])]; }
      i := i + 1;
    }
    var j := 0;
    while j < |now.names|
      invariant 0 <= j <= |now.names|
      invariant forall p :: p in problems <==> IsProblem(was, now, p) && (p.Field? ==> p.name in now.names[..j])
    {
      var name := now.names[j];
      if name in was.fields {
        var changes := CompareFields(was.fields[name], now.fields[name]);
        problems := problems + OfField(name, changes);
      }
      j := j + 1;
    }
    assert problems != [] ==> problems[0] in problems;
  }

  // ------------------------------------------------------- what compatibility means

  /** A value the older field accepts is accepted by every compatible newer one. */
  lemma FieldWidens(lib: Library, was: FieldSpec, now: FieldSpec, v: Json)
    requires FieldCompatible(was, now) && FieldOk(lib, was, v)
    ensures FieldOk(lib, now, v)
  {
    assert forall change :: !Narrows(was, now, change);
    forall rule ensures !Breaks(lib, now, v, rule) {
      assert !Breaks(lib, was, v, rule);
      assert !Breaks(lib, was, v, OfType) && !Breaks(lib, was, v, NotNull);
      assert !Narrows(was, now, TypeNarrowed);
      match rule
      case NotNull =>
      case OfType =>
      case InEnum => assert !Narrows(was, now, EnumNarrowed);
      case MatchesPattern => assert !Narrows(was, now, PatternChanged);
      case MatchesFormat => assert !Narrows(was, now, FormatChanged);
      case LongEnough => assert !Narrows(was, now, MinLengthIncreased);
      case ShortEnough => assert !Narrows(was, now, MaxLengthReduced);
      case FitsColumn =>
        assert !Narrows(was, now, DecimalNarrowed) && !Narrows(was, now, DecimalAddedOrRemoved);
    }
  }

  lemma SharedFieldsCompatible(was: Contract, now: Contract, name: string)
    requires Compatible(was, now) && name in was.fields && name in now.fields
    ensures FieldCompatible(was.fields[name], now.fields[name])
  {
    forall change ensures !Narrows(was.fields[name], now.fields[name], change) {
      assert !IsProblem(was, now, Field(name, change));
    }
  }

  lemma ValidField(lib: Library, c: Contract, record: Json, name: string)
    requires Valid(lib, c, record) && record.Obj? && name in c.fields && name in record.members
    ensures FieldOk(lib, c.fields[name], record.members[name])
  {
    forall rule ensures !Breaks(lib, c.fields[name], record.members[name], rule) {
      assert !Violates(lib, c, record, Broken(name, rule));
    }
  }

  /** Soundness of the syntactic check, with its exact side condition: a record the old version accepts is accepted by
      a compatible new one if and only if it fits the fields the new version introduces, where it carries them. */
  lemma CompatibilityIsSound(lib: Library, was: Contract, now: Contract, record: Json)
    requires Compatible(was, now) && Valid(lib, was, record)
    ensures record.Obj?
    ensures Valid(lib, now, record) <==>
            forall name :: name in now.fields && name !in was.fields && name in record.members ==>
              FieldOk(lib, now.fields[name], record.members[name])
  {
    assert !Violates(lib, was, record, NotAnObject);
    if forall name :: name in now.fields && name !in was.fields && name in record.members ==>
         FieldOk(lib, now.fields[name], record.members[name])
    {
      forall v ensures !Violates(lib, now, record, v) {
        match v
        case NotAnObject =>
        case Missing(name) =>
          assert !IsProblem(was, now, BecameRequired(name)) && !Violates(lib, was, record, v);
        case Broken(name, rule) =>
          if name in now.fields && name in was.fields && name in record.members {
            ValidField(lib, was, record, name);
            SharedFieldsCompatible(was, now, name);
            FieldWidens(lib, was.fields[name], now.fields[name], record.members[name]);
          }
      }
    }
    if Valid(lib, now, record) {
      forall name | name in now.fields && name !in was.fields && name in record.members
        ensures FieldOk(lib, now.fields[name], record.members[name])
      {
        ValidField(lib, now, record, name);
      }
    }
  }

  const TEXT := FieldSpec({StringType}, None, None, None, None, None, None, Keep)
  const WHOLE := FieldSpec({IntegerType}, None, None, None, None, None, None, Keep)

  /** The side condition is needed: an undeclared field is tolerated by v1 and breaks the v2 that declares it. */
  lemma DriftBreaksCompatibility(lib: Library)
    ensures var v1 := Contract(1, false, false, ["id"], "shop.orders", "orders", ["id"], ["id"], map["id" := TEXT]);
            var v2 := Contract(2, true, false, ["id"], "shop.orders", "orders", ["id"], ["id", "qty"],
                               map["id" := TEXT, "qty" := WHOLE]);
            var record := Obj(map["id" := Str("o1"), "qty" := Str("two")]);
            Compatible(v1, v2) && Valid(lib, v1, record) && !Valid(lib, v2, record)
  {
    var v1 := Contract(1, false, false, ["id"], "shop.orders", "orders", ["id"], ["id"], map["id" := TEXT]);
    var v2 := Contract(2, true, false, ["id"], "shop.orders", "orders", ["id"], ["id", "qty"],
                       map["id" := TEXT, "qty" := WHOLE]);
    var record := Obj(map["id" := Str("o1"), "qty" := Str("two")]);
    forall p ensures !IsProblem(v1, v2, p) {
    }
    forall v ensures !Violates(lib, v1, record, v) {
    }
    assert Violates(lib, v2, record, Broken("qty", OfType));
  }

  /** Field by field, compatibility composes. */
  lemma FieldTransitive(a: FieldSpec, b: FieldSpec, c: FieldSpec)
    requires FieldCompatible(a, b) && FieldCompatible(b, c)
    ensures FieldCompatible(a, c)
  {
    forall change ensures !Narrows(a, c, change) {
      assert !Narrows(a, b, change) && !Narrows(b, c, change);
      assert !Narrows(a, b, DecimalAddedOrRemoved) && !Narrows(b, c, DecimalAddedOrRemoved);
    }
  }

  /** Across three versions it composes exactly when the fields the middle one lacks are compatible end to end. */
  lemma CompatibleTransitive(a: Contract, b: Contract, c: Contract)
    requires Compatible(a, b) && Compatible(b, c)
    ensures Compatible(a, c) <==>
            forall n :: n in a.fields && n in c.fields && n !in b.fields ==> FieldCompatible(a.fields[n], c.fields[n])
  {
    if forall n :: n in a.fields && n in c.fields && n !in b.fields ==> FieldCompatible(a.fields[n], c.fields[n]) {
      forall p ensures !IsProblem(a, c, p) {
        assert !IsProblem(a, b, p) && !IsProblem(b, c, p);
        if p.Field? && p.name in a.fields && p.name in c.fields {
          if p.name in b.fields {
            SharedFieldsCompatible(a, b, p.name);
            SharedFieldsCompatible(b, c, p.name);
            FieldTransitive(a.fields[p.name], b.fields[p.name], c.fields[p.name]);
          }
          assert FieldCompatible(a.fields[p.name], c.fields[p.name]);
        }
      }
    }
    if Compatible(a, c) {
      forall n | n in a.fields && n in c.fields && n !in b.fields ensures FieldCompatible(a.fields[n], c.fields[n]) {
        SharedFieldsCompatible(a, c, n);
      }
    }
  }
}
