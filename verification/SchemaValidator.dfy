/**
 The report validator: a subset of JSON Schema (type unions, required,
 properties, minLength, minimum, items) that appends every violation it finds,
 with its location, to an error list.
 */
module SchemaValidator {
  import opened Prelude
  import opened Json

  /** Absent keywords are `None` or empty; `types` is the keyword as a list. */
  datatype Schema = Schema(
    types: Option<seq<string>>,
    minLength: Option<int>,
    minimum: Option<real>,
    required: seq<string>,
    properties: seq<(string, Schema)>,
    items: Option<Schema>)

  datatype Step = Key(name: string) | Index(i: nat)

  type Path = seq<Step>

  datatype SchemaError =
    | WrongType(path: Path)
    | TooShort(path: Path)
    | BelowMinimum(path: Path)
    | MissingField(path: Path, name: string)

  // ---------------------------------------------------------------------
  // Conformance
  // ---------------------------------------------------------------------

  /** Booleans are not numbers; a type name outside the subset accepts everything. */
  predicate HasType(v: Json, t: string) {
    match t
    case "object" => v.JObject?
    case "array" => v.JArray?
    case "string" => v.JString?
    case "number" => v.JInt? || v.JFloat?
    case "integer" => v.JInt?
    case "boolean" => v.JBool?
    case "null" => v.JNull?
    case _ => true
  }

  predicate TypeOk(v: Json, s: Schema) {
    s.types.Some? ==> exists t | t in s.types.value :: HasType(v, t)
  }

  function NumberOf(v: Json): real
    requires v.JInt? || v.JFloat?
  {
    if v.JInt? then v.int_value as real else v.float_value
  }

  predicate LongEnough(v: Json, s: Schema) {
    v.JString? && s.minLength.Some? ==> |v.text| >= s.minLength.value
  }

  predicate LargeEnough(v: Json, s: Schema) {
    (v.JInt? || v.JFloat?) && s.minimum.Some? ==> NumberOf(v) >= s.minimum.value
  }

  predicate Has(v: Json, key: string) {
    v.JObject? && exists i | 0 <= i < |v.members| :: v.members[i].0 == key
  }

  /** Where `key` is read from: its last occurrence. */
  function Position(members: seq<(string, Json)>, key: string): (i: nat)
    requires exists i | 0 <= i < |members| :: members[i].0 == key
    ensures i < |members| && members[i].0 == key
    ensures forall j | i < j < |members| :: members[j].0 != key
  {
    var last := |members| - 1;
    if members[last].0 == key then last
    else
      assert exists i | 0 <= i < last :: members[..last][i].0 == key by {
        var i :| 0 <= i < |members| && members[i].0 == key;
        assert members[..last][i].0 == key;
      }
      Position(members[..last], key)
  }

  function Member(v: Json, key: string): (m: Json)
    requires Has(v, key)
    ensures m < v
  {
    v.members[Position(v.members, key)].1
  }

  /** The type names that describe a document. */
  function NamesOf(v: Json): set<string> {
    match v
    case JNull => {"null"}
    case JBool(_) => {"boolean"}
    case JInt(_) => {"integer", "number"}
    case JFloat(_) => {"number"}
    case JString(_) => {"string"}
    case JArray(_) => {"array"}
    case JObject(_) => {"object"}
  }

  /** `m` is what a reader of the document sees under `key`: the last such member. */
  predicate ReadsAs(v: Json, key: string, m: Json) {
    v.JObject? && exists i | 0 <= i < |v.members| ::
      v.members[i] == (key, m) && forall j | i < j < |v.members| :: v.members[j].0 != key
  }

  /** What the keywords mean, at every depth; a type name outside the subset accepts everything. */
  ghost predicate Conforms(v: Json, s: Schema)
    decreases v
  {
    && (s.types.Some? ==>
          exists t | t in s.types.value ::
            t in NamesOf(v) || t !in {"object", "array", "string", "number", "integer", "boolean", "null"})
    && (v.JString? && s.minLength.Some? ==> s.minLength.value <= |v.text|)
    && (v.JInt? && s.minimum.Some? ==> s.minimum.value <= v.int_value as real)
    && (v.JFloat? && s.minimum.Some? ==> s.minimum.value <= v.float_value)
    && (v.JObject? ==>
          && (forall name | name in s.required :: exists i | 0 <= i < |v.members| :: v.members[i].0 == name)
          && (forall i, m | 0 <= i < |s.properties| && m < v && ReadsAs(v, s.properties[i].0, m) ::
                Conforms(m, s.properties[i].1)))
    && (v.JArray? && s.items.Some? ==>
          forall i | 0 <= i < |v.elements| :: Conforms(v.elements[i], s.items.value))
  }

  lemma TypesMean(v: Json, s: Schema)
    ensures TypeOk(v, s)
       <==> (s.types.Some? ==>
               exists t | t in s.types.value ::
                 t in NamesOf(v) || t !in {"object", "array", "string", "number", "integer", "boolean", "null"})
  {
    forall t ensures HasType(v, t)
      <==> t in NamesOf(v) || t !in {"object", "array", "string", "number", "integer", "boolean", "null"} {
    }
  }

  lemma MemberIsRead(v: Json, key: string, m: Json)
    ensures ReadsAs(v, key, m) <==> Has(v, key) && m == Member(v, key)
  {
    if Has(v, key) {
      var p := Position(v.members, key);
      assert v.members[p] == (key, Member(v, key));
    }
    if ReadsAs(v, key, m) {
      var i :| 0 <= i < |v.members| && v.members[i] == (key, m) && forall j | i < j < |v.members| :: v.members[j].0 != key;
      assert v.members[i].0 == key;
      assert Position(v.members, key) == i;
    }
  }

  /** Conformance by the checks the validator makes. */
  ghost predicate Passes(v: Json, s: Schema) {
    && TypeOk(v, s)
    && LongEnough(v, s)
    && LargeEnough(v, s)
    && (v.JObject? ==>
          && (forall name | name in s.required :: Has(v, name))
          && (forall i | 0 <= i < |s.properties| && Has(v, s.properties[i].0) ::
                Conforms(Member(v, s.properties[i].0), s.properties[i].1)))
    && (v.JArray? && s.items.Some? ==>
          forall i | 0 <= i < |v.elements| :: Conforms(v.elements[i], s.items.value))
  }

  lemma ConformsIffPasses(v: Json, s: Schema)
    ensures Conforms(v, s) <==> Passes(v, s)
  {
    hide HasType, NamesOf, TypeOk, ReadsAs, Member;
    TypesMean(v, s);
    forall key, m ensures ReadsAs(v, key, m) <==> Has(v, key) && m == Member(v, key) {
      MemberIsRead(v, key, m);
    }
  }

  // ---------------------------------------------------------------------
  // The errors, in the order they are appended
  // ---------------------------------------------------------------------

  function MissingErrors(v: Json, required: seq<string>, path: Path): seq<SchemaError>
    requires v.JObject?
  {
    if required == [] then []
    else
      (if Has(v, required[0]) then [] else [MissingField(path, required[0])])
      + MissingErrors(v, required[1..], path)
  }

  function PropertyErrors(v: Json, properties: seq<(string, Schema)>, path: Path): seq<SchemaError>
    requires v.JObject?
    decreases v, 0, |properties|
  {
    if properties == [] then []
    else
      var (key, subschema) := properties[0];
      (if Has(v, key) then Errors(Member(v, key), subschema, path + [Key(key)]) else [])
      + PropertyErrors(v, properties[1..], path)
  }

  function ItemErrors(v: Json, s: Schema, path: Path, from: nat): seq<SchemaError>
    requires v.JArray? && from <= |v.elements|
    decreases v, 0, |v.elements| - from
  {
    if from == |v.elements| then []
    else Errors(v.elements[from], s, path + [Index(from)]) + ItemErrors(v, s, path, from + 1)
  }

  /** The violations at this very location, past the type check. */
  function OwnErrors(v: Json, s: Schema, path: Path): seq<SchemaError> {
    (if LongEnough(v, s) then [] else [TooShort(path)])
    + (if LargeEnough(v, s) then [] else [BelowMinimum(path)])
    + (if v.JObject? then MissingErrors(v, s.required, path) else [])
  }

  function Errors(v: Json, s: Schema, path: Path): seq<SchemaError>
    decreases v, 1, 0
  {
    if !TypeOk(v, s) then [WrongType(path)]
    else
      OwnErrors(v, s, path)
      + (if v.JObject? then PropertyErrors(v, s.properties, path) else [])
      + (if v.JArray? && s.items.Some? then ItemErrors(v, s.items.value, path, 0) else [])
  }

  lemma {:induction false} MissingErrorsExact(v: Json, required: seq<string>, path: Path, e: SchemaError)
    requires v.JObject?
    ensures e in MissingErrors(v, required, path)
       <==> e.MissingField? && e.path == path && e.name in required && !Has(v, e.name)
  {
    if required != [] {
      MissingErrorsExact(v, required[1..], path, e);
      assert required == [required[0]] + required[1..];
    }
  }

  lemma {:induction false} NoMissingErrors(v: Json, required: seq<string>, path: Path)
    requires v.JObject?
    ensures MissingErrors(v, required, path) == [] <==> forall name | name in required :: Has(v, name)
  {
    if required != [] {
      NoMissingErrors(v, required[1..], path);
      assert required == [required[0]] + required[1..];
    }
  }

  lemma {:induction false} NoPropertyErrors(v: Json, properties: seq<(string, Schema)>, path: Path)
    requires v.JObject?
    ensures PropertyErrors(v, properties, path) == []
       <==> forall i | 0 <= i < |properties| && Has(v, properties[i].0) ::
              Conforms(Member(v, properties[i].0), properties[i].1)
    decreases v, 0, |properties|
  {
    if properties != [] {
      var (key, subschema) := properties[0];
      if Has(v, key) {
        NoErrorsIffConforms(Member(v, key), subschema, path + [Key(key)]);
      }
      NoPropertyErrors(v, properties[1..], path);
      assert forall i | 0 <= i < |properties| - 1 :: properties[1..][i] == properties[i + 1];
      assert properties == [properties[0]] + properties[1..];
    }
  }

  lemma {:induction false} NoItemErrors(v: Json, s: Schema, path: Path, from: nat)
    requires v.JArray? && from <= |v.elements|
    ensures ItemErrors(v, s, path, from) == [] <==> forall i | from <= i < |v.elements| :: Conforms(v.elements[i], s)
    decreases v, 0, |v.elements| - from
  {
    if from < |v.elements| {
      NoErrorsIffConforms(v.elements[from], s, path + [Index(from)]);
      NoItemErrors(v, s, path, from + 1);
    }
  }

  /** The validator is silent exactly on the conforming values. */
  lemma {:induction false} NoErrorsIffConforms(v: Json, s: Schema, path: Path)
    ensures Errors(v, s, path) == [] <==> Conforms(v, s)
    decreases v, 1, 0
  {
    hide Conforms, TypeOk, LongEnough, LargeEnough;
    ConformsIffPasses(v, s);
    if v.JObject? {
      NoMissingErrors(v, s.required, path);
      NoPropertyErrors(v, s.properties, path);
    }
    if v.JArray? && s.items.Some? {
      NoItemErrors(v, s.items.value, path, 0);
    }
  }

  // ---------------------------------------------------------------------
  // Every error is where it says, and none is missed
  // ---------------------------------------------------------------------

  /** Following `steps` through well-typed objects and arrays leads to `at` under schema `rule`. */
  ghost predicate LeadsTo(v: Json, s: Schema, steps: Path, at: Json, rule: Schema)
    decreases |steps|
  {
    if steps == [] then at == v && rule == s
    else
      TypeOk(v, s) &&
      match steps[0]
      case Key(name) =>
        && Has(v, name)
        && exists j | 0 <= j < |s.properties| ::
             s.properties[j].0 == name && LeadsTo(Member(v, name), s.properties[j].1, steps[1..], at, rule)
      case Index(i) =>
        && v.JArray? && i < |v.elements| && s.items.Some?
        && LeadsTo(v.elements[i], s.items.value, steps[1..], at, rule)
  }

  /** `e` is what is wrong with `at` itself. */
  ghost predicate IsDefect(at: Json, rule: Schema, e: SchemaError) {
    match e
    case WrongType(_) => !TypeOk(at, rule)
    case TooShort(_) => TypeOk(at, rule) && !LongEnough(at, rule)
    case BelowMinimum(_) => TypeOk(at, rule) && !LargeEnough(at, rule)
    case MissingField(_, name) => TypeOk(at, rule) && at.JObject? && name in rule.required && !Has(at, name)
  }

  /** A defect found at the end of `steps` and reported at `path + steps`. */
  ghost predicate Reports(v: Json, s: Schema, path: Path, steps: Path, at: Json, rule: Schema, e: SchemaError) {
    LeadsTo(v, s, steps, at, rule) && IsDefect(at, rule, e) && e.path == path + steps
  }

  ghost predicate HasDefect(v: Json, s: Schema, path: Path, e: SchemaError) {
    exists steps, at, rule :: Reports(v, s, path, steps, at, rule, e)
  }

  lemma OwnErrorsExact(v: Json, s: Schema, path: Path, e: SchemaError)
    requires TypeOk(v, s)
    ensures e in OwnErrors(v, s, path) <==> e.path == path && IsDefect(v, s, e)
  {
    if v.JObject? { MissingErrorsExact(v, s.required, path, e); }
  }

  /** The defect lies below member `key`. */
  ghost predicate DefectBelow(v: Json, properties: seq<(string, Schema)>, path: Path, e: SchemaError, j: int)
    requires 0 <= j < |properties|
  {
    Has(v, properties[j].0) && HasDefect(Member(v, properties[j].0), properties[j].1, path + [Key(properties[j].0)], e)
  }

  lemma {:induction false} PropertyErrorsExact(v: Json, properties: seq<(string, Schema)>, path: Path, e: SchemaError)
    requires v.JObject?
    ensures e in PropertyErrors(v, properties, path)
       <==> exists j | 0 <= j < |properties| :: DefectBelow(v, properties, path, e, j)
    decreases v, 0, |properties|
  {
    if properties != [] {
      var (key, subschema) := properties[0];
      var tail := properties[1..];
      if Has(v, key) {
        ErrorsExact(Member(v, key), subschema, path + [Key(key)], e);
      }
      PropertyErrorsExact(v, tail, path, e);
      if j :| 0 <= j < |properties| && DefectBelow(v, properties, path, e, j) {
        if j > 0 { assert DefectBelow(v, tail, path, e, j - 1); }
      }
      if j :| 0 <= j < |tail| && DefectBelow(v, tail, path, e, j) {
        assert DefectBelow(v, properties, path, e, j + 1);
      }
      if Has(v, key) && HasDefect(Member(v, key), subschema, path + [Key(key)], e) {
        assert DefectBelow(v, properties, path, e, 0);
      }
    }
  }

  lemma {:induction false} ItemErrorsExact(v: Json, s: Schema, path: Path, from: nat, e: SchemaError)
    requires v.JArray? && from <= |v.elements|
    ensures e in ItemErrors(v, s, path, from)
       <==> exists i | from <= i < |v.elements| :: HasDefect(v.elements[i], s, path + [Index(i)], e)
    decreases v, 0, |v.elements| - from
  {
    if from < |v.elements| {
      ErrorsExact(v.elements[from], s, path + [Index(from)], e);
      ItemErrorsExact(v, s, path, from + 1, e);
    }
  }

  lemma DefectThroughKey(v: Json, s: Schema, path: Path, e: SchemaError)
    requires TypeOk(v, s) && v.JObject?
    ensures (exists j | 0 <= j < |s.properties| :: DefectBelow(v, s.properties, path, e, j))
       <==> exists steps, at, rule :: steps != [] && Reports(v, s, path, steps, at, rule, e)
  {
    hide LeadsTo, IsDefect, TypeOk;
    if j :| 0 <= j < |s.properties| && DefectBelow(v, s.properties, path, e, j) {
      var name := s.properties[j].0;
      var steps: Path, at: Json, rule: Schema :|
        Reports(Member(v, name), s.properties[j].1, path + [Key(name)], steps, at, rule, e);
      DownKey(v, s, path, e, j, steps, at, rule);
    }
    if steps: Path, at: Json, rule: Schema :| steps != [] && Reports(v, s, path, steps, at, rule, e) {
      UpKey(v, s, path, e, steps, at, rule);
    }
  }

  lemma DownKey(v: Json, s: Schema, path: Path, e: SchemaError, j: nat, steps: Path, at: Json, rule: Schema)
    requires TypeOk(v, s) && j < |s.properties| && Has(v, s.properties[j].0)
    requires Reports(Member(v, s.properties[j].0), s.properties[j].1, path + [Key(s.properties[j].0)], steps, at, rule, e)
    ensures Reports(v, s, path, [Key(s.properties[j].0)] + steps, at, rule, e)
  {
  }

  lemma UpKey(v: Json, s: Schema, path: Path, e: SchemaError, steps: Path, at: Json, rule: Schema)
    requires v.JObject? && steps != []
    requires Reports(v, s, path, steps, at, rule, e)
    ensures exists j | 0 <= j < |s.properties| :: DefectBelow(v, s.properties, path, e, j)
  {
    hide IsDefect, TypeOk;
    var name := steps[0].name;
    var j :| 0 <= j < |s.properties| && s.properties[j].0 == name
             && LeadsTo(Member(v, name), s.properties[j].1, steps[1..], at, rule);
    assert path + steps == path + [Key(name)] + steps[1..];
    assert Reports(Member(v, name), s.properties[j].1, path + [Key(name)], steps[1..], at, rule, e);
    assert DefectBelow(v, s.properties, path, e, j);
  }

  lemma DefectThroughIndex(v: Json, s: Schema, path: Path, e: SchemaError)
    requires TypeOk(v, s) && v.JArray? && s.items.Some?
    ensures (exists i | 0 <= i < |v.elements| :: HasDefect(v.elements[i], s.items.value, path + [Index(i)], e))
       <==> exists steps, at, rule :: steps != [] && Reports(v, s, path, steps, at, rule, e)
  {
    hide LeadsTo, IsDefect, TypeOk;
    if i :| 0 <= i < |v.elements| && HasDefect(v.elements[i], s.items.value, path + [Index(i)], e) {
      var steps: Path, at: Json, rule: Schema :|
        Reports(v.elements[i], s.items.value, path + [Index(i)], steps, at, rule, e);
      DownIndex(v, s, path, e, i, steps, at, rule);
    }
    if steps: Path, at: Json, rule: Schema :| steps != [] && Reports(v, s, path, steps, at, rule, e) {
      UpIndex(v, s, path, e, steps, at, rule);
    }
  }

  lemma DownIndex(v: Json, s: Schema, path: Path, e: SchemaError, i: nat, steps: Path, at: Json, rule: Schema)
    requires TypeOk(v, s) && v.JArray? && s.items.Some? && i < |v.elements|
    requires Reports(v.elements[i], s.items.value, path + [Index(i)], steps, at, rule, e)
    ensures Reports(v, s, path, [Index(i)] + steps, at, rule, e)
  {
  }

  lemma UpIndex(v: Json, s: Schema, path: Path, e: SchemaError, steps: Path, at: Json, rule: Schema)
    requires v.JArray? && s.items.Some? && steps != []
    requires Reports(v, s, path, steps, at, rule, e)
    ensures exists i | 0 <= i < |v.elements| :: HasDefect(v.elements[i], s.items.value, path + [Index(i)], e)
  {
    hide IsDefect, TypeOk;
    var i := steps[0].i;
    assert path + steps == path + [Index(i)] + steps[1..];
    assert Reports(v.elements[i], s.items.value, path + [Index(i)], steps[1..], at, rule, e);
    assert HasDefect(v.elements[i], s.items.value, path + [Index(i)], e);
  }

  /** The reported errors are exactly the defects of the places the schema leads to. */
  lemma {:induction false} ErrorsExact(v: Json, s: Schema, path: Path, e: SchemaError)
    ensures e in Errors(v, s, path) <==> HasDefect(v, s, path, e)
    decreases v, 1, 0
  {
    SplitDefect(v, s, path, e);
    if TypeOk(v, s) {
      OwnErrorsExact(v, s, path, e);
      if v.JObject? {
        PropertyErrorsExact(v, s.properties, path, e);
        DefectThroughKey(v, s, path, e);
      } else if v.JArray? && s.items.Some? {
        ItemErrorsExact(v, s.items.value, path, 0, e);
        DefectThroughIndex(v, s, path, e);
      }
    }
  }

  /** A defect is here or further down. */
  lemma SplitDefect(v: Json, s: Schema, path: Path, e: SchemaError)
    ensures HasDefect(v, s, path, e)
       <==> (e.path == path && IsDefect(v, s, e))
            || exists steps, at, rule :: steps != [] && Reports(v, s, path, steps, at, rule, e)
  {
    assert path + [] == path;
    if e.path == path && IsDefect(v, s, e) {
      assert Reports(v, s, path, [], v, s, e);
    }
    if steps: Path, at: Json, rule: Schema :| Reports(v, s, path, steps, at, rule, e) {
      if steps == [] { assert e.path == path; }
    }
  }

  // ---------------------------------------------------------------------
  // Relaxing
  // ---------------------------------------------------------------------

  /** `t` is `s` with, at any depth, some required names dropped. */
  ghost predicate Relaxes(s: Schema, t: Schema)
    decreases s
  {
    && t.types == s.types && t.minLength == s.minLength && t.minimum == s.minimum
    && (forall name | name in t.required :: name in s.required)
    && |t.properties| == |s.properties|
    && (forall i | 0 <= i < |s.properties| ::
          t.properties[i].0 == s.properties[i].0 && Relaxes(s.properties[i].1, t.properties[i].1))
    && (t.items.Some? <==> s.items.Some?)
    && (s.items.Some? ==> Relaxes(s.items.value, t.items.value))
  }

  lemma {:induction false} RelaxedAcceptsMore(v: Json, s: Schema, t: Schema)
    requires Relaxes(s, t) && Conforms(v, s)
    ensures Conforms(v, t)
    decreases v
  {
    hide Conforms, HasType;
    ConformsIffPasses(v, s);
    ConformsIffPasses(v, t);
    if v.JObject? {
      forall i | 0 <= i < |t.properties| && Has(v, t.properties[i].0)
        ensures Conforms(Member(v, t.properties[i].0), t.properties[i].1)
      {
        RelaxedAcceptsMore(Member(v, s.properties[i].0), s.properties[i].1, t.properties[i].1);
      }
    }
    if v.JArray? && s.items.Some? {
      forall i | 0 <= i < |v.elements| ensures Conforms(v.elements[i], t.items.value) {
        RelaxedAcceptsMore(v.elements[i], s.items.value, t.items.value);
      }
    }
  }

  lemma {:induction false} RelaxesItself(s: Schema)
    ensures Relaxes(s, s)
    decreases s
  {
    forall i | 0 <= i < |s.properties| ensures Relaxes(s.properties[i].1, s.properties[i].1) {
      RelaxesItself(s.properties[i].1);
    }
    if s.items.Some? { RelaxesItself(s.items.value); }
  }

  /** The envelope used for reports that are not soak runs: only `pass` is required of the results. */
  function Envelope(s: Schema): Schema {
    s.(properties := EnvelopeOf(s.properties))
  }

  function EnvelopeOf(properties: seq<(string, Schema)>): (relaxed: seq<(string, Schema)>)
    ensures |relaxed| == |properties|
  {
    seq(|properties|, i requires 0 <= i < |properties| =>
      if properties[i].0 == "results"
      then ("results", properties[i].1.(required := ["pass"]))
      else properties[i])
  }

  /** A report the strict schema accepts is accepted under the relaxed envelope. */
  lemma StrictImpliesEnvelope(report: Json, s: Schema)
    requires forall i | 0 <= i < |s.properties| && s.properties[i].0 == "results" ::
               "pass" in s.properties[i].1.required
    requires Errors(report, s, []) == []
    ensures Errors(report, Envelope(s), []) == []
  {
    var t := Envelope(s);
    assert Relaxes(s, t) by {
      forall i | 0 <= i < |s.properties|
        ensures t.properties[i].0 == s.properties[i].0 && Relaxes(s.properties[i].1, t.properties[i].1)
      {
        RelaxesItself(s.properties[i].1);
        if s.properties[i].0 == "results" {
          RelaxesOneLevel(s.properties[i].1, ["pass"]);
        }
      }
      if s.items.Some? { RelaxesItself(s.items.value); }
    }
    NoErrorsIffConforms(report, s, []);
    RelaxedAcceptsMore(report, s, t);
    NoErrorsIffConforms(report, t, []);
  }

  /** An error below a location is reported below it. */
  lemma DeeperErrors(v: Json, s: Schema, path: Path, e: SchemaError)
    ensures v.JObject? && e in PropertyErrors(v, s.properties, path) ==> |e.path| > |path|
    ensures v.JArray? && s.items.Some? && e in ItemErrors(v, s.items.value, path, 0) ==> |e.path| > |path|
  {
    hide LeadsTo, IsDefect;
    if v.JObject? { PropertyErrorsExact(v, s.properties, path, e); }
    if v.JArray? && s.items.Some? { ItemErrorsExact(v, s.items.value, path, 0, e); }
  }

  /** A missing name other than `pass`, right at `path`. */
  predicate IsExcused(e: SchemaError, path: Path) {
    e.MissingField? && e.path == path && e.name != "pass"
  }

  lemma OnlyPassRequired(v: Json, s: Schema, path: Path, e: SchemaError)
    requires "pass" in s.required
    ensures e in Errors(v, s.(required := ["pass"]), path) <==> e in Errors(v, s, path) && !IsExcused(e, path)
  {
    hide HasType, PropertyErrors, ItemErrors, MissingErrors, Has;
    DeeperErrors(v, s, path, e);
    if v.JObject? {
      MissingErrorsExact(v, s.required, path, e);
      MissingErrorsExact(v, ["pass"], path, e);
    }
  }

  lemma {:induction false} EnvelopeProperties(v: Json, properties: seq<(string, Schema)>, e: SchemaError)
    requires v.JObject?
    requires forall i | 0 <= i < |properties| && properties[i].0 == "results" :: "pass" in properties[i].1.required
    ensures e in PropertyErrors(v, EnvelopeOf(properties), [])
       <==> e in PropertyErrors(v, properties, []) && !IsExcused(e, [Key("results")])
  {
    hide Errors, Has;
    if properties != [] {
      var (key, subschema) := properties[0];
      EnvelopeProperties(v, properties[1..], e);
      assert EnvelopeOf(properties)[1..] == EnvelopeOf(properties[1..]);
      if Has(v, key) {
        if key == "results" {
          OnlyPassRequired(Member(v, key), subschema, [Key(key)], e);
        } else if e in Errors(Member(v, key), subschema, [Key(key)]) {
          ErrorPath(Member(v, key), subschema, [Key(key)], e);
          assert e.path[0] == Key(key);
        }
        assert [] + [Key(key)] == [Key(key)];
      }
    }
  }

  lemma ErrorPath(v: Json, s: Schema, path: Path, e: SchemaError)
    requires e in Errors(v, s, path)
    ensures path <= e.path
  {
    hide LeadsTo, IsDefect, Errors;
    ErrorsExact(v, s, path, e);
  }

  /**
   The envelope reports exactly what the strict schema reports, less the names
   other than `pass` that are missing from the results.
   */
  lemma EnvelopeExact(report: Json, s: Schema, e: SchemaError)
    requires forall i | 0 <= i < |s.properties| && s.properties[i].0 == "results" ::
               "pass" in s.properties[i].1.required
    ensures e in Errors(report, Envelope(s), []) <==> e in Errors(report, s, []) && !IsExcused(e, [Key("results")])
  {
    hide HasType, PropertyErrors, ItemErrors, Has;
    if report.JObject? {
      EnvelopeProperties(report, s.properties, e);
      MissingErrorsExact(report, s.required, [], e);
    }
    if report.JArray? && s.items.Some? && e in ItemErrors(report, s.items.value, [], 0) {
      ItemPath(report, s.items.value, e);
    }
  }

  lemma ItemPath(v: Json, s: Schema, e: SchemaError)
    requires v.JArray? && e in ItemErrors(v, s, [], 0)
    ensures e.path != [] && e.path[0].Index?
  {
    hide LeadsTo, IsDefect;
    ItemErrorsExact(v, s, [], 0, e);
  }

  lemma RelaxesOneLevel(s: Schema, required: seq<string>)
    requires forall name | name in required :: name in s.required
    ensures Relaxes(s, s.(required := required))
  {
    RelaxesItself(s);
  }

  // ---------------------------------------------------------------------
  // The validator itself
  // ---------------------------------------------------------------------

  class ErrorList {
    var errors: seq<SchemaError>

    constructor ()
      ensures errors == []
    {
      errors := [];
    }

    method Append(e: SchemaError)
      modifies this
      ensures errors == old(errors) + [e]
    {
      errors := errors + [e];
    }

    method CheckRequired(value: Json, required: seq<string>, path: Path)
      requires value.JObject?
      modifies this
      ensures errors == old(errors) + MissingErrors(value, required, path)
    {
      for i := 0 to |required|
        invariant errors + MissingErrors(value, required[i..], path) == old(errors) + MissingErrors(value, required, path)
      {
        assert required[i..][0] == required[i] && required[i..][1..] == required[i + 1..];
        if !Has(value, required[i]) {
          Append(MissingField(path, required[i]));
        }
      }
      assert required[|required|..] == [];
    }

    method CheckProperties(value: Json, properties: seq<(string, Schema)>, path: Path)
      requires value.JObject?
      modifies this
      ensures errors == old(errors) + PropertyErrors(value, properties, path)
      decreases value, 0
    {
      for i := 0 to |properties|
        invariant errors + PropertyErrors(value, properties[i..], path)
               == old(errors) + PropertyErrors(value, properties, path)
      {
        assert properties[i..][0] == properties[i] && properties[i..][1..] == properties[i + 1..];
        var (key, subschema) := properties[i];
        if Has(value, key) {
          Validate(Member(value, key), subschema, path + [Key(key)]);
        }
      }
      assert properties[|properties|..] == [];
    }

    method CheckItems(value: Json, items: Schema, path: Path)
      requires value.JArray?
      modifies this
      ensures errors == old(errors) + ItemErrors(value, items, path, 0)
      decreases value, 0
    {
      for i := 0 to |value.elements|
        invariant errors + ItemErrors(value, items, path, i) == old(errors) + ItemErrors(value, items, path, 0)
      {
        Validate(value.elements[i], items, path + [Index(i)]);
      }
    }

    /** The keywords that look no deeper than this value. */
    method CheckOwn(value: Json, schema: Schema, path: Path)
      modifies this
      ensures errors == old(errors) + OwnErrors(value, schema, path)
    {
      if value.JString? && schema.minLength.Some? && |value.text| < schema.minLength.value {
        Append(TooShort(path));
      }
      if value.JInt? || value.JFloat? {
        if schema.minimum.Some? && NumberOf(value) < schema.minimum.value {
          Append(BelowMinimum(path));
        }
      }
      if value.JObject? {
        CheckRequired(value, schema.required, path);
      }
    }

    /** `validate_schema`: only ever appends. */
    method Validate(value: Json, schema: Schema, path: Path)
      modifies this
      ensures errors == old(errors) + Errors(value, schema, path)
      decreases value, 1
    {
      hide OwnErrors, PropertyErrors, ItemErrors, TypeOk;
      if !TypeOk(value, schema) {
        Append(WrongType(path));
        return;
      }
      CheckOwn(value, schema, path);
      if value.JObject? {
        CheckProperties(value, schema.properties, path);
      }
      if value.JArray? && schema.items.Some? {
        CheckItems(value, schema.items.value, path);
      }
    }
  }
}
