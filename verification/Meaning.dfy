/**
 What expressions mean, before and after lowering.  `Execute` follows the
 executor of the lowered tree, operator by operator.  `Mean` reads the source
 expression in three-valued logic, without knowing how it is lowered.
 */
module Meaning {
  import opened Prelude
  import opened Json
  import Decimal
  import opened Lowering

  /** `Other` stands for entities, scores and the like, which only equality tells apart. */
  datatype Value =
    | Unknown
    | Truth(flag: bool)
    | Whole(number: Int64)
    | Unsigned(count: nat)
    | Fraction(value: real)
    | Text(text: string)
    | Document(json: Json)
    | Other(identity: int)

  datatype Trouble =
    | TypeMismatch
    | NotOrdered
    | DivisionByZero
    | IntegerOverflow
    | UnknownName
    | BadLiteral

  type Outcome = Result<Value, Trouble>

  /** Parameters and columns, and the functions there are, under lower-case names. */
  datatype Environment = Environment(
    parameters: map<string, Value>,
    columns: map<(string, seq<string>), Value>,
    functions: map<string, seq<Value> -> Outcome>)

  function Found<K>(values: map<K, Value>, key: K): Outcome {
    if key in values then Ok(values[key]) else Err(UnknownName)
  }

  // ---------------------------------------------------------------------
  // Arithmetic and order on values
  // ---------------------------------------------------------------------

  function Abs(n: int): nat {
    if n < 0 then -n else n
  }

  /** Division of machine integers truncates toward zero. */
  function Quotient(a: int, b: int): int
    requires b != 0
  {
    if (a < 0) == (b < 0) then Abs(a) / Abs(b) else -(Abs(a) / Abs(b))
  }

  function Truncated(x: real): int {
    if x < 0.0 then -((-x).Floor) else x.Floor
  }

  function Fit(n: int): Outcome {
    if -0x8000_0000_0000_0000 <= n < 0x8000_0000_0000_0000 then Ok(Whole(n)) else Err(IntegerOverflow)
  }

  /** `needle` occurs in `text` at or after `from`. */
  predicate OccursFrom(text: string, needle: string, from: nat)
    requires from <= |text|
    decreases |text| - from
  {
    needle <= text[from..] || (from < |text| && OccursFrom(text, needle, from + 1))
  }

  // ---------------------------------------------------------------------
  // The executor of lowered trees
  // ---------------------------------------------------------------------

  /** The number a canonical decimal text stands for. */
  function ParseInteger(s: string): Option<int> {
    if Decimal.IsDecimal(s) then Some(Decimal.Parse(s))
    else if s != "" && s[0] == '-' && Decimal.IsDecimal(s[1..]) && s[1..] != "0" then
      var n: int := Decimal.Parse(s[1..]);
      Some(-n)
    else None
  }

  /** A typed literal; a text that is not the canonical form of a number is refused. */
  function Decode(literal: Json, ty: string): Outcome {
    if ty == "Null" && literal.JNull? then Ok(Unknown)
    else if ty == "Bool" && literal.JBool? then Ok(Truth(literal.flag))
    else if ty == "I64" && literal.JString? then
      match ParseInteger(literal.text)
      case Some(n) => if Fit(n).Ok? then Fit(n) else Err(BadLiteral)
      case None => Err(BadLiteral)
    else if ty == "F64Finite" && literal.JFloat? then Ok(Fraction(literal.float_value))
    else if ty == "Utf8" && literal.JString? then Ok(Text(literal.text))
    else if ty == "Json" then Ok(Document(literal))
    else Err(BadLiteral)
  }

  datatype Order = Before | Same | After

  function OrderOf(less: bool, greater: bool): Order {
    if less then Before else if greater then After else Same
  }

  function Compare(a: Value, b: Value): Result<Order, Trouble> {
    match (a, b)
    case (Truth(x), Truth(y)) => Ok(OrderOf(!x && y, x && !y))
    case (Whole(x), Whole(y)) => Ok(OrderOf(x < y, x > y))
    case (Unsigned(x), Unsigned(y)) => Ok(OrderOf(x < y, x > y))
    case (Fraction(x), Fraction(y)) => Ok(OrderOf(x < y, x > y))
    case (Text(x), Text(y)) => Ok(OrderOf(StringLess(x, y), x != y))
    case _ => Err(NotOrdered)
  }

  function Holds(op: WireOp, order: Order): bool {
    match op
    case Lt => order.Before?
    case Le => !order.After?
    case Gt => order.After?
    case _ => !order.Before?
  }

  /** AND and OR see anything that is not a truth value as unknown. */
  function Connective(op: WireOp, a: Value, b: Value): Value {
    if op.And? then
      if a == Truth(false) || b == Truth(false) then Truth(false)
      else if a == Truth(true) && b == Truth(true) then Truth(true)
      else Unknown
    else
      if a == Truth(true) || b == Truth(true) then Truth(true)
      else if a == Truth(false) && b == Truth(false) then Truth(false)
      else Unknown
  }

  function WholeArithmetic(op: WireOp, a: int, b: int): Outcome {
    match op
    case Add => Fit(a + b)
    case Sub => Fit(a - b)
    case Mul => Fit(a * b)
    case Div => if b == 0 then Err(DivisionByZero) else Fit(Quotient(a, b))
    case _ =>
      if b == 0 then Err(DivisionByZero)
      else if Fit(Quotient(a, b)).Err? then Err(IntegerOverflow)
      else Fit(a - b * Quotient(a, b))
  }

  function FractionArithmetic(op: WireOp, a: real, b: real): Outcome {
    match op
    case Add => Ok(Fraction(a + b))
    case Sub => Ok(Fraction(a - b))
    case Mul => Ok(Fraction(a * b))
    case Div => if b == 0.0 then Err(DivisionByZero) else Ok(Fraction(a / b))
    case _ => if b == 0.0 then Err(DivisionByZero) else Ok(Fraction(a - b * Truncated(a / b) as real))
  }

  function ExecuteBinary(op: WireOp, a: Value, b: Value): Outcome {
    if op.And? || op.Or? then Ok(Connective(op, a, b))
    else if a.Unknown? || b.Unknown? then Ok(Unknown)
    else if op.Eq? then Ok(Truth(a == b))
    else if op.Ne? then Ok(Truth(a != b))
    else if op.Lt? || op.Le? || op.Gt? || op.Ge? then
      var order :- Compare(a, b);
      Ok(Truth(Holds(op, order)))
    else if op.Contains? || op.Startswith? then
      if !(a.Text? && b.Text?) then Err(TypeMismatch)
      else if op.Contains? then Ok(Truth(OccursFrom(a.text, b.text, 0)))
      else Ok(Truth(b.text <= a.text))
    else if a.Whole? && b.Whole? then WholeArithmetic(op, a.number, b.number)
    else if a.Fraction? && b.Fraction? then FractionArithmetic(op, a.value, b.value)
    else Err(TypeMismatch)
  }

  function ExecuteUnary(op: UnaryOp, v: Value): Outcome {
    if op == UnaryOp.IsNull then Ok(Truth(v == Unknown))
    else if op == UnaryOp.IsNotNull then Ok(Truth(v != Unknown))
    else if v.Unknown? then Ok(Unknown)
    else if v.Truth? then Ok(Truth(!v.flag))
    else Err(TypeMismatch)
  }

  /** The loop over the values, from the state in which `found` and `unknown` are. */
  function ExecuteIn(needle: Value, values: seq<Value>, negated: bool, found: bool, unknown: bool): Value {
    if values == [] then
      if found then Truth(!negated) else if unknown then Unknown else Truth(negated)
    else if needle.Unknown? || values[0].Unknown? then ExecuteIn(needle, values[1..], negated, found, true)
    else ExecuteIn(needle, values[1..], negated, found || needle == values[0], unknown)
  }

  /** Eager and from left to right, AND and OR included. */
  function Execute(env: Environment, t: Wire): Outcome
    decreases t
  {
    match t
    case Literal(literal, ty) => Decode(literal, ty)
    case Param(name) => Found(env.parameters, name)
    case FieldRef(alias, path) => Found(env.columns, (alias, path))
    case Binary(op, l, r) =>
      var a :- Execute(env, l);
      var b :- Execute(env, r);
      ExecuteBinary(op, a, b)
    case Unary(op, arg) =>
      var v :- Execute(env, arg);
      ExecuteUnary(op, v)
    case Call(name, args) =>
      var values :- ExecuteAll(env, args);
      if name in env.functions then env.functions[name](values) else Err(UnknownName)
    case In(e, list, negated) =>
      var needle :- Execute(env, e);
      var values :- ExecuteAll(env, list);
      Ok(ExecuteIn(needle, values, negated, false, false))
  }

  function ExecuteAll(env: Environment, ts: seq<Wire>): Result<seq<Value>, Trouble>
    decreases ts
  {
    if ts == [] then Ok([])
    else
      var first :- Execute(env, ts[0]);
      var rest :- ExecuteAll(env, ts[1..]);
      Ok([first] + rest)
  }

  // ---------------------------------------------------------------------
  // The source expression
  // ---------------------------------------------------------------------

  /** False, unknown, true; what is no truth value is unknown. */
  function Rank(v: Value): int {
    if v == Truth(false) then 0 else if v == Truth(true) then 2 else 1
  }

  function OfRank(rank: int): Value {
    if rank == 0 then Truth(false) else if rank == 2 then Truth(true) else Unknown
  }

  predicate SameKind(a: Value, b: Value) {
    || (a.Truth? && b.Truth?) || (a.Whole? && b.Whole?) || (a.Unsigned? && b.Unsigned?)
    || (a.Fraction? && b.Fraction?) || (a.Text? && b.Text?)
  }

  /** `a` is strictly less than `b`. */
  predicate Less(a: Value, b: Value)
    requires SameKind(a, b)
  {
    match a
    case Truth(x) => x == false && b.flag == true
    case Whole(x) => x < b.number
    case Unsigned(x) => x < b.count
    case Fraction(x) => x < b.value
    case Text(x) => StringLess(x, b.text)
  }

  /** The truth of a comparison: unknown as soon as one side is. */
  function Ordered(a: Value, b: Value, holds: (Value, Value) --> bool): Outcome
    requires SameKind(a, b) ==> holds.requires(a, b)
  {
    if a.Unknown? || b.Unknown? then Ok(Unknown)
    else if SameKind(a, b) then Ok(Truth(holds(a, b)))
    else Err(NotOrdered)
  }

  function IsLess(a: Value, b: Value): Outcome {
    Ordered(a, b, (x, y) requires SameKind(x, y) => Less(x, y))
  }

  function IsGreater(a: Value, b: Value): Outcome {
    Ordered(a, b, (x, y) requires SameKind(x, y) => Less(y, x))
  }

  function IsAtMost(a: Value, b: Value): Outcome {
    Ordered(a, b, (x, y) requires SameKind(x, y) => x == y || Less(x, y))
  }

  function IsAtLeast(a: Value, b: Value): Outcome {
    Ordered(a, b, (x, y) requires SameKind(x, y) => x == y || Less(y, x))
  }

  function TextTest(a: Value, b: Value, holds: (string, string) -> bool): Outcome {
    if a.Unknown? || b.Unknown? then Ok(Unknown)
    else if a.Text? && b.Text? then Ok(Truth(holds(a.text, b.text)))
    else Err(TypeMismatch)
  }

  predicate Contained(text: string, needle: string) {
    exists i | 0 <= i <= |text| :: StandsAt(text, needle, i)
  }

  predicate StandsAt(text: string, needle: string, i: int) {
    0 <= i <= |text| - |needle| && text[i..i + |needle|] == needle
  }

  function MeanWhole(op: SyntaxOp, a: int, b: int): Outcome {
    if op.Add? then Fit(a + b)
    else if op.Subtract? then Fit(a - b)
    else if op.Multiply? then Fit(a * b)
    else if b == 0 then Err(DivisionByZero)
    else if op.Divide? then Fit(Quotient(a, b))
    else
      var quotient :- Fit(Quotient(a, b));
      Fit(a - b * quotient.number)
  }

  function MeanFraction(op: SyntaxOp, a: real, b: real): Outcome {
    if op.Add? then Ok(Fraction(a + b))
    else if op.Subtract? then Ok(Fraction(a - b))
    else if op.Multiply? then Ok(Fraction(a * b))
    else if b == 0.0 then Err(DivisionByZero)
    else if op.Divide? then Ok(Fraction(a / b))
    else Ok(Fraction(a - b * Truncated(a / b) as real))
  }

  function MeanArithmetic(op: SyntaxOp, a: Value, b: Value): Outcome {
    if a.Unknown? || b.Unknown? then Ok(Unknown)
    else if a.Whole? && b.Whole? then MeanWhole(op, a.number, b.number)
    else if a.Fraction? && b.Fraction? then MeanFraction(op, a.value, b.value)
    else Err(TypeMismatch)
  }

  function MeanBinary(op: SyntaxOp, a: Value, b: Value): Outcome {
    match op
    case Or => Ok(OfRank(Max(Rank(a), Rank(b))))
    case And => Ok(OfRank(Min(Rank(a), Rank(b))))
    case Equal => Ok(if a.Unknown? || b.Unknown? then Unknown else Truth(a == b))
    case NotEqual => Ok(if a.Unknown? || b.Unknown? then Unknown else Truth(a != b))
    case Less => IsLess(a, b)
    case LessEqual => IsAtMost(a, b)
    case Greater => IsGreater(a, b)
    case GreaterEqual => IsAtLeast(a, b)
    case Contains => TextTest(a, b, Contained)
    case StartsWith => TextTest(a, b, (text, start) => start <= text)
    case _ => MeanArithmetic(op, a, b)
  }

  /** At least `low` and at most `high`; the upper bound is read after the lower comparison. */
  function Within(subject: Outcome, low: Outcome, high: Outcome): Outcome {
    var value :- subject;
    var least :- low;
    var notBelow :- IsAtLeast(value, least);
    var most :- high;
    var notAbove :- IsAtMost(value, most);
    Ok(OfRank(Min(Rank(notBelow), Rank(notAbove))))
  }

  /** Three-valued membership; an unknown needle is in no list for certain. */
  function MeanIn(needle: Value, values: seq<Value>, negated: bool): Value {
    if !needle.Unknown? && needle in values then Truth(!negated)
    else if values != [] && (needle.Unknown? || Unknown in values) then Unknown
    else Truth(negated)
  }

  /** The same letters, capitals or not. */
  predicate SameLetter(c: char, d: char) {
    || c == d
    || ('A' <= c <= 'Z' && d as int == c as int - 'A' as int + 'a' as int)
    || ('A' <= d <= 'Z' && c as int == d as int - 'A' as int + 'a' as int)
  }

  predicate SameLetters(s: string, t: string) {
    |s| == |t| && forall i | 0 <= i < |s| :: SameLetter(s[i], t[i])
  }

  predicate NoCapitals(s: string) {
    forall i | 0 <= i < |s| :: !('A' <= s[i] <= 'Z')
  }

  /** The engine knows its functions under names without capitals. */
  ghost predicate LowerCaseFunctions(env: Environment) {
    forall name | name in env.functions :: NoCapitals(name)
  }

  /** Calls the function of that name, in whatever case it is written. */
  ghost function Invoke(env: Environment, name: string, values: seq<Value>): Outcome {
    if known :| known in env.functions && SameLetters(known, name) then env.functions[known](values)
    else Err(UnknownName)
  }

  /** What a source expression is worth; `count(*)` is the count of all rows. */
  ghost function Mean(env: Environment, json: JsonReader, v: Syntax): Outcome
    decreases v
  {
    match v
    case Null => Ok(Unknown)
    case Bool(flag) => Ok(Truth(flag))
    case I64(n) => Ok(Whole(n))
    case F64(x) => Ok(Fraction(x))
    case Utf8(text) => Ok(Text(text))
    case Parameter(name) => Found(env.parameters, name)
    case Field(parts) => if parts == [] then Err(UnknownName) else Found(env.columns, (parts[0], parts[1..]))
    case Object(_) => (match json(v) case Ok(value) => Ok(Document(value)) case Err(_) => Err(BadLiteral))
    case List(_) => Err(BadLiteral)
    case Group(e) => Mean(env, json, e)
    case Not(e) =>
      var value :- Mean(env, json, e);
      if value.Truth? || value.Unknown? then Ok(OfRank(2 - Rank(value))) else Err(TypeMismatch)
    case IsNull(e, negated) =>
      var value :- Mean(env, json, e);
      Ok(Truth(value.Unknown? != negated))
    case Binary(op, l, r) =>
      var a :- Mean(env, json, l);
      var b :- Mean(env, json, r);
      MeanBinary(op, a, b)
    case Between(e, l, h) =>
      Within(Mean(env, json, e), Mean(env, json, l), Mean(env, json, h))
    case Call(name, arguments, star) =>
      var values :- MeanAll(env, json, arguments);
      if star then if "count_all" in env.functions then env.functions["count_all"](values) else Err(UnknownName)
      else Invoke(env, name, values)
    case In(e, list, negated) =>
      if !list.List? then Err(BadLiteral)
      else
        var needle :- Mean(env, json, e);
        var values :- MeanAll(env, json, list.items);
        Ok(MeanIn(needle, values, negated))
  }

  ghost function MeanAll(env: Environment, json: JsonReader, vs: seq<Syntax>): Result<seq<Value>, Trouble>
    decreases vs
  {
    if vs == [] then Ok([])
    else
      var first :- Mean(env, json, vs[0]);
      var rest :- MeanAll(env, json, vs[1..]);
      Ok([first] + rest)
  }

  // ---------------------------------------------------------------------
  // Lowering keeps the meaning
  // ---------------------------------------------------------------------

  lemma {:induction false} OccursSomewhere(text: string, needle: string, from: nat)
    requires from <= |text|
    ensures OccursFrom(text, needle, from)
       <==> exists i | from <= i <= |text| :: StandsAt(text, needle, i)
    decreases |text| - from
  {
    assert needle <= text[from..] <==> StandsAt(text, needle, from) by {
      if from <= |text| - |needle| {
        assert text[from..][..|needle|] == text[from..from + |needle|];
      }
    }
    if from < |text| {
      OccursSomewhere(text, needle, from + 1);
    }
  }

  lemma OrderIsLess(a: Value, b: Value)
    ensures Compare(a, b).Ok? <==> SameKind(a, b)
    ensures Compare(a, b).Err? ==> Compare(a, b) == Err(NotOrdered)
    ensures SameKind(a, b) ==>
      && (Compare(a, b).value.Before? <==> Less(a, b))
      && (Compare(a, b).value.After? <==> Less(b, a))
      && (a == b <==> !Less(a, b) && !Less(b, a))
      && !(Less(a, b) && Less(b, a))
  {
    if a.Text? && b.Text? {
      StringLessTotal(a.text, b.text);
      StringLessIrreflexive(a.text);
      if StringLess(a.text, b.text) { StringLessAsymmetric(a.text, b.text); }
    }
  }

  lemma SameComparison(op: SyntaxOp, a: Value, b: Value)
    requires op.Less? || op.LessEqual? || op.Greater? || op.GreaterEqual?
    ensures MeanBinary(op, a, b) == ExecuteBinary(ToWireOp(op), a, b)
  {
    hide Compare, Less;
    OrderIsLess(a, b);
  }

  lemma SameTextTest(op: SyntaxOp, a: Value, b: Value)
    requires op.Contains? || op.StartsWith?
    ensures MeanBinary(op, a, b) == ExecuteBinary(ToWireOp(op), a, b)
  {
    if a.Text? && b.Text? {
      OccursSomewhere(a.text, b.text, 0);
      assert Contained(a.text, b.text) <==> OccursFrom(a.text, b.text, 0);
    }
  }

  lemma SameConnective(op: SyntaxOp, a: Value, b: Value)
    requires op.And? || op.Or?
    ensures MeanBinary(op, a, b) == ExecuteBinary(ToWireOp(op), a, b)
  {
  }

  lemma SameWhole(op: SyntaxOp, a: Int64, b: Int64)
    requires op.Add? || op.Subtract? || op.Multiply? || op.Divide? || op.Remainder?
    ensures MeanWhole(op, a, b) == WholeArithmetic(ToWireOp(op), a, b)
  {
    hide Quotient;
    if op.Remainder? && b != 0 && Fit(Quotient(a, b)).Ok? {
      var quotient := Fit(Quotient(a, b)).value.number;
      assert quotient == Quotient(a, b);
      assert b * quotient == b * Quotient(a, b);
    }
  }

  lemma SameFraction(op: SyntaxOp, a: real, b: real)
    requires op.Add? || op.Subtract? || op.Multiply? || op.Divide? || op.Remainder?
    ensures MeanFraction(op, a, b) == FractionArithmetic(ToWireOp(op), a, b)
  {
    hide Truncated;
  }

  lemma SameArithmetic(op: SyntaxOp, a: Value, b: Value)
    requires op.Add? || op.Subtract? || op.Multiply? || op.Divide? || op.Remainder?
    ensures MeanBinary(op, a, b) == ExecuteBinary(ToWireOp(op), a, b)
  {
    hide WholeArithmetic, MeanWhole, FractionArithmetic, MeanFraction;
    if a.Whole? && b.Whole? { SameWhole(op, a.number, b.number); }
    if a.Fraction? && b.Fraction? { SameFraction(op, a.value, b.value); }
  }

  lemma SameBinary(op: SyntaxOp, a: Value, b: Value)
    ensures MeanBinary(op, a, b) == ExecuteBinary(ToWireOp(op), a, b)
  {
    hide MeanBinary, ExecuteBinary, ToWireOp;
    match op
    case Or => SameConnective(op, a, b);
    case And => SameConnective(op, a, b);
    case Less => SameComparison(op, a, b);
    case LessEqual => SameComparison(op, a, b);
    case Greater => SameComparison(op, a, b);
    case GreaterEqual => SameComparison(op, a, b);
    case Contains => SameTextTest(op, a, b);
    case StartsWith => SameTextTest(op, a, b);
    case Equal => SameEquality(op, a, b);
    case NotEqual => SameEquality(op, a, b);
    case _ => SameArithmetic(op, a, b);
  }

  lemma SameEquality(op: SyntaxOp, a: Value, b: Value)
    requires op.Equal? || op.NotEqual?
    ensures MeanBinary(op, a, b) == ExecuteBinary(ToWireOp(op), a, b)
  {
  }

  lemma {:induction false} SameIn(needle: Value, values: seq<Value>, negated: bool, found: bool, unknown: bool)
    ensures ExecuteIn(needle, values, negated, found, unknown)
         == if found || (!needle.Unknown? && needle in values) then Truth(!negated)
            else if unknown || (values != [] && (needle.Unknown? || Unknown in values)) then Unknown
            else Truth(negated)
    decreases |values|
  {
    if values != [] {
      var rest := values[1..];
      assert values == [values[0]] + rest;
      if needle.Unknown? || values[0].Unknown? {
        SameIn(needle, rest, negated, found, true);
      } else {
        SameIn(needle, rest, negated, found || needle == values[0], unknown);
      }
    }
  }

  lemma ParsesDecimals(n: int)
    ensures ParseInteger(Decimals(n)) == Some(n)
  {
    var m := if n < 0 then -n else n;
    Decimal.ShowIsDecimal(m);
    Decimal.ParseShow(m);
    assert Decimal.Show(m)[0] != '-';
    if n < 0 {
      assert Decimals(n)[1..] == Decimal.Show(m);
      Decimal.ParseShow(0);
    }
  }

  lemma Spelling(s: string, t: string)
    requires NoCapitals(t) && SameLetters(t, s)
    ensures t == AsciiLower(s)
  {
  }

  lemma LowerSpelling(s: string)
    ensures SameLetters(AsciiLower(s), s)
  {
  }

  lemma SameCall(env: Environment, name: string, values: seq<Value>)
    requires LowerCaseFunctions(env)
    ensures Invoke(env, name, values)
         == if AsciiLower(name) in env.functions then env.functions[AsciiLower(name)](values) else Err(UnknownName)
  {
    hide AsciiLower, SameLetters, NoCapitals;
    LowerSpelling(name);
    forall known | known in env.functions && SameLetters(known, name) ensures known == AsciiLower(name) {
      Spelling(name, known);
    }
  }

  lemma {:induction false} SameLeaf(env: Environment, json: JsonReader, v: Syntax)
    requires Children(v) == [] && !v.Call? && Lower(json, v).Ok?
    ensures Execute(env, Lower(json, v).value) == Mean(env, json, v)
  {
    hide Decimals;
    if v.I64? { ParsesDecimals(v.integer); }
  }

  lemma {:induction false} SameCallMeaning(env: Environment, json: JsonReader, v: Syntax)
    requires v.Call? && LowerCaseFunctions(env) && Lower(json, v).Ok?
    requires ExecuteAll(env, LowerAll(json, v.arguments).value) == MeanAll(env, json, v.arguments)
    ensures Execute(env, Lower(json, v).value) == Mean(env, json, v)
  {
    hide Invoke, AsciiLower, LowerCaseFunctions, MeanAll, ExecuteAll, LowerAll, IsIdentifier;
    var values := MeanAll(env, json, v.arguments);
    if values.Ok? { SameCall(env, v.name, values.value); }
  }

  lemma {:induction false} SameInMeaning(env: Environment, json: JsonReader, v: Syntax)
    requires v.In? && v.values.List? && Lower(json, v).Ok?
    requires Execute(env, Lower(json, v.expression).value) == Mean(env, json, v.expression)
    requires ExecuteAll(env, LowerAll(json, v.values.items).value) == MeanAll(env, json, v.values.items)
    ensures Execute(env, Lower(json, v).value) == Mean(env, json, v)
  {
    hide MeanAll, ExecuteAll, LowerAll, ExecuteIn, MeanIn;
    var needle, values := Mean(env, json, v.expression), MeanAll(env, json, v.values.items);
    if needle.Ok? && values.Ok? { InMeans(needle.value, values.value, v.negated); }
  }

  lemma InMeans(needle: Value, values: seq<Value>, negated: bool)
    ensures ExecuteIn(needle, values, negated, false, false) == MeanIn(needle, values, negated)
  {
    SameIn(needle, values, negated, false, false);
  }

  lemma {:induction false} SameTwo(env: Environment, json: JsonReader, v: Syntax)
    requires v.Binary? && Lower(json, v).Ok?
    requires Execute(env, Lower(json, v.left).value) == Mean(env, json, v.left)
    requires Execute(env, Lower(json, v.right).value) == Mean(env, json, v.right)
    ensures Execute(env, Lower(json, v).value) == Mean(env, json, v)
  {
    hide MeanBinary, ExecuteBinary, ToWireOp;
    ExecuteTwo(env, ToWireOp(v.op), Lower(json, v.left).value, Lower(json, v.right).value);
    var a, b := Mean(env, json, v.left), Mean(env, json, v.right);
    if a.Ok? && b.Ok? { SameBinary(v.op, a.value, b.value); }
  }

  lemma {:induction false} SameMeaning(env: Environment, json: JsonReader, v: Syntax)
    requires LowerCaseFunctions(env) && Lower(json, v).Ok?
    ensures Execute(env, Lower(json, v).value) == Mean(env, json, v)
    decreases v
  {
    hide LowerCaseFunctions, MeanAll, ExecuteAll, LowerAll, Leaf, CallName, Decode, Within, ToWireOp, MeanBinary, ExecuteBinary, Invoke, MeanIn, ExecuteIn, Found;
    match v
    case Group(e) => SameMeaning(env, json, e);
    case Not(e) => SameMeaning(env, json, e);
    case IsNull(e, _) => SameMeaning(env, json, e);
    case Binary(_, l, r) =>
      SameMeaning(env, json, l);
      SameMeaning(env, json, r);
      SameTwo(env, json, v);
    case Between(e, l, h) =>
      SameMeaning(env, json, e);
      SameMeaning(env, json, l);
      SameMeaning(env, json, h);
      ExecuteRange(env, Lower(json, e).value, Lower(json, l).value, Lower(json, h).value);
    case Call(_, arguments, _) =>
      SameMeanings(env, json, arguments);
      SameCallMeaning(env, json, v);
    case In(e, list, _) =>
      LoweredIn(json, v);
      SameMeaning(env, json, e);
      SameMeanings(env, json, list.items);
      SameInMeaning(env, json, v);
    case _ => SameLeaf(env, json, v);
  }

  lemma LoweredIn(json: JsonReader, v: Syntax)
    requires v.In? && Lower(json, v).Ok?
    ensures v.values.List?
  {
  }

  lemma {:induction false} SameMeanings(env: Environment, json: JsonReader, vs: seq<Syntax>)
    requires LowerCaseFunctions(env) && LowerAll(json, vs).Ok?
    ensures ExecuteAll(env, LowerAll(json, vs).value) == MeanAll(env, json, vs)
    decreases vs
  {
    hide Lower, Execute, Mean, LowerCaseFunctions;
    if vs != [] {
      SameMeaning(env, json, vs[0]);
      SameMeanings(env, json, vs[1..]);
      var rest := LowerAll(json, vs[1..]).value;
      assert ([Lower(json, vs[0]).value] + rest)[1..] == rest;
    }
  }

  lemma {:induction false} ExecuteTwo(env: Environment, op: WireOp, l: Wire, r: Wire)
    ensures
      var a, b := Execute(env, l), Execute(env, r);
      Execute(env, Wire.Binary(op, l, r))
      == if a.Err? then a else if b.Err? then b else ExecuteBinary(op, a.value, b.value)
  {
    hide ExecuteBinary;
  }

  /** The range test, its subject evaluated twice, is worth what one reading of it is. */
  lemma {:induction false} ExecuteRange(env: Environment, e: Wire, l: Wire, h: Wire)
    ensures Execute(env, InRange(e, l, h)) == Within(Execute(env, e), Execute(env, l), Execute(env, h))
  {
    hide Execute, ExecuteBinary, MeanBinary, IsAtLeast, IsAtMost;
    var from, upto := Wire.Binary(Ge, e, l), Wire.Binary(Le, e, h);
    ExecuteTwo(env, Ge, e, l);
    ExecuteTwo(env, Le, e, h);
    ExecuteTwo(env, WireOp.And, from, upto);
    var subject, low, high := Execute(env, e), Execute(env, l), Execute(env, h);
    if subject.Ok? && low.Ok? {
      RangeBinary(SyntaxOp.GreaterEqual, subject.value, low.value);
      if high.Ok? {
        RangeBinary(SyntaxOp.LessEqual, subject.value, high.value);
        var a, b := Execute(env, from), Execute(env, upto);
        if a.Ok? && b.Ok? { RangeBinary(SyntaxOp.And, a.value, b.value); }
      }
    }
  }

  lemma RangeBinary(op: SyntaxOp, a: Value, b: Value)
    requires op.GreaterEqual? || op.LessEqual? || op.And?
    ensures op.GreaterEqual? ==> ExecuteBinary(Ge, a, b) == IsAtLeast(a, b)
    ensures op.LessEqual? ==> ExecuteBinary(Le, a, b) == IsAtMost(a, b)
    ensures op.And? ==> ExecuteBinary(WireOp.And, a, b) == Ok(OfRank(Min(Rank(a), Rank(b))))
  {
    hide ExecuteBinary, IsAtLeast, IsAtMost;
    SameBinary(op, a, b);
  }

  /** A lowered expression is worth what the source expression is, in every environment, troubles included. */
  lemma {:induction false} LoweringKeepsMeaning(env: Environment, json: JsonReader, v: Syntax)
    requires LowerCaseFunctions(env) && Lowered(json, v).Ok?
    ensures Execute(env, Lowered(json, v).value) == Mean(env, json, v)
  {
    SameMeaning(env, json, v);
  }
}
