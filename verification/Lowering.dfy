/**
 Lowering of query expressions.  Two walks with explicit stacks: `Preflight`
 measures the tree that lowering would build, `LowerExpression` builds it.  Both
 are proved against recursive functions; BETWEEN copies its subject.
 */
module Lowering {
  import opened Prelude
  import opened Json
  import Decimal

  const MAX_NODES: nat := 10000
  const MAX_DEPTH: nat := 128

  type Int64 = n: int | -0x8000_0000_0000_0000 <= n < 0x8000_0000_0000_0000

  datatype SyntaxOp =
    | Or | And | Equal | NotEqual | Less | LessEqual | Greater | GreaterEqual
    | Contains | StartsWith | Add | Subtract | Multiply | Divide | Remainder

  datatype Syntax =
    | Null
    | Bool(flag: bool)
    | I64(integer: Int64)
    | F64(number: real)
    | Utf8(text: string)
    | Parameter(parameter: string)
    | Field(parts: seq<string>)
    | List(items: seq<Syntax>)
    | Object(fields: seq<(string, Syntax)>)
    | Call(name: string, arguments: seq<Syntax>, star: bool)
    | Group(expression: Syntax)
    | Not(expression: Syntax)
    | Binary(op: SyntaxOp, left: Syntax, right: Syntax)
    | IsNull(expression: Syntax, negated: bool)
    | In(expression: Syntax, values: Syntax, negated: bool)
    | Between(expression: Syntax, low: Syntax, high: Syntax)

  datatype WireOp = Eq | Ne | Lt | Le | Gt | Ge | And | Or | Add | Sub | Mul | Div | Rem | Contains | Startswith

  datatype UnaryOp = Not | IsNull | IsNotNull

  datatype Wire =
    | Literal(literal: Json, ty: string)
    | Param(param: string)
    | FieldRef(alias: string, path: seq<string>)
    | Binary(binary: WireOp, left: Wire, right: Wire)
    | Unary(unary: UnaryOp, arg: Wire)
    | Call(call: string, args: seq<Wire>)
    | In(expression: Wire, values: seq<Wire>, negated: bool)

  datatype Failure =
    | ExpressionDepth
    | ExpandedNodes
    | ExpandedDepth
    | ExpressionStack
    | InValues
    | FunctionStar
    | EmptyField
    | QuotedSymbol
    | ListLiteralContext
    | JsonLiteral(reason: string)

  /** How an object becomes a JSON constant. */
  type JsonReader = Syntax -> Result<Json, string>

  /** The subexpressions a walk visits, in source order. */
  function Children(v: Syntax): (children: seq<Syntax>)
    ensures forall i | 0 <= i < |children| :: children[i] < v
  {
    match v
    case Group(e) => [e]
    case Not(e) => [e]
    case IsNull(e, _) => [e]
    case Binary(_, l, r) => [l, r]
    case Call(_, arguments, _) => arguments
    case In(e, List(items), _) => [e] + items
    case Between(e, l, h) => [e, l, h]
    case _ => []
  }

  // ---------------------------------------------------------------------
  // What lowering builds
  // ---------------------------------------------------------------------

  function ToWireOp(op: SyntaxOp): WireOp {
    match op
    case Or => WireOp.Or
    case And => WireOp.And
    case Equal => Eq
    case NotEqual => Ne
    case Less => Lt
    case LessEqual => Le
    case Greater => Gt
    case GreaterEqual => Ge
    case Contains => WireOp.Contains
    case StartsWith => Startswith
    case Add => WireOp.Add
    case Subtract => Sub
    case Multiply => Mul
    case Divide => Div
    case Remainder => Rem
  }

  function AsciiLower(s: string): (r: string)
    ensures |r| == |s|
  {
    seq(|s|, i requires 0 <= i < |s| => if 'A' <= s[i] <= 'Z' then (s[i] as int + 32) as char else s[i])
  }

  function Decimals(n: int): string {
    if n < 0 then "-" + Decimal.Show(-n) else Decimal.Show(n)
  }

  /** The function called; `count(*)` has a name of its own. */
  function CallName(name: string, star: bool): Result<string, Failure> {
    if !IsIdentifier(name) then Err(QuotedSymbol)
    else if star && AsciiLower(name) != "count" then Err(FunctionStar)
    else Ok(if star then "count_all" else AsciiLower(name))
  }

  function FieldOf(parts: seq<string>): Result<Wire, Failure> {
    if parts == [] then Err(EmptyField)
    else if exists i | 0 <= i < |parts| :: !IsIdentifier(parts[i]) then Err(QuotedSymbol)
    else Ok(FieldRef(parts[0], parts[1..]))
  }

  /** An expression without visited subexpressions. */
  function Leaf(json: JsonReader, v: Syntax): Result<Wire, Failure>
    requires Children(v) == [] && !v.Call?
  {
    match v
    case Null => Ok(Literal(JNull, "Null"))
    case Bool(flag) => Ok(Literal(JBool(flag), "Bool"))
    case I64(n) => Ok(Literal(JString(Decimals(n)), "I64"))
    case F64(x) => Ok(Literal(JFloat(x), "F64Finite"))
    case Utf8(text) => Ok(Literal(JString(text), "Utf8"))
    case Parameter(name) => Ok(Param(name))
    case Field(parts) => FieldOf(parts)
    case Object(_) => (match json(v) case Ok(value) => Ok(Literal(value, "Json")) case Err(why) => Err(JsonLiteral(why)))
    case List(_) => Err(ListLiteralContext)
    case In(_, _, _) => Err(InValues)
  }

  function InRange(subject: Wire, low: Wire, high: Wire): Wire {
    Wire.Binary(WireOp.And, Wire.Binary(Ge, subject, low), Wire.Binary(Le, subject, high))
  }

  /** The lowered tree, or the first failure in source order. */
  function Lower(json: JsonReader, v: Syntax): Result<Wire, Failure>
    decreases v
  {
    match v
    case Group(e) => Lower(json, e)
    case Not(e) =>
      var arg :- Lower(json, e);
      Ok(Unary(UnaryOp.Not, arg))
    case IsNull(e, negated) =>
      var arg :- Lower(json, e);
      Ok(Unary(if negated then IsNotNull else UnaryOp.IsNull, arg))
    case Binary(op, l, r) =>
      var left :- Lower(json, l);
      var right :- Lower(json, r);
      Ok(Wire.Binary(ToWireOp(op), left, right))
    case Between(e, l, h) =>
      var subject :- Lower(json, e);
      var low :- Lower(json, l);
      var high :- Lower(json, h);
      Ok(InRange(subject, low, high))
    case Call(name, arguments, star) =>
      var call :- CallName(name, star);
      var args :- LowerAll(json, arguments);
      Ok(Wire.Call(call, args))
    case In(e, List(items), negated) =>
      var subject :- Lower(json, e);
      var values :- LowerAll(json, items);
      Ok(Wire.In(subject, values, negated))
    case _ => Leaf(json, v)
  }

  function LowerAll(json: JsonReader, vs: seq<Syntax>): (r: Result<seq<Wire>, Failure>)
    ensures r.Ok? ==> |r.value| == |vs|
    decreases vs
  {
    if vs == [] then Ok([])
    else
      var first :- Lower(json, vs[0]);
      var rest :- LowerAll(json, vs[1..]);
      Ok([first] + rest)
  }

  // ---------------------------------------------------------------------
  // A walk over an expression
  // ---------------------------------------------------------------------

  /**
   A walk that checks a node before its children, visits `children`, and makes
   the node's value of theirs.
   */
  datatype Walk<!V> = Walk(
    enter: Syntax -> Option<Failure>,
    children: Syntax -> seq<Syntax>,
    combine: (Syntax, seq<V>) -> Result<V, Failure>)

  function Fuel(depth: nat): nat {
    if depth > MAX_DEPTH then 0 else MAX_DEPTH + 1 - depth
  }

  /** What the walk makes of `v` found at `depth`, without any stack. */
  ghost function Denote<V>(walk: Walk<V>, v: Syntax, depth: nat): Result<V, Failure>
    decreases Fuel(depth), 0, 0
  {
    if depth > MAX_DEPTH then Err(ExpressionDepth)
    else if walk.enter(v).Some? then Err(walk.enter(v).value)
    else
      var parts :- DenoteAll(walk, walk.children(v), depth + 1);
      walk.combine(v, parts)
  }

  ghost function DenoteAll<V>(walk: Walk<V>, vs: seq<Syntax>, depth: nat): (r: Result<seq<V>, Failure>)
    ensures r.Ok? ==> |r.value| == |vs|
    decreases Fuel(depth), 1, |vs|
  {
    if vs == [] then Ok([])
    else
      var first :- Denote(walk, vs[0], depth);
      var rest :- DenoteAll(walk, vs[1..], depth);
      Ok([first] + rest)
  }

  /** A stack entry, before or after its children have been visited. */
  datatype Frame = Frame(value: Syntax, depth: nat, visited: bool)

  /** `vs` as pushed: the first one is on top, at the end. */
  function Pushed(vs: seq<Syntax>, depth: nat): seq<Frame> {
    seq(|vs|, i requires 0 <= i < |vs| => Frame(vs[|vs| - 1 - i], depth, false))
  }

  /** The node's value from the top of the value stack, which it replaces. */
  ghost function CombineTop<V>(walk: Walk<V>, v: Syntax, values: seq<V>): Result<seq<V>, Failure> {
    var n := |walk.children(v)|;
    if |values| < n then Err(ExpressionStack)
    else
      var value :- walk.combine(v, values[|values| - n..]);
      Ok(values[..|values| - n] + [value])
  }

  /** What remains to be done by both stacks. */
  ghost function Resume<V>(walk: Walk<V>, pending: seq<Frame>, values: seq<V>): Result<V, Failure>
    decreases |pending|
  {
    if pending == [] then if |values| == 1 then Ok(values[0]) else Err(ExpressionStack)
    else
      var rest, top := pending[..|pending| - 1], pending[|pending| - 1];
      if top.visited then
        if top.depth > MAX_DEPTH then Err(ExpressionDepth)
        else
          var next :- CombineTop(walk, top.value, values);
          Resume(walk, rest, next)
      else
        var value :- Denote(walk, top.value, top.depth);
        Resume(walk, rest, values + [value])
  }

  ghost function ResumeWith<V>(walk: Walk<V>, pending: seq<Frame>, values: seq<V>, more: Result<seq<V>, Failure>): Result<V, Failure> {
    var pushed :- more;
    Resume(walk, pending, values + pushed)
  }

  lemma {:induction false} ResumePushed<V>(walk: Walk<V>, pending: seq<Frame>, vs: seq<Syntax>, depth: nat, values: seq<V>)
    ensures Resume(walk, pending + Pushed(vs, depth), values)
            == ResumeWith(walk, pending, values, DenoteAll(walk, vs, depth))
    decreases |vs|
  {
    hide Denote;
    var all := pending + Pushed(vs, depth);
    if vs == [] {
      assert all == pending && values + [] == values;
    } else {
      assert all[..|all| - 1] == pending + Pushed(vs[1..], depth);
      var first := Denote(walk, vs[0], depth);
      if first.Ok? {
        ResumePushed(walk, pending, vs[1..], depth, values + [first.value]);
        var rest := DenoteAll(walk, vs[1..], depth);
        if rest.Ok? {
          assert values + [first.value] + rest.value == values + ([first.value] + rest.value);
        }
      }
    }
  }

  /** Entering a node: it goes back as visited, its children on top of it. */
  lemma ResumeEntered<V>(walk: Walk<V>, pending: seq<Frame>, v: Syntax, depth: nat, values: seq<V>)
    requires depth <= MAX_DEPTH && walk.enter(v) == None
    ensures Resume(walk, pending + [Frame(v, depth, false)], values)
            == Resume(walk, pending + [Frame(v, depth, true)] + Pushed(walk.children(v), depth + 1), values)
  {
    var before, marked := pending + [Frame(v, depth, false)], pending + [Frame(v, depth, true)];
    ResumePushed(walk, marked, walk.children(v), depth + 1, values);
    assert before[..|before| - 1] == pending && marked[..|marked| - 1] == pending;
    var parts := DenoteAll(walk, walk.children(v), depth + 1);
    if parts.Ok? {
      var all := values + parts.value;
      assert all[|all| - |parts.value|..] == parts.value && all[..|all| - |parts.value|] == values;
    }
  }

  /** How many steps remain. */
  ghost function Work<V>(walk: Walk<V>, pending: seq<Frame>): nat {
    if pending == [] then 0
    else
      var top := pending[|pending| - 1];
      Work(walk, pending[..|pending| - 1]) + if top.visited then 1 else NodeWork(walk, top.value, top.depth)
  }

  ghost function NodeWork<V>(walk: Walk<V>, v: Syntax, depth: nat): (n: nat)
    ensures n > 0
    decreases Fuel(depth), 0, 0
  {
    if depth > MAX_DEPTH then 1 else 2 + AllWork(walk, walk.children(v), depth + 1)
  }

  ghost function AllWork<V>(walk: Walk<V>, vs: seq<Syntax>, depth: nat): nat
    decreases Fuel(depth), 1, |vs|
  {
    if vs == [] then 0 else NodeWork(walk, vs[0], depth) + AllWork(walk, vs[1..], depth)
  }

  lemma {:induction false} WorkPushed<V>(walk: Walk<V>, pending: seq<Frame>, vs: seq<Syntax>, depth: nat)
    ensures Work(walk, pending + Pushed(vs, depth)) == Work(walk, pending) + AllWork(walk, vs, depth)
    decreases |vs|
  {
    var all := pending + Pushed(vs, depth);
    if vs == [] {
      assert all == pending;
    } else {
      assert all[..|all| - 1] == pending + Pushed(vs[1..], depth);
      WorkPushed(walk, pending, vs[1..], depth);
    }
  }

  lemma WorkEntered<V>(walk: Walk<V>, pending: seq<Frame>, v: Syntax, depth: nat)
    requires depth <= MAX_DEPTH
    ensures Work(walk, pending + [Frame(v, depth, true)] + Pushed(walk.children(v), depth + 1))
            < Work(walk, pending + [Frame(v, depth, false)])
  {
    var before, marked := pending + [Frame(v, depth, false)], pending + [Frame(v, depth, true)];
    WorkPushed(walk, marked, walk.children(v), depth + 1);
    assert before[..|before| - 1] == pending && marked[..|marked| - 1] == pending;
  }

  /** The values of the parts are theirs one by one; a failure is that of some part. */
  lemma {:induction false} DenotedParts<V>(walk: Walk<V>, vs: seq<Syntax>, depth: nat)
    ensures
      var all := DenoteAll(walk, vs, depth);
      && (all.Ok? ==> forall i | 0 <= i < |vs| :: Denote(walk, vs[i], depth) == Ok(all.value[i]))
      && (all.Err? ==> exists i | 0 <= i < |vs| :: Denote(walk, vs[i], depth) == Err(all.error))
    decreases |vs|
  {
    hide Denote;
    if vs != [] {
      DenotedParts(walk, vs[1..], depth);
      assert vs[0] == vs[0];
      forall i | 0 < i < |vs| ensures vs[i] == vs[1..][i - 1] {
      }
    }
  }

  // ---------------------------------------------------------------------
  // Measuring
  // ---------------------------------------------------------------------

  datatype Shape = Shape(nodes: nat, depth: nat)

  function Total(shapes: seq<Shape>): nat {
    if shapes == [] then 0 else shapes[0].nodes + Total(shapes[1..])
  }

  function Deepest(shapes: seq<Shape>): nat {
    if shapes == [] then 0 else Max(shapes[0].depth, Deepest(shapes[1..]))
  }

  /** A node over subtrees of these shapes. */
  function Over(shapes: seq<Shape>): Shape {
    Shape(1 + Total(shapes), 1 + Deepest(shapes))
  }

  function Subtrees(t: Wire): (subtrees: seq<Wire>)
    ensures forall i | 0 <= i < |subtrees| :: subtrees[i] < t
  {
    match t
    case Binary(_, l, r) => [l, r]
    case Unary(_, arg) => [arg]
    case Call(_, args) => args
    case In(e, values, _) => [e] + values
    case _ => []
  }

  /** The number of nodes of a lowered tree, and its depth. */
  function Extent(t: Wire): Shape
    decreases t
  {
    var subtrees := Subtrees(t);
    Over(seq(|subtrees|, i requires 0 <= i < |subtrees| => Extent(subtrees[i])))
  }

  /** The shape of the tree that lowering makes of a node whose children have these. */
  function Expanded(v: Syntax, parts: seq<Shape>): Shape
    requires |parts| == |Children(v)|
  {
    match v
    case Group(_) => parts[0]
    case Between(_, _, _) =>
      var e, l, h := parts[0], parts[1], parts[2];
      Shape(2 * e.nodes + l.nodes + h.nodes + 3, Max(Max(e.depth, l.depth), h.depth) + 2)
    case _ => Over(parts)
  }

  function ShapeOf(v: Syntax): Shape
    decreases v
  {
    var children := Children(v);
    Expanded(v, seq(|children|, i requires 0 <= i < |children| => ShapeOf(children[i])))
  }

  function EnterMeasuring(v: Syntax): Option<Failure> {
    if v.In? && !v.values.List? then Some(InValues) else None
  }

  function CombineShape(v: Syntax, parts: seq<Shape>): Result<Shape, Failure> {
    if |parts| != |Children(v)| then Err(ExpressionStack)
    else if EnterMeasuring(v).Some? then Err(EnterMeasuring(v).value)
    else
      var shape := Expanded(v, parts);
      if !v.Group? && shape.nodes > MAX_NODES then Err(ExpandedNodes)
      else if shape.depth > MAX_DEPTH then Err(ExpandedDepth)
      else Ok(shape)
  }

  function Measuring(): Walk<Shape> {
    Walk(EnterMeasuring, Children, CombineShape)
  }

  function AddNodes(a: nat, b: nat): Result<nat, Failure> {
    if a + b > MAX_NODES then Err(ExpandedNodes) else Ok(a + b)
  }

  function UnaryShape(arg: Shape): Result<Shape, Failure> {
    var nodes :- AddNodes(arg.nodes, 1);
    Ok(Shape(nodes, arg.depth + 1))
  }

  function BinaryShape(l: Shape, r: Shape): Result<Shape, Failure> {
    var children :- AddNodes(l.nodes, r.nodes);
    var nodes :- AddNodes(children, 1);
    Ok(Shape(nodes, Max(l.depth, r.depth) + 1))
  }

  function BetweenShape(e: Shape, l: Shape, h: Shape): Result<Shape, Failure> {
    var low :- AddNodes(2 * e.nodes, l.nodes);
    var high :- AddNodes(low, h.nodes);
    var nodes :- AddNodes(high, 3);
    Ok(Shape(nodes, Max(Max(e.depth, l.depth), h.depth) + 2))
  }

  function ArgumentsShape(arguments: seq<Shape>): Result<Shape, Failure> {
    if arguments != [] && Over(arguments).nodes > MAX_NODES then Err(ExpandedNodes) else Ok(Over(arguments))
  }

  /** The shape of a new node over the top `count` shapes, taken from the top down. */
  method PopArguments(shapes: seq<Shape>, count: nat) returns (shape: Result<Shape, Failure>)
    requires count <= |shapes|
    ensures shape == ArgumentsShape(shapes[|shapes| - count..])
  {
    var n: nat, d: nat, top := 1, 1, |shapes|;
    assert shapes[top..] == [];
    while top > |shapes| - count
      invariant |shapes| - count <= top <= |shapes|
      invariant Shape(n, d) == Over(shapes[top..])
      invariant n <= MAX_NODES
    {
      top := top - 1;
      assert shapes[top..] == [shapes[top]] + shapes[top + 1..];
      if n + shapes[top].nodes > MAX_NODES {
        TotalSuffix(shapes[|shapes| - count..], top - (|shapes| - count));
        assert shapes[|shapes| - count..][top - (|shapes| - count)..] == shapes[top..];
        return Err(ExpandedNodes);
      }
      n, d := n + shapes[top].nodes, Max(d, shapes[top].depth + 1);
    }
    return Ok(Shape(n, d));
  }

  lemma {:induction false} TotalSuffix(shapes: seq<Shape>, i: nat)
    requires i <= |shapes|
    ensures Total(shapes[i..]) <= Total(shapes)
  {
    if i > 0 {
      TotalSuffix(shapes[1..], i - 1);
      assert shapes[1..][i - 1..] == shapes[i..];
    }
  }

  function DepthChecked(shape: Result<Shape, Failure>): Result<Shape, Failure> {
    if shape.Ok? && shape.value.depth > MAX_DEPTH then Err(ExpandedDepth) else shape
  }

  lemma Arity(v: Syntax)
    ensures v.Group? || v.Not? || v.IsNull? ==> |Children(v)| == 1
    ensures v.Binary? ==> |Children(v)| == 2
    ensures v.Between? ==> |Children(v)| == 3
    ensures v.Call? ==> Children(v) == v.arguments
    ensures v.In? ==> |Children(v)| == if v.values.List? then |v.values.items| + 1 else 0
    ensures !v.Group? && !v.Not? && !v.IsNull? && !v.Binary? && !v.Between? && !v.Call? && !v.In? ==> Children(v) == []
  {
  }

  /** The additions of the second visit, node kind by node kind. */
  lemma CombineShapeCases(v: Syntax, parts: seq<Shape>)
    requires |parts| == |Children(v)|
    ensures v.Group? ==> CombineShape(v, parts) == DepthChecked(Ok(parts[0]))
    ensures v.Not? || v.IsNull? ==> CombineShape(v, parts) == DepthChecked(UnaryShape(parts[0]))
    ensures v.Binary? ==> CombineShape(v, parts) == DepthChecked(BinaryShape(parts[0], parts[1]))
    ensures v.Between? ==> CombineShape(v, parts) == DepthChecked(BetweenShape(parts[0], parts[1], parts[2]))
    ensures v.Call? ==> CombineShape(v, parts) == DepthChecked(ArgumentsShape(parts))
    ensures v.In? ==>
      CombineShape(v, parts) == DepthChecked(if v.values.List? then ArgumentsShape(parts) else Err(InValues))
    ensures Children(v) == [] && !v.Call? && !v.In? ==> CombineShape(v, parts) == DepthChecked(Ok(Shape(1, 1)))
  {
    hide Total, Deepest;
    OverFew(parts);
  }

  /** The second visit of a node: its shape from those on the stack. */
  method MeasureTop(v: Syntax, shapes: seq<Shape>) returns (shape: Result<Shape, Failure>, rest: seq<Shape>)
    ensures |shapes| < |Children(v)| ==> shape == Err(ExpressionStack)
    ensures |shapes| >= |Children(v)| ==>
      && rest == shapes[..|shapes| - |Children(v)|]
      && shape == CombineShape(v, shapes[|shapes| - |Children(v)|..])
  {
    hide Children, CombineShape, DepthChecked, UnaryShape, BinaryShape, BetweenShape, ArgumentsShape;
    var k := |shapes|;
    rest := shapes;
    if k < |Children(v)| {
      return Err(ExpressionStack), rest;
    }
    ghost var parts := shapes[k - |Children(v)|..];
    Arity(v);
    CombineShapeCases(v, parts);
    var start := k;
    match v {
      case Group(_) => start, shape := k - 1, Ok(shapes[k - 1]);
      case Not(_) => start, shape := k - 1, UnaryShape(shapes[k - 1]);
      case IsNull(_, _) => start, shape := k - 1, UnaryShape(shapes[k - 1]);
      case Binary(_, _, _) => start, shape := k - 2, BinaryShape(shapes[k - 2], shapes[k - 1]);
      case Between(_, _, _) => start, shape := k - 3, BetweenShape(shapes[k - 3], shapes[k - 2], shapes[k - 1]);
      case Call(_, arguments, _) =>
        start := k - |arguments|;
        shape := PopArguments(shapes, |arguments|);
      case In(_, values, _) =>
        if values.List? {
          start := k - |values.items| - 1;
          shape := PopArguments(shapes, |values.items| + 1);
        } else {
          shape := Err(InValues);
        }
      case _ => shape := Ok(Shape(1, 1));
    }
    assert start == k - |Children(v)|;
    assert DepthChecked(shape) == CombineShape(v, parts);
    rest, shape := shapes[..start], DepthChecked(shape);
  }

  /** A node over no, one or two shapes. */
  lemma {:induction false} OverFew(parts: seq<Shape>)
    ensures |parts| == 0 ==> Over(parts) == Shape(1, 1)
    ensures |parts| == 1 ==> Over(parts) == Shape(parts[0].nodes + 1, parts[0].depth + 1)
    ensures |parts| == 2 ==>
      Over(parts) == Shape(parts[0].nodes + parts[1].nodes + 1, Max(parts[0].depth, parts[1].depth) + 1)
  {
    if |parts| == 1 {
      assert parts[1..] == [] && Total([]) == 0 && Deepest([]) == 0;
    } else if |parts| == 2 {
      OverFew(parts[1..]);
    }
  }

  /** The first visit of a node: what goes on the stack above it. */
  method PushMeasured(v: Syntax, depth: nat) returns (pushed: Result<seq<Frame>, Failure>)
    ensures pushed == if EnterMeasuring(v).Some? then Err(EnterMeasuring(v).value) else Ok(Pushed(Children(v), depth))
  {
    var frames: seq<Frame> := [];
    match v {
      case Group(e) => frames := [Frame(e, depth, false)];
      case Not(e) => frames := [Frame(e, depth, false)];
      case IsNull(e, _) => frames := [Frame(e, depth, false)];
      case Binary(_, left, right) => frames := [Frame(right, depth, false), Frame(left, depth, false)];
      case Call(_, arguments, _) => frames := Pushed(arguments, depth);
      case In(e, values, _) =>
        if !values.List? {
          return Err(InValues);
        }
        frames := Pushed(values.items, depth) + [Frame(e, depth, false)];
      case Between(e, low, high) =>
        frames := [Frame(high, depth, false), Frame(low, depth, false), Frame(e, depth, false)];
      case _ =>
    }
    assert frames == Pushed(Children(v), depth);
    return Ok(frames);
  }

  /** Why an expression is rejected before anything is built. */
  ghost function Rejection(v: Syntax): Option<Failure> {
    match Denote(Measuring(), v, 1)
    case Ok(_) => None
    case Err(f) => Some(f)
  }

  /** `preflight_expr`: the stack walk. */
  method Preflight(value: Syntax) returns (failure: Option<Failure>)
    ensures failure == Rejection(value)
  {
    hide Children, CombineShape, EnterMeasuring, Denote, DenoteAll, Work, Pushed;
    ghost var walk := Measuring();
    var pending := [Frame(value, 1, false)];
    var shapes: seq<Shape> := [];
    while pending != []
      invariant Resume(walk, pending, shapes) == Denote(walk, value, 1)
      decreases Work(walk, pending)
    {
      var rest, top := pending[..|pending| - 1], pending[|pending| - 1];
      assert pending == rest + [top];
      if top.depth > MAX_DEPTH {
        TooDeep(walk, top.value, top.depth);
        return Some(ExpressionDepth);
      }
      WorkStep(walk, rest, top);
      if !top.visited {
        var pushed := PushMeasured(top.value, top.depth + 1);
        if pushed.Err? {
          RefusedEntry(walk, top.value, top.depth);
          return Some(pushed.error);
        }
        ResumeEntered(walk, rest, top.value, top.depth, shapes);
        pending := rest + [top.(visited := true)] + pushed.value;
        continue;
      }
      var shape, below := MeasureTop(top.value, shapes);
      if shape.Err? {
        return Some(shape.error);
      }
      pending, shapes := rest, below + [shape.value];
    }
    if |shapes| != 1 {
      return Some(ExpressionStack);
    }
    return None;
  }

  lemma TooDeep<V>(walk: Walk<V>, v: Syntax, depth: nat)
    requires depth > MAX_DEPTH
    ensures Denote(walk, v, depth) == Err(ExpressionDepth)
  {
  }

  lemma RefusedEntry<V>(walk: Walk<V>, v: Syntax, depth: nat)
    requires depth <= MAX_DEPTH && walk.enter(v).Some?
    ensures Denote(walk, v, depth) == Err(walk.enter(v).value)
  {
  }

  /** Either visit of a node leaves less to do. */
  lemma WorkStep<V>(walk: Walk<V>, rest: seq<Frame>, top: Frame)
    requires top.depth <= MAX_DEPTH
    ensures Work(walk, rest) < Work(walk, rest + [top])
    ensures Work(walk, rest + [top.(visited := true)] + Pushed(walk.children(top.value), top.depth + 1))
            < Work(walk, rest + [top.(visited := false)])
  {
    assert (rest + [top])[..|rest|] == rest;
    WorkEntered(walk, rest, top.value, top.depth);
  }

  // ---------------------------------------------------------------------
  // What the preflight decides
  // ---------------------------------------------------------------------

  /** Every IN has a list on its right. */
  ghost predicate InListed(v: Syntax)
    decreases v
  {
    EnterMeasuring(v) == None && forall i | 0 <= i < |Children(v)| :: InListed(Children(v)[i])
  }

  /** No chain of subexpressions is longer than `n`. */
  ghost predicate NestsWithin(v: Syntax, n: nat)
    decreases n
  {
    n > 0 && forall i | 0 <= i < |Children(v)| :: NestsWithin(Children(v)[i], n - 1)
  }

  ghost predicate Fits(shape: Shape) {
    shape.nodes <= MAX_NODES && shape.depth <= MAX_DEPTH
  }

  ghost predicate WithinBounds(v: Syntax) {
    InListed(v) && NestsWithin(v, MAX_DEPTH) && Fits(ShapeOf(v))
  }

  /** `f` is true of `v`. */
  ghost predicate Overstepped(v: Syntax, n: nat, f: Failure) {
    match f
    case InValues => !InListed(v)
    case ExpressionDepth => !NestsWithin(v, n)
    case ExpandedNodes => ShapeOf(v).nodes > MAX_NODES
    case ExpandedDepth => ShapeOf(v).depth > MAX_DEPTH
    case _ => false
  }

  lemma {:induction false} PartWithin(shapes: seq<Shape>, i: nat)
    requires i < |shapes|
    ensures shapes[i].nodes <= Total(shapes) && shapes[i].depth <= Deepest(shapes)
  {
    if i > 0 {
      PartWithin(shapes[1..], i - 1);
    }
  }

  function ShapesOf(vs: seq<Syntax>): seq<Shape> {
    seq(|vs|, i requires 0 <= i < |vs| => ShapeOf(vs[i]))
  }

  lemma ShapeIsExpanded(v: Syntax)
    ensures ShapeOf(v) == Expanded(v, ShapesOf(Children(v)))
  {
    var children := Children(v);
    assert ShapesOf(children) == seq(|children|, i requires 0 <= i < |children| => ShapeOf(children[i]));
  }

  /** A node's tree is at least as large as each child's. */
  lemma ChildShape(v: Syntax, i: nat)
    requires i < |Children(v)|
    ensures ShapeOf(Children(v)[i]).nodes <= ShapeOf(v).nodes
    ensures ShapeOf(Children(v)[i]).depth <= ShapeOf(v).depth
  {
    hide ShapeOf;
    var parts := ShapesOf(Children(v));
    ShapeIsExpanded(v);
    PartWithin(parts, i);
    assert parts[i] == ShapeOf(Children(v)[i]);
  }

  ghost predicate Measured(v: Syntax, n: nat, measured: Result<Shape, Failure>) {
    match measured
    case Ok(shape) => InListed(v) && NestsWithin(v, n) && Fits(ShapeOf(v)) && shape == ShapeOf(v)
    case Err(f) => Overstepped(v, n, f)
  }

  /** The walk accepts exactly what is within bounds, with the shape of the lowered tree. */
  lemma {:induction false} MeasureExact(v: Syntax, depth: nat)
    requires 1 <= depth <= MAX_DEPTH + 1
    ensures Measured(v, MAX_DEPTH + 1 - depth, Denote(Measuring(), v, depth))
    decreases MAX_DEPTH + 1 - depth
  {
    hide Children, CombineShape, ShapeOf, Fits, DenoteAll;
    var walk, n := Measuring(), MAX_DEPTH + 1 - depth;
    if n > 0 && walk.enter(v) == None {
      var children := Children(v);
      forall i | 0 <= i < |children|
        ensures Measured(children[i], n - 1, Denote(walk, children[i], depth + 1))
        ensures forall f | Overstepped(children[i], n - 1, f) :: Overstepped(v, n, f)
      {
        MeasureExact(children[i], depth + 1);
        ChildShape(v, i);
      }
      DenotedParts(walk, children, depth + 1);
      var parts := DenoteAll(walk, children, depth + 1);
      if parts.Ok? {
        assert parts.value == ShapesOf(children);
        ShapeIsExpanded(v);
        CombinedShape(v);
      }
    }
  }

  lemma CombinedShape(v: Syntax)
    requires EnterMeasuring(v) == None
    requires forall i | 0 <= i < |Children(v)| :: Fits(ShapeOf(Children(v)[i]))
    ensures
      var combined := CombineShape(v, ShapesOf(Children(v)));
      && (combined.Ok? ==> combined.value == ShapeOf(v) && Fits(combined.value))
      && (combined.Err? ==>
            || (combined.error == ExpandedNodes && ShapeOf(v).nodes > MAX_NODES)
            || (combined.error == ExpandedDepth && ShapeOf(v).depth > MAX_DEPTH))
  {
    hide ShapeOf, Total, Deepest, Over;
    ShapeIsExpanded(v);
    if v.Group? {
      assert Fits(ShapeOf(Children(v)[0]));
    }
  }

  /**
   Preflight accepts exactly the expressions within bounds, and a rejection is
   true of the expression.  The stack never runs short.
   */
  lemma PreflightExact(v: Syntax)
    ensures Rejection(v) == None <==> WithinBounds(v)
    ensures Rejection(v).Some? ==> Overstepped(v, MAX_DEPTH, Rejection(v).value)
    ensures Rejection(v) != Some(ExpressionStack)
  {
    hide InListed, NestsWithin, Denote, ShapeOf;
    MeasureExact(v, 1);
  }

  // ---------------------------------------------------------------------
  // Building
  // ---------------------------------------------------------------------

  /** The children as the building walk visits them: the subject of BETWEEN twice. */
  function BuildChildren(v: Syntax): seq<Syntax> {
    match v
    case Between(e, low, high) => [e, low, e, high]
    case _ => Children(v)
  }

  function EnterBuilding(v: Syntax): Option<Failure> {
    match v
    case Call(name, _, star) =>
      (match CallName(name, star) case Ok(_) => None case Err(f) => Some(f))
    case _ => EnterMeasuring(v)
  }

  function CombineWire(json: JsonReader, v: Syntax, parts: seq<Wire>): Result<Wire, Failure> {
    if |parts| != |BuildChildren(v)| then Err(ExpressionStack)
    else
      match v
      case Group(_) => Ok(parts[0])
      case Not(_) => Ok(Unary(UnaryOp.Not, parts[0]))
      case IsNull(_, negated) => Ok(Unary(if negated then IsNotNull else UnaryOp.IsNull, parts[0]))
      case Binary(op, _, _) => Ok(Wire.Binary(ToWireOp(op), parts[0], parts[1]))
      case Between(_, _, _) =>
        Ok(Wire.Binary(WireOp.And, Wire.Binary(Ge, parts[0], parts[1]), Wire.Binary(Le, parts[2], parts[3])))
      case Call(name, _, star) =>
        var call :- CallName(name, star);
        Ok(Wire.Call(call, parts))
      case In(_, values, negated) =>
        if values.List? then Ok(Wire.In(parts[0], parts[1..], negated)) else Err(InValues)
      case _ => Leaf(json, v)
  }

  function Building(json: JsonReader): Walk<Wire> {
    Walk(EnterBuilding, BuildChildren, (v, parts) => CombineWire(json, v, parts))
  }

  /** The first visit of a node: what goes on the stack above it. */
  method PushBuilt(v: Syntax, depth: nat) returns (pushed: Result<seq<Frame>, Failure>)
    ensures pushed == if EnterBuilding(v).Some? then Err(EnterBuilding(v).value) else Ok(Pushed(BuildChildren(v), depth))
  {
    var frames: seq<Frame> := [];
    match v {
      case Group(e) => frames := [Frame(e, depth, false)];
      case Not(e) => frames := [Frame(e, depth, false)];
      case IsNull(e, _) => frames := [Frame(e, depth, false)];
      case Binary(_, left, right) => frames := [Frame(right, depth, false), Frame(left, depth, false)];
      case Call(name, arguments, star) =>
        var call := CallName(name, star);
        if call.Err? {
          return Err(call.error);
        }
        frames := Pushed(arguments, depth);
      case In(e, values, _) =>
        if !values.List? {
          return Err(InValues);
        }
        frames := Pushed(values.items, depth) + [Frame(e, depth, false)];
      case Between(e, low, high) =>
        frames := [Frame(high, depth, false), Frame(e, depth, false), Frame(low, depth, false), Frame(e, depth, false)];
      case _ =>
    }
    assert frames == Pushed(BuildChildren(v), depth);
    return Ok(frames);
  }

  lemma BuildArity(v: Syntax)
    ensures v.Group? || v.Not? || v.IsNull? ==> |BuildChildren(v)| == 1
    ensures v.Binary? ==> |BuildChildren(v)| == 2
    ensures v.Between? ==> |BuildChildren(v)| == 4
    ensures v.Call? ==> BuildChildren(v) == v.arguments
    ensures v.In? ==> |BuildChildren(v)| == if v.values.List? then |v.values.items| + 1 else 0
    ensures !v.Group? && !v.Not? && !v.IsNull? && !v.Binary? && !v.Between? && !v.Call? && !v.In? ==> Children(v) == [] == BuildChildren(v)
  {
  }

  lemma CombineFew(json: JsonReader, v: Syntax, parts: seq<Wire>)
    requires |parts| == |BuildChildren(v)|
    ensures v.Group? ==> CombineWire(json, v, parts) == Ok(parts[0])
    ensures v.Not? ==> CombineWire(json, v, parts) == Ok(Unary(UnaryOp.Not, parts[0]))
    ensures v.IsNull? ==>
      CombineWire(json, v, parts) == Ok(Unary(if v.negated then IsNotNull else UnaryOp.IsNull, parts[0]))
    ensures v.Binary? ==> CombineWire(json, v, parts) == Ok(Wire.Binary(ToWireOp(v.op), parts[0], parts[1]))
    ensures v.Between? ==>
      CombineWire(json, v, parts)
      == Ok(Wire.Binary(WireOp.And, Wire.Binary(Ge, parts[0], parts[1]), Wire.Binary(Le, parts[2], parts[3])))
    ensures v.Call? && CallName(v.name, v.star).Ok? ==>
      CombineWire(json, v, parts) == Ok(Wire.Call(CallName(v.name, v.star).value, parts))
    ensures v.Call? && CallName(v.name, v.star).Err? ==>
      CombineWire(json, v, parts) == Err(CallName(v.name, v.star).error)
    ensures v.In? && !v.values.List? ==> CombineWire(json, v, parts) == Err(InValues)
    ensures Children(v) == [] && !v.Call? ==> CombineWire(json, v, parts) == Leaf(json, v)
  {
    hide ToWireOp, CallName;
    BetweenChildren(v);
  }

  lemma CombineIn(json: JsonReader, v: Syntax, results: seq<Wire>, start: nat)
    requires v.In? && v.values.List? && 1 <= start <= |results| && |results| - start == |v.values.items|
    ensures CombineWire(json, v, results[start - 1..]) == Ok(Wire.In(results[start - 1], results[start..], v.negated))
  {
    var parts := results[start - 1..];
    assert |parts| == |BuildChildren(v)| && parts[1..] == results[start..];
  }

  /** The second visit of a node: its tree from those on the stack. */
  method BuildTop(json: JsonReader, v: Syntax, results: seq<Wire>) returns (built: Result<Wire, Failure>, rest: seq<Wire>)
    ensures |results| < |BuildChildren(v)| ==> built == Err(ExpressionStack)
    ensures |results| >= |BuildChildren(v)| ==>
      && rest == results[..|results| - |BuildChildren(v)|]
      && built == CombineWire(json, v, results[|results| - |BuildChildren(v)|..])
  {
    hide Children, BuildChildren, CombineWire, ToWireOp, CallName, Leaf, IsIdentifier, AsciiLower;
    var k := |results|;
    rest := results;
    if k < |BuildChildren(v)| {
      return Err(ExpressionStack), rest;
    }
    ghost var parts := results[k - |BuildChildren(v)|..];
    BuildArity(v);
    CombineFew(json, v, parts);
    var start := k;
    match v {
      case Group(_) =>
        start := k - 1;
        built := Ok(results[start]);
      case Not(_) =>
        start := k - 1;
        built := Ok(Unary(UnaryOp.Not, results[start]));
      case IsNull(_, negated) =>
        start := k - 1;
        built := Ok(Unary(if negated then IsNotNull else UnaryOp.IsNull, results[start]));
      case Binary(op, _, _) =>
        start := k - 2;
        var right, left := results[k - 1], results[start];
        built := Ok(Wire.Binary(ToWireOp(op), left, right));
      case Between(_, _, _) =>
        start := k - 4;
        var high, right, low, left := results[k - 1], results[k - 2], results[k - 3], results[start];
        built := Ok(Wire.Binary(WireOp.And, Wire.Binary(Ge, left, low), Wire.Binary(Le, right, high)));
      case Call(name, arguments, star) =>
        start := k - |arguments|;
        var call := CallName(name, star);
        built := if call.Ok? then Ok(Wire.Call(call.value, results[start..])) else Err(call.error);
      case In(_, values, negated) =>
        if values.List? {
          start := k - |values.items| - 1;
          built := Ok(Wire.In(results[start], results[start + 1..], negated));
          CombineIn(json, v, results, start + 1);
        } else {
          built := Err(InValues);
        }
      case _ => built := Leaf(json, v);
    }
    assert start == k - |BuildChildren(v)|;
    rest := results[..start];
  }

  /** What lowering returns: the preflight's rejection, or else the recursion's answer. */
  ghost function Lowered(json: JsonReader, v: Syntax): Result<Wire, Failure> {
    match Rejection(v)
    case Some(f) => Err(f)
    case None => Lower(json, v)
  }

  /** `expr`: the preflight, then the building walk. */
  method LowerExpression(json: JsonReader, value: Syntax) returns (lowered: Result<Wire, Failure>)
    ensures lowered == Lowered(json, value)
  {
    hide Children, BuildChildren, CombineWire, EnterBuilding, Denote, DenoteAll, Work, Pushed, WithinBounds, Lower;
    var failure := Preflight(value);
    if failure.Some? {
      return Err(failure.value);
    }
    PreflightExact(value);
    BuildWithinBounds(json, value);
    ghost var walk := Building(json);
    var pending := [Frame(value, 1, false)];
    var results: seq<Wire> := [];
    while pending != []
      invariant Resume(walk, pending, results) == Denote(walk, value, 1)
      decreases Work(walk, pending)
    {
      var rest, top := pending[..|pending| - 1], pending[|pending| - 1];
      assert pending == rest + [top];
      if top.depth > MAX_DEPTH {
        TooDeep(walk, top.value, top.depth);
        return Err(ExpressionDepth);
      }
      WorkStep(walk, rest, top);
      if !top.visited {
        var pushed := PushBuilt(top.value, top.depth + 1);
        if pushed.Err? {
          RefusedEntry(walk, top.value, top.depth);
          return Err(pushed.error);
        }
        ResumeEntered(walk, rest, top.value, top.depth, results);
        pending := rest + [top.(visited := true)] + pushed.value;
        continue;
      }
      var built, below := BuildTop(json, top.value, results);
      if built.Err? {
        return Err(built.error);
      }
      pending, results := rest, below + [built.value];
    }
    if |results| != 1 {
      return Err(ExpressionStack);
    }
    return Ok(results[0]);
  }

  lemma LowerNone(json: JsonReader)
    ensures LowerAll(json, []) == Ok([])
  {
  }

  function Prepend(first: Result<Wire, Failure>, rest: Result<seq<Wire>, Failure>): Result<seq<Wire>, Failure> {
    var head :- first;
    var tail :- rest;
    Ok([head] + tail)
  }

  lemma LowerFew(json: JsonReader, vs: seq<Syntax>)
    requires 1 <= |vs|
    ensures LowerAll(json, vs) == Prepend(Lower(json, vs[0]), LowerAll(json, vs[1..]))
    ensures |vs| == 1 ==> LowerAll(json, vs) == Prepend(Lower(json, vs[0]), Ok([]))
  {
    hide Lower;
    if |vs| == 1 {
      assert vs[1..] == [];
    }
  }

  /** Lowering by way of the children the walk visits. */
  function LowerChildren(json: JsonReader, v: Syntax): Result<Wire, Failure> {
    if EnterBuilding(v).Some? then Err(EnterBuilding(v).value)
    else
      var parts :- LowerAll(json, BuildChildren(v));
      CombineWire(json, v, parts)
  }

  lemma LowerIn(json: JsonReader, v: Syntax)
    requires v.In?
    ensures Lower(json, v) == LowerChildren(json, v)
  {
    hide LowerAll;
    if v.values.List? {
      var vs, items := BuildChildren(v), v.values.items;
      assert vs == [v.expression] + items && vs[1..] == items;
      LowerFew(json, vs);
      var subject, values := Lower(json, v.expression), LowerAll(json, items);
      if subject.Ok? && values.Ok? {
        assert Lower(json, v) == Ok(Wire.In(subject.value, values.value, v.negated));
        assert ([subject.value] + values.value)[1..] == values.value;
      }
    }
  }

  /** Lowering the subject of BETWEEN a second time adds nothing. */
  lemma LowerBetween(json: JsonReader, v: Syntax)
    requires v.Between?
    ensures Lower(json, v) == LowerChildren(json, v)
  {
    hide LowerAll;
    var vs := BuildChildren(v);
    LowerFew(json, vs);
    LowerFew(json, vs[1..]);
    LowerFew(json, vs[1..][1..]);
    LowerFew(json, vs[1..][1..][1..]);
  }

  /** The recursion, child by child as the walk visits them. */
  lemma LowerByChildren(json: JsonReader, v: Syntax)
    ensures Lower(json, v) == LowerChildren(json, v)
  {
    hide CallName, Leaf, ToWireOp, LowerAll;
    var vs := BuildChildren(v);
    LowerNone(json);
    match v {
      case Call(_, _, _) =>
      case In(_, _, _) => LowerIn(json, v);
      case Between(_, _, _) => LowerBetween(json, v);
      case Binary(_, _, _) =>
        LowerFew(json, vs);
        LowerFew(json, vs[1..]);
      case _ =>
        if vs != [] {
          LowerFew(json, vs);
        }
    }
  }

  lemma BuildChildrenNest(v: Syntax, n: nat)
    requires NestsWithin(v, n)
    ensures forall i | 0 <= i < |BuildChildren(v)| ::
      BuildChildren(v)[i] < v && NestsWithin(BuildChildren(v)[i], n - 1)
  {
    hide NestsWithin;
    var children := Children(v);
    assert forall i | 0 <= i < |children| :: NestsWithin(children[i], n - 1) by {
      ChildrenNest(v, n);
    }
    if v.Between? {
      assert children[0] == v.expression && children[1] == v.low && children[2] == v.high;
    }
  }

  lemma ChildrenNest(v: Syntax, n: nat)
    requires NestsWithin(v, n)
    ensures n > 0 && forall i | 0 <= i < |Children(v)| :: NestsWithin(Children(v)[i], n - 1)
  {
  }

  /** Within the depth bound the building walk is the recursion. */
  lemma {:induction false} BuildIsLower(json: JsonReader, v: Syntax, depth: nat)
    requires 1 <= depth <= MAX_DEPTH && NestsWithin(v, MAX_DEPTH + 1 - depth)
    ensures Denote(Building(json), v, depth) == Lower(json, v)
    decreases v, 2, 0
  {
    hide Lower, LowerAll, BuildChildren, CombineWire, EnterBuilding, NestsWithin;
    BuildChildrenNest(v, MAX_DEPTH + 1 - depth);
    BuildAllIsLowerAll(json, v, BuildChildren(v), depth + 1);
    LowerByChildren(json, v);
  }

  lemma {:induction false} BuildAllIsLowerAll(json: JsonReader, parent: Syntax, vs: seq<Syntax>, depth: nat)
    requires 1 <= depth <= MAX_DEPTH + 1
    requires forall i | 0 <= i < |vs| :: vs[i] < parent && NestsWithin(vs[i], MAX_DEPTH + 1 - depth)
    ensures DenoteAll(Building(json), vs, depth) == LowerAll(json, vs)
    decreases parent, 1, |vs|
  {
    hide Lower, Denote;
    if vs != [] {
      BuildIsLower(json, vs[0], depth);
      BuildAllIsLowerAll(json, parent, vs[1..], depth);
    }
  }

  lemma BuildWithinBounds(json: JsonReader, v: Syntax)
    requires WithinBounds(v)
    ensures Denote(Building(json), v, 1) == Lower(json, v)
  {
    BuildIsLower(json, v, 1);
  }

  // ---------------------------------------------------------------------
  // What lowering promises
  // ---------------------------------------------------------------------

  /** What is wrong with this node itself. */
  ghost predicate FailsAt(json: JsonReader, v: Syntax, f: Failure) {
    match f
    case QuotedSymbol =>
      || (v.Call? && !IsIdentifier(v.name))
      || (v.Field? && exists i | 0 <= i < |v.parts| :: !IsIdentifier(v.parts[i]))
    case FunctionStar => v.Call? && IsIdentifier(v.name) && v.star && AsciiLower(v.name) != "count"
    case EmptyField => v == Field([])
    case ListLiteralContext => v.List?
    case InValues => v.In? && !v.values.List?
    case JsonLiteral(why) => v.Object? && json(v) == Err(why)
    case _ => false
  }

  ghost predicate SoundAt(json: JsonReader, v: Syntax) {
    forall f :: !FailsAt(json, v, f)
  }

  /** Nothing is wrong with any visited node. */
  ghost predicate Sound(json: JsonReader, v: Syntax)
    decreases v
  {
    SoundAt(json, v) && forall i | 0 <= i < |Children(v)| :: Sound(json, Children(v)[i])
  }

  /** `f` is what is wrong with the first node, in source order, that is not sound itself. */
  ghost predicate FirstFailure(json: JsonReader, v: Syntax, f: Failure)
    decreases v
  {
    || FailsAt(json, v, f)
    || (SoundAt(json, v)
        && exists i | 0 <= i < |Children(v)| ::
             FirstFailure(json, Children(v)[i], f) && AllSound(json, Children(v)[..i]))
  }

  ghost predicate FirstAmong(json: JsonReader, vs: seq<Syntax>, f: Failure) {
    exists i | 0 <= i < |vs| :: FirstFailure(json, vs[i], f) && AllSound(json, vs[..i])
  }

  ghost predicate AllSound(json: JsonReader, vs: seq<Syntax>) {
    forall i | 0 <= i < |vs| :: Sound(json, vs[i])
  }

  lemma {:induction false} LowerAllParts(json: JsonReader, vs: seq<Syntax>)
    ensures
      var all := LowerAll(json, vs);
      && (all.Ok? ==> forall i | 0 <= i < |vs| :: Lower(json, vs[i]) == Ok(all.value[i]))
      && (all.Err? ==> exists i | 0 <= i < |vs| :: Lower(json, vs[i]) == Err(all.error))
  {
    hide Lower;
    if vs != [] {
      LowerAllParts(json, vs[1..]);
      assert vs[0] == vs[0];
      forall i | 0 < i < |vs| ensures vs[i] == vs[1..][i - 1] {
      }
    }
  }

  /** What `LowerExact` says of one expression. */
  ghost predicate LowersExactly(json: JsonReader, v: Syntax, f: Failure) {
    && (Lower(json, v).Ok? <==> Sound(json, v))
    && (Lower(json, v) == Err(f) <==> FirstFailure(json, v, f))
  }

  lemma {:induction false} LowerAllExact(json: JsonReader, vs: seq<Syntax>, f: Failure)
    requires forall i | 0 <= i < |vs| :: LowersExactly(json, vs[i], f)
    ensures LowerAll(json, vs).Ok? <==> AllSound(json, vs)
    ensures LowerAll(json, vs) == Err(f) <==> FirstAmong(json, vs, f)
  {
    hide Lower, Sound, FirstFailure;
    if vs != [] {
      var rest := vs[1..];
      LowerAllExact(json, rest, f);
      assert LowersExactly(json, vs[0], f);
      assert AllSound(json, vs) <==> Sound(json, vs[0]) && AllSound(json, rest);
      FirstAmongCons(json, vs, f);
    }
  }

  lemma FirstAmongCons(json: JsonReader, vs: seq<Syntax>, f: Failure)
    requires vs != []
    ensures FirstAmong(json, vs, f)
       <==> FirstFailure(json, vs[0], f) || (Sound(json, vs[0]) && FirstAmong(json, vs[1..], f))
  {
    hide Sound, FirstFailure;
    var rest := vs[1..];
    if FirstFailure(json, vs[0], f) {
      assert AllSound(json, vs[..0]);
    }
    if i :| 0 < i < |vs| && FirstFailure(json, vs[i], f) && AllSound(json, vs[..i]) {
      assert vs[..i][0] == vs[0] && rest[i - 1] == vs[i];
      forall j | 0 <= j < i - 1 ensures Sound(json, rest[j]) {
        assert rest[j] == vs[..i][j + 1];
      }
    }
    if i :| Sound(json, vs[0]) && 0 <= i < |rest| && FirstFailure(json, rest[i], f) && AllSound(json, rest[..i]) {
      assert vs[i + 1] == rest[i];
      forall j | 0 <= j < i + 1 ensures Sound(json, vs[j]) {
        assert j > 0 ==> vs[j] == rest[..i][j - 1];
      }
    }
  }

  /** Lowering succeeds exactly on sound expressions, and fails exactly with the first failure. */
  lemma {:induction false} LowerExact(json: JsonReader, v: Syntax, f: Failure)
    ensures LowersExactly(json, v, f)
    decreases v
  {
    hide Lower, LowerAll, BuildChildren, Children, Sound, SoundAt, CombineWire, EnterBuilding, FirstFailure, FailsAt, FirstAmong, AllSound;
    var vs := BuildChildren(v);
    BuildChildrenSmaller(v);
    forall i | 0 <= i < |vs| ensures LowersExactly(json, vs[i], f) {
      LowerExact(json, vs[i], f);
    }
    LowerNone(json);
    LowerAllExact(json, vs, f);
    LowerByChildren(json, v);
    VisitedParts(json, v, f);
    NodeExact(json, v, LowerAll(json, vs), f);
    NodeSound(json, v, LowerAll(json, vs));
  }

  lemma BuildChildrenSmaller(v: Syntax)
    ensures forall i | 0 <= i < |BuildChildren(v)| :: BuildChildren(v)[i] < v
  {
    BetweenChildren(v);
  }

  lemma BetweenChildren(v: Syntax)
    ensures v.Between? ==> Children(v) == [v.expression, v.low, v.high]
  {
  }

  /** Soundness and first failure by the children the walk visits: the subject of BETWEEN again adds nothing. */
  lemma VisitedParts(json: JsonReader, v: Syntax, f: Failure)
    ensures Sound(json, v) <==> SoundAt(json, v) && AllSound(json, BuildChildren(v))
    ensures FirstFailure(json, v, f)
       <==> FailsAt(json, v, f) || (SoundAt(json, v) && FirstAmong(json, BuildChildren(v), f))
  {
    hide SoundAt, FailsAt, Children;
    var children, visited := Children(v), BuildChildren(v);
    BetweenChildren(v);
    FirstOfChildren(json, v, f);
    if v.Between? {
      assert visited == [children[0], children[1], children[0], children[2]];
      FirstOfRepeated(json, children, visited, f);
    } else {
      assert visited == children;
    }
  }

  lemma FirstOfChildren(json: JsonReader, v: Syntax, f: Failure)
    ensures Sound(json, v) <==> SoundAt(json, v) && AllSound(json, Children(v))
    ensures FirstFailure(json, v, f)
       <==> FailsAt(json, v, f) || (SoundAt(json, v) && FirstAmong(json, Children(v), f))
  {
    hide SoundAt, FailsAt, Children;
  }

  /** A part that comes again, after a first time, changes neither. */
  lemma FirstOfRepeated(json: JsonReader, parts: seq<Syntax>, visited: seq<Syntax>, f: Failure)
    requires |parts| == 3 && visited == [parts[0], parts[1], parts[0], parts[2]]
    ensures AllSound(json, parts) <==> AllSound(json, visited)
    ensures FirstAmong(json, parts, f) <==> FirstAmong(json, visited, f)
  {
    hide Sound, FirstFailure;
    FirstAmongCons(json, parts, f);
    FirstAmongCons(json, parts[1..], f);
    FirstAmongCons(json, visited, f);
    FirstAmongCons(json, visited[1..], f);
    FirstAmongCons(json, visited[2..], f);
    if Sound(json, parts[0]) {
      SoundNeverFails(json, parts[0], f);
    }
    assert parts[2..] == visited[3..];
    assert visited[1..][1..] == visited[2..] && visited[2..][1..] == visited[3..] && parts[1..][1..] == parts[2..];
    assert AllSound(json, visited) ==> forall i | 0 <= i < 4 :: Sound(json, visited[i]);
  }

  lemma {:induction false} SoundNeverFails(json: JsonReader, v: Syntax, f: Failure)
    requires Sound(json, v)
    ensures !FirstFailure(json, v, f)
    decreases v
  {
    hide FailsAt;
    forall i | 0 <= i < |Children(v)| ensures !FirstFailure(json, Children(v)[i], f) {
      SoundNeverFails(json, Children(v)[i], f);
    }
  }

  /** What source order is: operands from left to right, bounds after the subject, a call's name first. */
  lemma FailuresInSourceOrder(json: JsonReader, v: Syntax, f: Failure)
    ensures v.Binary? ==>
      (FirstFailure(json, v, f)
       <==> FirstFailure(json, v.left, f) || (Sound(json, v.left) && FirstFailure(json, v.right, f)))
    ensures v.Between? ==>
      (FirstFailure(json, v, f)
       <==> || FirstFailure(json, v.expression, f)
            || (Sound(json, v.expression) && FirstFailure(json, v.low, f))
            || (Sound(json, v.expression) && Sound(json, v.low) && FirstFailure(json, v.high, f)))
    ensures v.In? && v.values.List? ==>
      (FirstFailure(json, v, f)
       <==> FirstFailure(json, v.expression, f) || (Sound(json, v.expression) && FirstAmong(json, v.values.items, f)))
    ensures v.Call? ==>
      (FirstFailure(json, v, f)
       <==> FailsAt(json, v, f) || (SoundAt(json, v) && FirstAmong(json, v.arguments, f)))
  {
    var children := Children(v);
    FirstOfChildren(json, v, f);
    hide Sound, FirstFailure, AllSound, FirstAmong, IsIdentifier, AsciiLower;
    NothingAmong(json, f);
    if v.Binary? || v.Between? || (v.In? && v.values.List?) {
      assert SoundAt(json, v);
      FirstAmongCons(json, children, f);
      if v.In? {
        assert children[1..] == v.values.items;
      } else {
        FirstAmongCons(json, children[1..], f);
        if v.Between? {
          FirstAmongCons(json, children[1..][1..], f);
          assert children[1..][1..][1..] == [];
        } else {
          assert children[1..][1..] == [];
        }
      }
    }
  }

  lemma NothingAmong(json: JsonReader, f: Failure)
    ensures !FirstAmong(json, [], f)
  {
  }

  /** A node adds a failure exactly when one is true of it, before or after its children. */
  lemma NodeExact(json: JsonReader, v: Syntax, parts: Result<seq<Wire>, Failure>, f: Failure)
    requires if parts.Ok? then |parts.value| == |BuildChildren(v)| else BuildChildren(v) != []
    ensures EnterBuilding(v).Some? ==> (FailsAt(json, v, f) <==> EnterBuilding(v) == Some(f))
    ensures EnterBuilding(v) == None && parts.Ok? ==>
      (FailsAt(json, v, f) <==> CombineWire(json, v, parts.value) == Err(f))
    ensures EnterBuilding(v) == None && parts.Err? ==> !FailsAt(json, v, f)
  {
  }

  lemma NodeSound(json: JsonReader, v: Syntax, parts: Result<seq<Wire>, Failure>)
    requires if parts.Ok? then |parts.value| == |BuildChildren(v)| else BuildChildren(v) != []
    ensures SoundAt(json, v)
       <==> EnterBuilding(v) == None && (parts.Ok? ==> CombineWire(json, v, parts.value).Ok?)
    ensures SoundAt(json, v) ==> forall f :: !FailsAt(json, v, f)
  {
    hide FailsAt, CombineWire, EnterBuilding, BuildChildren;
    var failure :=
      if EnterBuilding(v).Some? then EnterBuilding(v)
      else if parts.Err? then None
      else match CombineWire(json, v, parts.value) case Ok(_) => None case Err(f) => Some(f);
    forall f ensures FailsAt(json, v, f) <==> failure == Some(f) {
      NodeExact(json, v, parts, f);
    }
    assert failure.Some? ==> FailsAt(json, v, failure.value);
  }

  function Extents(ts: seq<Wire>): seq<Shape> {
    seq(|ts|, i requires 0 <= i < |ts| => Extent(ts[i]))
  }

  lemma ExtentIsOver(t: Wire)
    ensures Extent(t) == Over(Extents(Subtrees(t)))
  {
    var subtrees := Subtrees(t);
    assert Extents(subtrees) == seq(|subtrees|, i requires 0 <= i < |subtrees| => Extent(subtrees[i]));
  }

  /** The shape that preflight computes is that of the tree that is built. */
  lemma {:induction false} ShapeOfLowered(json: JsonReader, v: Syntax)
    requires Lower(json, v).Ok?
    ensures Extent(Lower(json, v).value) == ShapeOf(v)
    decreases v
  {
    hide Lower, LowerAll, Children, BuildChildren, CombineWire, EnterBuilding, ShapeOf, Extent, Expanded;
    var vs := BuildChildren(v);
    LowerByChildren(json, v);
    BuildChildrenSmaller(v);
    LowerAllParts(json, vs);
    var parts := LowerAll(json, vs).value;
    forall i | 0 <= i < |vs| ensures Extent(parts[i]) == ShapeOf(vs[i]) {
      ShapeOfLowered(json, vs[i]);
    }
    assert Extents(parts) == ShapesOf(vs);
    BuiltExtent(json, v, parts);
    ShapeIsExpanded(v);
  }

  /** One node: the tree made of its parts has the shape preflight predicts for it. */
  lemma BuiltExtent(json: JsonReader, v: Syntax, parts: seq<Wire>)
    requires CombineWire(json, v, parts).Ok?
    requires Extents(parts) == ShapesOf(BuildChildren(v))
    ensures Extent(CombineWire(json, v, parts).value) == Expanded(v, ShapesOf(Children(v)))
  {
    hide Extent, ShapeOf, Over, ToWireOp, CallName;
    var t := CombineWire(json, v, parts).value;
    var predicted := ShapesOf(BuildChildren(v));
    assert |parts| == |predicted|;
    assert forall i | 0 <= i < |parts| :: Extent(parts[i]) == predicted[i];
    if v.Between? {
      BetweenExtent(parts[0], parts[1], parts[2], parts[3]);
    } else if !v.Group? {
      ExtentIsOver(t);
      BuiltSubtrees(json, v, parts);
    }
  }

  lemma BuiltSubtrees(json: JsonReader, v: Syntax, parts: seq<Wire>)
    requires CombineWire(json, v, parts).Ok? && !v.Between? && !v.Group?
    ensures Subtrees(CombineWire(json, v, parts).value) == parts
  {
    if v.In? {
      assert [parts[0]] + parts[1..] == parts;
    }
  }

  lemma BetweenExtent(left: Wire, low: Wire, right: Wire, high: Wire)
    requires Extent(left) == Extent(right)
    ensures
      var e, l, h := Extent(left), Extent(low), Extent(high);
      Extent(Wire.Binary(WireOp.And, Wire.Binary(Ge, left, low), Wire.Binary(Le, right, high)))
      == Shape(2 * e.nodes + l.nodes + h.nodes + 3, Max(Max(e.depth, l.depth), h.depth) + 2)
  {
    hide Extent, Over;
    var from, upto := Wire.Binary(Ge, left, low), Wire.Binary(Le, right, high);
    ExtentOfBinary(Ge, left, low);
    ExtentOfBinary(Le, right, high);
    ExtentOfBinary(WireOp.And, from, upto);
  }

  lemma ExtentOfBinary(op: WireOp, l: Wire, r: Wire)
    ensures Extent(Wire.Binary(op, l, r))
            == Shape(Extent(l).nodes + Extent(r).nodes + 1, Max(Extent(l).depth, Extent(r).depth) + 1)
  {
    hide Extent, Over;
    ExtentIsOver(Wire.Binary(op, l, r));
    OverFew(Extents([l, r]));
  }

  /** The first failure is about the source, never about a stack or a limit. */
  lemma {:induction false} FirstFailureKind(json: JsonReader, v: Syntax, f: Failure)
    requires FirstFailure(json, v, f)
    ensures !f.ExpressionStack? && !f.ExpressionDepth? && !f.ExpandedNodes? && !f.ExpandedDepth?
    decreases v
  {
    hide Sound, SoundAt;
    if !FailsAt(json, v, f) {
      var i :| 0 <= i < |Children(v)| && FirstFailure(json, Children(v)[i], f);
      FirstFailureKind(json, Children(v)[i], f);
    }
  }

  /**
   Lowering succeeds exactly on sound expressions within bounds, and then the
   tree is within bounds too.  Out of bounds the failure names a bound that is
   exceeded; within bounds it is exactly the first failure in source order.
   A stack never runs short.
   */
  lemma LoweringExact(json: JsonReader, v: Syntax)
    ensures Lowered(json, v).Ok? <==> WithinBounds(v) && Sound(json, v)
    ensures Lowered(json, v).Ok? ==> Extent(Lowered(json, v).value) == ShapeOf(v) && Fits(ShapeOf(v))
    ensures !WithinBounds(v) ==> Lowered(json, v).Err? && Overstepped(v, MAX_DEPTH, Lowered(json, v).error)
    ensures WithinBounds(v) ==> forall f :: Lowered(json, v) == Err(f) <==> FirstFailure(json, v, f)
    ensures Lowered(json, v) != Err(ExpressionStack)
  {
    hide Rejection, Lower, Sound, FirstFailure, InListed, NestsWithin, ShapeOf, Extent;
    PreflightExact(v);
    forall f ensures Lower(json, v) == Err(f) <==> FirstFailure(json, v, f) {
      LowerExact(json, v, f);
    }
    LowerExact(json, v, ExpressionStack);
    if Lower(json, v).Ok? {
      ShapeOfLowered(json, v);
    }
    if FirstFailure(json, v, ExpressionStack) {
      FirstFailureKind(json, v, ExpressionStack);
    }
  }

  // ---------------------------------------------------------------------
  // Towers of BETWEEN
  // ---------------------------------------------------------------------

  /** `k` BETWEENs, each the subject of the next, in parentheses. */
  function SubjectTower(k: nat, atom: Syntax): Syntax {
    if k == 0 then atom else Group(Between(SubjectTower(k - 1, atom), atom, atom))
  }

  /** `k` BETWEENs, each the lower bound of the next. */
  function BoundTower(k: nat, atom: Syntax): Syntax {
    if k == 0 then atom else Between(atom, BoundTower(k - 1, atom), atom)
  }

  function Power2(k: nat): (p: nat)
    ensures p > 0
  {
    if k == 0 then 1 else 2 * Power2(k - 1)
  }

  lemma ShapeOfBetween(e: Syntax, l: Syntax, h: Syntax)
    ensures ShapeOf(Between(e, l, h))
            == Shape(2 * ShapeOf(e).nodes + ShapeOf(l).nodes + ShapeOf(h).nodes + 3,
                     Max(Max(ShapeOf(e).depth, ShapeOf(l).depth), ShapeOf(h).depth) + 2)
  {
    hide ShapeOf;
    ShapeIsExpanded(Between(e, l, h));
  }

  lemma ShapeOfGroup(e: Syntax)
    ensures ShapeOf(Group(e)) == ShapeOf(e)
  {
    hide ShapeOf;
    ShapeIsExpanded(Group(e));
  }

  lemma {:induction false} SubjectTowerShape(k: nat, atom: Syntax)
    requires ShapeOf(atom) == Shape(1, 1)
    ensures ShapeOf(SubjectTower(k, atom)) == Shape(6 * Power2(k) - 5, 2 * k + 1)
  {
    hide ShapeOf;
    if k > 0 {
      var inner := SubjectTower(k - 1, atom);
      SubjectTowerShape(k - 1, atom);
      ShapeOfBetween(inner, atom, atom);
      ShapeOfGroup(Between(inner, atom, atom));
    }
  }

  lemma {:induction false} BoundTowerShape(k: nat, atom: Syntax)
    requires ShapeOf(atom) == Shape(1, 1)
    ensures ShapeOf(BoundTower(k, atom)) == Shape(6 * k + 1, 2 * k + 1)
  {
    hide ShapeOf;
    if k > 0 {
      BoundTowerShape(k - 1, atom);
      ShapeOfBetween(atom, BoundTower(k - 1, atom), atom);
    }
  }

  lemma {:induction false} SubjectTowerNests(k: nat, atom: Syntax, n: nat)
    requires Children(atom) == [] && EnterMeasuring(atom) == None
    ensures n >= 2 * k + 1 ==> NestsWithin(SubjectTower(k, atom), n)
    ensures InListed(SubjectTower(k, atom))
  {
    AtomNests(atom, n);
    if k > 0 {
      AtomNests(atom, if n > 2 then n - 2 else 0);
      SubjectTowerNests(k - 1, atom, if n > 2 then n - 2 else 0);
      var between := Between(SubjectTower(k - 1, atom), atom, atom);
      assert n >= 2 * k + 1 ==> NestsWithin(between, n - 1);
      assert InListed(between);
    }
  }

  lemma {:induction false} BoundTowerNests(k: nat, atom: Syntax, n: nat)
    requires Children(atom) == [] && EnterMeasuring(atom) == None
    ensures n >= k + 1 ==> NestsWithin(BoundTower(k, atom), n)
    ensures InListed(BoundTower(k, atom))
  {
    AtomNests(atom, n);
    if k > 0 {
      AtomNests(atom, if n > 1 then n - 1 else 0);
      BoundTowerNests(k - 1, atom, if n > 1 then n - 1 else 0);
    }
  }

  lemma AtomNests(atom: Syntax, n: nat)
    requires Children(atom) == [] && EnterMeasuring(atom) == None
    ensures n > 0 ==> NestsWithin(atom, n)
    ensures InListed(atom)
  {
  }

  lemma {:induction false} PowerGrows(a: nat, b: nat)
    requires a <= b
    ensures Power2(a) <= Power2(b)
  {
    if a < b {
      PowerGrows(a, b - 1);
    }
  }

  /**
   Where the bounds cut towers off.  Nesting in the subject doubles the tree, so
   ten levels pass and eleven do not; nesting in a bound only deepens it, by two
   for each level, so 63 pass and 64 do not.
   */
  lemma TowersAccepted(k: nat, atom: Syntax)
    requires Children(atom) == [] && EnterMeasuring(atom) == None
    ensures Rejection(SubjectTower(k, atom)) == None <==> k <= 10
    ensures Rejection(BoundTower(k, atom)) == None <==> k <= 63
  {
    hide Rejection, NestsWithin, InListed, ShapeOf;
    ShapeIsExpanded(atom);
    SubjectTowerNests(k, atom, MAX_DEPTH);
    BoundTowerNests(k, atom, MAX_DEPTH);
    SubjectTowerShape(k, atom);
    BoundTowerShape(k, atom);
    assert Power2(10) == 1024 && Power2(11) == 2048;
    PowerGrows(Min(k, 10), 10);
    PowerGrows(11, Max(k, 11));
    PreflightExact(SubjectTower(k, atom));
    PreflightExact(BoundTower(k, atom));
  }
}
