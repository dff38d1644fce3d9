/** The typed value algebra of src/value_ops.c, over nested structs. */
module ValueOps {
  import opened Common

  datatype ValOp = Add | Sub | Mul | Div | Lt | Lte | Gt | Gte

  datatype Field<D> = Field(name: string, value: Value<D>)

  datatype Value<D> =
    | Num(d: D)
    | Bool(b: bool)
    | Int64(i: int)
    | Timestamp(i: int)
    | Duration(i: int)
    | Text(s: string)
    | Array(elements: seq<Value<D>>)
    | Struct(fields: seq<Field<D>>)

  /** The double operations the algebra uses. */
  datatype Numbers<!D> = Numbers(
    add: (D, D) -> D, sub: (D, D) -> D, mul: (D, D) -> D, div: (D, D) -> D,
    lt: (D, D) -> bool, lte: (D, D) -> bool, isZero: D -> bool, fromInt: int -> D, round: D -> int)

  datatype Error = TypeMismatch | DivisionByZero

  /** The return values 1, 0 and -1 of the source. */
  datatype Outcome<D> = Done(value: Value<D>) | NotHandled | Failed(error: Error)

  predicate Compares(op: ValOp) { op == Lt || op == Lte || op == Gt || op == Gte }

  predicate Temporal(v: Value) { v.Timestamp? || v.Duration? }

  predicate ScalarOperand(v: Value) { v.Num? || v.Int64? || Temporal(v) }

  // ----- scalar cases -----

  function Checked<D>(n: int): Outcome<D> {
    if INT64_MIN <= n <= INT64_MAX then Done(Int64(n)) else Failed(TypeMismatch)
  }

  function IntOp<D>(op: ValOp, a: int, b: int): Outcome<D> {
    match op
    case Add => Checked(a + b)
    case Sub => Checked(a - b)
    case Mul => Checked(a * b)
    case Div =>
      if b == 0 then Failed(DivisionByZero)
      else if a == INT64_MIN && b == -1 then Failed(TypeMismatch)
      else Done(Int64(Quotient(a, b)))
    case Lt => Done(Bool(a < b))
    case Lte => Done(Bool(a <= b))
    case Gt => Done(Bool(a > b))
    case Gte => Done(Bool(a >= b))
  }

  function NumOp<D>(N: Numbers<D>, op: ValOp, a: D, b: D): Outcome<D> {
    match op
    case Add => Done(Num(N.add(a, b)))
    case Sub => Done(Num(N.sub(a, b)))
    case Mul => Done(Num(N.mul(a, b)))
    case Div => if N.isZero(b) then Failed(DivisionByZero) else Done(Num(N.div(a, b)))
    case Lt => Done(Bool(N.lt(a, b)))
    case Lte => Done(Bool(N.lte(a, b)))
    case Gt => Done(Bool(N.lt(b, a)))
    case Gte => Done(Bool(N.lte(b, a)))
  }

  function TemporalOp<D>(N: Numbers<D>, op: ValOp, a: Value<D>, b: Value<D>): Outcome<D> {
    match op
    case Add =>
      if (a.Timestamp? && b.Duration?) || (a.Duration? && b.Timestamp?) then Done(Timestamp(a.i + b.i))
      else if a.Duration? && b.Duration? then Done(Duration(a.i + b.i))
      else Failed(TypeMismatch)
    case Sub =>
      if a.Timestamp? && b.Timestamp? then Done(Duration(a.i - b.i))
      else if a.Timestamp? && b.Duration? then Done(Timestamp(a.i - b.i))
      else if a.Duration? && b.Duration? then Done(Duration(a.i - b.i))
      else Failed(TypeMismatch)
    case Mul =>
      if a.Duration? && b.Num? then Done(Duration(N.round(N.mul(N.fromInt(a.i), b.d))))
      else if a.Num? && b.Duration? then Done(Duration(N.round(N.mul(a.d, N.fromInt(b.i)))))
      else Failed(TypeMismatch)
    case Div =>
      if a.Duration? && b.Num? then
        if N.isZero(b.d) then Failed(DivisionByZero) else Done(Duration(N.round(N.div(N.fromInt(a.i), b.d))))
      else if a.Duration? && b.Duration? then
        if b.i == 0 then Failed(DivisionByZero) else Done(Num(N.div(N.fromInt(a.i), N.fromInt(b.i))))
      else Failed(TypeMismatch)
    case _ =>
      if (a.Timestamp? && b.Timestamp?) || (a.Duration? && b.Duration?) then
        Done(Bool(if op == Lt then a.i < b.i else if op == Lte then a.i <= b.i
                  else if op == Gt then a.i > b.i else a.i >= b.i))
      else Failed(TypeMismatch)
  }

  /** Two operands of which neither is a struct, inside a struct. */
  function ScalarOp<D>(N: Numbers<D>, op: ValOp, a: Value<D>, b: Value<D>): Outcome<D>
    requires !a.Struct? && !b.Struct?
  {
    if a.Int64? && b.Int64? then IntOp(op, a.i, b.i)
    else if a.Num? && b.Num? then NumOp(N, op, a.d, b.d)
    else if Temporal(a) || Temporal(b) then
      if a.Int64? || b.Int64? then Failed(TypeMismatch) else TemporalOp(N, op, a, b)
    else NotHandled
  }

  // ----- structs -----

  /** `cxpr_struct_find_field`: the first field of that name. */
  function FieldIndex<D>(fields: seq<Field<D>>, name: string): (r: Option<nat>)
    ensures r.None? <==> forall k | 0 <= k < |fields| :: fields[k].name != name
    ensures r.Some? ==> r.value < |fields| && fields[r.value].name == name
    ensures r.Some? ==> forall k | 0 <= k < r.value :: fields[k].name != name
  {
    if fields == [] then None
    else if fields[0].name == name then Some(0)
    else
      var rest := FieldIndex(fields[1..], name);
      assert forall k | 1 <= k < |fields| :: fields[k] == fields[1..][k - 1];
      if rest.None? then None else Some(rest.value + 1)
  }

  /** The fields that give the result its shape: the left operand's, if it is a struct. */
  function Shape<D>(a: Value<D>, b: Value<D>): seq<Field<D>>
    requires a.Struct? || b.Struct?
  {
    if a.Struct? then a.fields else b.fields
  }

  /** The operands that meet in field `i`, if the right operand has that field. */
  function Left<D>(a: Value<D>, b: Value<D>, i: nat): (v: Value<D>)
    requires (a.Struct? || b.Struct?) && i < |Shape(a, b)|
  {
    if a.Struct? then a.fields[i].value else a
  }

  function Right<D>(a: Value<D>, b: Value<D>, i: nat): (v: Option<Value<D>>)
    requires (a.Struct? || b.Struct?) && i < |Shape(a, b)|
  {
    if b.Struct? then
      var k := FieldIndex(b.fields, Shape(a, b)[i].name);
      if k.None? then None else Some(b.fields[k.value].value)
    else Some(b)
  }

  /** Field `i` of the result; a missing field is as good as one that cannot be combined. */
  function FieldResult<D>(N: Numbers<D>, op: ValOp, a: Value<D>, b: Value<D>, i: nat): Outcome<D>
    requires (a.Struct? || b.Struct?) && i < |Shape(a, b)|
    decreases a, b, 0
  {
    var right := Right(a, b, i);
    if right.None? then NotHandled else Impl(N, op, Left(a, b, i), right.value)
  }

  function FieldResults<D>(N: Numbers<D>, op: ValOp, a: Value<D>, b: Value<D>): (rs: seq<Outcome<D>>)
    requires a.Struct? || b.Struct?
    ensures |rs| == |Shape(a, b)|
    decreases a, b, 1
  {
    seq(|Shape(a, b)|, i requires 0 <= i < |Shape(a, b)| => FieldResult(N, op, a, b, i))
  }

  datatype Values<D> = Values(values: seq<Value<D>>) | Stopped(error: Error)

  /** The first `n` results, or the first error among them. */
  function Gathered<D>(rs: seq<Outcome<D>>, n: nat): (r: Values<D>)
    requires n <= |rs|
    ensures r.Values? <==> forall i | 0 <= i < n :: rs[i].Done?
    ensures r.Values? ==> |r.values| == n && forall i | 0 <= i < n :: r.values[i] == rs[i].value
  {
    if n == 0 then Values([])
    else
      var front := Gathered(rs, n - 1);
      if front.Stopped? then front
      else match rs[n - 1]
        case Done(v) => Values(front.values + [v])
        case NotHandled => Stopped(TypeMismatch)
        case Failed(e) => Stopped(e)
  }

  function Named<D>(shape: seq<Field<D>>, values: seq<Value<D>>): seq<Field<D>>
    requires |shape| == |values|
  {
    seq(|shape|, i requires 0 <= i < |shape| => Field(shape[i].name, values[i]))
  }

  predicate StructOperands(op: ValOp, a: Value, b: Value) {
    !Compares(op) && (a.Struct? || ScalarOperand(a)) && (b.Struct? || ScalarOperand(b))
  }

  function StructOp<D>(N: Numbers<D>, op: ValOp, a: Value<D>, b: Value<D>): Outcome<D>
    requires a.Struct? || b.Struct?
    decreases a, b, 2
  {
    if !StructOperands(op, a, b) then Failed(TypeMismatch)
    else
      var shape := Shape(a, b);
      match Gathered(FieldResults(N, op, a, b), |shape|)
      case Stopped(e) => Failed(e)
      case Values(values) =>
        if b.Struct? && |b.fields| != |shape| then Failed(TypeMismatch) else Done(Struct(Named(shape, values)))
  }

  /** `cxpr_value_binary_op_impl` */
  function Impl<D>(N: Numbers<D>, op: ValOp, a: Value<D>, b: Value<D>): Outcome<D>
    decreases a, b, 3
  {
    if a.Struct? || b.Struct? then StructOp(N, op, a, b) else ScalarOp(N, op, a, b)
  }

  /** `cxpr_value_binary_op` */
  function BinaryOp<D>(N: Numbers<D>, op: ValOp, a: Value<D>, b: Value<D>): Outcome<D> {
    if !Temporal(a) && !Temporal(b) && !a.Struct? && !b.Struct? && !a.Int64? && !b.Int64? then NotHandled
    else if a.Int64? || b.Int64? then
      if a.Int64? && b.Int64? then Impl(N, op, a, b) else Failed(TypeMismatch)
    else if a.Struct? || b.Struct? then StructOp(N, op, a, b)
    else TemporalOp(N, op, a, b)
  }

  // ----- the loops -----

  /** An error in a field is the error of the struct. */
  lemma {:induction false} StopsForGood<D>(rs: seq<Outcome<D>>, i: nat, n: nat)
    requires i <= n <= |rs| && Gathered(rs, i).Stopped?
    ensures Gathered(rs, n) == Gathered(rs, i)
  {
    if i < n {
      StopsForGood(rs, i, n - 1);
    }
  }

  method FindField<D>(fields: seq<Field<D>>, name: string) returns (r: Option<Value<D>>)
    ensures r == var k := FieldIndex(fields, name); if k.None? then None else Some(fields[k.value].value)
    ensures r.Some? ==> exists k :: 0 <= k < |fields| && r.value == fields[k].value
  {
    for i := 0 to |fields|
      invariant forall k | 0 <= k < i :: fields[k].name != name
    {
      if fields[i].name == name {
        return Some(fields[i].value);
      }
    }
    r := None;
  }

  /** One field of the result. */
  method CombineField<D>(N: Numbers<D>, op: ValOp, a: Value<D>, b: Value<D>, i: nat) returns (r: Outcome<D>)
    requires (a.Struct? || b.Struct?) && i < |Shape(a, b)|
    ensures r == FieldResult(N, op, a, b, i)
    decreases a, b, 0
  {
    var right := Some(b);
    if b.Struct? {
      right := FindField(b.fields, Shape(a, b)[i].name);
    }
    assert right == Right(a, b, i);
    if right.None? {
      return NotHandled;
    }
    r := BinaryOpImpl(N, op, if a.Struct? then a.fields[i].value else a, right.value);
  }

  /** The field loop of `cxpr_value_struct_binary_op`, which stops at the first error. */
  method CombineFields<D>(N: Numbers<D>, op: ValOp, a: Value<D>, b: Value<D>) returns (r: Values<D>)
    requires a.Struct? || b.Struct?
    ensures r == Gathered(FieldResults(N, op, a, b), |Shape(a, b)|)
    decreases a, b, 1
  {
    var n, values := |Shape(a, b)|, [];
    ghost var rs := FieldResults(N, op, a, b);
    for i := 0 to n
      invariant Gathered(rs, i) == Values(values)
    {
      var field := CombineField(N, op, a, b, i);
      assert rs[i] == field;
      if !field.Done? {
        StopsForGood(rs, i + 1, n);
        return Stopped(if field.Failed? then field.error else TypeMismatch);
      }
      values := values + [field.value];
    }
    r := Values(values);
  }

  /** `cxpr_value_struct_binary_op` */
  method StructBinaryOp<D>(N: Numbers<D>, op: ValOp, a: Value<D>, b: Value<D>) returns (r: Outcome<D>)
    requires a.Struct? || b.Struct?
    ensures r == StructOp(N, op, a, b)
    decreases a, b, 2
  {
    if !StructOperands(op, a, b) {
      return Failed(TypeMismatch);
    }
    var fields := CombineFields(N, op, a, b);
    if fields.Stopped? {
      return Failed(fields.error);
    }
    if b.Struct? && |b.fields| != |Shape(a, b)| {
      return Failed(TypeMismatch);
    }
    r := Done(Struct(Named(Shape(a, b), fields.values)));
  }

  /** `cxpr_value_binary_op_impl` as it runs. */
  method BinaryOpImpl<D>(N: Numbers<D>, op: ValOp, a: Value<D>, b: Value<D>) returns (r: Outcome<D>)
    ensures r == Impl(N, op, a, b)
    decreases a, b, 3
  {
    if a.Struct? || b.Struct? {
      r := StructBinaryOp(N, op, a, b);
    } else {
      r := ScalarOp(N, op, a, b);
    }
  }
}
