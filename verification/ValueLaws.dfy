/** What the typed value operations compute: undoing, order and real arithmetic. */
module ValueLaws {
  import opened Common
  import opened ValueOps

  // ----- structs, field by field -----

  /** A successful operation on a struct has its fields, combined one by one. */
  lemma StructDone<D>(N: Numbers<D>, op: ValOp, a: Value<D>, b: Value<D>)
    requires a.Struct? && Impl(N, op, a, b).Done?
    ensures var c := Impl(N, op, a, b).value;
            && c.Struct? && |c.fields| == |a.fields| && StructOperands(op, a, b)
            && (b.Struct? ==> |b.fields| == |a.fields|)
            && forall i | 0 <= i < |a.fields| ::
                 && c.fields[i].name == a.fields[i].name && Right(a, b, i).Some?
                 && Impl(N, op, a.fields[i].value, Right(a, b, i).value) == Done(c.fields[i].value)
  {
    var rs := FieldResults(N, op, a, b);
    forall i | 0 <= i < |a.fields|
      ensures rs[i].Done? && Right(a, b, i).Some?
      ensures Impl(N, op, a.fields[i].value, Right(a, b, i).value) == rs[i]
    {
      assert rs[i] == FieldResult(N, op, a, b, i);
    }
  }

  /** And if every field combines to the field of `r`, the struct combines to `r`. */
  lemma StructGives<D>(N: Numbers<D>, op: ValOp, a: Value<D>, b: Value<D>, r: Value<D>)
    requires a.Struct? && r.Struct? && |r.fields| == |a.fields| && StructOperands(op, a, b)
    requires b.Struct? ==> |b.fields| == |a.fields|
    requires forall i | 0 <= i < |a.fields| ::
               && r.fields[i].name == a.fields[i].name && Right(a, b, i).Some?
               && Impl(N, op, a.fields[i].value, Right(a, b, i).value) == Done(r.fields[i].value)
    ensures Impl(N, op, a, b) == Done(r)
  {
    var rs := FieldResults(N, op, a, b);
    forall i | 0 <= i < |a.fields| ensures rs[i] == Done(r.fields[i].value) {
      assert rs[i] == FieldResult(N, op, a, b, i);
    }
    var values := Gathered(rs, |a.fields|).values;
    assert Named(a.fields, values) == r.fields;
  }

  // ----- addition and subtraction undo each other -----

  /** The right operand is nowhere a struct where the left one is a scalar. */
  ghost predicate Covers<D>(a: Value<D>, b: Value<D>)
    decreases a
  {
    if a.Struct?
    then forall i | 0 <= i < |a.fields| && Right(a, b, i).Some? :: Covers(a.fields[i].value, Right(a, b, i).value)
    else !b.Struct?
  }

  /** Every int64 inside fits its type. */
  ghost predicate Sized<D>(v: Value<D>) {
    && (v.Int64? ==> INT64_MIN <= v.i <= INT64_MAX)
    && (v.Struct? ==> forall i | 0 <= i < |v.fields| :: Sized(v.fields[i].value))
  }

  ghost predicate Undoes<D(!new)>(f: (D, D) -> D, g: (D, D) -> D) {
    forall x: D, y: D :: g(f(x, y), y) == x
  }

  ghost predicate Inverse<D(!new)>(N: Numbers<D>, op: ValOp, inverse: ValOp) {
    || (op == Sub && inverse == Add && Undoes(N.sub, N.add))
    || (op == Add && inverse == Sub && Undoes(N.add, N.sub))
  }

  lemma ScalarUndone<D(!new)>(N: Numbers<D>, op: ValOp, inverse: ValOp, a: Value<D>, b: Value<D>)
    requires Inverse(N, op, inverse)
    requires !a.Struct? && !b.Struct? && Sized(a) && ScalarOp(N, op, a, b).Done?
    ensures var c := ScalarOp(N, op, a, b).value;
            !c.Struct? && ScalarOp(N, inverse, c, b) == Done(a)
  {
    if a.Num? && b.Num? {
      var c := NumOp(N, op, a.d, b.d).value;
      assert NumOp(N, inverse, c.d, b.d) == Done(a);
    } else if !(a.Int64? && b.Int64?) {
      TemporalUndone(N, op, inverse, a, b);
    }
  }

  lemma TemporalUndone<D>(N: Numbers<D>, op: ValOp, inverse: ValOp, a: Value<D>, b: Value<D>)
    requires (op == Add && inverse == Sub) || (op == Sub && inverse == Add)
    requires TemporalOp(N, op, a, b).Done?
    ensures var c := TemporalOp(N, op, a, b).value;
            Temporal(c) && Temporal(a) && Temporal(b) && TemporalOp(N, inverse, c, b) == Done(a)
  {
  }

  /**
   What was subtracted can be added back, and what was added can be subtracted: for numbers whose
   operations undo each other, int64, timestamps, durations and structs of them at every depth.
   */
  lemma {:induction false} Undone<D(!new)>(N: Numbers<D>, op: ValOp, inverse: ValOp, a: Value<D>, b: Value<D>)
    requires Inverse(N, op, inverse)
    requires Covers(a, b) && Sized(a) && Impl(N, op, a, b).Done?
    ensures Impl(N, inverse, Impl(N, op, a, b).value, b) == Done(a)
    decreases a
  {
    if !a.Struct? {
      ScalarUndone(N, op, inverse, a, b);
    } else {
      StructDone(N, op, a, b);
      var c := Impl(N, op, a, b).value;
      forall i | 0 <= i < |a.fields|
        ensures Right(c, b, i) == Right(a, b, i)
        ensures Impl(N, inverse, c.fields[i].value, Right(a, b, i).value) == Done(a.fields[i].value)
      {
        Undone(N, op, inverse, a.fields[i].value, Right(a, b, i).value);
      }
      StructGives(N, inverse, c, b, a);
    }
  }

  // ----- division undoes multiplication -----

  /** Numbers and int64 values, and structs of them. */
  ghost predicate Plain<D>(v: Value<D>) {
    if v.Struct? then forall i | 0 <= i < |v.fields| :: Plain(v.fields[i].value) else v.Num? || v.Int64?
  }

  ghost predicate DividesBack<D(!new)>(N: Numbers<D>) {
    forall x: D, y: D :: !N.isZero(y) ==> N.div(N.mul(x, y), y) == x
  }

  lemma QuotientOfProduct(x: int, y: int)
    requires y != 0
    ensures Quotient(x * y, y) == x
  {
    var p := x * y;
    if p >= 0 {
      DivisionIs(p, y, x, p / y, p % y);
    } else {
      assert -p == (-x) * y;
      DivisionIs(-p, y, -x, (-p) / y, (-p) % y);
    }
  }

  lemma DivisionIs(p: int, y: int, x: int, q: int, r: int)
    requires y != 0 && p == x * y && p == q * y + r && 0 <= r < (if y < 0 then -y else y)
    ensures q == x
  {
    var k := x - q;
    assert k * y == r;
    if k != 0 {
      MulMonotone(1, if k < 0 then -k else k, if y < 0 then -y else y);
    }
  }

  lemma ScalarDividedBack<D(!new)>(N: Numbers<D>, a: Value<D>, b: Value<D>)
    requires DividesBack(N) && !a.Struct? && !b.Struct? && Plain(a) && ScalarOp(N, Mul, a, b).Done? && Plain(b)
    ensures var c := ScalarOp(N, Mul, a, b).value;
            !c.Struct? && (ScalarOp(N, Div, c, b).Done? ==> ScalarOp(N, Div, c, b) == Done(a))
  {
    if a.Int64? && b.Int64? && b.i != 0 {
      QuotientOfProduct(a.i, b.i);
    }
  }

  /** A product divided by its right factor is the left factor, wherever that factor has no zero. */
  lemma {:induction false} DividedBack<D(!new)>(N: Numbers<D>, a: Value<D>, b: Value<D>)
    requires DividesBack(N) && Covers(a, b) && Plain(a) && Plain(b) && Impl(N, Mul, a, b).Done?
    requires Impl(N, Div, Impl(N, Mul, a, b).value, b).Done?
    ensures Impl(N, Div, Impl(N, Mul, a, b).value, b) == Done(a)
    decreases a
  {
    if !a.Struct? {
      ScalarDividedBack(N, a, b);
    } else {
      StructDone(N, Mul, a, b);
      var c := Impl(N, Mul, a, b).value;
      StructDone(N, Div, c, b);
      forall i | 0 <= i < |a.fields|
        ensures Right(c, b, i) == Right(a, b, i)
        ensures Impl(N, Div, c.fields[i].value, Right(a, b, i).value) == Done(a.fields[i].value)
      {
        RightPlain(a, b, i);
        DividedBack(N, a.fields[i].value, Right(a, b, i).value);
      }
      StructGives(N, Div, c, b, a);
    }
  }

  lemma RightPlain<D>(a: Value<D>, b: Value<D>, i: nat)
    requires a.Struct? && i < |a.fields| && Right(a, b, i).Some? && Plain(b)
    ensures Plain(Right(a, b, i).value)
  {
  }

  // ----- order -----

  /** Values of one ordered type. */
  predicate Comparable<D>(a: Value<D>, b: Value<D>) {
    (a.Int64? && b.Int64?) || (a.Timestamp? && b.Timestamp?) || (a.Duration? && b.Duration?)
  }

  predicate Holds<D>(N: Numbers<D>, op: ValOp, a: Value<D>, b: Value<D>) {
    Impl(N, op, a, b) == Done(Bool(true))
  }

  /** Int64 values, timestamps and durations are ordered as integers; all other pairs but numbers are not compared. */
  lemma OrderIsInteger<D>(N: Numbers<D>, a: Value<D>, b: Value<D>)
    ensures Comparable(a, b) ==>
              && Impl(N, Lt, a, b) == Done(Bool(a.i < b.i)) && Impl(N, Lte, a, b) == Done(Bool(a.i <= b.i))
              && Impl(N, Gt, a, b) == Done(Bool(b.i < a.i)) && Impl(N, Gte, a, b) == Done(Bool(b.i <= a.i))
    ensures !Comparable(a, b) && !(a.Num? && b.Num?) ==> forall op | Compares(op) :: !Impl(N, op, a, b).Done?
  {
  }

  /** Wherever values compare, the four comparisons fit each other. */
  lemma ComparisonsAgree<D(!new)>(N: Numbers<D>, a: Value<D>, b: Value<D>)
    requires Comparable(a, b) || (a.Num? && b.Num?)
    ensures Holds(N, Gt, a, b) <==> Holds(N, Lt, b, a)
    ensures Holds(N, Gte, a, b) <==> Holds(N, Lte, b, a)
    ensures Comparable(a, b) ==> (Holds(N, Lt, a, b) <==> !Holds(N, Gte, a, b))
    ensures Comparable(a, b) ==> (Holds(N, Lte, a, b) <==> !Holds(N, Gt, a, b))
    ensures Comparable(a, b) ==> (Holds(N, Lte, a, b) && Holds(N, Gte, a, b) <==> a == b)
  {
  }

  // ----- over the real numbers -----

  /** The nearest integer, halves away from zero. */
  function Round(x: real): int { if x < 0.0 then -((0.5 - x).Floor) else (x + 0.5).Floor }

  lemma RoundNearest(x: real)
    ensures -0.5 <= x - Round(x) as real <= 0.5
    ensures x >= 0.0 ==> x - (Round(x) as real) < 0.5
    ensures x <= 0.0 ==> x - (Round(x) as real) > -0.5
  {
  }

  function Product(x: real, y: real): real { x * y }

  function Ratio(x: real, y: real): real { if y == 0.0 then 0.0 else x / y }

  function RealNumbers(): Numbers<real> {
    Numbers(
      (x: real, y: real) => x + y, (x: real, y: real) => x - y, Product, Ratio,
      (x: real, y: real) => x < y, (x: real, y: real) => x <= y,
      (x: real) => x == 0.0, (n: int) => n as real, Round)
  }

  /** Two numbers inside a struct are combined as reals, and nothing is divided by zero. */
  lemma NumbersOverReals(x: real, y: real)
    ensures var N, a, b := RealNumbers(), Num(x), Num(y);
            && Impl(N, Add, a, b) == Done(Num(x + y)) && Impl(N, Sub, a, b) == Done(Num(x - y))
            && Impl(N, Mul, a, b) == Done(Num(x * y))
            && Impl(N, Div, a, b) == (if y == 0.0 then Failed(DivisionByZero) else Done(Num(x / y)))
            && Impl(N, Lt, a, b) == Done(Bool(x < y)) && Impl(N, Lte, a, b) == Done(Bool(x <= y))
            && Impl(N, Gt, a, b) == Done(Bool(x > y)) && Impl(N, Gte, a, b) == Done(Bool(x >= y))
  {
  }

  /** Times and spans, at top level: what each pair of types gives. */
  lemma TimesOverReals(s: int, t: int, x: real)
    ensures var N, time, span, number := RealNumbers(), Timestamp(s), Duration(t), Num(x);
            && BinaryOp(N, Add, time, span) == Done(Timestamp(s + t)) == BinaryOp(N, Add, span, time)
            && BinaryOp(N, Sub, time, span) == Done(Timestamp(s - t)) && !BinaryOp(N, Sub, span, time).Done?
            && BinaryOp(N, Mul, span, number) == Done(Duration(Round(t as real * x))) == BinaryOp(N, Mul, number, span)
            && BinaryOp(N, Div, span, number)
               == (if x == 0.0 then Failed(DivisionByZero) else Done(Duration(Round(t as real / x))))
            && !BinaryOp(N, Div, number, span).Done?
  {
    var N := RealNumbers();
    assert Product(t as real, x) == t as real * x == Product(x, t as real);
    assert N.mul(N.fromInt(t), x) == Product(t as real, x) && N.mul(x, N.fromInt(t)) == Product(x, t as real);
    assert N.round(Product(t as real, x)) == Round(Product(t as real, x));
  }

  lemma SpansOverReals(s: int, t: int)
    ensures var N, x, y := RealNumbers(), Duration(s), Duration(t);
            && BinaryOp(N, Add, x, y) == Done(Duration(s + t)) && BinaryOp(N, Sub, x, y) == Done(Duration(s - t))
            && BinaryOp(N, Div, x, y) == (if t == 0 then Failed(DivisionByZero) else Done(Num(s as real / t as real)))
            && !BinaryOp(N, Mul, x, y).Done?
    ensures var N, x, y := RealNumbers(), Timestamp(s), Timestamp(t);
            && BinaryOp(N, Sub, x, y) == Done(Duration(s - t)) && !BinaryOp(N, Add, x, y).Done?
            && !BinaryOp(N, Mul, x, y).Done? && !BinaryOp(N, Div, x, y).Done?
  {
  }

  /** The reals have all the laws used above. */
  lemma RealsUndo()
    ensures var N := RealNumbers(); Undoes(N.sub, N.add) && Undoes(N.add, N.sub) && DividesBack(N)
  {
    var N := RealNumbers();
    forall x: real, y: real | !N.isZero(y) ensures N.div(N.mul(x, y), y) == x {
      assert Ratio(Product(x, y), y) == x;
    }
  }

  // ----- scalars against structs, and errors -----

  ghost predicate NumberFields(fields: seq<Field<real>>) {
    && (forall i | 0 <= i < |fields| :: fields[i].value.Num?)
    && (forall i, j | 0 <= i < j < |fields| :: fields[i].name != fields[j].name)
  }

  /** A struct whose fields are the values of `f`. */
  ghost predicate HasFields(v: Value<real>, fields: seq<Field<real>>, f: real -> real)
    requires NumberFields(fields)
  {
    && v.Struct? && |v.fields| == |fields|
    && forall i | 0 <= i < |fields| :: v.fields[i] == Field(fields[i].name, Num(f(fields[i].value.d)))
  }

  /** A number on the left of a struct of numbers meets every field as the left operand. */
  lemma ScalarMeetsFields(op: ValOp, x: real, fields: seq<Field<real>>)
    requires !Compares(op) && op != Div && NumberFields(fields)
    ensures var r := Impl(RealNumbers(), op, Num(x), Struct(fields));
            r.Done? && HasFields(r.value, fields, y => Compute(op, x, y))
  {
    var N, a, s := RealNumbers(), Num(x), Struct(fields);
    var values := seq(|fields|, i requires 0 <= i < |fields| => Num(Compute(op, x, fields[i].value.d)));
    forall i | 0 <= i < |fields| ensures FieldResult(N, op, a, s, i) == Done(values[i]) {
      NumbersOverReals(x, fields[i].value.d);
      assert FieldIndex(fields, fields[i].name) == Some(i);
      assert Right(a, s, i) == Some(fields[i].value);
    }
    FieldsGive(N, op, a, s, values);
  }

  /** And on the right, as the right operand. */
  lemma FieldsMeetScalar(op: ValOp, x: real, fields: seq<Field<real>>)
    requires !Compares(op) && op != Div && NumberFields(fields)
    ensures var r := Impl(RealNumbers(), op, Struct(fields), Num(x));
            r.Done? && HasFields(r.value, fields, y => Compute(op, y, x))
  {
    var N, a, s := RealNumbers(), Num(x), Struct(fields);
    var values := seq(|fields|, i requires 0 <= i < |fields| => Num(Compute(op, fields[i].value.d, x)));
    forall i | 0 <= i < |fields| ensures FieldResult(N, op, s, a, i) == Done(values[i]) {
      NumbersOverReals(fields[i].value.d, x);
      assert Right(s, a, i) == Some(a);
    }
    FieldsGive(N, op, s, a, values);
  }

  /** If every field combines, the struct has the combined fields. */
  lemma FieldsGive<D>(N: Numbers<D>, op: ValOp, a: Value<D>, b: Value<D>, values: seq<Value<D>>)
    requires (a.Struct? || b.Struct?) && StructOperands(op, a, b) && |values| == |Shape(a, b)|
    requires b.Struct? ==> |b.fields| == |values|
    requires forall i | 0 <= i < |values| :: FieldResult(N, op, a, b, i) == Done(values[i])
    ensures Impl(N, op, a, b) == Done(Struct(Named(Shape(a, b), values)))
  {
    var rs := FieldResults(N, op, a, b);
    forall i | 0 <= i < |values| ensures rs[i] == Done(values[i]) {
      assert rs[i] == FieldResult(N, op, a, b, i);
    }
    assert Gathered(rs, |rs|).values == values;
  }

  function Compute(op: ValOp, x: real, y: real): real {
    if op == Add then x + y else if op == Sub then x - y else x * y
  }

  /** Other scalars do not meet structs, and structs are not compared. */
  lemma RefusedByStructs<D>(N: Numbers<D>, op: ValOp, v: Value<D>, s: Value<D>)
    requires s.Struct?
    ensures v.Bool? || v.Text? || v.Array? ==>
              Impl(N, op, v, s) == Failed(TypeMismatch) == Impl(N, op, s, v)
    ensures Compares(op) ==> Impl(N, op, v, s) == Failed(TypeMismatch) == Impl(N, op, s, v)
  {
  }

  /** The error of a struct is that of its first field that fails; a field that cannot be combined is a type error. */
  lemma FirstErrorReported<D>(N: Numbers<D>, op: ValOp, a: Value<D>, b: Value<D>, i: nat)
    requires a.Struct? && StructOperands(op, a, b) && i < |a.fields|
    requires forall j | 0 <= j < i ::
               Right(a, b, j).Some? && Impl(N, op, a.fields[j].value, Right(a, b, j).value).Done?
    requires Right(a, b, i).Some? ==> !Impl(N, op, a.fields[i].value, Right(a, b, i).value).Done?
    ensures Impl(N, op, a, b)
         == if Right(a, b, i).Some? && Impl(N, op, a.fields[i].value, Right(a, b, i).value).Failed?
            then Impl(N, op, a.fields[i].value, Right(a, b, i).value) else Failed(TypeMismatch)
  {
    var rs := FieldResults(N, op, a, b);
    forall j | 0 <= j <= i ensures rs[j] == FieldResult(N, op, a, b, j) {
    }
    GatheredStops(rs, i);
  }

  lemma GatheredStops<D>(rs: seq<Outcome<D>>, i: nat)
    requires i < |rs| && !rs[i].Done? && forall j | 0 <= j < i :: rs[j].Done?
    ensures Gathered(rs, |rs|) == Stopped(if rs[i].Failed? then rs[i].error else TypeMismatch)
  {
    assert Gathered(rs, i).Values?;
    StopsForGood(rs, i + 1, |rs|);
  }

  /** Int64 operations fail on a zero divisor with its own error, and beyond 64 bits with a type error. */
  lemma IntErrors<D>(N: Numbers<D>, op: ValOp, a: int, b: int)
    ensures Impl(N, op, Int64(a), Int64(b)).Failed? ==>
              Impl(N, op, Int64(a), Int64(b)) == Failed(if op == Div && b == 0 then DivisionByZero else TypeMismatch)
    ensures Impl(N, Div, Int64(a), Int64(0)) == Failed(DivisionByZero)
  {
  }
}
