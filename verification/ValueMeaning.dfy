/** What struct arithmetic means: the fieldwise operation on maps, at every depth. */
module ValueMeaning {
  import opened Common
  import opened ValueOps

  /** A value without field order. */
  datatype Tree<D> = Leaf(v: Value<D>) | Node(m: map<string, Tree<D>>)

  /** Field names are distinct, in the value and in every struct inside it. */
  ghost predicate NamesOnce<D>(v: Value<D>) {
    v.Struct? ==>
      && DistinctNames(v.fields)
      && (forall i | 0 <= i < |v.fields| :: NamesOnce(v.fields[i].value))
  }

  ghost function Abs<D(!new)>(v: Value<D>): Tree<D> {
    if v.Struct?
    then Node(map k | k in NameSet(v.fields) :: Abs(v.fields[FieldIndex(v.fields, k).value].value))
    else Leaf(v)
  }

  ghost function NameSet<D>(fields: seq<Field<D>>): (names: set<string>)
    ensures forall k :: k in names <==> FieldIndex(fields, k).Some?
  {
    set i | 0 <= i < |fields| :: fields[i].name
  }

  /** What an operand contributes to field `k`: its own field, or the whole scalar. */
  ghost function Part<D>(s: Tree<D>, k: string): Tree<D>
    requires s.Node? ==> k in s.m
  {
    if s.Node? then s.m[k] else s
  }

  /**
   The operation on trees: structs of the same names combine field by field, a scalar combines with
   every field of a struct.
   */
  ghost function TreeOp<D(!new)>(N: Numbers<D>, op: ValOp, s: Tree<D>, t: Tree<D>): (r: Option<Tree<D>>)
    decreases s, t
  {
    if s.Leaf? && t.Leaf? then
      if s.v.Struct? || t.v.Struct? then None
      else
        var r := ScalarOp(N, op, s.v, t.v);
        if r.Done? then Some(Leaf(r.value)) else None
    else if Compares(op) || (s.Leaf? && !ScalarOperand(s.v)) || (t.Leaf? && !ScalarOperand(t.v)) then None
    else if s.Node? && t.Node? && s.m.Keys != t.m.Keys then None
    else
      var keys := if s.Node? then s.m.Keys else t.m.Keys;
      if forall k | k in keys :: TreeOp(N, op, Part(s, k), Part(t, k)).Some?
      then Some(Node(map k | k in keys :: TreeOp(N, op, Part(s, k), Part(t, k)).value))
      else None
  }

  // ----- names -----

  predicate DistinctNames<D>(fields: seq<Field<D>>) {
    forall i, j | 0 <= i < j < |fields| :: fields[i].name != fields[j].name
  }

  lemma IndexOfOwnName<D>(fields: seq<Field<D>>, i: nat)
    requires DistinctNames(fields) && i < |fields|
    ensures FieldIndex(fields, fields[i].name) == Some(i)
  {
  }

  lemma NameIn<D>(fields: seq<Field<D>>, i: nat)
    requires i < |fields|
    ensures fields[i].name in NameSet(fields)
  {
  }

  lemma NamesSnoc<D>(front: seq<Field<D>>, last: Field<D>)
    ensures NameSet(front + [last]) == NameSet(front) + {last.name}
  {
    var fields := front + [last];
    forall k | k in NameSet(fields) ensures k in NameSet(front) + {last.name} {
      var i := FieldIndex(fields, k).value;
      if i < |front| {
        NameIn(front, i);
      }
    }
    forall k | k in NameSet(front) + {last.name} ensures k in NameSet(fields) {
      NameIn(fields, if k == last.name then |front| else FieldIndex(front, k).value);
    }
  }

  lemma {:induction false} NamesCounted<D>(fields: seq<Field<D>>)
    requires DistinctNames(fields)
    ensures |NameSet(fields)| == |fields|
  {
    if fields != [] {
      var front, last := fields[..|fields| - 1], fields[|fields| - 1];
      NamesCounted(front);
      assert FieldIndex(front, last.name).None?;
      assert fields == front + [last];
      NamesSnoc(front, last);
    }
  }

  lemma SubsetSameSize(xs: set<string>, ys: set<string>)
    requires xs <= ys && |xs| == |ys|
    ensures xs == ys
  {
    if xs != ys {
      var y :| y in ys && y !in xs;
      CardinalityMonotone(xs, ys - {y});
    }
  }

  /** With distinct names, the count check is what makes one inclusion of names enough. */
  lemma CountDecidesNames<D>(a: seq<Field<D>>, b: seq<Field<D>>)
    requires DistinctNames(a) && DistinctNames(b)
    ensures NameSet(a) == NameSet(b) <==> |a| == |b| && NameSet(a) <= NameSet(b)
  {
    NamesCounted(a);
    NamesCounted(b);
    if |a| == |b| && NameSet(a) <= NameSet(b) {
      SubsetSameSize(NameSet(a), NameSet(b));
    }
  }

  // ----- refinement -----

  ghost predicate Refines<D(!new)>(N: Numbers<D>, op: ValOp, a: Value<D>, b: Value<D>) {
    var r, t := Impl(N, op, a, b), TreeOp(N, op, Abs(a), Abs(b));
    && (r.Done? <==> t.Some?)
    && (r.Done? ==> NamesOnce(r.value) && Abs(r.value) == t.value)
  }

  lemma ScalarResult<D>(N: Numbers<D>, op: ValOp, a: Value<D>, b: Value<D>)
    requires !a.Struct? && !b.Struct?
    ensures ScalarOp(N, op, a, b).Done? ==> !ScalarOp(N, op, a, b).value.Struct?
  {
    match op case Add => case Sub => case Mul => case Div => case Lt => case Lte => case Gt => case Gte =>
  }

  lemma ScalarRefines<D(!new)>(N: Numbers<D>, op: ValOp, a: Value<D>, b: Value<D>)
    requires !a.Struct? && !b.Struct?
    ensures Refines(N, op, a, b)
  {
    ScalarResult(N, op, a, b);
    var r, t := Impl(N, op, a, b), TreeOp(N, op, Abs(a), Abs(b));
    assert r == ScalarOp(N, op, a, b);
    assert t == if r.Done? then Some(Leaf(r.value)) else None;
  }

  /** The parts that meet in field `i` are the abstractions of the operands that do. */
  lemma PartsMeet<D(!new)>(a: Value<D>, b: Value<D>, i: nat)
    requires NamesOnce(a) && NamesOnce(b) && (a.Struct? || b.Struct?) && i < |Shape(a, b)|
    ensures var k := Shape(a, b)[i].name;
            && (a.Struct? ==> k in Abs(a).m) && Part(Abs(a), k) == Abs(Left(a, b, i)) && NamesOnce(Left(a, b, i))
            && (Right(a, b, i).Some? <==> (b.Struct? ==> k in Abs(b).m))
            && (Right(a, b, i).Some? ==>
                  Part(Abs(b), k) == Abs(Right(a, b, i).value) && NamesOnce(Right(a, b, i).value))
  {
    IndexOfOwnName(Shape(a, b), i);
  }

  ghost predicate AllDone<D>(rs: seq<Outcome<D>>) {
    forall i | 0 <= i < |rs| :: rs[i].Done?
  }

  /** When a struct operation succeeds, and with what. */
  lemma StructDone<D>(N: Numbers<D>, op: ValOp, a: Value<D>, b: Value<D>)
    requires a.Struct? || b.Struct?
    ensures var rs, r := FieldResults(N, op, a, b), Impl(N, op, a, b);
            && (r.Done? <==>
                  && StructOperands(op, a, b) && AllDone(rs)
                  && (b.Struct? ==> |b.fields| == |Shape(a, b)|))
            && (r.Done? ==>
                  && r.value.Struct? && |r.value.fields| == |rs|
                  && forall i | 0 <= i < |rs| :: r.value.fields[i] == Field(Shape(a, b)[i].name, rs[i].value))
  {
    var rs := FieldResults(N, op, a, b);
    var g, r := Gathered(rs, |Shape(a, b)|), StructOp(N, op, a, b);
    assert Impl(N, op, a, b) == r;
    assert g.Values? <==> AllDone(rs);
    if !StructOperands(op, a, b) {
      assert r == Failed(TypeMismatch);
    } else if g.Stopped? {
      assert r == Failed(g.error);
    } else if b.Struct? && |b.fields| != |Shape(a, b)| {
      assert r == Failed(TypeMismatch);
    } else {
      assert r == Done(Struct(Named(Shape(a, b), g.values)));
    }
  }

  /** Field `i` of the tree operation. */
  ghost function TreeField<D(!new)>(N: Numbers<D>, op: ValOp, s: Tree<D>, t: Tree<D>, k: string): Option<Tree<D>> {
    if (s.Node? && k !in s.m) || (t.Node? && k !in t.m) then None else TreeOp(N, op, Part(s, k), Part(t, k))
  }

  ghost predicate FieldRefines<D(!new)>(N: Numbers<D>, op: ValOp, a: Value<D>, b: Value<D>, i: nat)
    requires (a.Struct? || b.Struct?) && i < |Shape(a, b)|
  {
    var r, t := FieldResult(N, op, a, b, i), TreeField(N, op, Abs(a), Abs(b), Shape(a, b)[i].name);
    && (r.Done? <==> t.Some?)
    && (r.Done? ==> NamesOnce(r.value) && Abs(r.value) == t.value)
  }

  lemma FieldFromParts<D(!new)>(N: Numbers<D>, op: ValOp, a: Value<D>, b: Value<D>, i: nat)
    requires NamesOnce(a) && NamesOnce(b) && (a.Struct? || b.Struct?) && i < |Shape(a, b)|
    requires Right(a, b, i).Some? ==> Refines(N, op, Left(a, b, i), Right(a, b, i).value)
    ensures FieldRefines(N, op, a, b, i)
  {
    PartsMeet(a, b, i);
  }

  /** The keys a tree operation ranges over. */
  ghost function Keys<D>(s: Tree<D>, t: Tree<D>): set<string>
    requires s.Node? || t.Node?
  {
    if s.Node? then s.m.Keys else t.m.Keys
  }

  lemma TreeDone<D(!new)>(N: Numbers<D>, op: ValOp, s: Tree<D>, t: Tree<D>)
    requires s.Node? || t.Node?
    ensures var r := TreeOp(N, op, s, t);
            && (r.Some? <==>
                  && !Compares(op) && (s.Leaf? ==> ScalarOperand(s.v)) && (t.Leaf? ==> ScalarOperand(t.v))
                  && (s.Node? && t.Node? ==> s.m.Keys == t.m.Keys)
                  && forall k | k in Keys(s, t) :: TreeField(N, op, s, t, k).Some?)
            && (r.Some? ==>
                  && r.value.Node? && r.value.m.Keys == Keys(s, t)
                  && forall k | k in Keys(s, t) :: TreeField(N, op, s, t, k) == Some(r.value.m[k]))
  {
    if s.Node? && t.Node? && s.m.Keys != t.m.Keys {
      return;
    }
    forall k | k in Keys(s, t) ensures TreeField(N, op, s, t, k) == TreeOp(N, op, Part(s, k), Part(t, k)) {
    }
  }

  lemma ShapeKeys<D(!new)>(a: Value<D>, b: Value<D>)
    requires a.Struct? || b.Struct?
    ensures Keys(Abs(a), Abs(b)) == NameSet(Shape(a, b))
  {
  }

  lemma NamesAgree<D(!new)>(N: Numbers<D>, op: ValOp, a: Value<D>, b: Value<D>)
    requires NamesOnce(a) && NamesOnce(b) && (a.Struct? || b.Struct?)
    requires forall i: nat | i < |Shape(a, b)| :: FieldRefines(N, op, a, b, i)
    ensures Impl(N, op, a, b).Done? ==> (a.Struct? && b.Struct? ==> Abs(a).m.Keys == Abs(b).m.Keys)
    ensures a.Struct? && b.Struct? && Abs(a).m.Keys == Abs(b).m.Keys ==> |a.fields| == |b.fields|
  {
    StructDone(N, op, a, b);
    if a.Struct? && b.Struct? {
      CountDecidesNames(a.fields, b.fields);
      AbsKeys(a);
      AbsKeys(b);
      if Impl(N, op, a, b).Done? {
        forall k | k in NameSet(a.fields) ensures k in NameSet(b.fields) {
          var i := FieldIndex(a.fields, k).value;
          assert FieldRefines(N, op, a, b, i) && FieldResults(N, op, a, b)[i].Done?;
        }
      }
    }
  }

  lemma StructSucceeds<D(!new)>(N: Numbers<D>, op: ValOp, a: Value<D>, b: Value<D>)
    requires NamesOnce(a) && NamesOnce(b) && (a.Struct? || b.Struct?)
    requires forall i: nat | i < |Shape(a, b)| :: FieldRefines(N, op, a, b, i)
    ensures Impl(N, op, a, b).Done? <==> TreeOp(N, op, Abs(a), Abs(b)).Some?
  {
    var s, t, shape, rs := Abs(a), Abs(b), Shape(a, b), FieldResults(N, op, a, b);
    StructDone(N, op, a, b);
    TreeDone(N, op, s, t);
    NamesAgree(N, op, a, b);
    ShapeKeys(a, b);
    if Impl(N, op, a, b).Done? {
      forall k | k in Keys(s, t) ensures TreeField(N, op, s, t, k).Some? {
        var i := FieldIndex(shape, k).value;
        assert FieldRefines(N, op, a, b, i) && rs[i].Done?;
      }
    } else if TreeOp(N, op, s, t).Some? {
      forall i | 0 <= i < |rs| ensures rs[i].Done? {
        assert FieldRefines(N, op, a, b, i) && shape[i].name in NameSet(shape);
      }
    }
  }

  lemma AbsKeys<D(!new)>(v: Value<D>)
    requires v.Struct?
    ensures Abs(v).m.Keys == NameSet(v.fields)
  {
  }

  lemma AbsAt<D(!new)>(v: Value<D>, i: nat)
    requires v.Struct? && DistinctNames(v.fields) && i < |v.fields|
    ensures v.fields[i].name in Abs(v).m && Abs(v).m[v.fields[i].name] == Abs(v.fields[i].value)
  {
    IndexOfOwnName(v.fields, i);
  }

  /** A struct with the given names and field meanings means the given map. */
  lemma AbsFromFields<D(!new)>(v: Value<D>, m: map<string, Tree<D>>)
    requires v.Struct? && DistinctNames(v.fields) && m.Keys == NameSet(v.fields)
    requires forall i | 0 <= i < |v.fields| :: v.fields[i].name in m && Abs(v.fields[i].value) == m[v.fields[i].name]
    ensures Abs(v) == Node(m)
  {
    var m' := Abs(v).m;
    AbsKeys(v);
    forall k | k in m ensures m'[k] == m[k] {
      var i := FieldIndex(v.fields, k).value;
      assert v.fields[i].name == k;
      AbsAt(v, i);
    }
    assert m' == m;
  }

  /** Field `i` of a result means field `i` of the tree. */
  lemma StructFieldValue<D(!new)>(N: Numbers<D>, op: ValOp, a: Value<D>, b: Value<D>, i: nat)
    requires a.Struct? || b.Struct?
    requires i < |Shape(a, b)| && FieldRefines(N, op, a, b, i)
    requires Impl(N, op, a, b).Done? && TreeOp(N, op, Abs(a), Abs(b)).Some?
    ensures var f, t := Impl(N, op, a, b).value, TreeOp(N, op, Abs(a), Abs(b)).value;
            && f.Struct? && t.Node? && |f.fields| == |Shape(a, b)|
            && f.fields[i].name == Shape(a, b)[i].name && f.fields[i].name in t.m
            && Abs(f.fields[i].value) == t.m[f.fields[i].name] && NamesOnce(f.fields[i].value)
  {
    StructDone(N, op, a, b);
    TreeDone(N, op, Abs(a), Abs(b));
    ShapeKeys(a, b);
    var k := Shape(a, b)[i].name;
    assert k in NameSet(Shape(a, b));
    assert FieldResults(N, op, a, b)[i] == FieldResult(N, op, a, b, i);
  }

  lemma ResultShape<D(!new)>(N: Numbers<D>, op: ValOp, a: Value<D>, b: Value<D>)
    requires (a.Struct? || b.Struct?) && Impl(N, op, a, b).Done? && TreeOp(N, op, Abs(a), Abs(b)).Some?
    ensures var f, t := Impl(N, op, a, b).value, TreeOp(N, op, Abs(a), Abs(b)).value;
            && f.Struct? && t.Node? && |f.fields| == |Shape(a, b)| && NameSet(f.fields) == t.m.Keys
            && forall i | 0 <= i < |f.fields| :: f.fields[i].name == Shape(a, b)[i].name
  {
    StructDone(N, op, a, b);
    TreeDone(N, op, Abs(a), Abs(b));
    ShapeKeys(a, b);
    SameNames(Impl(N, op, a, b).value.fields, Shape(a, b));
  }

  lemma StructValue<D(!new)>(N: Numbers<D>, op: ValOp, a: Value<D>, b: Value<D>)
    requires NamesOnce(a) && NamesOnce(b) && (a.Struct? || b.Struct?)
    requires forall i: nat | i < |Shape(a, b)| :: FieldRefines(N, op, a, b, i)
    requires Impl(N, op, a, b).Done? && TreeOp(N, op, Abs(a), Abs(b)).Some?
    ensures NamesOnce(Impl(N, op, a, b).value)
    ensures Abs(Impl(N, op, a, b).value) == TreeOp(N, op, Abs(a), Abs(b)).value
  {
    var f, t := Impl(N, op, a, b).value, TreeOp(N, op, Abs(a), Abs(b)).value;
    ResultShape(N, op, a, b);
    forall i: nat | i < |f.fields|
      ensures f.fields[i].name in t.m && Abs(f.fields[i].value) == t.m[f.fields[i].name] && NamesOnce(f.fields[i].value)
    {
      StructFieldValue(N, op, a, b, i);
    }
    AbsFromFields(f, t.m);
  }

  lemma SameNames<D>(a: seq<Field<D>>, b: seq<Field<D>>)
    requires |a| == |b| && forall i | 0 <= i < |a| :: a[i].name == b[i].name
    ensures NameSet(a) == NameSet(b)
  {
    forall k ensures k in NameSet(a) <==> k in NameSet(b) {
    }
  }

  /** Struct arithmetic is the fieldwise operation on maps, at every nesting depth. */
  lemma {:induction false} ImplRefinesTree<D(!new)>(N: Numbers<D>, op: ValOp, a: Value<D>, b: Value<D>)
    requires NamesOnce(a) && NamesOnce(b)
    ensures Refines(N, op, a, b)
    decreases a, b
  {
    if a.Struct? || b.Struct? {
      forall i: nat | i < |Shape(a, b)| ensures FieldRefines(N, op, a, b, i) {
        PartsMeet(a, b, i);
        if Right(a, b, i).Some? {
          ImplRefinesTree(N, op, Left(a, b, i), Right(a, b, i).value);
        }
        FieldFromParts(N, op, a, b, i);
      }
      StructSucceeds(N, op, a, b);
      if Impl(N, op, a, b).Done? {
        StructValue(N, op, a, b);
      }
    } else {
      ScalarRefines(N, op, a, b);
    }
  }

  // ----- consequences -----

  /** The same value, or no value on either side. */
  ghost predicate SameResult<D(!new)>(r: Outcome<D>, r': Outcome<D>) {
    (r.Done? <==> r'.Done?) && (r.Done? ==> r == r')
  }

  lemma TopLevelScalars<D(!new)>(N: Numbers<D>, op: ValOp, a: Value<D>, b: Value<D>)
    requires !a.Struct? && !b.Struct? && !(a.Num? && b.Num?)
    ensures SameResult(BinaryOp(N, op, a, b), ScalarOp(N, op, a, b))
  {
  }

  /** At top level, exactly these pairs differ from the nested operation. */
  lemma TopLevelDiffers<D(!new)>(N: Numbers<D>, op: ValOp, a: Value<D>, b: Value<D>)
    ensures a.Num? && b.Num? ==> BinaryOp(N, op, a, b).NotHandled?
    ensures (a.Int64? && b.Struct?) || (a.Struct? && b.Int64?) ==> BinaryOp(N, op, a, b) == Failed(TypeMismatch)
    ensures !(a.Num? && b.Num?) && !(a.Int64? && b.Struct?) && !(a.Struct? && b.Int64?) ==>
              SameResult(BinaryOp(N, op, a, b), Impl(N, op, a, b))
  {
    if !a.Struct? && !b.Struct? && !(a.Num? && b.Num?) {
      TopLevelScalars(N, op, a, b);
    }
  }

  /** Success puts every name of the left operand among those of the right one, repeated or not. */
  lemma DoneNamesIncluded<D(!new)>(N: Numbers<D>, op: ValOp, a: Value<D>, b: Value<D>)
    requires a.Struct? && b.Struct? && BinaryOp(N, op, a, b).Done?
    ensures NameSet(a.fields) <= NameSet(b.fields) && |a.fields| == |b.fields|
  {
    StructDone(N, op, a, b);
    forall k | k in NameSet(a.fields) ensures k in NameSet(b.fields) {
      var i := FieldIndex(a.fields, k).value;
      assert FieldResults(N, op, a, b)[i] == FieldResult(N, op, a, b, i);
    }
  }

  /** Operands that combine have the same names if and only if they have equally many different ones. */
  lemma DoneNamesExactly<D(!new)>(N: Numbers<D>, op: ValOp, a: Value<D>, b: Value<D>)
    requires a.Struct? && b.Struct? && BinaryOp(N, op, a, b).Done?
    ensures NameSet(a.fields) == NameSet(b.fields) <==> |NameSet(a.fields)| == |NameSet(b.fields)|
  {
    DoneNamesIncluded(N, op, a, b);
    if |NameSet(a.fields)| == |NameSet(b.fields)| {
      SubsetSameSize(NameSet(a.fields), NameSet(b.fields));
    }
  }

  /** Repeated names defeat the count check: the name sets differ and the operation succeeds. */
  lemma RepeatedNamesSlipThrough<D(!new)>(N: Numbers<D>, x: string, y: string, a: Value<D>, b: Value<D>)
    requires x != y
    requires a == Struct([Field(x, Int64(1)), Field(x, Int64(1))])
    requires b == Struct([Field(x, Int64(1)), Field(y, Int64(1))])
    ensures BinaryOp(N, Add, a, b).Done? && NameSet(a.fields) != NameSet(b.fields)
  {
    assert a.fields[0].name == a.fields[1].name == b.fields[0].name == x && b.fields[1].name == y;
    assert FieldIndex(b.fields, x) == Some(0);
    assert FieldIndex(b.fields, y).Some? && FieldIndex(a.fields, y).None?;
    var rs := FieldResults(N, Add, a, b);
    var sum := Impl(N, Add, Int64(1), Int64(1));
    assert sum == Done(Int64(2));
    forall i | 0 <= i < |rs| ensures rs[i] == sum {
      assert rs[i] == FieldResult(N, Add, a, b, i);
      assert Left(a, b, i) == Int64(1) && Right(a, b, i) == Some(Int64(1));
    }
    StructDone(N, Add, a, b);
  }

  /** An int64 and a struct meet inside another struct: accepted there, refused at top level. */
  lemma NestedInt64MeetsStruct<D(!new)>(N: Numbers<D>, x: string, y: string)
    ensures var one, two := Int64(1), Struct([Field(y, Int64(2))]);
            && BinaryOp(N, Add, one, two) == Failed(TypeMismatch)
            && BinaryOp(N, Add, Struct([Field(x, one)]), Struct([Field(x, two)]))
               == Done(Struct([Field(x, Struct([Field(y, Int64(3))]))]))
  {
    var one: Value<D>, two: Value<D> := Int64(1), Struct([Field(y, Int64(2))]);
    OneField(N, Add, Int64(1), Field(y, Int64(2)), Int64(3));
    var a, b := Struct([Field(x, one)]), Struct([Field(x, two)]);
    assert FieldResults(N, Add, a, b)[0] == Impl(N, Add, one, two);
    StructDone(N, Add, a, b);
    var r := BinaryOp(N, Add, a, b);
    assert r.value.fields == [Field(x, Struct([Field(y, Int64(3))]))];
  }

  lemma OneField<D(!new)>(N: Numbers<D>, op: ValOp, a: Value<D>, f: Field<D>, r: Value<D>)
    requires a.Int64? && f.value.Int64? && !Compares(op) && IntOp(op, a.i, f.value.i) == Done(r)
    ensures Impl(N, op, a, Struct([f])) == Done(Struct([Field(f.name, r)]))
  {
    var b := Struct([f]);
    assert FieldResults(N, op, a, b)[0] == Impl(N, op, a, f.value);
    StructDone(N, op, a, b);
    assert Impl(N, op, a, b).value.fields == [Field(f.name, r)];
  }

  ghost predicate SameOutcome<D(!new)>(r: Outcome<D>, r': Outcome<D>) {
    (r.Done? <==> r'.Done?) && (r.Done? ==> Abs(r.value) == Abs(r'.value))
  }

  /** Reordering fields, at any depth of either operand, reorders fields of the result and no more. */
  lemma FieldOrderIrrelevant<D(!new)>(N: Numbers<D>, op: ValOp, a: Value<D>, b: Value<D>, a': Value<D>, b': Value<D>)
    requires NamesOnce(a) && NamesOnce(b) && NamesOnce(a') && NamesOnce(b')
    requires Abs(a) == Abs(a') && Abs(b) == Abs(b')
    ensures SameOutcome(BinaryOp(N, op, a, b), BinaryOp(N, op, a', b'))
  {
    ImplRefinesTree(N, op, a, b);
    ImplRefinesTree(N, op, a', b');
    TopLevelDiffers(N, op, a, b);
    TopLevelDiffers(N, op, a', b');
  }

  ghost predicate CommutativeNumbers<D(!new)>(N: Numbers<D>) {
    forall x, y :: N.add(x, y) == N.add(y, x) && N.mul(x, y) == N.mul(y, x)
  }

  lemma ScalarsCommute<D(!new)>(N: Numbers<D>, op: ValOp, a: Value<D>, b: Value<D>)
    requires CommutativeNumbers(N) && (op == Add || op == Mul) && !a.Struct? && !b.Struct?
    ensures SameResult(ScalarOp(N, op, a, b), ScalarOp(N, op, b, a))
  {
    assert a.Num? && b.Num? ==> N.add(a.d, b.d) == N.add(b.d, a.d) && N.mul(a.d, b.d) == N.mul(b.d, a.d);
    assert a.Duration? && b.Num? ==> N.mul(N.fromInt(a.i), b.d) == N.mul(b.d, N.fromInt(a.i));
    assert a.Num? && b.Duration? ==> N.mul(N.fromInt(b.i), a.d) == N.mul(a.d, N.fromInt(b.i));
    assert a.Int64? && b.Int64? ==> a.i * b.i == b.i * a.i;
  }

  lemma {:induction false} TreesCommute<D(!new)>(N: Numbers<D>, op: ValOp, s: Tree<D>, t: Tree<D>)
    requires CommutativeNumbers(N) && (op == Add || op == Mul)
    ensures TreeOp(N, op, s, t) == TreeOp(N, op, t, s)
    decreases s, t
  {
    if s.Leaf? && t.Leaf? {
      if !s.v.Struct? && !t.v.Struct? {
        ScalarsCommute(N, op, s.v, t.v);
      }
    } else if !(s.Node? && t.Node? && s.m.Keys != t.m.Keys) {
      var keys := if s.Node? then s.m.Keys else t.m.Keys;
      forall k | k in keys ensures TreeField(N, op, s, t, k) == TreeField(N, op, t, s, k) {
        TreesCommute(N, op, Part(s, k), Part(t, k));
      }
      TreeDone(N, op, s, t);
      TreeDone(N, op, t, s);
      NodesEqual(TreeOp(N, op, s, t), TreeOp(N, op, t, s), keys);
    }
  }

  lemma NodesEqual<D(!new)>(r: Option<Tree<D>>, r': Option<Tree<D>>, keys: set<string>)
    requires r.Some? <==> r'.Some?
    requires r.Some? ==> r.value.Node? && r'.value.Node? && r.value.m.Keys == keys == r'.value.m.Keys
    requires r.Some? ==> forall k | k in keys :: r.value.m[k] == r'.value.m[k]
    ensures r == r'
  {
    if r.Some? {
      assert r.value.m == r'.value.m;
    }
  }

  /** Addition and multiplication commute, up to the order of fields. */
  lemma OperandsCommute<D(!new)>(N: Numbers<D>, op: ValOp, a: Value<D>, b: Value<D>)
    requires CommutativeNumbers(N) && (op == Add || op == Mul) && NamesOnce(a) && NamesOnce(b)
    ensures SameOutcome(BinaryOp(N, op, a, b), BinaryOp(N, op, b, a))
  {
    ImplRefinesTree(N, op, a, b);
    ImplRefinesTree(N, op, b, a);
    TreesCommute(N, op, Abs(a), Abs(b));
    TopLevelDiffers(N, op, a, b);
    TopLevelDiffers(N, op, b, a);
  }

  predicate Fits(n: int) { INT64_MIN <= n <= INT64_MAX }

  /** The exact result of an int64 operation, where there is one. */
  ghost function Exact(op: ValOp, a: int, b: int): Option<int>
    requires !Compares(op)
  {
    if op == Add then Some(a + b)
    else if op == Sub then Some(a - b)
    else if op == Mul then Some(a * b)
    else if b == 0 then None
    else Some(Quotient(a, b))
  }

  /** An int64 operation succeeds exactly when the mathematical result exists and fits, and is that result. */
  lemma Int64Exact<D>(op: ValOp, a: int, b: int)
    requires Fits(a) && Fits(b) && !Compares(op)
    ensures IntOp<D>(op, a, b).Done? <==> Exact(op, a, b).Some? && Fits(Exact(op, a, b).value)
    ensures IntOp<D>(op, a, b).Done? ==> IntOp<D>(op, a, b).value == Int64(Exact(op, a, b).value)
  {
    if op == Div && b != 0 {
      QuotientBounds(a, b);
    }
  }

  function Magnitude(n: int): nat { if n < 0 then -n else n }

  lemma DividedSize(x: nat, b: int)
    requires b != 0
    ensures Magnitude(x / b) * Magnitude(b) <= x
    ensures x == (x / b) * b + x % b && 0 <= x % b < Magnitude(b)
    ensures x / b > 0 ==> b > 0
    ensures x / b < 0 ==> b < 0
  {
    var q := x / b;
    assert x == q * b + x % b;
    if q < 0 && b < 0 {
      assert q * b == Magnitude(q) * Magnitude(b);
    }
  }

  lemma DividedFits(x: nat, b: int)
    requires b != 0
    ensures Magnitude(x / b) <= x
    ensures Magnitude(b) > 1 ==> 2 * Magnitude(x / b) <= x
  {
    DividedSize(x, b);
    MulMonotone(if Magnitude(b) > 1 then 2 else 1, Magnitude(b), Magnitude(x / b));
  }

  /** Only the most negative number divided by minus one leaves the range. */
  lemma QuotientBounds(a: int, b: int)
    requires Fits(a) && Fits(b) && b != 0
    ensures Fits(Quotient(a, b)) <==> !(a == INT64_MIN && b == -1)
  {
    DividedFits(Magnitude(a), b);
    DividedSize(Magnitude(a), b);
  }

  /** The quotient is rounded toward zero: the remainder is smaller than the divisor and has the dividend's sign. */
  lemma QuotientTruncates(a: int, b: int)
    requires b != 0
    ensures var rem := a - Quotient(a, b) * b;
            && Magnitude(rem) < Magnitude(b)
            && (rem > 0 ==> a > 0) && (rem < 0 ==> a < 0)
  {
    var x := Magnitude(a);
    DividedSize(x, b);
    if a < 0 {
      assert Quotient(a, b) * b == -((x / b) * b);
    }
  }
}
