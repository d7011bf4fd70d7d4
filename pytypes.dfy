/**
 * Python type terms as the schema engine sees them: the classes a column or an
 * annotation names, `None`, `...`, unions, `list[...]` and other generic aliases,
 * and the forward references the engine hands to pydantic.  Also `typing.get_args`,
 * `typing.get_origin` and the `|` operator on such terms.
 */
module PyTypes {
  import opened Wrappers

  datatype PyType =
    | Int                           // the class int
    | Str                           // the class str
    | StrIntSubclass(name: string)  // another subclass of str or int, such as bool
    | OtherClass(name: string)      // any other class that is not mapped (float, datetime, ...)
    | EntityClass(name: string)     // a mapped entity class
    | NoneValue                     // the object None
    | NoneType                      // the class type(None)
    | Union(args: seq<PyType>)      // X | Y | ...
    | ListOf(item: PyType)          // list[X]
    | Generic(origin: string, args: seq<PyType>)  // any other generic alias: set[X], dict[K, V], tuple[X, ...]
    | EllipsisValue                 // the object `...`, as in tuple[X, ...]
    | ForwardRef(arg: string, moduleName: string)  // typing.ForwardRef(arg, module=moduleName)

  /** The exceptions the engine can raise. */
  datatype Error =
    | IssubclassTypeError    // issubclass() was given something that is not a class
    | OrTypeError            // `None | None`
    | ModelConversionError   // a model class whose name ends with "Schema"
    | AttributeError         // a registry token asked for its __tablename__

  /** A class object: something issubclass accepts as its first argument. */
  predicate IsClass(t: PyType) {
    t.Int? || t.Str? || t.StrIntSubclass? || t.OtherClass? || t.EntityClass? || t.NoneType?
  }

  /** A class that get_python_type_inner turns into a flat-model reference. */
  predicate IsModelClass(t: PyType) {
    t.OtherClass? || t.EntityClass?
  }

  /** issubclass(t, str | int), for a class t */
  predicate IsStrOrIntSubclass(t: PyType) {
    t.Int? || t.Str? || t.StrIntSubclass?
  }

  /** bool(t): every term is truthy except the object None. */
  predicate Truthy(t: PyType) {
    t != NoneValue
  }

  /** typing.get_args */
  function GetArgs(t: PyType): seq<PyType> {
    match t
    case Union(args) => args
    case ListOf(item) => [item]
    case Generic(_, args) => args
    case _ => []
  }

  /** A term that takes arguments: a union, `list[...]` or another generic alias. */
  predicate IsParameterized(t: PyType) {
    t.Union? || t.ListOf? || t.Generic?
  }

  /** typing.get_origin(t) is list */
  predicate OriginIsList(t: PyType) {
    t.ListOf?
  }

  /** The forward-reference names occurring in t. */
  function RefsOf(t: PyType): set<string> {
    match t
    case ForwardRef(arg, _) => {arg}
    case ListOf(item) => RefsOf(item)
    case Union(args) => set i, r | 0 <= i < |args| && r in RefsOf(args[i]) :: r
    case Generic(_, args) => set i, r | 0 <= i < |args| && r in RefsOf(args[i]) :: r
    case _ => {}
  }

  /** The names of the classes in t that are neither str nor int subclasses nor NoneType. */
  function ClassNames(t: PyType): set<string> {
    match t
    case OtherClass(name) => {name}
    case EntityClass(name) => {name}
    case ListOf(item) => ClassNames(item)
    case Union(args) => set i, n | 0 <= i < |args| && n in ClassNames(args[i]) :: n
    case Generic(_, args) => set i, n | 0 <= i < |args| && n in ClassNames(args[i]) :: n
    case _ => {}
  }

  /** A term written in the source: it holds no forward reference. */
  predicate IsSourceType(t: PyType) {
    RefsOf(t) == {}
  }

  // ----- the | operator -----

  /** What t contributes to a union: a union its members, None the class NoneType. */
  function UnionMembers(t: PyType): seq<PyType> {
    match t
    case Union(args) => args
    case NoneValue => [NoneType]
    case _ => [t]
  }

  predicate Distinct(xs: seq<PyType>) {
    forall i, j :: 0 <= i < j < |xs| ==> xs[i] != xs[j]
  }

  /** xs without repetitions, each element at its first occurrence. */
  function Dedup(xs: seq<PyType>): (r: seq<PyType>)
    ensures forall x :: x in r <==> x in xs
    ensures |xs| > 0 ==> |r| > 0
  {
    if xs == [] then []
    else
      var init := Dedup(xs[..|xs| - 1]);
      assert xs == xs[..|xs| - 1] + [xs[|xs| - 1]];
      if xs[|xs| - 1] in init then init else init + [xs[|xs| - 1]]
  }

  /** Dedup leaves no repetitions. */
  lemma {:induction false} DedupDistinct(xs: seq<PyType>)
    ensures Distinct(Dedup(xs))
  {
    if xs != [] {
      var d := Dedup(xs[..|xs| - 1]);
      var x := xs[|xs| - 1];
      DedupDistinct(xs[..|xs| - 1]);
      if x !in d {
        var r := d + [x];
        forall i, j | 0 <= i < j < |r| ensures r[i] != r[j] {
          assert r[i] == d[i];
          if j == |d| {
            assert d[i] in d;
          } else {
            assert r[j] == d[j];
          }
        }
      }
    }
  }

  /** Dedup leaves a sequence without repetitions as it is. */
  lemma {:induction false} DedupOfDistinct(xs: seq<PyType>)
    requires Distinct(xs)
    ensures Dedup(xs) == xs
  {
    if xs != [] {
      var init := xs[..|xs| - 1];
      assert Distinct(init) by {
        forall i, j | 0 <= i < j < |init| ensures init[i] != init[j] {
          assert init[i] == xs[i] && init[j] == xs[j];
        }
      }
      DedupOfDistinct(init);
      assert xs[|xs| - 1] !in init by {
        forall i | 0 <= i < |init| ensures init[i] != xs[|xs| - 1] {
          assert init[i] == xs[i];
        }
      }
      assert init + [xs[|xs| - 1]] == xs;
    }
  }

  /** Deduplicating after appending one element. */
  lemma DedupSnoc(xs: seq<PyType>, x: PyType)
    ensures Dedup(xs + [x]) == if x in xs then Dedup(xs) else Dedup(xs) + [x]
  {
    assert (xs + [x])[..|xs + [x]| - 1] == xs;
  }

  /** A union of one member stands for that member. */
  function Collapse(ms: seq<PyType>): PyType {
    if |ms| == 1 then ms[0] else Union(ms)
  }

  /** The union of a and b as typing builds it: flattened, None as NoneType, no
      repeated member, and a single remaining member stands for itself. */
  function UnionOf(a: PyType, b: PyType): PyType {
    Collapse(Dedup(UnionMembers(a) + UnionMembers(b)))
  }

  /** A union of plain members, collapsed or not, contributes those members. */
  lemma CollapsedMembers(ms: seq<PyType>)
    requires |ms| > 0 && forall i :: 0 <= i < |ms| ==> ms[i] == NoneType || ms[i].ForwardRef?
    ensures UnionMembers(Collapse(ms)) == ms
  {
    if |ms| == 1 {
      assert ms[0] in ms;
      assert ms == [ms[0]];
    }
  }

  /** The members the terms of xs contribute to a union, in order. */
  function Flatten(xs: seq<PyType>): seq<PyType> {
    if xs == [] then [] else UnionMembers(xs[0]) + Flatten(xs[1..])
  }

  lemma {:induction false} FlattenSnoc(xs: seq<PyType>, x: PyType)
    ensures Flatten(xs + [x]) == Flatten(xs) + UnionMembers(x)
  {
    if xs == [] {
      assert xs + [x] == [x];
      assert [x][1..] == [];
    } else {
      assert (xs + [x])[1..] == xs[1..] + [x];
      FlattenSnoc(xs[1..], x);
      assert UnionMembers(xs[0]) + (Flatten(xs[1..]) + UnionMembers(x))
          == (UnionMembers(xs[0]) + Flatten(xs[1..])) + UnionMembers(x);
    }
  }

  /** `a | b`: None | None raises, everything else the engine meets builds a union. */
  function Or(a: PyType, b: PyType): (r: Result<PyType, Error>)
    ensures r.Failure? <==> a == NoneValue && b == NoneValue
    ensures r.Failure? ==> r.error == OrTypeError
  {
    if a == NoneValue && b == NoneValue then Failure(OrTypeError) else Success(UnionOf(a, b))
  }

  /** The forward-reference names in the elements of xs. */
  function RefsOfSeq(xs: seq<PyType>): set<string> {
    if xs == [] then {} else RefsOf(xs[0]) + RefsOfSeq(xs[1..])
  }

  lemma {:induction false} RefsOfSeqMembers(xs: seq<PyType>, r: string)
    ensures r in RefsOfSeq(xs) <==> exists i :: 0 <= i < |xs| && r in RefsOf(xs[i])
  {
    if xs != [] {
      RefsOfSeqMembers(xs[1..], r);
      if r in RefsOfSeq(xs[1..]) {
        var i :| 0 <= i < |xs[1..]| && r in RefsOf(xs[1..][i]);
        assert r in RefsOf(xs[i + 1]);
      }
      if exists i :: 0 <= i < |xs| && r in RefsOf(xs[i]) {
        var i :| 0 <= i < |xs| && r in RefsOf(xs[i]);
        if i > 0 { assert xs[1..][i - 1] == xs[i]; }
      }
    }
  }

  lemma RefsOfUnion(xs: seq<PyType>)
    ensures RefsOf(Union(xs)) == RefsOfSeq(xs)
  {
    forall r ensures r in RefsOf(Union(xs)) <==> r in RefsOfSeq(xs) {
      RefsOfSeqMembers(xs, r);
    }
  }

  lemma {:induction false} RefsOfSeqConcat(xs: seq<PyType>, ys: seq<PyType>)
    ensures RefsOfSeq(xs + ys) == RefsOfSeq(xs) + RefsOfSeq(ys)
  {
    if xs == [] {
      assert xs + ys == ys;
    } else {
      assert (xs + ys)[1..] == xs[1..] + ys;
      RefsOfSeqConcat(xs[1..], ys);
    }
  }

  /** Sequences with the same elements have the same references. */
  lemma RefsOfSeqSameElements(xs: seq<PyType>, ys: seq<PyType>)
    requires forall x :: x in xs <==> x in ys
    ensures RefsOfSeq(xs) == RefsOfSeq(ys)
  {
    forall r ensures r in RefsOfSeq(xs) <==> r in RefsOfSeq(ys) {
      RefsOfSeqMembers(xs, r);
      RefsOfSeqMembers(ys, r);
      if r in RefsOfSeq(xs) {
        var i :| 0 <= i < |xs| && r in RefsOf(xs[i]);
        assert xs[i] in ys;
        var j :| 0 <= j < |ys| && ys[j] == xs[i];
      }
      if r in RefsOfSeq(ys) {
        var i :| 0 <= i < |ys| && r in RefsOf(ys[i]);
        assert ys[i] in xs;
        var j :| 0 <= j < |xs| && xs[j] == ys[i];
      }
    }
  }

  /** A union built by | refers to exactly what its operands refer to. */
  lemma UnionOfRefs(a: PyType, b: PyType)
    ensures RefsOf(UnionOf(a, b)) == RefsOf(a) + RefsOf(b)
  {
    var all := UnionMembers(a) + UnionMembers(b);
    var ms := Dedup(all);
    CollapsedRefs(ms);
    assert RefsOf(UnionOf(a, b)) == RefsOfSeq(ms);
    RefsOfSeqSameElements(ms, all);
    RefsOfSeqConcat(UnionMembers(a), UnionMembers(b));
    MembersRefs(a);
    MembersRefs(b);
  }

  /** A union of one member stands for that member, and refers to what it refers to. */
  lemma CollapsedRefs(ms: seq<PyType>)
    ensures RefsOf(Collapse(ms)) == RefsOfSeq(ms)
  {
    if |ms| == 1 {
      assert ms[1..] == [];
    } else {
      RefsOfUnion(ms);
    }
  }

  lemma MembersRefs(t: PyType)
    ensures RefsOfSeq(UnionMembers(t)) == RefsOf(t)
  {
    match t
    case Union(args) => RefsOfUnion(args);
    case NoneValue => assert [NoneType][1..] == [];
    case _ => assert [t][1..] == [];
  }
}
