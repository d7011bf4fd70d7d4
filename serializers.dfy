/**
 * The schema-synthesis engine: how the attributes of a mapped class become
 * pydantic field declarations, and how those are assembled into models.
 */
module Serializers {
  import opened Wrappers
  import opened PyTypes
  import opened Dicts
  import opened Seqs
  import opened Descriptors

  /** The synthetic module that forward references point into. */
  const SynthModule := "_fsc_synth"

  function FlatModelName(name: string): string { name + "FlatModel" }
  function ModelName(name: string): string { name + "Model" }
  function SchemaName(name: string): string { name + "Schema" }

  /** The forward reference to the flat model of the class named n. */
  function FlatRef(n: string): PyType { ForwardRef(FlatModelName(n), SynthModule) }

  /** The flat-model names of a set of class names. */
  function FlatRefs(names: set<string>): set<string> {
    set n | n in names :: FlatModelName(n)
  }

  // ----- get_default -----

  /** None when nullable, an empty-list factory for a list type, required otherwise. */
  function GetDefault(ty: PyType, nullable: bool): (r: Default)
    ensures r == DefaultNone <==> nullable
    ensures r == EmptyListFactory <==> !nullable && OriginIsList(ty)
    ensures r == Required <==> !nullable && !OriginIsList(ty)
  {
    if nullable then DefaultNone
    else if OriginIsList(ty) then EmptyListFactory
    else Required
  }

  /** The pair every converter yields: (python_type, get_default(python_type, nullable)). */
  function DeclFor(ty: PyType, nullable: bool): FieldDecl {
    FieldDecl(ty, GetDefault(ty, nullable))
  }

  // ----- get_python_type_inner -----

  /** What get_python_type_inner returns: None, or a forward reference into the synthetic module. */
  predicate IsInnerValue(t: PyType) {
    t == NoneValue || (t.ForwardRef? && t.moduleName == SynthModule)
  }

  /** A term that get_python_type_inner sends to None. */
  predicate MapsToNone(t: PyType) {
    t == NoneValue || t == NoneType || IsStrOrIntSubclass(t)
  }

  function GetPythonTypeInner(t: PyType): (r: Result<PyType, Error>)
    ensures r.Success? <==> t == NoneValue || IsClass(t)
    ensures r.Success? ==> IsInnerValue(r.value)
    ensures r.Success? ==> (r.value == NoneValue <==> MapsToNone(t))
    ensures r.Success? ==> RefsOf(r.value) == FlatRefs(ClassNames(t))
    ensures IsModelClass(t) ==> r == Success(FlatRef(t.name))
    ensures r.Failure? ==> r.error == IssubclassTypeError
  {
    if t == NoneValue || t == NoneType then Success(NoneValue)
    else if !IsClass(t) then Failure(IssubclassTypeError)
    else if IsStrOrIntSubclass(t) then Success(NoneValue)
    else
      assert ClassNames(t) == {t.name};
      assert FlatRefs({t.name}) == {FlatModelName(t.name)};
      Success(ForwardRef(FlatModelName(t.name), SynthModule))
  }

  // ----- get_python_type -----

  /** [get_python_type_inner(t) for t in args]: the first failure propagates. */
  function InnerAll(args: seq<PyType>): (r: Result<seq<PyType>, Error>)
    ensures r.Success? <==> forall i :: 0 <= i < |args| ==> GetPythonTypeInner(args[i]).Success?
    ensures r.Success? ==> |r.value| == |args|
    ensures r.Success? ==> forall i :: 0 <= i < |args| ==> r.value[i] == GetPythonTypeInner(args[i]).value
    ensures r.Failure? ==> r.error == IssubclassTypeError
  {
    if args == [] then Success([])
    else
      match GetPythonTypeInner(args[0])
      case Failure(e) => Failure(e)
      case Success(x) =>
        match InnerAll(args[1..])
        case Failure(e) => Failure(e)
        case Success(xs) => Success([x] + xs)
  }

  /** reduce(or_, xs) */
  function Reduce(xs: seq<PyType>): (r: Result<PyType, Error>)
    requires |xs| > 0
    ensures r.Failure? ==> r.error == OrTypeError
  {
    if |xs| == 1 then Success(xs[0])
    else
      match Reduce(xs[..|xs| - 1])
      case Failure(e) => Failure(e)
      case Success(acc) => Or(acc, xs[|xs| - 1])
  }

  /** Folding | over inner values fails exactly when the first two are both None,
      and the union refers to everything its operands refer to. */
  lemma {:induction false} ReduceInner(xs: seq<PyType>)
    requires |xs| > 0 && forall i :: 0 <= i < |xs| ==> IsInnerValue(xs[i])
    ensures Reduce(xs).Success? <==> !(|xs| >= 2 && xs[0] == NoneValue && xs[1] == NoneValue)
    ensures Reduce(xs).Success? ==> RefsOf(Reduce(xs).value) == RefsOfSeq(xs)
  {
    var n := |xs|;
    if n == 1 {
      assert xs[1..] == [];
    } else {
      var init := xs[..n - 1];
      var last := xs[n - 1];
      assert xs == init + [last];
      RefsOfSeqConcat(init, [last]);
      assert RefsOfSeq([last]) == RefsOf(last) by { assert [last][1..] == []; }
      ReduceInner(init);
      if Reduce(init).Success? {
        var acc := Reduce(init).value;
        if n > 2 {
          // one of the first two is a forward reference, so acc is not None
          var i := if xs[0] != NoneValue then 0 else 1;
          assert xs[i].arg in RefsOf(init[i]);
          RefsOfSeqMembers(init, xs[i].arg);
          assert acc != NoneValue;
        } else {
          assert acc == xs[0];
        }
        UnionOfRefs(acc, last);
      }
    }
  }

  /** Folding | over two or more inner values builds the union of their members:
      None as NoneType, without repetitions, a single member standing for itself. */
  lemma {:induction false} ReduceUnion(xs: seq<PyType>)
    requires |xs| >= 2 && forall i :: 0 <= i < |xs| ==> IsInnerValue(xs[i])
    requires Reduce(xs).Success?
    ensures Reduce(xs).value == Collapse(Dedup(Flatten(xs)))
  {
    var init := xs[..|xs| - 1];
    assert Reduce(init).Success?;
    if |xs| == 2 {
      ReducePair(xs);
    } else {
      assert forall i :: 0 <= i < |init| ==> IsInnerValue(init[i]) by {
        forall i | 0 <= i < |init| ensures IsInnerValue(init[i]) { assert init[i] == xs[i]; }
      }
      ReduceUnion(init);
      ReduceSnocUnion(xs);
    }
  }

  lemma ReducePair(xs: seq<PyType>)
    requires |xs| == 2 && IsInnerValue(xs[0]) && IsInnerValue(xs[1])
    requires Reduce(xs).Success?
    ensures Reduce(xs).value == Collapse(Dedup(Flatten(xs)))
  {
    var init := xs[..1];
    assert init == [xs[0]] && init[1..] == [];
    assert xs == init + [xs[1]];
    FlattenSnoc(init, xs[1]);
    assert Flatten(init) == UnionMembers(xs[0]) + [];
  }

  /** The step of ReduceUnion: given the union of all but the last value, one more |. */
  lemma ReduceSnocUnion(xs: seq<PyType>)
    requires |xs| > 2 && forall i :: 0 <= i < |xs| ==> IsInnerValue(xs[i])
    requires Reduce(xs).Success?
    requires Reduce(xs[..|xs| - 1]).Success?
    requires Reduce(xs[..|xs| - 1]).value == Collapse(Dedup(Flatten(xs[..|xs| - 1])))
    ensures Reduce(xs).value == Collapse(Dedup(Flatten(xs)))
  {
    ReduceSnoc(xs);
    FlattenSnocPlain(xs);
    UnionStep(Flatten(xs[..|xs| - 1]), xs[|xs| - 1]);
  }

  /** Flattening the inner values but the last gives plain members, to which the
      last one's members are appended. */
  lemma FlattenSnocPlain(xs: seq<PyType>)
    requires |xs| > 1 && forall i :: 0 <= i < |xs| ==> IsInnerValue(xs[i])
    ensures Flatten(xs) == Flatten(xs[..|xs| - 1]) + UnionMembers(xs[|xs| - 1])
    ensures |Flatten(xs[..|xs| - 1])| > 0
    ensures forall y :: y in Flatten(xs[..|xs| - 1]) ==> y == NoneType || y.ForwardRef?
  {
    var init := xs[..|xs| - 1];
    assert xs == init + [xs[|xs| - 1]];
    FlattenSnoc(init, xs[|xs| - 1]);
    assert forall i :: 0 <= i < |init| ==> IsInnerValue(init[i]) by {
      forall i | 0 <= i < |init| ensures IsInnerValue(init[i]) { assert init[i] == xs[i]; }
    }
    FlattenInner(init);
  }

  /** A successful fold of | ends with one | of the last element. */
  lemma ReduceSnoc(xs: seq<PyType>)
    requires |xs| > 1 && Reduce(xs).Success?
    ensures Reduce(xs[..|xs| - 1]).Success?
    ensures Reduce(xs).value == UnionOf(Reduce(xs[..|xs| - 1]).value, xs[|xs| - 1])
  {
  }

  /** One more | on a union of plain members adds the new member unless it is there. */
  lemma UnionStep(f: seq<PyType>, last: PyType)
    requires |f| > 0 && forall y :: y in f ==> y == NoneType || y.ForwardRef?
    requires IsInnerValue(last)
    ensures UnionOf(Collapse(Dedup(f)), last) == Collapse(Dedup(f + UnionMembers(last)))
  {
    var ms := Dedup(f);
    DedupPlain(f);
    CollapsedUnionOf(ms, last);
    DedupTwice(f, UnionMembers(last));
  }

  /** Adding a member to a collapsed union of plain members is deduplication of the snoc. */
  lemma CollapsedUnionOf(ms: seq<PyType>, last: PyType)
    requires |ms| > 0 && forall i :: 0 <= i < |ms| ==> ms[i] == NoneType || ms[i].ForwardRef?
    ensures UnionOf(Collapse(ms), last) == Collapse(Dedup(ms + UnionMembers(last)))
  {
    CollapsedMembers(ms);
  }

  /** Deduplicating twice before one more member is deduplicating once. */
  lemma DedupTwice(f: seq<PyType>, tail: seq<PyType>)
    requires |tail| == 1
    ensures Dedup(Dedup(f) + tail) == Dedup(f + tail)
  {
    var m := tail[0];
    assert tail == [m];
    DedupSnoc(Dedup(f), m);
    DedupDistinct(f);
    DedupOfDistinct(Dedup(f));
    DedupSnoc(f, m);
  }

  lemma DedupPlain(f: seq<PyType>)
    requires forall y :: y in f ==> y == NoneType || y.ForwardRef?
    ensures forall i :: 0 <= i < |Dedup(f)| ==> Dedup(f)[i] == NoneType || Dedup(f)[i].ForwardRef?
  {
    forall i | 0 <= i < |Dedup(f)| ensures Dedup(f)[i] == NoneType || Dedup(f)[i].ForwardRef? {
      assert Dedup(f)[i] in Dedup(f);
    }
  }

  /** The members inner values contribute to a union are NoneType and forward references. */
  lemma {:induction false} FlattenInner(xs: seq<PyType>)
    requires forall i :: 0 <= i < |xs| ==> IsInnerValue(xs[i])
    ensures |Flatten(xs)| == |xs|
    ensures forall y :: y in Flatten(xs) ==> y == NoneType || y.ForwardRef?
  {
    if xs != [] {
      assert forall i :: 0 <= i < |xs[1..]| ==> IsInnerValue(xs[1..][i]) by {
        forall i | 0 <= i < |xs[1..]| ensures IsInnerValue(xs[1..][i]) { assert xs[1..][i] == xs[i + 1]; }
      }
      FlattenInner(xs[1..]);
    }
  }

  /** t has arguments, each a class or None, so that get_python_type_inner accepts them all. */
  predicate ArgsAreClasses(t: PyType) {
    GetArgs(t) != [] && forall a :: a in GetArgs(t) ==> a == NoneValue || IsClass(a)
  }

  /** get_python_type: the mapped type and whether the literal None is among the arguments.
      `list[X]` maps to a list of X's inner value; a term with two or more arguments to
      the union of its arguments' inner values; it raises OrTypeError when every
      argument is a class or None (so that only reduce can fail), IssubclassTypeError
      otherwise. */
  function GetPythonType(t: PyType): (r: Result<(PyType, bool), Error>)
    ensures GetArgs(t) == [] ==>
      (r.Success? <==> GetPythonTypeInner(t).Success?) &&
      (r.Success? ==> r.value == (GetPythonTypeInner(t).value, false))
    ensures r.Success? ==> (r.value.1 <==> NoneValue in GetArgs(t))
    ensures r.Success? && OriginIsList(t) ==>
      GetPythonTypeInner(t.item).Success? && r.value.0 == ListOf(GetPythonTypeInner(t.item).value)
    ensures r.Success? && |GetArgs(t)| >= 2 ==>
      InnerAll(GetArgs(t)).Success? && r.value.0 == Collapse(Dedup(Flatten(InnerAll(GetArgs(t)).value)))
    ensures r.Failure? ==> r.error == (if ArgsAreClasses(t) then OrTypeError else IssubclassTypeError)
  {
    var args := GetArgs(t);
    if |args| > 0 then
      var nullable := NoneValue in args;
      match InnerAll(args)
      case Failure(e) => Failure(e)
      case Success(inners) =>
        match Reduce(inners)
        case Failure(e) => Failure(e)
        case Success(inner) =>
          if |args| >= 2 then
            ReduceUnion(inners);
            Success((inner, nullable))
          else
            Success((if OriginIsList(t) then ListOf(inner) else inner, nullable))
    else
      match GetPythonTypeInner(t)
      case Failure(e) => Failure(e)
      case Success(inner) => Success((inner, false))
  }

  /** get_python_type raises exactly when an argument is not a class, or when the
      first two arguments both map to None (so that reduce evaluates None | None). */
  lemma GetPythonTypeSucceeds(t: PyType)
    requires GetArgs(t) != []
    ensures GetPythonType(t).Success? <==>
      (forall a :: a in GetArgs(t) ==> a == NoneValue || IsClass(a)) &&
      !(|GetArgs(t)| >= 2 && MapsToNone(GetArgs(t)[0]) && MapsToNone(GetArgs(t)[1]))
  {
    var args := GetArgs(t);
    var ia := InnerAll(args);
    assert ia.Success? <==> forall a :: a in args ==> a == NoneValue || IsClass(a) by {
      if ia.Success? {
        forall a | a in args ensures a == NoneValue || IsClass(a) {
          var i :| 0 <= i < |args| && args[i] == a;
          assert GetPythonTypeInner(args[i]).Success?;
        }
      }
    }
    if ia.Success? {
      ReduceInner(ia.value);
      if |args| >= 2 {
        assert ia.value[0] == GetPythonTypeInner(args[0]).value;
        assert ia.value[1] == GetPythonTypeInner(args[1]).value;
      }
    }
  }

  /** get_python_type on the shapes an annotation takes: a class the engine does not
      know maps to its flat model's reference, a str or int subclass, NoneType or None
      to None, `list[C]` to a list of C's reference, another generic of one argument
      such as `set[C]` to C's reference alone, and `C | None` to the union of
      C's reference with NoneType, none of them nullable (`None` never appears among
      the arguments of a union written with `|`). A union of two terms that both map
      to None makes reduce evaluate `None | None`, and an argument that is itself a
      generic is refused by issubclass. */
  lemma GetPythonTypeShapes(t: PyType)
    ensures IsModelClass(t) ==> GetPythonType(t) == Success((FlatRef(t.name), false))
    ensures MapsToNone(t) ==> GetPythonType(t) == Success((NoneValue, false))
    ensures t.ListOf? && IsModelClass(t.item) ==> GetPythonType(t) == Success((ListOf(FlatRef(t.item.name)), false))
    ensures t.Generic? && |t.args| == 1 && IsModelClass(t.args[0]) ==> GetPythonType(t) == Success((FlatRef(t.args[0].name), false))
    ensures t.Union? && |t.args| == 2 && IsModelClass(t.args[0]) && t.args[1] == NoneType ==>
      GetPythonType(t) == Success((Union([FlatRef(t.args[0].name), NoneType]), false))
    ensures t.Union? && |t.args| == 2 && MapsToNone(t.args[0]) && MapsToNone(t.args[1]) ==>
      GetPythonType(t) == Failure(OrTypeError)
    ensures (exists a :: a in GetArgs(t) && IsParameterized(a)) ==> GetPythonType(t) == Failure(IssubclassTypeError)
  {
    var args := GetArgs(t);
    if exists a :: a in args && IsParameterized(a) {
      NestedRefused(t);
    }
    if t.ListOf? && IsModelClass(t.item) {
      ListRef(t);
    }
    if t.Generic? && |args| == 1 && IsModelClass(args[0]) {
      GenericRef(t);
    }
    if t.Union? && |args| == 2 && IsModelClass(args[0]) && args[1] == NoneType {
      OptionalRef(t);
    }
    if t.Union? && |args| == 2 && MapsToNone(args[0]) && MapsToNone(args[1]) {
      NoneOrNone(t);
    }
  }

  lemma NestedRefused(t: PyType)
    requires exists a :: a in GetArgs(t) && IsParameterized(a)
    ensures GetPythonType(t) == Failure(IssubclassTypeError)
  {
    var args := GetArgs(t);
    var a :| a in args && IsParameterized(a);
    var i :| 0 <= i < |args| && args[i] == a;
    assert GetPythonTypeInner(args[i]).Failure?;
  }

  lemma NoneOrNone(t: PyType)
    requires t.Union? && |t.args| == 2 && MapsToNone(t.args[0]) && MapsToNone(t.args[1])
    ensures GetPythonType(t) == Failure(OrTypeError)
  {
    assert InnerAll(t.args).value == [NoneValue, NoneValue];
    assert [NoneValue, NoneValue][..1] == [NoneValue];
  }

  lemma ListRef(t: PyType)
    requires t.ListOf? && IsModelClass(t.item)
    ensures GetPythonType(t) == Success((ListOf(FlatRef(t.item.name)), false))
  {
    var inners := InnerAll(GetArgs(t)).value;
    assert inners == [FlatRef(t.item.name)];
  }

  lemma GenericRef(t: PyType)
    requires t.Generic? && |t.args| == 1 && IsModelClass(t.args[0])
    ensures GetPythonType(t) == Success((FlatRef(t.args[0].name), false))
  {
    assert InnerAll(t.args).value == [FlatRef(t.args[0].name)];
  }

  lemma OptionalRef(t: PyType)
    requires t.Union? && |t.args| == 2 && IsModelClass(t.args[0]) && t.args[1] == NoneType
    ensures GetPythonType(t) == Success((Union([FlatRef(t.args[0].name), NoneType]), false))
  {
    var ref := FlatRef(t.args[0].name);
    assert InnerAll(t.args).value == [ref, NoneValue];
    ReduceOptional(ref);
    assert NoneValue !in t.args;
  }

  /** A generic of two arguments whose first maps to None and whose second is a class
      the engine does not know, such as `dict[str, C]`: reduce builds `None | ref`. */
  lemma KeyedRef(t: PyType)
    requires t.Generic? && |t.args| == 2 && IsStrOrIntSubclass(t.args[0]) && IsModelClass(t.args[1])
    ensures GetPythonType(t) == Success((Union([NoneType, FlatRef(t.args[1].name)]), false))
  {
    var ref := FlatRef(t.args[1].name);
    assert InnerAll(t.args).value == [NoneValue, ref];
    ReduceNoneRef(ref);
    assert NoneValue !in t.args;
  }

  /** None | ref is the union of NoneType with ref. */
  lemma ReduceNoneRef(ref: PyType)
    requires ref.ForwardRef?
    ensures Reduce([NoneValue, ref]) == Success(Union([NoneType, ref]))
  {
    assert [NoneValue, ref][..1] == [NoneValue];
    assert UnionMembers(NoneValue) + UnionMembers(ref) == [NoneType, ref];
    DedupOfDistinct([NoneType, ref]);
  }

  /** ref | None is the union of ref with NoneType. */
  lemma ReduceOptional(ref: PyType)
    requires ref.ForwardRef?
    ensures Reduce([ref, NoneValue]) == Success(Union([ref, NoneType]))
  {
    assert [ref, NoneValue][..1] == [ref];
    assert UnionMembers(ref) + UnionMembers(NoneValue) == [ref, NoneType];
    DedupOfDistinct([ref, NoneType]);
  }

  /** The forward references get_python_type produces name exactly the flat models
      of the classes the type mentions. */
  lemma GetPythonTypeRefs(t: PyType)
    requires GetPythonType(t).Success?
    ensures RefsOf(GetPythonType(t).value.0) == FlatRefs(ClassNames(t))
  {
    var args := GetArgs(t);
    if |args| > 0 {
      var inners := InnerAll(args).value;
      forall i | 0 <= i < |inners| ensures IsInnerValue(inners[i]) {
        assert inners[i] == GetPythonTypeInner(args[i]).value;
      }
      ReduceInner(inners);
      forall r ensures r in RefsOfSeq(inners) <==> r in FlatRefs(ClassNames(t)) {
        InnerRefs(t, inners, r);
      }
    }
  }

  lemma InnerRefs(t: PyType, inners: seq<PyType>, r: string)
    requires GetArgs(t) != [] && InnerAll(GetArgs(t)) == Success(inners)
    ensures r in RefsOfSeq(inners) <==> r in FlatRefs(ClassNames(t))
  {
    var args := GetArgs(t);
    RefsOfSeqMembers(inners, r);
    if r in RefsOfSeq(inners) {
      var i :| 0 <= i < |inners| && r in RefsOf(inners[i]);
      assert inners[i] == GetPythonTypeInner(args[i]).value;
      var n :| n in ClassNames(args[i]) && r == FlatModelName(n);
      ClassNamesOfArgs(t, n);
    }
    if r in FlatRefs(ClassNames(t)) {
      var n :| n in ClassNames(t) && r == FlatModelName(n);
      ClassNamesOfArgs(t, n);
      var i :| 0 <= i < |args| && n in ClassNames(args[i]);
      assert inners[i] == GetPythonTypeInner(args[i]).value;
      assert r in RefsOf(inners[i]);
    }
  }

  lemma ClassNamesOfArgs(t: PyType, n: string)
    requires GetArgs(t) != []
    ensures n in ClassNames(t) <==> exists i :: 0 <= i < |GetArgs(t)| && n in ClassNames(GetArgs(t)[i])
  {
    if t.ListOf? {
      assert GetArgs(t)[0] == t.item;
    }
  }

  // ----- convert_simple_fields -----

  /** The declaration of one column: its python type, widened by `| None` when nullable. */
  function SimpleDecl(c: Column): FieldDecl {
    var ty := if c.nullable then UnionOf(c.pyType, NoneValue) else c.pyType;
    DeclFor(ty, c.nullable)
  }

  predicate KeepsColumn(c: Column, exclude: set<string>, includeFk: bool) {
    c.name !in exclude && (includeFk || !c.hasForeignKey)
  }

  /** Every column's (name, declaration), in table order. */
  function AllSimpleFields(cols: seq<Column>): (r: seq<(string, FieldDecl)>)
    ensures |r| == |cols|
  {
    if cols == [] then [] else [(cols[0].name, SimpleDecl(cols[0]))] + AllSimpleFields(cols[1..])
  }

  function ConvertSimpleFields(cols: seq<Column>, exclude: set<string>, includeFk: bool): (r: seq<(string, FieldDecl)>)
    ensures forall p :: p in r ==> p.0 !in exclude
    ensures forall p :: p in r ==>
      exists c :: c in cols && KeepsColumn(c, exclude, includeFk) && p == (c.name, SimpleDecl(c))
    ensures forall c :: c in cols && KeepsColumn(c, exclude, includeFk) ==> (c.name, SimpleDecl(c)) in r
    ensures Subsequence(r, AllSimpleFields(cols))
  {
    if cols == [] then []
    else
      var c := cols[0];
      var rest := ConvertSimpleFields(cols[1..], exclude, includeFk);
      var all := AllSimpleFields(cols);
      assert all[1..] == AllSimpleFields(cols[1..]);
      if KeepsColumn(c, exclude, includeFk) then
        var r := [(c.name, SimpleDecl(c))] + rest;
        assert r[1..] == rest;
        r
      else
        rest
  }

  /** A nullable column of type T is declared `T | None` with default None; any other
      column keeps its type and is required. */
  lemma SimpleDeclRule(c: Column)
    requires IsColumnClass(c.pyType)
    ensures c.nullable ==> SimpleDecl(c) == FieldDecl(Union([c.pyType, NoneType]), DefaultNone)
    ensures !c.nullable ==> SimpleDecl(c) == FieldDecl(c.pyType, Required)
  {
    if c.nullable {
      assert UnionMembers(c.pyType) + UnionMembers(NoneValue) == [c.pyType, NoneType];
      assert Dedup([c.pyType, NoneType]) == [c.pyType, NoneType] by {
        assert [c.pyType, NoneType][..1] == [c.pyType];
        assert [c.pyType][..0] == [];
        assert Dedup([c.pyType]) == [c.pyType];
      }
    }
  }

  // ----- convert_relationships -----

  /** `__table__.columns.get(name)` */
  function ColumnGet(cols: seq<Column>, name: string): (r: Option<Column>)
    ensures r.Some? ==> r.value in cols && r.value.name == name
    ensures r.None? ==> forall c :: c in cols ==> c.name != name
  {
    if cols == [] then None
    else if cols[0].name == name then Some(cols[0])
    else ColumnGet(cols[1..], name)
  }

  /** The filters an annotation passes to become a relationship field: not excluded,
      a Mapped[...] annotation, and not a plain column or an int/str foreign key. */
  predicate IsRelationship(cols: seq<Column>, exclude: set<string>, a: Annotation) {
    && a.name !in exclude
    && a.isMapped
    && match ColumnGet(cols, a.name)
       case None => true
       case Some(c) => c.hasForeignKey && c.pyType != Int && c.pyType != Str
  }

  /** The declaration of a relationship `Mapped[X]`: X's mapped type, referring to
      the flat models of the classes X names, with default None exactly when the
      literal None is among X's arguments. */
  function RelationshipDecl(arg: PyType): (r: Result<FieldDecl, Error>)
    ensures r.Success? <==> GetPythonType(arg).Success?
    ensures r.Failure? ==> r.error == (if ArgsAreClasses(arg) then OrTypeError else IssubclassTypeError)
    ensures r.Success? ==> (r.value.default == DefaultNone <==> NoneValue in GetArgs(arg))
    ensures r.Success? ==> RefsOf(r.value.ty) == FlatRefs(ClassNames(arg))
  {
    match GetPythonType(arg)
    case Failure(e) => Failure(e)
    case Success((ty, nullable)) =>
      GetPythonTypeRefs(arg);
      Success(DeclFor(ty, nullable))
  }

  /** `Mapped[C]` refers to C's flat model and is required, `Mapped[list[C]]` is a
      list of such references defaulting to an empty list, `Mapped[C | None]` is the
      union of the reference with NoneType and still required (the `None` of a `|`
      union is NoneType, not the literal None); a str or int subclass maps to None;
      a nested generic is refused by issubclass. */
  lemma RelationshipDeclShapes(arg: PyType)
    ensures IsModelClass(arg) ==> RelationshipDecl(arg) == Success(FieldDecl(FlatRef(arg.name), Required))
    ensures MapsToNone(arg) ==> RelationshipDecl(arg) == Success(FieldDecl(NoneValue, Required))
    ensures arg.ListOf? && IsModelClass(arg.item) ==>
      RelationshipDecl(arg) == Success(FieldDecl(ListOf(FlatRef(arg.item.name)), EmptyListFactory))
    ensures arg.Union? && |arg.args| == 2 && IsModelClass(arg.args[0]) && arg.args[1] == NoneType ==>
      RelationshipDecl(arg) == Success(FieldDecl(Union([FlatRef(arg.args[0].name), NoneType]), Required))
    ensures (exists a :: a in GetArgs(arg) && IsParameterized(a)) ==> RelationshipDecl(arg) == Failure(IssubclassTypeError)
  {
    GetPythonTypeShapes(arg);
  }

  /** The annotations convert_relationships yields a field for, in declaration order. */
  function RelationshipAnnotations(cols: seq<Column>, anns: seq<Annotation>, exclude: set<string>)
    : (fs: seq<Annotation>)
    ensures forall a :: a in fs <==> a in anns && IsRelationship(cols, exclude, a)
    ensures Subsequence(fs, anns)
  {
    if anns == [] then []
    else
      var rest := RelationshipAnnotations(cols, anns[1..], exclude);
      if IsRelationship(cols, exclude, anns[0]) then
        assert ([anns[0]] + rest)[1..] == rest;
        [anns[0]] + rest
      else rest
  }

  /** The fields of the given annotations, converted in order; the first
      failure is raised. */
  function RelationshipFields(fs: seq<Annotation>): (r: Result<seq<(string, FieldDecl)>, Error>)
    ensures r.Success? <==> forall i :: 0 <= i < |fs| ==> RelationshipDecl(fs[i].arg).Success?
    ensures r.Success? ==>
      && |r.value| == |fs|
      && forall i :: 0 <= i < |fs| ==> r.value[i] == (fs[i].name, RelationshipDecl(fs[i].arg).value)
    ensures r.Failure? ==> exists a :: a in fs && RelationshipDecl(a.arg) == Failure(r.error)
  {
    if fs == [] then Success([])
    else
      match RelationshipDecl(fs[0].arg)
      case Failure(e) => Failure(e)
      case Success(decl) =>
        match RelationshipFields(fs[1..])
        case Failure(e) => Failure(e)
        case Success(ps) => Success([(fs[0].name, decl)] + ps)
  }

  /** The error raised is that of the first item that fails. */
  lemma {:induction false} RelationshipFieldsFirstError(fs: seq<Annotation>)
    ensures forall i ::
      (0 <= i < |fs| && RelationshipDecl(fs[i].arg).Failure? && forall j :: 0 <= j < i ==> RelationshipDecl(fs[j].arg).Success?)
      ==> RelationshipFields(fs) == Failure(RelationshipDecl(fs[i].arg).error)
  {
    if fs != [] {
      RelationshipFieldsFirstError(fs[1..]);
      forall i |
        0 <= i < |fs| && RelationshipDecl(fs[i].arg).Failure? && forall j :: 0 <= j < i ==> RelationshipDecl(fs[j].arg).Success?
        ensures RelationshipFields(fs) == Failure(RelationshipDecl(fs[i].arg).error)
      {
        if i > 0 {
          assert fs[1..][i - 1] == fs[i];
          forall j | 0 <= j < i - 1 ensures RelationshipDecl(fs[1..][j].arg).Success? {
            assert fs[1..][j] == fs[j + 1];
          }
        }
      }
    }
  }

  /** The fields of a successful conversion are exactly those of the items. */
  lemma RelationshipFieldsMembers(fs: seq<Annotation>)
    requires RelationshipFields(fs).Success?
    ensures forall p :: p in RelationshipFields(fs).value ==> exists a :: a in fs && p == (a.name, RelationshipDecl(a.arg).value)
    ensures forall a :: a in fs ==> (a.name, RelationshipDecl(a.arg).value) in RelationshipFields(fs).value
  {
    var ps := RelationshipFields(fs).value;
    forall p | p in ps ensures exists a :: a in fs && p == (a.name, RelationshipDecl(a.arg).value) {
      var i :| 0 <= i < |ps| && ps[i] == p;
      assert fs[i] in fs;
    }
    forall a | a in fs ensures (a.name, RelationshipDecl(a.arg).value) in ps {
      var i :| 0 <= i < |fs| && fs[i] == a;
      assert ps[i] == (a.name, RelationshipDecl(a.arg).value);
    }
  }

  /** The generator yields one field per kept annotation, in order, and raises the
      error of the first one whose type cannot be converted. */
  function ConvertRelationships(cols: seq<Column>, anns: seq<Annotation>, exclude: set<string>)
    : (r: Result<seq<(string, FieldDecl)>, Error>)
    ensures r.Success? <==> forall a :: a in anns && IsRelationship(cols, exclude, a) ==> RelationshipDecl(a.arg).Success?
    ensures r.Failure? ==> exists a :: a in anns && IsRelationship(cols, exclude, a) && RelationshipDecl(a.arg) == Failure(r.error)
    ensures r.Success? ==> forall p :: p in r.value ==>
      exists a :: a in anns && IsRelationship(cols, exclude, a) && p == (a.name, RelationshipDecl(a.arg).value)
    ensures r.Success? ==> forall a :: a in anns && IsRelationship(cols, exclude, a) ==> (a.name, RelationshipDecl(a.arg).value) in r.value
    ensures var fs := RelationshipAnnotations(cols, anns, exclude);
      r.Success? ==>
        && |r.value| == |fs|
        && forall i :: 0 <= i < |fs| ==> r.value[i] == (fs[i].name, RelationshipDecl(fs[i].arg).value)
    ensures var fs := RelationshipAnnotations(cols, anns, exclude);
      forall i ::
        (0 <= i < |fs| && RelationshipDecl(fs[i].arg).Failure? && forall j :: 0 <= j < i ==> RelationshipDecl(fs[j].arg).Success?)
        ==> r == Failure(RelationshipDecl(fs[i].arg).error)
  {
    var fs := RelationshipAnnotations(cols, anns, exclude);
    RelationshipFieldsFirstError(fs);
    if RelationshipFields(fs).Success? then RelationshipFieldsMembers(fs); RelationshipFields(fs)
    else RelationshipFields(fs)
  }

  // ----- convert_hybrid_properties -----

  /** The declaration of a hybrid property: its mapped return type, except that a
      return type mapping to None (bool, int, str, NoneType, None) is used as it is,
      with default None exactly when the literal None is among its arguments. */
  function HybridDecl(ret: PyType): (r: Result<FieldDecl, Error>)
    ensures r.Success? <==> GetPythonType(ret).Success?
    ensures r.Failure? ==> r.error == (if ArgsAreClasses(ret) then OrTypeError else IssubclassTypeError)
    ensures r.Success? ==> (r.value.default == DefaultNone <==> NoneValue in GetArgs(ret))
    ensures r.Success? ==> r.value.ty == if GetPythonType(ret).value.0 == NoneValue then ret else GetPythonType(ret).value.0
  {
    match GetPythonType(ret)
    case Failure(e) => Failure(e)
    case Success((ty, nullable)) =>
      var ty' := if Truthy(ret) && !Truthy(ty) then ret else ty;
      Success(DeclFor(ty', nullable))
  }

  /** A return type mapping to None is kept, so the field is required; a class C gives
      a required reference to C's flat model, `list[C]` a list of such references
      defaulting to an empty list, `C | None` the union of the reference with
      NoneType, and `int | None` fails on `None | None`. */
  lemma HybridDeclShapes(ret: PyType)
    ensures MapsToNone(ret) ==> HybridDecl(ret) == Success(FieldDecl(ret, Required))
    ensures IsModelClass(ret) ==> HybridDecl(ret) == Success(FieldDecl(FlatRef(ret.name), Required))
    ensures ret.ListOf? && IsModelClass(ret.item) ==>
      HybridDecl(ret) == Success(FieldDecl(ListOf(FlatRef(ret.item.name)), EmptyListFactory))
    ensures ret.Union? && |ret.args| == 2 && IsModelClass(ret.args[0]) && ret.args[1] == NoneType ==>
      HybridDecl(ret) == Success(FieldDecl(Union([FlatRef(ret.args[0].name), NoneType]), Required))
    ensures ret.Union? && |ret.args| == 2 && MapsToNone(ret.args[0]) && MapsToNone(ret.args[1]) ==>
      HybridDecl(ret) == Failure(OrTypeError)
    ensures (exists a :: a in GetArgs(ret) && IsParameterized(a)) ==> HybridDecl(ret) == Failure(IssubclassTypeError)
  {
    var args := GetArgs(ret);
    if MapsToNone(ret) {
      HybridNoneShape(ret);
    }
    if IsModelClass(ret) {
      HybridClassShape(ret);
    }
    if ret.ListOf? && IsModelClass(ret.item) {
      HybridListShape(ret);
    }
    if ret.Union? && |args| == 2 && IsModelClass(args[0]) && args[1] == NoneType {
      HybridOptionalShape(ret);
    }
    if ret.Union? && |args| == 2 && MapsToNone(args[0]) && MapsToNone(args[1]) {
      NoneOrNone(ret);
    }
    if exists a :: a in args && IsParameterized(a) {
      NestedRefused(ret);
    }
  }

  lemma HybridNoneShape(ret: PyType)
    requires MapsToNone(ret)
    ensures HybridDecl(ret) == Success(FieldDecl(ret, Required))
  {
  }

  lemma HybridClassShape(ret: PyType)
    requires IsModelClass(ret)
    ensures HybridDecl(ret) == Success(FieldDecl(FlatRef(ret.name), Required))
  {
  }

  lemma HybridListShape(ret: PyType)
    requires ret.ListOf? && IsModelClass(ret.item)
    ensures HybridDecl(ret) == Success(FieldDecl(ListOf(FlatRef(ret.item.name)), EmptyListFactory))
  {
    ListRef(ret);
  }

  lemma HybridOptionalShape(ret: PyType)
    requires ret.Union? && |ret.args| == 2 && IsModelClass(ret.args[0]) && ret.args[1] == NoneType
    ensures HybridDecl(ret) == Success(FieldDecl(Union([FlatRef(ret.args[0].name), NoneType]), Required))
  {
    OptionalRef(ret);
  }

  /** The hybrid properties convert_hybrid_properties yields a field for, in the
      class's namespace order. */
  function KeptHybrids(hybrids: seq<HybridProperty>, exclude: set<string>): (hs: seq<HybridProperty>)
    ensures forall h :: h in hs <==> h in hybrids && h.name !in exclude
    ensures Subsequence(hs, hybrids)
  {
    if hybrids == [] then []
    else
      var rest := KeptHybrids(hybrids[1..], exclude);
      if hybrids[0].name !in exclude then
        assert ([hybrids[0]] + rest)[1..] == rest;
        [hybrids[0]] + rest
      else rest
  }

  /** The fields of the given hybrid properties, converted in order; the first
      failure is raised. */
  function HybridFields(hs: seq<HybridProperty>): (r: Result<seq<(string, FieldDecl)>, Error>)
    ensures r.Success? <==> forall i :: 0 <= i < |hs| ==> HybridDecl(hs[i].returnType).Success?
    ensures r.Success? ==>
      && |r.value| == |hs|
      && forall i :: 0 <= i < |hs| ==> r.value[i] == (hs[i].name, HybridDecl(hs[i].returnType).value)
    ensures r.Failure? ==> exists h :: h in hs && HybridDecl(h.returnType) == Failure(r.error)
  {
    if hs == [] then Success([])
    else
      match HybridDecl(hs[0].returnType)
      case Failure(e) => Failure(e)
      case Success(decl) =>
        match HybridFields(hs[1..])
        case Failure(e) => Failure(e)
        case Success(ps) => Success([(hs[0].name, decl)] + ps)
  }

  /** The error raised is that of the first item that fails. */
  lemma {:induction false} HybridFieldsFirstError(hs: seq<HybridProperty>)
    ensures forall i ::
      (0 <= i < |hs| && HybridDecl(hs[i].returnType).Failure? && forall j :: 0 <= j < i ==> HybridDecl(hs[j].returnType).Success?)
      ==> HybridFields(hs) == Failure(HybridDecl(hs[i].returnType).error)
  {
    if hs != [] {
      HybridFieldsFirstError(hs[1..]);
      forall i |
        0 <= i < |hs| && HybridDecl(hs[i].returnType).Failure? && forall j :: 0 <= j < i ==> HybridDecl(hs[j].returnType).Success?
        ensures HybridFields(hs) == Failure(HybridDecl(hs[i].returnType).error)
      {
        if i > 0 {
          assert hs[1..][i - 1] == hs[i];
          forall j | 0 <= j < i - 1 ensures HybridDecl(hs[1..][j].returnType).Success? {
            assert hs[1..][j] == hs[j + 1];
          }
        }
      }
    }
  }

  /** The fields of a successful conversion are exactly those of the items. */
  lemma HybridFieldsMembers(hs: seq<HybridProperty>)
    requires HybridFields(hs).Success?
    ensures forall p :: p in HybridFields(hs).value ==> exists h :: h in hs && p == (h.name, HybridDecl(h.returnType).value)
    ensures forall h :: h in hs ==> (h.name, HybridDecl(h.returnType).value) in HybridFields(hs).value
  {
    var ps := HybridFields(hs).value;
    forall p | p in ps ensures exists h :: h in hs && p == (h.name, HybridDecl(h.returnType).value) {
      var i :| 0 <= i < |ps| && ps[i] == p;
      assert hs[i] in hs;
    }
    forall h | h in hs ensures (h.name, HybridDecl(h.returnType).value) in ps {
      var i :| 0 <= i < |hs| && hs[i] == h;
      assert ps[i] == (h.name, HybridDecl(h.returnType).value);
    }
  }

  /** The generator yields one field per kept hybrid property, in order, and raises the
      error of the first one whose return type cannot be converted. */
  function ConvertHybridProperties(hybrids: seq<HybridProperty>, exclude: set<string>)
    : (r: Result<seq<(string, FieldDecl)>, Error>)
    ensures r.Success? <==> forall h :: h in hybrids && h.name !in exclude ==> HybridDecl(h.returnType).Success?
    ensures r.Failure? ==> exists h :: h in hybrids && h.name !in exclude && HybridDecl(h.returnType) == Failure(r.error)
    ensures r.Success? ==> forall p :: p in r.value ==>
      exists h :: h in hybrids && h.name !in exclude && p == (h.name, HybridDecl(h.returnType).value)
    ensures r.Success? ==> forall h :: h in hybrids && h.name !in exclude ==> (h.name, HybridDecl(h.returnType).value) in r.value
    ensures var hs := KeptHybrids(hybrids, exclude);
      r.Success? ==>
        && |r.value| == |hs|
        && forall i :: 0 <= i < |hs| ==> r.value[i] == (hs[i].name, HybridDecl(hs[i].returnType).value)
    ensures var hs := KeptHybrids(hybrids, exclude);
      forall i ::
        (0 <= i < |hs| && HybridDecl(hs[i].returnType).Failure? && forall j :: 0 <= j < i ==> HybridDecl(hs[j].returnType).Success?)
        ==> r == Failure(HybridDecl(hs[i].returnType).error)
  {
    var hs := KeptHybrids(hybrids, exclude);
    HybridFieldsFirstError(hs);
    if HybridFields(hs).Success? then HybridFieldsMembers(hs); HybridFields(hs)
    else HybridFields(hs)
  }

  // ----- sqlalchemy_to_pydantic -----

  /** The declaration that wins for key k when the categories are merged in order:
      relationships over hybrid properties over simple fields. */
  function Precedence(simple: Dict<FieldDecl>, hybrid: Dict<FieldDecl>, rel: Dict<FieldDecl>, k: string)
    : Option<FieldDecl>
  {
    if k in Keys(rel) then Get(rel, k) else if k in Keys(hybrid) then Get(hybrid, k) else Get(simple, k)
  }

  function SqlalchemyToPydantic(
    e: Entity, exclude: set<string>, flat: bool, includeRelationships: bool, includeHybrid: bool)
    : (r: Result<PydanticModel, Error>)
    ensures flat ==> r.Success?
    ensures r.Success? ==> r.value.name == if flat then FlatModelName(e.name) else ModelName(e.name)
    ensures r.Success? ==> DistinctKeys(r.value.fields)
  {
    var simple := FromPairs(ConvertSimpleFields(e.columns, exclude, flat));
    if flat then Success(PydanticModel(FlatModelName(e.name), simple))
    else
      var withHybrid :=
        if includeHybrid then
          match ConvertHybridProperties(e.hybrids, exclude)
          case Failure(err) => Failure(err)
          case Success(ps) => Success(Merge(simple, FromPairs(ps)))
        else Success(simple);
      match withHybrid
      case Failure(err) => Failure(err)
      case Success(fields) =>
        if includeRelationships then
          match ConvertRelationships(e.columns, e.annotations, exclude)
          case Failure(err) => Failure(err)
          case Success(ps) =>
            Success(PydanticModel(ModelName(e.name), Merge(fields, FromPairs(ps))))
        else Success(PydanticModel(ModelName(e.name), fields))
  }

  /** A full or write model can be built exactly when every category it includes
      converts. */
  lemma ModelSucceeds(e: Entity, exclude: set<string>, includeRelationships: bool, includeHybrid: bool)
    ensures SqlalchemyToPydantic(e, exclude, false, includeRelationships, includeHybrid).Success? <==>
      && (includeHybrid ==> ConvertHybridProperties(e.hybrids, exclude).Success?)
      && (includeRelationships ==> ConvertRelationships(e.columns, e.annotations, exclude).Success?)
    ensures SqlalchemyToPydantic(e, exclude, false, includeRelationships, includeHybrid).Failure? ==>
      SqlalchemyToPydantic(e, exclude, false, includeRelationships, includeHybrid).error ==
        if includeHybrid && ConvertHybridProperties(e.hybrids, exclude).Failure?
        then ConvertHybridProperties(e.hybrids, exclude).error
        else ConvertRelationships(e.columns, e.annotations, exclude).error
  {
  }

  /** The full and write models: simple fields (foreign keys excluded) come first, in
      table order, then the hybrid properties' names not already fields, then the
      relationships' names not already fields; on a name clash the later category's
      declaration wins. */
  lemma ModelFieldPrecedence(e: Entity, exclude: set<string>, includeRelationships: bool, includeHybrid: bool)
    requires SqlalchemyToPydantic(e, exclude, false, includeRelationships, includeHybrid).Success?
    ensures var fields := SqlalchemyToPydantic(e, exclude, false, includeRelationships, includeHybrid).value.fields;
      var simple := FromPairs(ConvertSimpleFields(e.columns, exclude, false));
      var hybrid := if includeHybrid then FromPairs(ConvertHybridProperties(e.hybrids, exclude).value) else [];
      var rel := if includeRelationships then FromPairs(ConvertRelationships(e.columns, e.annotations, exclude).value) else [];
      && |simple| <= |fields| && Keys(fields)[..|simple|] == Keys(simple)
      && Keys(fields) == Keys(simple) + Fresh(Keys(simple), Keys(hybrid)) + Fresh(Keys(simple) + Keys(hybrid), Keys(rel))
      && forall k :: Get(fields, k) == Precedence(simple, hybrid, rel, k)
  {
    ModelSucceeds(e, exclude, includeRelationships, includeHybrid);
    var simple := FromPairs(ConvertSimpleFields(e.columns, exclude, false));
    var hybrid := if includeHybrid then FromPairs(ConvertHybridProperties(e.hybrids, exclude).value) else [];
    var rel := if includeRelationships then FromPairs(ConvertRelationships(e.columns, e.annotations, exclude).value) else [];
    var withHybrid := if includeHybrid then Merge(simple, hybrid) else simple;
    assert SqlalchemyToPydantic(e, exclude, false, includeRelationships, includeHybrid).value.fields
      == if includeRelationships then Merge(withHybrid, rel) else withHybrid;
    MergeChain(simple, hybrid, rel, includeHybrid, includeRelationships);
  }

  /** Merging the categories in order keeps the simple fields' keys first and lets the
      later category win. */
  lemma MergeChain(simple: Dict<FieldDecl>, hybrid: Dict<FieldDecl>, rel: Dict<FieldDecl>, includeHybrid: bool, includeRelationships: bool)
    requires DistinctKeys(hybrid) && DistinctKeys(rel)
    requires !includeHybrid ==> hybrid == []
    requires !includeRelationships ==> rel == []
    ensures var withHybrid := if includeHybrid then Merge(simple, hybrid) else simple;
      var fields := if includeRelationships then Merge(withHybrid, rel) else withHybrid;
      && |simple| <= |fields| && Keys(fields)[..|simple|] == Keys(simple)
      && Keys(fields) == Keys(simple) + Fresh(Keys(simple), Keys(hybrid)) + Fresh(Keys(simple) + Keys(hybrid), Keys(rel))
      && forall k :: Get(fields, k) == Precedence(simple, hybrid, rel, k)
  {
    if includeHybrid && includeRelationships {
      MergeTwice(simple, hybrid, rel);
    } else if includeHybrid {
      assert Keys(rel) == [];
      assert Keys(simple) + Keys(hybrid) + [] == Keys(simple) + Keys(hybrid);
    } else if includeRelationships {
      assert Keys(hybrid) == [];
      assert Keys(simple) + [] == Keys(simple);
    } else {
      assert Keys(rel) == [] && Keys(hybrid) == [];
      assert Keys(simple) + [] + [] == Keys(simple);
    }
  }

  /** `simple | hybrid | rel` */
  lemma MergeTwice(simple: Dict<FieldDecl>, hybrid: Dict<FieldDecl>, rel: Dict<FieldDecl>)
    requires DistinctKeys(hybrid) && DistinctKeys(rel)
    ensures var fields := Merge(Merge(simple, hybrid), rel);
      && |simple| <= |fields| && Keys(fields)[..|simple|] == Keys(simple)
      && Keys(fields) == Keys(simple) + Fresh(Keys(simple), Keys(hybrid)) + Fresh(Keys(simple) + Keys(hybrid), Keys(rel))
      && forall k :: Get(fields, k) == Precedence(simple, hybrid, rel, k)
  {
    var withHybrid := Merge(simple, hybrid);
    var fields := Merge(withHybrid, rel);
    FreshSameMembers(Keys(withHybrid), Keys(simple) + Keys(hybrid), Keys(rel));
    assert Keys(fields)[..|simple|] == Keys(fields)[..|withHybrid|][..|simple|];
    forall k ensures Get(fields, k) == Precedence(simple, hybrid, rel, k) {
      assert Get(fields, k) == if k in Keys(rel) then Get(rel, k) else Get(withHybrid, k);
      assert Get(withHybrid, k) == if k in Keys(hybrid) then Get(hybrid, k) else Get(simple, k);
    }
  }

  /** A flat model, exclusions aside, holds exactly the table's columns, foreign keys
      included, in table order. */
  lemma FlatModelIsColumns(e: Entity, exclude: set<string>)
    requires ValidEntity(e)
    ensures SqlalchemyToPydantic(e, exclude, true, true, true).value.fields == ConvertSimpleFields(e.columns, exclude, true)
    ensures forall c :: c in e.columns && c.name !in exclude ==>
      Get(SqlalchemyToPydantic(e, exclude, true, true, true).value.fields, c.name) == Some(SimpleDecl(c))
  {
    var ps := ConvertSimpleFields(e.columns, exclude, true);
    AllSimpleFieldsDistinct(e.columns);
    SubsequenceDistinct(ps, AllSimpleFields(e.columns));
    FromDistinctPairs(ps);
    forall c | c in e.columns && c.name !in exclude
      ensures Get(ps, c.name) == Some(SimpleDecl(c))
    {
      assert (c.name, SimpleDecl(c)) in ps;
      GetDistinct(ps, (c.name, SimpleDecl(c)));
    }
  }

  lemma {:induction false} AllSimpleFieldsDistinct(cols: seq<Column>)
    requires forall i, j :: 0 <= i < j < |cols| ==> cols[i].name != cols[j].name
    ensures DistinctKeys(AllSimpleFields(cols))
  {
    if cols != [] {
      var all := AllSimpleFields(cols);
      var rest := AllSimpleFields(cols[1..]);
      assert forall i, j :: 0 <= i < j < |cols[1..]| ==> cols[1..][i].name != cols[1..][j].name by {
        forall i, j | 0 <= i < j < |cols[1..]| ensures cols[1..][i].name != cols[1..][j].name {
          assert cols[1..][i] == cols[i + 1] && cols[1..][j] == cols[j + 1];
        }
      }
      AllSimpleFieldsDistinct(cols[1..]);
      forall i | 0 <= i < |rest| ensures rest[i].0 != cols[0].name {
        AllSimpleFieldsAt(cols[1..], i);
        assert cols[1..][i] == cols[i + 1];
      }
      NotInKeys(rest, cols[0].name);
      DistinctCons(all[0], rest);
    }
  }

  lemma {:induction false} AllSimpleFieldsAt(cols: seq<Column>, i: nat)
    requires i < |cols|
    ensures AllSimpleFields(cols)[i] == (cols[i].name, SimpleDecl(cols[i]))
  {
    if i > 0 { AllSimpleFieldsAt(cols[1..], i - 1); }
  }

  /** In a table with distinct column names, a column is the one its name looks up. */
  lemma ColumnGetDistinct(cols: seq<Column>, c: Column)
    requires forall i, j :: 0 <= i < j < |cols| ==> cols[i].name != cols[j].name
    requires c in cols
    ensures ColumnGet(cols, c.name) == Some(c)
  {
    var d := ColumnGet(cols, c.name).value;
    var i :| 0 <= i < |cols| && cols[i] == c;
    var j :| 0 <= j < |cols| && cols[j] == d;
    assert i == j;
  }

  /** A key of `dict(ps)` is the key of one of the pairs. */
  lemma KeyOfPairs(ps: seq<(string, FieldDecl)>, k: string) returns (p: (string, FieldDecl))
    requires k in Keys(FromPairs(ps))
    ensures p in ps && p.0 == k
  {
    var i := KeyIndex(ps, k);
    p := ps[i];
  }

  /** A foreign-key column of type int or str is never a field of a full or write
      model, unless a hybrid property of the same name puts it there. */
  lemma ForeignKeyLeftOutOfModel(
    e: Entity, exclude: set<string>, includeRelationships: bool, includeHybrid: bool, c: Column)
    requires ValidEntity(e) && c in e.columns
    requires c.hasForeignKey && (c.pyType == Int || c.pyType == Str)
    requires forall h :: h in e.hybrids ==> h.name != c.name
    requires SqlalchemyToPydantic(e, exclude, false, includeRelationships, includeHybrid).Success?
    ensures c.name !in Keys(SqlalchemyToPydantic(e, exclude, false, includeRelationships, includeHybrid).value.fields)
  {
    ModelFieldPrecedence(e, exclude, includeRelationships, includeHybrid);
    ColumnGetDistinct(e.columns, c);
    var simplePs := ConvertSimpleFields(e.columns, exclude, false);
    if c.name in Keys(FromPairs(simplePs)) {
      var p := KeyOfPairs(simplePs, c.name);
      var d :| d in e.columns && KeepsColumn(d, exclude, false) && p == (d.name, SimpleDecl(d));
      ColumnGetDistinct(e.columns, d);
    }
    if includeHybrid {
      var hybridPs := ConvertHybridProperties(e.hybrids, exclude).value;
      if c.name in Keys(FromPairs(hybridPs)) {
        var p := KeyOfPairs(hybridPs, c.name);
      }
    }
    if includeRelationships {
      var relPs := ConvertRelationships(e.columns, e.annotations, exclude).value;
      if c.name in Keys(FromPairs(relPs)) {
        var p := KeyOfPairs(relPs, c.name);
      }
    }
  }

  /** The write model is built from the full model's inputs minus the hybrid
      properties, so it cannot fail once the full model has been built. */
  lemma WriteModelFollowsFull(e: Entity, exclude: set<string>)
    ensures SqlalchemyToPydantic(e, exclude, false, true, true).Success? ==>
      && SqlalchemyToPydantic(e, exclude, false, true, false).Success?
      && SqlalchemyToPydantic(e, exclude, false, true, false).value.name
         == SqlalchemyToPydantic(e, exclude, false, true, true).value.name
  {
    if SqlalchemyToPydantic(e, exclude, false, true, true).Success? {
      ModelSucceeds(e, exclude, true, true);
      ModelSucceeds(e, exclude, true, false);
    }
  }

  /** A flat model holds no forward reference. */
  lemma FlatModelRefs(e: Entity, exclude: set<string>)
    requires ValidEntity(e)
    ensures forall p :: p in SqlalchemyToPydantic(e, exclude, true, true, true).value.fields ==> RefsOf(p.1.ty) == {}
  {
    FlatModelIsColumns(e, exclude);
    forall p | p in SqlalchemyToPydantic(e, exclude, true, true, true).value.fields ensures RefsOf(p.1.ty) == {} {
      var c :| c in e.columns && KeepsColumn(c, exclude, true) && p == (c.name, SimpleDecl(c));
      SimpleDeclRefs(c);
    }
  }

  // ----- forward references -----

  /** The classes a full or write model may refer to: those named by the annotations
      that become relationship fields and by the return types of the kept hybrid
      properties. */
  function ReferencedClasses(e: Entity, exclude: set<string>): set<string> {
    (set a, n | a in e.annotations && IsRelationship(e.columns, exclude, a) && n in ClassNames(a.arg) :: n)
      + (set h, n | h in e.hybrids && h.name !in exclude && n in ClassNames(h.returnType) :: n)
  }

  lemma SimpleDeclRefs(c: Column)
    requires IsColumnClass(c.pyType)
    ensures RefsOf(SimpleDecl(c).ty) == {}
  {
    SimpleDeclRule(c);
    if c.nullable {
      var args := [c.pyType, NoneType];
      assert forall i :: 0 <= i < |args| ==> RefsOf(args[i]) == {};
    }
  }

  lemma HybridDeclRefs(ret: PyType)
    requires IsSourceType(ret) && HybridDecl(ret).Success?
    ensures RefsOf(HybridDecl(ret).value.ty) <= FlatRefs(ClassNames(ret))
  {
    GetPythonTypeRefs(ret);
  }

  /** Every forward reference in a full or write model names the flat model of a class
      a relationship annotation or a kept hybrid property names; simple fields hold none. */
  lemma ModelRefs(e: Entity, exclude: set<string>, includeRelationships: bool, includeHybrid: bool)
    requires ValidEntity(e)
    ensures SqlalchemyToPydantic(e, exclude, false, includeRelationships, includeHybrid).Success? ==>
      forall p :: p in SqlalchemyToPydantic(e, exclude, false, includeRelationships, includeHybrid).value.fields ==>
        RefsOf(p.1.ty) <= FlatRefs(ReferencedClasses(e, exclude))
  {
    if SqlalchemyToPydantic(e, exclude, false, includeRelationships, includeHybrid).Success? {
      var fields := SqlalchemyToPydantic(e, exclude, false, includeRelationships, includeHybrid).value.fields;
      ModelFieldPrecedence(e, exclude, includeRelationships, includeHybrid);
      var simplePs := ConvertSimpleFields(e.columns, exclude, false);
      forall p | p in fields ensures RefsOf(p.1.ty) <= FlatRefs(ReferencedClasses(e, exclude)) {
        GetDistinct(fields, p);
        if includeRelationships && p.0 in Keys(FromPairs(ConvertRelationships(e.columns, e.annotations, exclude).value)) {
          var relPs := ConvertRelationships(e.columns, e.annotations, exclude).value;
          assert p in relPs;
          var a :| a in e.annotations && IsRelationship(e.columns, exclude, a) && p == (a.name, RelationshipDecl(a.arg).value);
          GetPythonTypeRefs(a.arg);
          assert ClassNames(a.arg) <= ReferencedClasses(e, exclude);
        } else if includeHybrid && p.0 in Keys(FromPairs(ConvertHybridProperties(e.hybrids, exclude).value)) {
          var hybridPs := ConvertHybridProperties(e.hybrids, exclude).value;
          assert p in hybridPs;
          var h :| h in e.hybrids && h.name !in exclude && p == (h.name, HybridDecl(h.returnType).value);
          HybridDeclRefs(h.returnType);
          assert ClassNames(h.returnType) <= ReferencedClasses(e, exclude);
        } else {
          assert p in simplePs;
          var c :| c in e.columns && KeepsColumn(c, exclude, false) && p == (c.name, SimpleDecl(c));
          SimpleDeclRefs(c);
        }
      }
    }
  }

  // ----- sqlalchemy_to_marshmallow -----

  predicate EndsWith(s: string, suffix: string) {
    |suffix| <= |s| && s[|s| - |suffix|..] == suffix
  }

  /** The marshmallow schema of a model class, refused for a class whose name ends
      with "Schema". */
  function SqlalchemyToMarshmallow(e: Entity, session: SessionId): (r: Result<MarshmallowSchema, Error>)
    ensures r.Failure? <==> EndsWith(e.name, "Schema")
    ensures r.Failure? ==> r.error == ModelConversionError
    ensures r.Success? ==> r.value.name == SchemaName(e.name) && r.value.model == e.name
    ensures r.Success? ==> r.value.session == session
    ensures r.Success? ==> r.value.includeRelationships && r.value.loadInstance
  {
    if EndsWith(e.name, "Schema") then Failure(ModelConversionError)
    else Success(MarshmallowSchema(SchemaName(e.name), e.name, session, true, true))
  }

  lemma SuffixEndsWith(s: string, suffix: string)
    ensures EndsWith(s + suffix, suffix)
  {
    assert (s + suffix)[|s|..] == suffix;
  }

  /** The rule's purpose: the schema name of an accepted class is never the name of
      an accepted class, nor the name of any pydantic model. */
  lemma SchemaNamesAreFresh(a: string, b: string)
    requires !EndsWith(b, "Schema")
    ensures SchemaName(a) != b
    ensures SchemaName(a) != ModelName(b) && SchemaName(a) != FlatModelName(b)
  {
    SuffixEndsWith(a, "Schema");
    SuffixEndsWith(b, "Model");
    SuffixEndsWith(b, "FlatModel");
    var s := SchemaName(a);
    assert s[|s| - 1] == 'a';
    assert ModelName(b)[|ModelName(b)| - 1] == 'l';
    assert FlatModelName(b)[|FlatModelName(b)| - 1] == 'l';
  }
}
