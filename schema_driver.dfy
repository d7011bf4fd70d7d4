/** setup_schema: a fresh synthetic module, then two passes over the registered
    classes. The first registers every flat model in the module; the second gives
    each class its marshmallow schema, full model and write model, and registers
    the full model. */
module SchemaDriver {
  import opened Wrappers
  import opened Dicts
  import opened PyTypes
  import opened Descriptors
  import opened Serializers
  import opened Orm

  /** The synthetic module: the pydantic models set on it, by name.  The attributes
      every new module has (`__name__`, `__doc__` and the like) are not represented. */
  class Namespace {
    var members: map<string, PydanticModel>

    constructor ()
      ensures members == map[]
    {
      members := map[];
    }
  }

  /** The synthetic module's entry in sys.modules. */
  class SysModules {
    var synth: Namespace?

    constructor ()
      ensures synth == null
    {
      synth := null;
    }
  }

  // ----- the conversions the driver calls -----

  /** The four conversions setup_schema applies to a class: flat model, marshmallow
      schema, full model and write model. The last three can raise. */
  datatype Conversions = Conversions(
    flat: Entity -> PydanticModel,
    schema: Entity -> Result<MarshmallowSchema, Error>,
    full: Entity -> Result<PydanticModel, Error>,
    put: Entity -> Result<PydanticModel, Error>)

  /** sqlalchemy_to_pydantic(c, flat=True) */
  function FlatOf(e: Entity): PydanticModel {
    SqlalchemyToPydantic(e, {}, true, true, true).value
  }

  /** The conversions of the engine, with setup_schema's arguments. */
  function Synth(session: SessionId): Conversions {
    Conversions(
      FlatOf,
      e => SqlalchemyToMarshmallow(e, session),
      e => SqlalchemyToPydantic(e, {}, false, true, true),
      e => SqlalchemyToPydantic(e, {}, false, true, false))
  }

  /** What the second pass gives one class. */
  datatype Artifacts = Artifacts(marshmallow: MarshmallowSchema, pydantic: PydanticModel, pydanticPut: PydanticModel)

  /** The second pass on one class, in the source's order: schema, full model, write model. */
  function Step(cv: Conversions, e: Entity): (r: Result<Artifacts, Error>)
    ensures r.Success? <==> cv.schema(e).Success? && cv.full(e).Success? && cv.put(e).Success?
    ensures r.Success? ==> r.value == Artifacts(cv.schema(e).value, cv.full(e).value, cv.put(e).value)
    ensures r.Failure? ==>
      r.error == if cv.schema(e).Failure? then cv.schema(e).error else if cv.full(e).Failure? then cv.full(e).error else cv.put(e).error
  {
    match cv.schema(e)
    case Failure(err) => Failure(err)
    case Success(m) =>
      match cv.full(e)
      case Failure(err) => Failure(err)
      case Success(full) =>
        match cv.put(e)
        case Failure(err) => Failure(err)
        case Success(put) => Success(Artifacts(m, full, put))
  }

  /** A class's three serializer slots. */
  datatype Slots = Slots(marshmallow: Option<MarshmallowSchema>, pydantic: Option<PydanticModel>, pydanticPut: Option<PydanticModel>)

  function SlotsOf(c: ModelClass): Slots
    reads c
  {
    Slots(c.marshmallow, c.pydantic, c.pydanticPut)
  }

  /** The slots of a class the second pass has finished. */
  function Filled(a: Artifacts): Slots {
    Slots(Some(a.marshmallow), Some(a.pydantic), Some(a.pydanticPut))
  }

  /** The slots of the class the second pass stops at: each artifact is assigned as
      soon as it is built, so the ones before the failing conversion are set. */
  function Stopped(cv: Conversions, e: Entity, before: Slots): Slots {
    match cv.schema(e)
    case Failure(_) => before
    case Success(m) =>
      match cv.full(e)
      case Failure(_) => before.(marshmallow := Some(m))
      case Success(full) => before.(marshmallow := Some(m), pydantic := Some(full))
  }

  /** The outcome of the second pass on each class, were it to reach it. */
  function Outcomes(cs: seq<ModelClass>, cv: Conversions): (os: seq<Result<Artifacts, Error>>)
    ensures |os| == |cs|
  {
    seq(|cs|, i requires 0 <= i < |cs| => Step(cv, cs[i].entity))
  }

  /** The artifacts of the classes before the first failing one. */
  function Completed(os: seq<Result<Artifacts, Error>>): (p: seq<Artifacts>)
    ensures |p| <= |os|
    ensures forall i :: 0 <= i < |p| ==> os[i] == Success(p[i])
    ensures |p| < |os| ==> os[|p|].Failure?
  {
    if os == [] || os[0].Failure? then []
    else
      var rest := Completed(os[1..]);
      assert forall i :: 1 <= i < 1 + |rest| ==> os[i] == os[1..][i - 1];
      [os[0].value] + rest
  }

  /** What the second pass produces: the artifacts of the classes it completes. The
      class it stops at, if any, is cs[|Plan(cs, cv)|]. */
  function Plan(cs: seq<ModelClass>, cv: Conversions): seq<Artifacts> {
    Completed(Outcomes(cs, cv))
  }

  /** Completed is determined by its contract: a run of successes that stops at the
      first failure. */
  lemma {:induction false} CompletedIs(os: seq<Result<Artifacts, Error>>, done: seq<Artifacts>)
    requires |done| <= |os|
    requires forall j :: 0 <= j < |done| ==> os[j] == Success(done[j])
    requires |done| < |os| ==> os[|done|].Failure?
    ensures Completed(os) == done
  {
    if os != [] && os[0].Success? {
      assert |done| > 0;
      assert forall j :: 0 <= j < |done| - 1 ==> os[1..][j] == os[j + 1];
      CompletedIs(os[1..], done[1..]);
      assert done == [done[0]] + done[1..];
    }
  }

  /** The plan is the run of successful steps, up to the first failing one. */
  lemma PlanIs(cs: seq<ModelClass>, cv: Conversions, done: seq<Artifacts>)
    requires |done| <= |cs|
    requires forall j :: 0 <= j < |done| ==> Step(cv, cs[j].entity) == Success(done[j])
    requires |done| < |cs| ==> Step(cv, cs[|done|].entity).Failure?
    ensures Plan(cs, cv) == done
  {
    CompletedIs(Outcomes(cs, cv), done);
  }

  /** The synthetic module after the first pass has registered the flat models of cs,
      in order, on top of m. */
  function WithFlats(m: map<string, PydanticModel>, cs: seq<ModelClass>, cv: Conversions): map<string, PydanticModel> {
    if cs == [] then m
    else
      var flat := cv.flat(cs[|cs| - 1].entity);
      WithFlats(m, cs[..|cs| - 1], cv)[flat.name := flat]
  }

  /** The synthetic module after the second pass has registered the full models of
      the plan, in order, on top of m. */
  function WithFulls(m: map<string, PydanticModel>, plan: seq<Artifacts>): map<string, PydanticModel> {
    if plan == [] then m
    else
      var full := plan[|plan| - 1].pydantic;
      WithFulls(m, plan[..|plan| - 1])[full.name := full]
  }

  lemma WithFlatsSnoc(m: map<string, PydanticModel>, cs: seq<ModelClass>, cv: Conversions, c: ModelClass)
    ensures WithFlats(m, cs + [c], cv) == WithFlats(m, cs, cv)[cv.flat(c.entity).name := cv.flat(c.entity)]
  {
    assert (cs + [c])[..|cs|] == cs;
  }

  lemma WithFullsSnoc(m: map<string, PydanticModel>, plan: seq<Artifacts>, a: Artifacts)
    ensures WithFulls(m, plan + [a]) == WithFulls(m, plan)[a.pydantic.name := a.pydantic]
  {
    assert (plan + [a])[..|plan|] == plan;
  }

  /** The synthetic module once the second pass has stopped: the flat models, then
      the full models of the completed classes. */
  function FinalNamespace(cs: seq<ModelClass>, cv: Conversions): map<string, PydanticModel> {
    WithFulls(WithFlats(map[], cs, cv), Plan(cs, cv))
  }

  // ----- the driver -----

  /** The first loop: the registry's classes in order, tokens skipped. */
  method CollectClasses(entries: Dict<Entry>) returns (classes: seq<ModelClass>)
    ensures classes == Classes(entries)
  {
    classes := [];
    var n := 0;
    while n < |entries|
      invariant n <= |entries|
      invariant classes == Classes(entries[..n])
    {
      assert entries[..n + 1][..n] == entries[..n];
      if entries[n].1.ClassEntry? {
        classes := classes + [entries[n].1.cls];
      }
      n := n + 1;
    }
    assert entries[..n] == entries;
  }

  /** The first pass: every flat model, in class order. */
  method RegisterFlatModels(mod: Namespace, classes: seq<ModelClass>, cv: Conversions)
    modifies mod
    ensures mod.members == WithFlats(old(mod.members), classes, cv)
  {
    var i := 0;
    while i < |classes|
      invariant i <= |classes|
      invariant mod.members == WithFlats(old(mod.members), classes[..i], cv)
    {
      var flat := cv.flat(classes[i].entity);
      assert classes[..i + 1] == classes[..i] + [classes[i]];
      WithFlatsSnoc(old(mod.members), classes[..i], cv, classes[i]);
      mod.members := mod.members[flat.name := flat];
      i := i + 1;
    }
    assert classes[..i] == classes;
  }

  /** The second pass on the class classes[i]: each artifact is assigned as soon as
      it is built, and no other class is touched. */
  method ConvertClass(classes: seq<ModelClass>, i: nat, cv: Conversions) returns (r: Result<Artifacts, Error>)
    requires i < |classes| && DistinctNames(classes)
    modifies classes[i]
    ensures r == Step(cv, classes[i].entity)
    ensures SlotsOf(classes[i]) == if r.Success? then Filled(r.value) else Stopped(cv, classes[i].entity, old(SlotsOf(classes[i])))
    ensures forall j :: 0 <= j < |classes| && j != i ==> SlotsOf(classes[j]) == old(SlotsOf(classes[j]))
  {
    var c := classes[i];
    var schema := cv.schema(c.entity);
    if schema.Failure? {
      return Failure(schema.error);
    }
    c.marshmallow := Some(schema.value);
    var full := cv.full(c.entity);
    if full.Failure? {
      return Failure(full.error);
    }
    c.pydantic := Some(full.value);
    var put := cv.put(c.entity);
    if put.Failure? {
      return Failure(put.error);
    }
    c.pydanticPut := Some(put.value);
    return Success(Artifacts(schema.value, full.value, put.value));
  }

  /** setattr(mod, name, model) for the full model of the second pass's next class. */
  method RegisterFull(mod: Namespace, ghost start: map<string, PydanticModel>, ghost done: seq<Artifacts>, a: Artifacts)
    requires mod.members == WithFulls(start, done)
    modifies mod
    ensures mod.members == WithFulls(start, done + [a])
  {
    WithFullsSnoc(start, done, a);
    mod.members := mod.members[a.pydantic.name := a.pydantic];
  }

  /** The second pass, stopping at the first class that fails. */
  method SecondPass(mod: Namespace, classes: seq<ModelClass>, cv: Conversions) returns (r: Outcome<Error>, ghost done: seq<Artifacts>)
    requires DistinctNames(classes)
    modifies mod, Objects(classes)
    ensures done == Plan(classes, cv)
    ensures r.Pass? <==> |done| == |classes|
    ensures r.Fail? ==> |done| < |classes| && Step(cv, classes[|done|].entity) == Failure(r.error)
    ensures mod.members == WithFulls(old(mod.members), done)
    ensures forall j :: 0 <= j < |done| ==> SlotsOf(classes[j]) == Filled(done[j])
    ensures |done| < |classes| ==> SlotsOf(classes[|done|]) == Stopped(cv, classes[|done|].entity, old(SlotsOf(classes[|done|])))
    ensures forall j :: |done| < j < |classes| ==> SlotsOf(classes[j]) == old(SlotsOf(classes[j]))
  {
    done := [];
    var i := 0;
    while i < |classes|
      invariant i <= |classes| && |done| == i
      invariant forall j :: 0 <= j < i ==> Step(cv, classes[j].entity) == Success(done[j])
      invariant mod.members == WithFulls(old(mod.members), done)
      invariant forall j :: 0 <= j < i ==> SlotsOf(classes[j]) == Filled(done[j])
      invariant forall j :: i <= j < |classes| ==> SlotsOf(classes[j]) == old(SlotsOf(classes[j]))
    {
      var out := ConvertClass(classes, i, cv);
      if out.Failure? {
        PlanIs(classes, cv, done);
        return Fail(out.error), done;
      }
      RegisterFull(mod, old(mod.members), done, out.value);
      done := done + [out.value];
      i := i + 1;
    }
    PlanIs(classes, cv, done);
    return Pass, done;
  }

  /** The two passes over the collected classes. */
  method Passes(mod: Namespace, classes: seq<ModelClass>, cv: Conversions) returns (r: Outcome<Error>, ghost done: seq<Artifacts>)
    requires DistinctNames(classes)
    modifies mod, Objects(classes)
    ensures done == Plan(classes, cv)
    ensures r.Pass? <==> |done| == |classes|
    ensures r.Fail? ==> |done| < |classes| && Step(cv, classes[|done|].entity) == Failure(r.error)
    ensures mod.members == WithFulls(WithFlats(old(mod.members), classes, cv), done)
    ensures forall j :: 0 <= j < |done| ==> SlotsOf(classes[j]) == Filled(done[j])
    ensures |done| < |classes| ==> SlotsOf(classes[|done|]) == Stopped(cv, classes[|done|].entity, old(SlotsOf(classes[|done|])))
    ensures forall j :: |done| < j < |classes| ==> SlotsOf(classes[j]) == old(SlotsOf(classes[j]))
  {
    RegisterFlatModels(mod, classes, cv);
    r, done := SecondPass(mod, classes, cv);
  }

  /** setup_schema over the given conversions. The second pass stops at the first
      class one of whose conversions fails: the classes before it are complete, that
      class keeps the artifacts built before the failure, the classes after it are
      untouched, and the fresh module holds the flat models and the full models of
      the completed classes. */
  method SetupSchemaWith(base: DeclBase, modules: SysModules, cv: Conversions)
    returns (r: Outcome<Error>, ghost classes: seq<ModelClass>, ghost done: seq<Artifacts>)
    requires WellFormed(base.registry.classRegistry)
    modifies modules, Objects(Classes(base.registry.classRegistry))
    ensures classes == old(Classes(base.registry.classRegistry))
    ensures done == Plan(classes, cv)
    ensures modules.synth != null && fresh(modules.synth)
    ensures r.Pass? <==> |done| == |classes|
    ensures r.Fail? ==> |done| < |classes| && Step(cv, classes[|done|].entity) == Failure(r.error)
    ensures modules.synth.members == WithFulls(WithFlats(map[], classes, cv), done)
    ensures forall i :: 0 <= i < |done| ==> SlotsOf(classes[i]) == Filled(done[i])
    ensures |done| < |classes| ==> SlotsOf(classes[|done|]) == Stopped(cv, classes[|done|].entity, old(SlotsOf(classes[|done|])))
    ensures forall i :: |done| < i < |classes| ==> SlotsOf(classes[i]) == old(SlotsOf(classes[i]))
  {
    ClassesAllocated(base.registry.classRegistry);
    var mod := new Namespace();
    modules.synth := mod;
    var cs := CollectClasses(base.registry.classRegistry);
    ClassesDistinct(base.registry.classRegistry);
    r, done := Passes(mod, cs, cv);
    classes := cs;
  }

  /** setup_schema(decl_base, session=session): the driver over the serializers'
      conversions. */
  method SetupSchema(base: DeclBase, modules: SysModules, session: SessionId) returns (r: Outcome<Error>)
    requires WellFormed(base.registry.classRegistry)
    modifies modules, Objects(Classes(base.registry.classRegistry))
    ensures var cs := old(Classes(base.registry.classRegistry));
      var plan := Plan(cs, Synth(session));
      && modules.synth != null && fresh(modules.synth)
      && (r.Pass? <==> |plan| == |cs|)
      && (r.Fail? ==> |plan| < |cs| && Step(Synth(session), cs[|plan|].entity) == Failure(r.error))
      && modules.synth.members == FinalNamespace(cs, Synth(session))
    ensures var cs := old(Classes(base.registry.classRegistry));
      var plan := Plan(cs, Synth(session));
      forall i :: 0 <= i < |plan| ==> SlotsOf(cs[i]) == Filled(plan[i])
    ensures var cs := old(Classes(base.registry.classRegistry));
      var k := |Plan(cs, Synth(session))|;
      k < |cs| ==> SlotsOf(cs[k]) == Stopped(Synth(session), cs[k].entity, old(SlotsOf(cs[k])))
    ensures var cs := old(Classes(base.registry.classRegistry));
      forall i :: |Plan(cs, Synth(session))| < i < |cs| ==> SlotsOf(cs[i]) == old(SlotsOf(cs[i]))
  {
    ghost var classes, done;
    r, classes, done := SetupSchemaWith(base, modules, Synth(session));
  }

  // ----- the plan -----

  /** The plan is the run of successful steps up to the first failure. */
  lemma PlanSteps(cs: seq<ModelClass>, cv: Conversions)
    ensures |Plan(cs, cv)| <= |cs|
    ensures forall j :: 0 <= j < |Plan(cs, cv)| ==> Step(cv, cs[j].entity) == Success(Plan(cs, cv)[j])
    ensures |Plan(cs, cv)| < |cs| ==> Step(cv, cs[|Plan(cs, cv)|].entity).Failure?
  {
    var os := Outcomes(cs, cv);
    assert forall j :: 0 <= j < |cs| ==> os[j] == Step(cv, cs[j].entity);
  }

  /** The second pass completes exactly when every class's step succeeds. */
  lemma PlanComplete(cs: seq<ModelClass>, cv: Conversions)
    ensures |Plan(cs, cv)| == |cs| <==> forall j :: 0 <= j < |cs| ==> Step(cv, cs[j].entity).Success?
  {
    PlanSteps(cs, cv);
  }

  // ----- the engine's steps -----

  /** One class under the engine's conversions: the step succeeds exactly when the
      class's name does not end with "Schema" and its full model can be built; then
      the write model exists too and both models are named after the class. */
  lemma SynthStep(session: SessionId, e: Entity)
    ensures Step(Synth(session), e).Success? <==>
      !EndsWith(e.name, "Schema") && SqlalchemyToPydantic(e, {}, false, true, true).Success?
    ensures Step(Synth(session), e).Success? ==>
      var a := Step(Synth(session), e).value;
      && a.marshmallow == MarshmallowSchema(SchemaName(e.name), e.name, session, true, true)
      && a.pydantic == SqlalchemyToPydantic(e, {}, false, true, true).value
      && a.pydanticPut == SqlalchemyToPydantic(e, {}, false, true, false).value
      && a.pydantic.name == ModelName(e.name) && a.pydanticPut.name == ModelName(e.name)
    ensures Step(Synth(session), e).Failure? ==>
      Step(Synth(session), e).error ==
        if EndsWith(e.name, "Schema") then ModelConversionError
        else SqlalchemyToPydantic(e, {}, false, true, true).error
  {
    if SqlalchemyToPydantic(e, {}, false, true, true).Success? {
      WriteModelFollowsFull(e, {});
    }
  }

  /** The class the second pass stops at never receives a pydantic model: its schema
      slot is set exactly when its name is accepted, the other slots keep their values. */
  lemma SynthStopped(session: SessionId, e: Entity, before: Slots)
    requires Step(Synth(session), e).Failure?
    ensures Stopped(Synth(session), e, before) ==
      if EndsWith(e.name, "Schema") then before
      else before.(marshmallow := Some(MarshmallowSchema(SchemaName(e.name), e.name, session, true, true)))
  {
    SynthStep(session, e);
    if SqlalchemyToPydantic(e, {}, false, true, true).Success? {
      WriteModelFollowsFull(e, {});
    }
  }

  /** A class whose name ends with "Schema" stops the second pass at or before it. */
  lemma SchemaSuffixStops(cs: seq<ModelClass>, session: SessionId, j: nat)
    requires j < |cs| && EndsWith(cs[j].entity.name, "Schema")
    ensures |Plan(cs, Synth(session))| <= j
  {
    PlanSteps(cs, Synth(session));
    SynthStep(session, cs[j].entity);
  }

  /** The i-th completed class's full model is named after the class. */
  lemma PlanNames(cs: seq<ModelClass>, session: SessionId, i: nat)
    requires i < |Plan(cs, Synth(session))|
    ensures Plan(cs, Synth(session))[i].pydantic.name == ModelName(cs[i].entity.name)
    ensures Plan(cs, Synth(session))[i].pydantic == SqlalchemyToPydantic(cs[i].entity, {}, false, true, true).value
  {
    PlanSteps(cs, Synth(session));
    SynthStep(session, cs[i].entity);
  }

  // ----- what the synthetic module holds -----

  lemma {:induction false} WithFlatsKeys(m: map<string, PydanticModel>, cs: seq<ModelClass>, cv: Conversions, k: string)
    ensures k in WithFlats(m, cs, cv) <==> k in m || exists j :: 0 <= j < |cs| && cv.flat(cs[j].entity).name == k
  {
    if cs != [] {
      var init := cs[..|cs| - 1];
      WithFlatsKeys(m, init, cv, k);
      assert forall j :: 0 <= j < |init| ==> init[j] == cs[j];
    }
  }

  /** The flat model of class j is what its name holds when no later class's flat
      model has the same name. */
  lemma {:induction false} WithFlatsAt(m: map<string, PydanticModel>, cs: seq<ModelClass>, cv: Conversions, j: nat)
    requires j < |cs|
    requires forall l :: j < l < |cs| ==> cv.flat(cs[l].entity).name != cv.flat(cs[j].entity).name
    ensures cv.flat(cs[j].entity).name in WithFlats(m, cs, cv)
    ensures WithFlats(m, cs, cv)[cv.flat(cs[j].entity).name] == cv.flat(cs[j].entity)
  {
    if j < |cs| - 1 {
      var init := cs[..|cs| - 1];
      assert forall l :: 0 <= l < |init| ==> init[l] == cs[l];
      WithFlatsAt(m, init, cv, j);
    }
  }

  lemma {:induction false} WithFullsKeys(m: map<string, PydanticModel>, plan: seq<Artifacts>, k: string)
    ensures k in WithFulls(m, plan) <==> k in m || exists j :: 0 <= j < |plan| && plan[j].pydantic.name == k
  {
    if plan != [] {
      var init := plan[..|plan| - 1];
      WithFullsKeys(m, init, k);
      assert forall j :: 0 <= j < |init| ==> init[j] == plan[j];
    }
  }

  /** The full model of plan entry j is what its name holds when no later entry's
      full model has the same name. */
  lemma {:induction false} WithFullsAt(m: map<string, PydanticModel>, plan: seq<Artifacts>, j: nat)
    requires j < |plan|
    requires forall l :: j < l < |plan| ==> plan[l].pydantic.name != plan[j].pydantic.name
    ensures plan[j].pydantic.name in WithFulls(m, plan)
    ensures WithFulls(m, plan)[plan[j].pydantic.name] == plan[j].pydantic
  {
    if j < |plan| - 1 {
      var init := plan[..|plan| - 1];
      assert forall l :: 0 <= l < |init| ==> init[l] == plan[l];
      WithFullsAt(m, init, j);
    }
  }

  /** A name no full model takes keeps what the first pass left under it. */
  lemma {:induction false} WithFullsOther(m: map<string, PydanticModel>, plan: seq<Artifacts>, k: string)
    requires forall l :: 0 <= l < |plan| ==> plan[l].pydantic.name != k
    ensures k in WithFulls(m, plan) <==> k in m
    ensures k in m ==> WithFulls(m, plan)[k] == m[k]
  {
    if plan != [] {
      var init := plan[..|plan| - 1];
      assert forall l :: 0 <= l < |init| ==> init[l] == plan[l];
      WithFullsOther(m, init, k);
    }
  }

  lemma SuffixCancel(a: string, b: string, s: string)
    requires a + s == b + s
    ensures a == b
  {
    assert |a| == |b|;
    assert a == (a + s)[..|a|] && b == (b + s)[..|b|];
  }

  lemma NamesDiffer(cs: seq<ModelClass>, i: nat, j: nat)
    requires DistinctNames(cs) && i < |cs| && j < |cs| && i != j
    ensures cs[i].entity.name != cs[j].entity.name
  {
    if j < i {
      assert cs[j].entity.name != cs[i].entity.name;
    }
  }

  /** Flat models are named after their classes, and so are the full models of the
      completed classes. */
  predicate NamedAfterClasses(cs: seq<ModelClass>, cv: Conversions) {
    && (forall i :: 0 <= i < |cs| ==> cv.flat(cs[i].entity).name == FlatModelName(cs[i].entity.name))
    && (forall i :: 0 <= i < |Plan(cs, cv)| ==> Plan(cs, cv)[i].pydantic.name == ModelName(cs[i].entity.name))
  }

  lemma SynthNamed(cs: seq<ModelClass>, session: SessionId)
    ensures NamedAfterClasses(cs, Synth(session))
  {
    forall i | 0 <= i < |Plan(cs, Synth(session))|
      ensures Plan(cs, Synth(session))[i].pydantic.name == ModelName(cs[i].entity.name)
    {
      PlanNames(cs, session, i);
    }
  }

  /** The names the synthetic module holds models under: the flat-model name of every
      class, and the model name of every class the second pass completed. */
  lemma FinalNamespaceKeys(cs: seq<ModelClass>, session: SessionId, k: string)
    ensures k in FinalNamespace(cs, Synth(session)) <==>
      exists j :: 0 <= j < |cs| && (k == FlatModelName(cs[j].entity.name) || (j < |Plan(cs, Synth(session))| && k == ModelName(cs[j].entity.name)))
  {
    SynthNamed(cs, session);
    NamespaceKeys(cs, Synth(session), k);
  }

  lemma NamespaceKeys(cs: seq<ModelClass>, cv: Conversions, k: string)
    requires NamedAfterClasses(cs, cv)
    ensures k in FinalNamespace(cs, cv) <==>
      exists j :: 0 <= j < |cs| && (k == FlatModelName(cs[j].entity.name) || (j < |Plan(cs, cv)| && k == ModelName(cs[j].entity.name)))
  {
    PlanSteps(cs, cv);
    WithFlatsKeys(map[], cs, cv, k);
    WithFullsKeys(WithFlats(map[], cs, cv), Plan(cs, cv), k);
  }

  /** A completed class's full model is what its model name holds. */
  lemma FullModelRegistered(cs: seq<ModelClass>, session: SessionId, j: nat)
    requires DistinctNames(cs) && j < |Plan(cs, Synth(session))|
    ensures var ns := FinalNamespace(cs, Synth(session));
      && ModelName(cs[j].entity.name) in ns
      && ns[ModelName(cs[j].entity.name)] == Plan(cs, Synth(session))[j].pydantic
  {
    SynthNamed(cs, session);
    FullRegistered(cs, Synth(session), j);
  }

  lemma FullRegistered(cs: seq<ModelClass>, cv: Conversions, j: nat)
    requires DistinctNames(cs) && NamedAfterClasses(cs, cv) && j < |Plan(cs, cv)|
    ensures var ns := FinalNamespace(cs, cv);
      ModelName(cs[j].entity.name) in ns && ns[ModelName(cs[j].entity.name)] == Plan(cs, cv)[j].pydantic
  {
    var plan := Plan(cs, cv);
    PlanSteps(cs, cv);
    forall l | j < l < |plan| ensures plan[l].pydantic.name != plan[j].pydantic.name {
      NamesDiffer(cs, l, j);
      if plan[l].pydantic.name == plan[j].pydantic.name {
        SuffixCancel(cs[l].entity.name, cs[j].entity.name, "Model");
      }
    }
    WithFullsAt(WithFlats(map[], cs, cv), plan, j);
  }

  /** A class's flat model is what its flat-model name holds, unless a completed
      class is named like it with "Flat" appended. */
  lemma FlatModelRegistered(cs: seq<ModelClass>, session: SessionId, j: nat)
    requires DistinctNames(cs) && j < |cs|
    requires forall i :: 0 <= i < |Plan(cs, Synth(session))| ==> cs[i].entity.name != cs[j].entity.name + "Flat"
    ensures var ns := FinalNamespace(cs, Synth(session));
      && FlatModelName(cs[j].entity.name) in ns
      && ns[FlatModelName(cs[j].entity.name)] == FlatOf(cs[j].entity)
  {
    SynthNamed(cs, session);
    FlatRegistered(cs, Synth(session), j);
  }

  lemma FlatRegistered(cs: seq<ModelClass>, cv: Conversions, j: nat)
    requires DistinctNames(cs) && NamedAfterClasses(cs, cv) && j < |cs|
    requires forall i :: 0 <= i < |Plan(cs, cv)| ==> cs[i].entity.name != cs[j].entity.name + "Flat"
    ensures var ns := FinalNamespace(cs, cv);
      FlatModelName(cs[j].entity.name) in ns && ns[FlatModelName(cs[j].entity.name)] == cv.flat(cs[j].entity)
  {
    LaterFlatNamesDiffer(cs, cv, j);
    WithFlatsAt(map[], cs, cv, j);
    FullNamesAvoidFlat(cs, cv, j);
    WithFullsOther(WithFlats(map[], cs, cv), Plan(cs, cv), FlatModelName(cs[j].entity.name));
  }

  /** No later class's flat model has the name of class j's. */
  lemma LaterFlatNamesDiffer(cs: seq<ModelClass>, cv: Conversions, j: nat)
    requires DistinctNames(cs) && NamedAfterClasses(cs, cv) && j < |cs|
    ensures forall l :: j < l < |cs| ==> cv.flat(cs[l].entity).name != cv.flat(cs[j].entity).name
  {
    forall l | j < l < |cs| ensures cv.flat(cs[l].entity).name != cv.flat(cs[j].entity).name {
      NamesDiffer(cs, l, j);
      if cv.flat(cs[l].entity).name == cv.flat(cs[j].entity).name {
        SuffixCancel(cs[l].entity.name, cs[j].entity.name, "FlatModel");
      }
    }
  }

  /** No completed class's full model takes class j's flat-model name, unless the
      completed class is named like class j with "Flat" appended. */
  lemma FullNamesAvoidFlat(cs: seq<ModelClass>, cv: Conversions, j: nat)
    requires NamedAfterClasses(cs, cv) && j < |cs|
    requires forall i :: 0 <= i < |Plan(cs, cv)| ==> cs[i].entity.name != cs[j].entity.name + "Flat"
    ensures forall l :: 0 <= l < |Plan(cs, cv)| ==> Plan(cs, cv)[l].pydantic.name != FlatModelName(cs[j].entity.name)
  {
    var plan := Plan(cs, cv);
    FlatSuffix(cs[j].entity.name);
    forall l | 0 <= l < |plan| ensures plan[l].pydantic.name != FlatModelName(cs[j].entity.name) {
      if plan[l].pydantic.name == FlatModelName(cs[j].entity.name) {
        SuffixCancel(cs[l].entity.name, cs[j].entity.name + "Flat", "Model");
      }
    }
  }

  /** The exception: when a completed class is named like class j with "Flat"
      appended, its full model replaces class j's flat model. */
  lemma FlatModelShadowed(cs: seq<ModelClass>, session: SessionId, j: nat, i: nat)
    requires DistinctNames(cs) && j < |cs| && i < |Plan(cs, Synth(session))|
    requires cs[i].entity.name == cs[j].entity.name + "Flat"
    ensures var ns := FinalNamespace(cs, Synth(session));
      && FlatModelName(cs[j].entity.name) in ns
      && ns[FlatModelName(cs[j].entity.name)] == Plan(cs, Synth(session))[i].pydantic
  {
    FlatSuffix(cs[j].entity.name);
    FullModelRegistered(cs, session, i);
  }

  lemma FlatSuffix(n: string)
    ensures FlatModelName(n) == ModelName(n + "Flat")
  {
    assert n + "FlatModel" == (n + "Flat") + "Model";
  }

  /** When every class that class j's relationships and hybrid properties name is
      registered, every forward reference of its full and write models names a model
      in the synthetic module. */
  lemma ForwardRefsResolve(cs: seq<ModelClass>, session: SessionId, j: nat)
    requires j < |cs| ==> ValidEntity(cs[j].entity)
    requires j < |cs| ==> ReferencedClasses(cs[j].entity, {}) <= Names(cs)
    ensures j < |Plan(cs, Synth(session))| ==>
      var a := Plan(cs, Synth(session))[j];
      forall p :: p in a.pydantic.fields + a.pydanticPut.fields ==> RefsOf(p.1.ty) <= FinalNamespace(cs, Synth(session)).Keys
  {
    if j < |Plan(cs, Synth(session))| {
      var cv := Synth(session);
      var plan := Plan(cs, cv);
      var e := cs[j].entity;
      PlanSteps(cs, cv);
      SynthStep(session, e);
      ModelRefs(e, {}, true, true);
      ModelRefs(e, {}, true, false);
      FlatRefsRegistered(cs, session, ReferencedClasses(e, {}));
    }
  }

  /** The flat models of registered classes are in the synthetic module. */
  lemma FlatRefsRegistered(cs: seq<ModelClass>, session: SessionId, names: set<string>)
    requires names <= Names(cs)
    ensures FlatRefs(names) <= FinalNamespace(cs, Synth(session)).Keys
  {
    forall r | r in FlatRefs(names) ensures r in FinalNamespace(cs, Synth(session)) {
      var n :| n in names && r == FlatModelName(n);
      var i :| 0 <= i < |cs| && cs[i].entity.name == n;
      FinalNamespaceKeys(cs, session, r);
    }
  }
}
