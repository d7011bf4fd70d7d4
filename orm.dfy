/** The parts of SQLAlchemy's declarative machinery the engine touches: mapped
    classes with their serializer slots, the registry's class registry and the
    declarative base. */
module Orm {
  import opened Wrappers
  import opened Dicts
  import opened Descriptors

  /** A mapped class. Its descriptor is fixed when the class is declared; the three
      serializer slots are class attributes assigned afterwards (None: not set). */
  class ModelClass {
    const entity: Entity
    var marshmallow: Option<MarshmallowSchema>
    var pydantic: Option<PydanticModel>
    var pydanticPut: Option<PydanticModel>

    constructor (entity: Entity)
      ensures this.entity == entity
      ensures marshmallow == None && pydantic == None && pydanticPut == None
    {
      this.entity := entity;
      marshmallow := None;
      pydantic := None;
      pydanticPut := None;
    }
  }

  /** A value of a class registry: a class, or one of SQLAlchemy's registry tokens
      (the module marker filed under "_sa_module_registry", or the marker standing
      for several classes that share a name). */
  datatype Entry = ClassEntry(cls: ModelClass) | ModuleMarker | MultipleClassMarker

  /** sqlalchemy.orm.registry; its class registry is a dict in insertion order. */
  class Registry {
    var classRegistry: Dict<Entry>

    constructor ()
      ensures classRegistry == []
    {
      classRegistry := [];
    }
  }

  /** A declarative base: the registry it maps into, and the serializer slots that
      its subclasses inherit until they set their own. */
  class DeclBase {
    var registry: Registry
    var marshmallow: Option<MarshmallowSchema>
    var pydantic: Option<PydanticModel>
    var pydanticPut: Option<PydanticModel>

    constructor (registry: Registry)
      ensures this.registry == registry
      ensures marshmallow == None && pydantic == None && pydanticPut == None
    {
      this.registry := registry;
      marshmallow := None;
      pydantic := None;
      pydanticPut := None;
    }
  }

  /** What SQLAlchemy keeps true of a class registry: its keys are distinct and a
      class is filed under its own name. */
  predicate WellFormed(entries: Dict<Entry>) {
    && DistinctKeys(entries)
    && forall i :: 0 <= i < |entries| && entries[i].1.ClassEntry? ==> entries[i].0 == entries[i].1.cls.entity.name
  }

  /** The classes among the registry's values, in registry order. */
  function Classes(entries: Dict<Entry>): seq<ModelClass> {
    if entries == [] then []
    else
      var rest := Classes(entries[..|entries| - 1]);
      match entries[|entries| - 1].1
      case ClassEntry(c) => rest + [c]
      case _ => rest
  }

  /** Each listed class is a class entry of the registry, and each class entry is listed. */
  lemma {:induction false} ClassesMembers(entries: Dict<Entry>)
    ensures |Classes(entries)| <= |entries|
    ensures forall j :: 0 <= j < |Classes(entries)| ==> exists i :: 0 <= i < |entries| && entries[i].1 == ClassEntry(Classes(entries)[j])
    ensures forall i :: 0 <= i < |entries| && entries[i].1.ClassEntry? ==> entries[i].1.cls in Classes(entries)
  {
    if entries != [] {
      var init := entries[..|entries| - 1];
      var last := |entries| - 1;
      ClassesMembers(init);
      var cs := Classes(entries);
      var rest := Classes(init);
      assert forall i :: 0 <= i < |init| ==> init[i] == entries[i];
      assert cs == if entries[last].1.ClassEntry? then rest + [entries[last].1.cls] else rest;
      forall j | 0 <= j < |cs|
        ensures exists i :: 0 <= i < |entries| && entries[i].1 == ClassEntry(cs[j])
      {
        if j < |rest| {
          assert exists i :: 0 <= i < |init| && init[i].1 == ClassEntry(Classes(init)[j]);
          var i :| 0 <= i < |init| && init[i].1 == ClassEntry(rest[j]);
          assert cs[j] == rest[j] && entries[i] == init[i];
        } else {
          assert entries[last].1 == ClassEntry(cs[j]);
        }
      }
      forall i | 0 <= i < |entries| && entries[i].1.ClassEntry? ensures entries[i].1.cls in cs {
        if i < last {
          assert init[i] == entries[i];
          assert entries[i].1.cls in rest;
        }
      }
    }
  }

  /** The classes of a registry whose classes are allocated are allocated. */
  lemma ClassesAllocated(entries: Dict<Entry>)
    requires forall i :: 0 <= i < |entries| && entries[i].1.ClassEntry? ==> allocated(entries[i].1.cls)
    ensures forall j :: 0 <= j < |Classes(entries)| ==> allocated(Classes(entries)[j])
  {
    ClassesMembers(entries);
  }

  function Names(cs: seq<ModelClass>): set<string> {
    set i | 0 <= i < |cs| :: cs[i].entity.name
  }

  predicate DistinctNames(cs: seq<ModelClass>) {
    forall i, j :: 0 <= i < j < |cs| ==> cs[i].entity.name != cs[j].entity.name
  }

  /** In a well-formed registry no two classes share a name, so no class is listed twice. */
  lemma {:induction false} ClassesDistinct(entries: Dict<Entry>)
    requires WellFormed(entries)
    ensures DistinctNames(Classes(entries))
  {
    if entries != [] {
      var init := entries[..|entries| - 1];
      var last := entries[|entries| - 1];
      assert forall i :: 0 <= i < |init| ==> init[i] == entries[i];
      ClassesDistinct(init);
      ClassesMembers(init);
      if last.1.ClassEntry? {
        var cs := Classes(entries);
        var rest := Classes(init);
        assert cs == rest + [last.1.cls];
        forall i | 0 <= i < |rest| ensures rest[i].entity.name != last.1.cls.entity.name {
          var j :| 0 <= j < |init| && init[j].1 == ClassEntry(rest[i]);
          assert entries[j].0 != entries[|entries| - 1].0;
        }
      }
    }
  }

  /** The objects setup_schema assigns attributes on. */
  function Objects(cs: seq<ModelClass>): set<ModelClass> {
    set c | c in cs
  }
}
