/** models.py: the application's declarative base over the module-level registry,
    and the table-name index over that registry. */
module Models {
  import opened Wrappers
  import opened Dicts
  import opened PyTypes
  import opened Orm
  import Base

  /** The module's globals: `reg` and the class `Base` whose registry it is. */
  class ModelsModule {
    const reg: Registry
    const base: DeclBase

    /** Importing the module: a fresh registry, and a base declared over it with its
        serializer slots not yet set. */
    constructor ()
      ensures fresh(reg) && fresh(base)
      ensures base.registry == reg && reg.classRegistry == []
      ensures base.marshmallow == None && base.pydantic == None && base.pydanticPut == None
    {
      var r := new Registry();
      reg := r;
      base := new DeclBase(r);
    }

    /** get_tablename_model_mapping(): the classes of Base.registry that are not
        under a "_" key, by table name. While Base.registry is still `reg`, every
        value is an entry of `reg`. */
    function GetTablenameModelMapping(): (r: Result<Dict<ModelClass>, Error>)
      reads this.base, this.base.registry
      ensures var entries := base.registry.classRegistry;
        r.Failure? <==> exists i :: 0 <= i < |entries| && !Base.IsPrivate(entries[i].0) && !entries[i].1.ClassEntry?
      ensures var entries := reg.classRegistry;
        r.Success? && base.registry == reg ==> forall p :: p in r.value ==>
          && p.0 == p.1.entity.tablename
          && exists i :: 0 <= i < |entries| && !Base.IsPrivate(entries[i].0) && entries[i].1 == ClassEntry(p.1)
    {
      var r := Base.TablenameModelMapping(base.registry.classRegistry);
      if r.Success? then Base.MappingEntries(base.registry.classRegistry); r
      else r
    }
  }

  /** When several classes of Base.registry share a table name, the mapping keeps the
      last of them in registry order. */
  lemma LastModelWins(m: ModelsModule, i: nat)
    requires m.GetTablenameModelMapping().Success?
    requires var entries := m.base.registry.classRegistry;
      && i < |entries| && !Base.IsPrivate(entries[i].0) && entries[i].1.ClassEntry?
      && forall i' :: i < i' < |entries| && !Base.IsPrivate(entries[i'].0) ==>
           entries[i'].1.cls.entity.tablename != entries[i].1.cls.entity.tablename
    ensures var entries := m.base.registry.classRegistry;
      Get(m.GetTablenameModelMapping().value, entries[i].1.cls.entity.tablename) == Some(entries[i].1.cls)
  {
    Base.LastModelWins(m.base.registry.classRegistry, i);
  }
}
