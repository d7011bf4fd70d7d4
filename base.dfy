/** base.py: preparing a declarative base, and the table-name index over the
    classes registered with it. */
module Base {
  import opened Wrappers
  import opened Dicts
  import opened PyTypes
  import opened Descriptors
  import opened Orm

  /** configure_base: a fresh registry and empty serializer slots; the base itself
      is handed back. */
  method ConfigureBase(base: DeclBase) returns (r: DeclBase)
    modifies base
    ensures r == base
    ensures fresh(base.registry) && base.registry.classRegistry == []
    ensures base.marshmallow == None && base.pydantic == None && base.pydanticPut == None
  {
    base.registry := new Registry();
    base.marshmallow := None;
    base.pydantic := None;
    base.pydanticPut := None;
    r := base;
  }

  /** k.startswith("_") */
  predicate IsPrivate(k: string) {
    |k| > 0 && k[0] == '_'
  }

  /** The values of the registry entries whose key does not start with "_". */
  function PublicValues(entries: Dict<Entry>): seq<Entry> {
    if entries == [] then []
    else
      var (k, m) := entries[|entries| - 1];
      if IsPrivate(k) then PublicValues(entries[..|entries| - 1]) else PublicValues(entries[..|entries| - 1]) + [m]
  }

  /** Each public value comes from a public entry, and each public entry's value is
      among them. */
  lemma {:induction false} PublicValuesMembers(entries: Dict<Entry>)
    ensures |PublicValues(entries)| <= |entries|
    ensures forall j :: 0 <= j < |PublicValues(entries)| ==>
      exists i :: 0 <= i < |entries| && !IsPrivate(entries[i].0) && entries[i].1 == PublicValues(entries)[j]
    ensures forall i :: 0 <= i < |entries| && !IsPrivate(entries[i].0) ==> entries[i].1 in PublicValues(entries)
  {
    if entries != [] {
      var init := entries[..|entries| - 1];
      var last := |entries| - 1;
      PublicValuesMembers(init);
      var ms := PublicValues(entries);
      var rest := PublicValues(init);
      assert forall i :: 0 <= i < |init| ==> init[i] == entries[i];
      assert ms == if IsPrivate(entries[last].0) then rest else rest + [entries[last].1];
      forall j | 0 <= j < |ms|
        ensures exists i :: 0 <= i < |entries| && !IsPrivate(entries[i].0) && entries[i].1 == ms[j]
      {
        if j < |rest| {
          assert exists i :: 0 <= i < |init| && !IsPrivate(init[i].0) && init[i].1 == PublicValues(init)[j];
          var i :| 0 <= i < |init| && !IsPrivate(init[i].0) && init[i].1 == rest[j];
          assert ms[j] == rest[j] && entries[i] == init[i];
        } else {
          assert !IsPrivate(entries[last].0) && entries[last].1 == ms[j];
        }
      }
      forall i | 0 <= i < |entries| && !IsPrivate(entries[i].0) ensures entries[i].1 in ms {
        if i < last {
          assert init[i] == entries[i];
          assert entries[i].1 in rest;
        }
      }
    }
  }

  /** The pairs (m.__tablename__, m) in order; a token has no __tablename__. */
  function TablePairs(ms: seq<Entry>): (r: Result<seq<(string, ModelClass)>, Error>)
    ensures r.Failure? <==> exists j :: 0 <= j < |ms| && !ms[j].ClassEntry?
    ensures r.Failure? ==> r.error == AttributeError
    ensures r.Success? ==> |r.value| == |ms|
    ensures r.Success? ==> forall j :: 0 <= j < |ms| ==> r.value[j] == (ms[j].cls.entity.tablename, ms[j].cls)
  {
    if ms == [] then Success([])
    else
      match ms[0]
      case ClassEntry(c) =>
        (match TablePairs(ms[1..])
         case Failure(e) => Failure(e)
         case Success(ps) =>
           assert forall j :: 1 <= j < |ms| ==> ms[j] == ms[1..][j - 1];
           Success([(c.entity.tablename, c)] + ps))
      case _ => Failure(AttributeError)
  }

  /** get_tablename_model_mapping over a class registry: a token under a public key
      fails the lookup of its __tablename__. */
  function TablenameModelMapping(entries: Dict<Entry>): (r: Result<Dict<ModelClass>, Error>)
    ensures r.Failure? <==> exists i :: 0 <= i < |entries| && !IsPrivate(entries[i].0) && !entries[i].1.ClassEntry?
    ensures r.Failure? ==> r.error == AttributeError
    ensures r.Success? ==> DistinctKeys(r.value)
  {
    PublicValuesMembers(entries);
    var ms := PublicValues(entries);
    match TablePairs(ms)
    case Failure(e) =>
      var j :| 0 <= j < |ms| && !ms[j].ClassEntry?;
      Failure(e)
    case Success(ps) => Success(FromPairs(ps))
  }

  /** get_tablename_model_mapping(base), reading the base's current registry. */
  function GetTablenameModelMapping(base: DeclBase): Result<Dict<ModelClass>, Error>
    reads base, base.registry
  {
    TablenameModelMapping(base.registry.classRegistry)
  }

  /** Every value of the mapping is a public registry entry filed under its own table
      name, and every public class's table name is a key. */
  lemma MappingEntries(entries: Dict<Entry>)
    requires TablenameModelMapping(entries).Success?
    ensures forall p :: p in TablenameModelMapping(entries).value ==>
      p.0 == p.1.entity.tablename && exists i :: 0 <= i < |entries| && !IsPrivate(entries[i].0) && entries[i].1 == ClassEntry(p.1)
    ensures forall i :: 0 <= i < |entries| && !IsPrivate(entries[i].0) ==>
      entries[i].1.cls.entity.tablename in Keys(TablenameModelMapping(entries).value)
  {
    PublicValuesMembers(entries);
    var ms := PublicValues(entries);
    var ps := TablePairs(ms).value;
    var d := FromPairs(ps);
    assert TablenameModelMapping(entries).value == d;
    forall p | p in d
      ensures p.0 == p.1.entity.tablename
      ensures exists i :: 0 <= i < |entries| && !IsPrivate(entries[i].0) && entries[i].1 == ClassEntry(p.1)
    {
      assert p in ps;
      var j :| 0 <= j < |ps| && ps[j] == p;
      assert ms[j] == ClassEntry(p.1);
    }
    forall i | 0 <= i < |entries| && !IsPrivate(entries[i].0)
      ensures entries[i].1.cls.entity.tablename in Keys(d)
    {
      var j :| 0 <= j < |ms| && ms[j] == entries[i].1;
      KeyOfElement(ps, ps[j]);
      assert ps[j].0 == entries[i].1.cls.entity.tablename;
    }
  }

  /** The table names of the class entries among ms, in order. */
  function TableNames(ms: seq<Entry>): (r: seq<string>)
    ensures |r| <= |ms|
  {
    if ms == [] then []
    else (if ms[0].ClassEntry? then [ms[0].cls.entity.tablename] else []) + TableNames(ms[1..])
  }

  /** The mapping's keys are the public classes' table names, each where it first occurs
      in registry order, even when a later class shares it. */
  lemma MappingKeyOrder(entries: Dict<Entry>)
    requires TablenameModelMapping(entries).Success?
    ensures Keys(TablenameModelMapping(entries).value) == Firsts(TableNames(PublicValues(entries)))
  {
    var ms := PublicValues(entries);
    PublicValuesMembers(entries);
    TablePairsKeys(ms);
  }

  lemma {:induction false} TablePairsKeys(ms: seq<Entry>)
    requires TablePairs(ms).Success?
    ensures Keys(TablePairs(ms).value) == TableNames(ms)
  {
    if ms != [] {
      TablePairsKeys(ms[1..]);
    }
  }

  /** m is the value of a public registry entry after position i. */
  predicate LaterPublic(entries: Dict<Entry>, i: nat, m: Entry) {
    exists i' :: i < i' < |entries| && !IsPrivate(entries[i'].0) && entries[i'].1 == m
  }

  /** A public registry entry keeps its place among the public values: everything after
      it there comes from a later public entry. */
  lemma {:induction false} PublicValuesAfter(entries: Dict<Entry>, i: nat) returns (j: nat)
    requires i < |entries| && !IsPrivate(entries[i].0)
    ensures j < |PublicValues(entries)| && PublicValues(entries)[j] == entries[i].1
    ensures forall l :: j < l < |PublicValues(entries)| ==> LaterPublic(entries, i, PublicValues(entries)[l])
  {
    var ms := PublicValues(entries);
    var init := entries[..|entries| - 1];
    var last := entries[|entries| - 1];
    var rest := PublicValues(init);
    assert ms == if IsPrivate(last.0) then rest else rest + [last.1];
    if i == |entries| - 1 {
      j := |rest|;
    } else {
      assert init[i] == entries[i];
      j := PublicValuesAfter(init, i);
      forall l | j < l < |ms| ensures LaterPublic(entries, i, ms[l]) {
        if l < |rest| {
          assert ms[l] == rest[l];
        }
        LaterPublicSnoc(entries, i, ms[l]);
      }
    }
  }

  /** A later public entry of the registry without its last entry is a later public
      entry of the registry, and so is the last entry if it is public. */
  lemma LaterPublicSnoc(entries: Dict<Entry>, i: nat, m: Entry)
    requires i < |entries| - 1
    requires LaterPublic(entries[..|entries| - 1], i, m) || (!IsPrivate(entries[|entries| - 1].0) && m == entries[|entries| - 1].1)
    ensures LaterPublic(entries, i, m)
  {
    var init := entries[..|entries| - 1];
    if LaterPublic(init, i, m) {
      var i' :| i < i' < |init| && !IsPrivate(init[i'].0) && init[i'].1 == m;
      assert entries[i'] == init[i'];
    } else {
      assert i < |entries| - 1;
    }
  }

  /** When several classes share a table name, the last of them in registry order is the
      one the mapping keeps. */
  lemma LastModelWins(entries: Dict<Entry>, i: nat)
    requires TablenameModelMapping(entries).Success?
    requires i < |entries| && !IsPrivate(entries[i].0) && entries[i].1.ClassEntry?
    requires forall i' :: i < i' < |entries| && !IsPrivate(entries[i'].0) ==>
      entries[i'].1.cls.entity.tablename != entries[i].1.cls.entity.tablename
    ensures Get(TablenameModelMapping(entries).value, entries[i].1.cls.entity.tablename) == Some(entries[i].1.cls)
  {
    var ms := PublicValues(entries);
    var ps := TablePairs(ms).value;
    var j := PublicValuesAfter(entries, i);
    forall l | j < l < |ps| ensures ps[l].0 != ps[j].0 {
      assert LaterPublic(entries, i, ms[l]);
      var i' :| i < i' < |entries| && !IsPrivate(entries[i'].0) && entries[i'].1 == ms[l];
    }
    LastAt(ps, j);
  }
}
