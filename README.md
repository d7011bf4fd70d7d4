# fastapi-sqlalchemy-crud: the schema-synthesis engine in Dafny

fastapi-sqlalchemy-crud serves CRUD endpoints for SQLAlchemy declarative models. Before it
can serve anything, it synthesizes serializers for every mapped class:

- a marshmallow `SQLAlchemyAutoSchema` named `<Name>Schema`;
- a pydantic *flat* model `<Name>FlatModel`, which holds the table's columns,
  foreign keys included;
- a pydantic *full* model `<Name>Model`, which holds the simple columns, the hybrid
  properties and the relationships. Relationships point at the other classes' flat
  models through `ForwardRef`s into a synthetic module `_fsc_synth`;
- a *write* model, which is the full model without the hybrid properties.

The project models this engine (`serializers.py`) and the two table-name helpers
(`base.py`, `models.py`). It proves what each step promises.

Python reflection is replaced by an explicit descriptor per mapped class
(`Descriptors.Entity`). A descriptor is the class name, the table name, the columns in
table order (name, python type, nullable, has a foreign key), the class's own annotations
and its hybrid properties. Type terms (`PyTypes.PyType`) cover:

- `int`, `str` and their other subclasses (such as `bool`);
- other classes and mapped classes;
- the object `None`, the class `NoneType` and the object `...`;
- unions, `list[...]`, other generic aliases such as `set[...]`, `dict[...]` and
  `tuple[...]` (an origin name and arguments), and `ForwardRef`.

`typing.get_args`, `get_origin` and the `|` operator on such terms are modelled
(`PyTypes.Or`, `PyTypes.UnionOf`). A pydantic model is a name plus an ordered field
dictionary. Python dictionaries are insertion-ordered association lists (`Dicts`): `dict(ps)`
is `FromPairs` and `a | b` is `Merge`.

The model has two styles:

- **Functions.** The converters (`convert_simple_fields`, `convert_relationships`,
  `convert_hybrid_properties`), `get_python_type`, `get_python_type_inner`, `get_default`,
  `sqlalchemy_to_pydantic`, the naming rule of `sqlalchemy_to_marshmallow` and
  `get_tablename_model_mapping` are total functions. Each Python exception is a
  `Failure(...)` value.
- **Imperative code.** `setup_schema` and `configure_base` change state in place. They are
  methods over classes:
  - mapped classes (`Orm.ModelClass`), whose three serializer slots are assigned;
  - the registry and the declarative base;
  - the synthetic module (`SchemaDriver.Namespace`), whose attribute map is extended by
    `setattr`;
  - `sys.modules` (`SchemaDriver.SysModules`).

`SchemaDriver.SetupSchema` is proved against specification functions:

- `Plan` holds the artifacts of the classes the second pass completes. It stops at the
  first class whose conversion raises.
- `FinalNamespace` is what the synthetic module holds afterwards.
- Lemmas about these functions state which names the module holds, which model each name
  holds, and that every forward reference resolves.

The test suite's Author/Book mapping (`Fixtures`) is worked through end to end, for
`setup_schema` on a registry that holds Author, the module marker and Book.

## Model

| member | source | states |
|---|---|---|
| Serializers.GetDefault | src/fastapi_sqlalchemy_crud/serializers.py:171-176 | the default is None exactly when nullable, an empty-list factory exactly for a non-nullable `list[...]` type, and required (`...`) exactly otherwise |
| Serializers.GetPythonTypeInner | src/fastapi_sqlalchemy_crud/serializers.py:165-168 | succeeds exactly for None or a class, because `issubclass` raises on anything else; the result is None exactly for None, NoneType and str/int subclasses; otherwise it is a forward reference into `_fsc_synth`, and its names are exactly the flat-model names of the class |
| Serializers.InnerAll | src/fastapi_sqlalchemy_crud/serializers.py:154 | the list comprehension succeeds exactly when every argument maps; its result then has the inner mapping of each argument at the argument's position |
| Serializers.ReduceInner | src/fastapi_sqlalchemy_crud/serializers.py:155 | `reduce(or_, ...)` over inner values raises exactly when the first two are both None; otherwise the union refers to exactly the names its operands refer to |
| Serializers.GetPythonType | src/fastapi_sqlalchemy_crud/serializers.py:149-162 | a term without arguments gives its inner mapping with nullable false; the nullable flag is true exactly when the literal None is among the arguments; `list[X]` gives `list[...]` of X's inner value; a term with two or more arguments gives the union of its arguments' inner values (None as NoneType, repetitions dropped, a single member standing for itself); it raises OrTypeError when every argument is a class or None, IssubclassTypeError otherwise |
| Serializers.ReduceUnion | src/fastapi_sqlalchemy_crud/serializers.py:155 | folding `\|` over two or more inner values gives the union of their members, None as NoneType, each member once at its first occurrence, a single member standing for itself |
| Serializers.GetPythonTypeShapes | src/fastapi_sqlalchemy_crud/serializers.py:149-168 | a class the engine does not map gives its flat model's reference; a str or int subclass, NoneType or None gives None; `list[C]` a list of C's reference; another generic of one argument, such as `set[C]`, C's reference alone; `C \| None` the union of C's reference with NoneType; none of these is nullable; two arguments that both map to None raise OrTypeError; an argument that is itself a generic raises IssubclassTypeError |
| Serializers.KeyedRef | src/fastapi_sqlalchemy_crud/serializers.py:151-159 | a generic of two arguments whose first maps to None and whose second is an unmapped class, such as `dict[str, C]`, gives the union of NoneType with C's reference, not nullable |
| Serializers.GetPythonTypeSucceeds | src/fastapi_sqlalchemy_crud/serializers.py:151-155 | for a term with arguments, get_python_type raises exactly when an argument is neither None nor a class, or when the first two arguments both map to None |
| Serializers.GetPythonTypeRefs | src/fastapi_sqlalchemy_crud/serializers.py:149-168 | the forward references in the mapped type name exactly the flat models of the classes the term mentions |
| Serializers.ConvertSimpleFields | src/fastapi_sqlalchemy_crud/serializers.py:100-111 | no yielded name is excluded; every yielded pair is (name, declaration) of a column that is not excluded and whose foreign key is allowed only under include_fk; every such column is yielded; the pairs keep table order (a subsequence of all columns' pairs) |
| Serializers.SimpleDeclRule | src/fastapi_sqlalchemy_crud/serializers.py:108-111 | a nullable column of type T is declared `T \| None` (the union of T and NoneType) with default None; any other column keeps its type and is required |
| Serializers.ColumnGet | src/fastapi_sqlalchemy_crud/serializers.py:119 | `columns.get(name)` finds a column of that name, and None means no column has it |
| Serializers.RelationshipDecl | src/fastapi_sqlalchemy_crud/serializers.py:129-131 | fails exactly when get_python_type raises, with OrTypeError when every argument is a class or None and IssubclassTypeError otherwise; the default is None exactly when the literal None is among the arguments; the declaration refers to exactly the flat models of the classes the annotation names |
| Serializers.RelationshipDeclShapes | src/fastapi_sqlalchemy_crud/serializers.py:129-131 | `Mapped[C]` is a required reference to C's flat model; `Mapped[list[C]]` a list of such references defaulting to an empty list; `Mapped[C \| None]` the union of the reference with NoneType, still required; a str or int subclass is a required None; a nested generic raises IssubclassTypeError |
| Serializers.RelationshipAnnotations | src/fastapi_sqlalchemy_crud/serializers.py:118-128 | the annotations kept are exactly those that pass the filters, in declaration order |
| Serializers.RelationshipFields | src/fastapi_sqlalchemy_crud/serializers.py:129-131 | converting the kept annotations in order succeeds exactly when each does; the i-th pair is the i-th annotation's name and declaration; a failure is one annotation's error |
| Serializers.RelationshipFieldsFirstError | src/fastapi_sqlalchemy_crud/serializers.py:118-131 | the error raised is that of the first annotation whose type cannot be converted |
| Serializers.RelationshipFieldsMembers | src/fastapi_sqlalchemy_crud/serializers.py:118-131 | the yielded pairs are exactly the (name, declaration) pairs of the kept annotations |
| Serializers.ConvertRelationships | src/fastapi_sqlalchemy_crud/serializers.py:114-131 | yields exactly the annotations that pass the filters (not excluded, `Mapped[...]`, and either no column or a foreign-key column whose type is not int or str), each with its declaration, one pair per kept annotation in declaration order; fails exactly when such an annotation's type raises, and then with the error of the first one that does |
| Serializers.HybridDecl | src/fastapi_sqlalchemy_crud/serializers.py:142-146 | succeeds exactly when get_python_type does, with OrTypeError or IssubclassTypeError as for any type; the type is get_python_type's unless that is None, in which case the return type itself is kept; the default is None exactly when the literal None is among the arguments |
| Serializers.HybridDeclShapes | src/fastapi_sqlalchemy_crud/serializers.py:142-146 | a return type mapping to None (bool, int, str, NoneType, None) is kept and required; a class C gives a required reference to C's flat model; `list[C]` a list of such references defaulting to an empty list; `C \| None` the union of the reference with NoneType; `int \| None` raises OrTypeError; a nested generic raises IssubclassTypeError |
| Serializers.KeptHybrids | src/fastapi_sqlalchemy_crud/serializers.py:137-141 | the hybrid properties kept are exactly those not excluded, in the class's namespace order |
| Serializers.HybridFields | src/fastapi_sqlalchemy_crud/serializers.py:142-146 | converting the kept properties in order succeeds exactly when each does; the i-th pair is the i-th property's name and declaration; a failure is one property's error |
| Serializers.HybridFieldsFirstError | src/fastapi_sqlalchemy_crud/serializers.py:137-146 | the error raised is that of the first property whose return type cannot be converted |
| Serializers.HybridFieldsMembers | src/fastapi_sqlalchemy_crud/serializers.py:137-146 | the yielded pairs are exactly the (name, declaration) pairs of the kept properties |
| Serializers.ConvertHybridProperties | src/fastapi_sqlalchemy_crud/serializers.py:134-146 | yields exactly the hybrid properties not excluded, each with its declaration, one pair per kept property in namespace order; fails exactly when one of them raises, and then with the error of the first one that does |
| Serializers.SqlalchemyToPydantic | src/fastapi_sqlalchemy_crud/serializers.py:74-97 | a flat model is always built; the model is named `<Name>FlatModel` when flat and `<Name>Model` otherwise; its field names are distinct |
| Serializers.ModelSucceeds | src/fastapi_sqlalchemy_crud/serializers.py:89-94 | a full or write model is built exactly when each category it includes converts; when both fail, the hybrid properties' error is the one raised, because they convert first |
| Serializers.ModelFieldPrecedence | src/fastapi_sqlalchemy_crud/serializers.py:83-94 | in a non-flat model the fields are the simple fields (foreign keys left out) in table order, then the hybrid properties' names not already fields, then the relationships' names not already fields, each in its own order; for each name, the relationship declaration wins over the hybrid one, which wins over the simple one |
| Serializers.FlatModelIsColumns | src/fastapi_sqlalchemy_crud/serializers.py:83-86 | the flat model's fields are exactly the non-excluded columns, foreign keys included, in table order, and each column's name holds that column's declaration |
| Serializers.ForeignKeyLeftOutOfModel | src/fastapi_sqlalchemy_crud/serializers.py:106-128 | an int or str foreign-key column is never a field of a full or write model, unless a hybrid property of the same name puts it there |
| Serializers.WriteModelFollowsFull | src/fastapi_sqlalchemy_crud/serializers.py:43-45 | once the full model of a class is built, its write model (no hybrid properties) can be built too, under the same name |
| Serializers.FlatModelRefs | src/fastapi_sqlalchemy_crud/serializers.py:83-86 | a flat model holds no forward reference |
| Serializers.ModelRefs | src/fastapi_sqlalchemy_crud/serializers.py:83-94 | every forward reference in a full or write model names the flat model of a class named by a relationship annotation or by a kept hybrid property's return type |
| Serializers.SqlalchemyToMarshmallow | src/fastapi_sqlalchemy_crud/serializers.py:49-68 | raises ModelConversionError exactly when the class name ends with "Schema"; otherwise the schema is named `<Name>Schema` and its Meta has the class as its model, the given session, include_relationships and load_instance |
| Serializers.SchemaNamesAreFresh | src/fastapi_sqlalchemy_crud/serializers.py:50-51 | the reason for the rule: a schema name never equals an accepted class's name or any pydantic model's name |
| PyTypes.Or | src/fastapi_sqlalchemy_crud/serializers.py:155 | `a \| b` raises exactly for `None \| None` |
| PyTypes.UnionOfRefs | src/fastapi_sqlalchemy_crud/serializers.py:155 | a union built by `\|` refers to exactly the names its operands refer to |
| Dicts.FromPairs | src/fastapi_sqlalchemy_crud/serializers.py:83 | `dict(pairs)`: each key holds its last pair's value; the keys are those of the pairs, each at the place of its first pair, and are distinct; every entry is one of the pairs |
| Dicts.UpdateFirsts | src/fastapi_sqlalchemy_crud/base.py:25 | updating a dict with pairs, repeated keys included, puts each key where it first occurs among the old keys and the pairs' keys |
| Dicts.FromDistinctPairs | src/fastapi_sqlalchemy_crud/serializers.py:83 | `dict(pairs)` of pairs with distinct keys is those pairs in their order |
| Dicts.Merge | src/fastapi_sqlalchemy_crud/serializers.py:91 | `a \| b`: b's value wins for every key of b; the keys are those of a, in their order, followed by the keys only b has, in b's order |
| Dicts.LastAt | src/fastapi_sqlalchemy_crud/base.py:25 | in a dict comprehension a key keeps the value of its last pair |
| Orm.Registry.constructor | src/fastapi_sqlalchemy_crud/base.py:14 | a new registry has an empty class registry |
| Orm.DeclBase.constructor | src/fastapi_sqlalchemy_crud/models.py:14-19 | a declarative base maps into the registry it is given; its serializer slots are not yet set |
| Orm.ClassesMembers | src/fastapi_sqlalchemy_crud/serializers.py:29-35 | the collected classes are exactly the class entries of the registry, with the tokens skipped |
| Orm.ClassesDistinct | src/fastapi_sqlalchemy_crud/serializers.py:29-35 | under SQLAlchemy's registry invariant, no two collected classes share a name |
| SchemaDriver.Namespace.constructor | src/fastapi_sqlalchemy_crud/serializers.py:26 | a new synthetic module holds no pydantic models |
| SchemaDriver.Step | src/fastapi_sqlalchemy_crud/serializers.py:42-45 | the second pass on one class succeeds exactly when its schema, full model and write model all convert; on failure it carries the error of the first conversion that raised |
| SchemaDriver.PlanSteps | src/fastapi_sqlalchemy_crud/serializers.py:41-46 | the plan is the run of successful steps from the first class, and it stops at a failing step |
| SchemaDriver.PlanIs | src/fastapi_sqlalchemy_crud/serializers.py:41-46 | any run of successes followed by a failure, or by the end of the classes, is the plan |
| SchemaDriver.PlanComplete | src/fastapi_sqlalchemy_crud/serializers.py:41-46 | the second pass completes exactly when every class's step succeeds |
| SchemaDriver.CollectClasses | src/fastapi_sqlalchemy_crud/serializers.py:28-35 | the first loop collects the registry's classes in registry order and skips the tokens |
| SchemaDriver.RegisterFlatModels | src/fastapi_sqlalchemy_crud/serializers.py:37-39 | the module's attributes become the old ones with every flat model set under its name, in class order |
| SchemaDriver.ConvertClass | src/fastapi_sqlalchemy_crud/serializers.py:42-45 | for one class, the result is that class's step; each artifact is assigned as soon as it is built, so a failure leaves the earlier ones set; no other class changes |
| SchemaDriver.RegisterFull | src/fastapi_sqlalchemy_crud/serializers.py:46 | setattr of a completed class's full model extends the module by that model |
| SchemaDriver.SecondPass | src/fastapi_sqlalchemy_crud/serializers.py:41-46 | the second pass completes the plan's classes and fills their slots; it stops with the failing class's error, with that class partly assigned and later classes untouched; the module gains the full models of the plan |
| SchemaDriver.Passes | src/fastapi_sqlalchemy_crud/serializers.py:37-46 | every flat model is registered before any full model is built, then the second pass runs |
| SchemaDriver.SetupSchemaWith | src/fastapi_sqlalchemy_crud/serializers.py:25-46 | setup_schema over any conversions: a fresh module is installed in `sys.modules`, and the slots and module are as the plan says |
| SchemaDriver.SetupSchema | src/fastapi_sqlalchemy_crud/serializers.py:25-46 | setup_schema: returns normally exactly when every class completes, and otherwise raises the failing class's error; the fresh synthetic module holds FinalNamespace; completed classes hold their artifacts, the failing class its partial ones, later classes their old slots |
| SchemaDriver.SynthStep | src/fastapi_sqlalchemy_crud/serializers.py:42-51 | a class's step succeeds exactly when its name does not end with "Schema" and its full model converts; then it gets `<Name>Schema`, its full model, and its write model, both named `<Name>Model` |
| SchemaDriver.SynthStopped | src/fastapi_sqlalchemy_crud/serializers.py:42-43 | the class the second pass stops at never gets a pydantic model; its schema slot is set exactly when its name is accepted |
| SchemaDriver.SchemaSuffixStops | src/fastapi_sqlalchemy_crud/serializers.py:50-51 | a class whose name ends with "Schema" stops the second pass at or before it |
| SchemaDriver.PlanNames | src/fastapi_sqlalchemy_crud/serializers.py:43 | each completed class's full model is `sqlalchemy_to_pydantic(class_)`, named `<Name>Model` |
| SchemaDriver.SynthNamed | src/fastapi_sqlalchemy_crud/serializers.py:38-46 | the flat models are named `<Name>FlatModel`, and the full models of the completed classes `<Name>Model` |
| SchemaDriver.FinalNamespaceKeys | src/fastapi_sqlalchemy_crud/serializers.py:37-46 | the names the module holds models under are exactly the flat-model name of every class and the model name of every completed class |
| SchemaDriver.FullModelRegistered | src/fastapi_sqlalchemy_crud/serializers.py:46 | a completed class's model name holds its full model |
| SchemaDriver.FlatModelRegistered | src/fastapi_sqlalchemy_crud/serializers.py:38-39 | a class's flat-model name holds its flat model, unless a completed class is named like it with "Flat" appended |
| SchemaDriver.FlatModelShadowed | src/fastapi_sqlalchemy_crud/serializers.py:39-46 | the exception: a completed class named `<Name>Flat` puts its full model under `<Name>FlatModel`, replacing the flat model |
| SchemaDriver.ForwardRefsResolve | src/fastapi_sqlalchemy_crud/serializers.py:37-46 | when every class that a completed class's relationship annotations and kept hybrid properties name is registered, every forward reference of its full and write models names a model in the synthetic module |
| Base.ConfigureBase | src/fastapi_sqlalchemy_crud/base.py:12-19 | the base handed back is the base given; it gets a fresh, empty registry, and its three serializer slots become None |
| Base.PublicValuesMembers | src/fastapi_sqlalchemy_crud/base.py:24 | each kept value comes from an entry whose key does not start with "_", and every such entry's value is kept |
| Base.TablePairs | src/fastapi_sqlalchemy_crud/base.py:25 | each kept value is paired with its `__tablename__`, in order; a registry token has none, so this raises AttributeError |
| Base.TablenameModelMapping | src/fastapi_sqlalchemy_crud/base.py:22-26 | raises AttributeError exactly when a token sits under a key not starting with "_"; the mapping's keys are distinct |
| Base.MappingEntries | src/fastapi_sqlalchemy_crud/base.py:24-25 | every value is a class entry under a key not starting with "_", filed under its own `__tablename__`; every such class's table name is a key |
| Base.MappingKeyOrder | src/fastapi_sqlalchemy_crud/base.py:24-25 | the mapping's keys are the public classes' table names in registry order, each where it first occurs, also when a later class shares it |
| Base.LastModelWins | src/fastapi_sqlalchemy_crud/base.py:25 | when several classes share a table name, the last of them in registry order is the one kept |
| Models.ModelsModule.constructor | src/fastapi_sqlalchemy_crud/models.py:11-19 | importing the module creates a fresh, empty `reg` and a `Base` whose registry is `reg`, with its slots not yet set |
| Models.ModelsModule.GetTablenameModelMapping | src/fastapi_sqlalchemy_crud/models.py:22-26 | raises exactly when a token sits under a key not starting with "_"; while `Base.registry` is `reg`, every value is a class entry of `reg` under such a key, filed under its own table name |
| Models.LastModelWins | src/fastapi_sqlalchemy_crud/models.py:25 | classes of `Base.registry` that share a table name resolve to the last of them |
| Fixtures.FixturesValid | tests/conftest.py:23-34 | Author and Book satisfy the descriptor invariants; Author's full model can refer only to Book and Book's only to Author |
| Fixtures.AuthorSimpleFields | tests/conftest.py:25-26 | Author's simple fields are a required int `id` and a required str `name`, with or without foreign keys |
| Fixtures.BookSimpleFields | tests/conftest.py:31-33 | Book's simple fields leave out the `author_id` foreign key |
| Fixtures.BookColumnFields | tests/conftest.py:31-33 | with foreign keys included, Book's simple fields are id, name and a required int author_id |
| Fixtures.AuthorFlatModel | tests/conftest.py:23-27 | AuthorFlatModel holds id and name, both required |
| Fixtures.BookFlatModel | tests/conftest.py:29-34 | BookFlatModel holds id, name and author_id, all required |
| Fixtures.AuthorRelationships | tests/conftest.py:27 | Author's one relationship is `books`: a list of Book flat models, defaulting to an empty list |
| Fixtures.BookRelationships | tests/conftest.py:33-34 | Book's one relationship is `author`, a required reference to Author's flat model; the int foreign key `author_id` is filtered out |
| Fixtures.AuthorModel | tests/conftest.py:23-27 | AuthorModel is id, name, then `books` |
| Fixtures.BookModel | tests/conftest.py:29-34 | BookModel is id, name, then `author`; author_id is not in it |
| Fixtures.UuidForeignKey | src/fastapi_sqlalchemy_crud/serializers.py:124-131 | a UUID foreign-key column is not filtered out: its annotation becomes a required relationship field referring to `UUIDFlatModel` |
| Fixtures.SetCollection | src/fastapi_sqlalchemy_crud/serializers.py:151-159 | `Mapped[set[Book]]` becomes a single required reference to BookFlatModel, not a collection |
| Fixtures.DictCollection | src/fastapi_sqlalchemy_crud/serializers.py:151-159 | `Mapped[dict[str, Book]]` becomes the required union of NoneType with Book's reference |
| Fixtures.TupleCollection | src/fastapi_sqlalchemy_crud/serializers.py:151-166 | `Mapped[tuple[Book, ...]]` raises TypeError, because issubclass is given `...` |
| Fixtures.NoHybrids | src/fastapi_sqlalchemy_crud/serializers.py:89-91 | for a class without hybrid properties, the write model equals the full model |
| Fixtures.WriteModels | tests/conftest.py:23-34 | Author's and Book's write models equal their full models |
| Fixtures.BoolHybrid | src/fastapi_sqlalchemy_crud/serializers.py:144-145 | a hybrid property returning bool keeps bool as its type and is required, although bool maps to None |
| Fixtures.FloatHybrid | src/fastapi_sqlalchemy_crud/serializers.py:142-146 | a hybrid property returning float becomes a required reference to `floatFlatModel` |
| Fixtures.OptionalIntHybrid | src/fastapi_sqlalchemy_crud/serializers.py:152-155 | a hybrid property returning `int \| None` raises TypeError, because both arguments map to None and reduce evaluates `None \| None` |
| Fixtures.OptionalHybridFailsFullModel | src/fastapi_sqlalchemy_crud/serializers.py:89-94 | an Author with such a hybrid property gets no full model, but its write model is still built |
| Fixtures.AuthorStep | tests/conftest.py:23-27 | the second pass gives Author AuthorSchema and AuthorModel, as both full and write model |
| Fixtures.BookStep | tests/conftest.py:29-34 | the second pass gives Book BookSchema and BookModel, as both full and write model |
| Fixtures.AuthorBookPlan | tests/conftest.py:23-34 | over Author then Book, the second pass completes both classes |
| Fixtures.AuthorBookNamespace | tests/conftest.py:23-34 | the synthetic module then holds exactly AuthorFlatModel, BookFlatModel, AuthorModel and BookModel |
| Fixtures.TwoClasses | src/fastapi_sqlalchemy_crud/serializers.py:29-35 | a registry holding a class, a token, then another class yields the two classes |
| Fixtures.FixtureRegistry | tests/conftest.py:20-34 | the registry of the fixture (Author, the module marker, Book) satisfies SQLAlchemy's registry invariant |
| Fixtures.SetupAuthorBook | tests/conftest.py:20-34 | setup_schema on the fixture returns normally; each class holds its schema, full model and write model; the module holds the four models |

## Left out

- Python reflection is replaced by explicit descriptors: `get_annotations(..., eval_str=True)`,
  `signature(...)`, `vars(...)` and `__table__.columns`. Annotations and hybrid return
  types are therefore given already resolved. The descriptor lists only the class's own
  annotations and hybrid properties, as `get_annotations` and `vars` see them.
- Resolving a `ForwardRef` is pydantic's job, inside `create_model` and later. It is
  modelled only as a name that must be present in the synthetic module
  (`SchemaDriver.ForwardRefsResolve`).
- pydantic's `create_model` and marshmallow's `SQLAlchemyAutoSchema` are foreign libraries.
  A model is its name and ordered fields, and a schema is its name and `Meta` options. The
  conversions in `sqlalchemy_to_marshmallow` beyond the naming rule and `Meta` are not
  modelled, and neither is `orm_config` (`from_attributes`).
- `_additional_fields` (serializers.py:65) is not modelled; it injects arbitrary class
  attributes.
- `warnings.warn` for registry tokens other than the module marker (serializers.py:31-32) is
  a side effect and is left out. The token itself is skipped, as in the source.
- The assertion that every collected class subclasses `DeclarativeBase` (serializers.py:34)
  is not modelled. Every class entry is taken to be such a subclass. A class mapped
  imperatively or with `registry.mapped` sits in the same class registry without being one,
  and setup_schema then raises AssertionError; that error path is left out.
- The synthetic module's own attributes (`__name__`, `__doc__`, `__package__`, `__loader__`,
  `__spec__`) are not represented; `SchemaDriver.Namespace` holds only the pydantic models
  set on it. Every synthesized name ends with `Model`, so none of them replaces one of
  these.
- A column type whose `python_type` is not implemented raises NotImplementedError when
  serializers.py:108 or :127 reads it. The descriptor gives every column a python type
  (`Descriptors.Column.pyType`), so that error path is left out.
- The database session is an opaque number (`SessionId`) that is passed through to the
  schema's `Meta`.
- A class's serializer slots are its own attributes. `None` means "not set here". A
  subclass reading a slot it inherits from its base is not modelled.
- The synthetic module's attributes are a map, so the order of `setattr` calls survives
  only in which model a name ends up holding.
- `SchemaDriver.SetupSchema` requires what SQLAlchemy keeps true of a class registry:
  distinct keys, and each class filed under its own name. Registries that violate this are
  not considered.
- `SchemaDriver.SetupSchemaWith` and `SchemaDriver.Passes` state the plan, done, and the
  classes collected only through ghost out-parameters. `SchemaDriver.SetupSchema`
  restates all of it over the specification functions.
- `Models.ModelsModule.GetTablenameModelMapping` states where its values come from only while
  `Base.registry` is still the module-level `reg`. `configure_base` may install another
  registry.
- `Serializers.GetPythonTypeInner` models `issubclass(t, str | int)` through the three
  str/int constructors of the type terms. A user-defined str or int subclass is written
  as `StrIntSubclass`.
- The fixture declares Author and Book inside a function (tests/conftest.py:18-36) in a file
  with `from __future__ import annotations` (tests/conftest.py:1). There
  `get_annotations(..., eval_str=True)` (serializers.py:117) cannot resolve the local names
  `Book` and `Author` and raises NameError. That path is not modelled: `Fixtures` treats the
  two classes as if they were declared at module level.
- `ForwardRef | None` yields a union only on Python 3.11 and later; on 3.10 `typing.ForwardRef`
  has no `|` and the expression raises TypeError. `PyTypes.Or` follows 3.11.
- `database.py`, `__main__.py` and `tests/test_server.py` are not part of this model. They
  hold the engine, sessions, the CLI and the HTTP tests.
- `database.py`'s `init_db` runs `configure_base` before `setup_schema`. That installs a
  fresh, empty registry, so the classes declared against the old registry would not be
  among those setup_schema visits. Composing these calls is not modelled.
  `Fixtures.SetupAuthorBook` runs `setup_schema` on a registry that holds the fixture's
  classes.

## Behaviour as written

These points follow the code as written, where a plain description of the engine might
suggest otherwise:

- The "Schema" suffix is refused in the second pass
  (`sqlalchemy_to_marshmallow`, serializers.py:42, 50-51). By then every flat model is
  registered and the earlier classes have all their artifacts. It is not a check made
  before anything is built (`SchemaDriver.SetupSchema`, `SchemaDriver.SynthStopped`).
- When two categories yield the same field name, the later one overwrites the earlier,
  because dict `|` is right-biased. This is not an error
  (`Serializers.ModelFieldPrecedence`).
- A class named `<Name>Flat` puts its full model `<Name>FlatModel` over the flat model of
  `<Name>` (`SchemaDriver.FlatModelShadowed`).
- Nullability in get_python_type requires the literal `None` among the type's arguments.
  `X | None` has `NoneType` there, so relationships annotated so are required.
- A hybrid property returning `int | None` or `str | None` raises TypeError: both members
  map to None, and `None | None` is evaluated (`Fixtures.OptionalIntHybrid`).
- A hybrid property returning a class the engine does not map, such as `float` or
  `datetime`, becomes a reference to `floatFlatModel` or `datetimeFlatModel`. No class
  registers that name, so the reference never resolves (`Fixtures.FloatHybrid`;
  `SchemaDriver.ForwardRefsResolve` asks for such a class to be registered).
- get_python_type treats only `list` as a collection. `Mapped[set[Book]]` becomes a single
  required reference to BookFlatModel, `Mapped[dict[str, Book]]` the union of NoneType
  with that reference, and `Mapped[tuple[Book, ...]]` raises TypeError because issubclass is
  given `...` (`Fixtures.SetCollection`, `Fixtures.DictCollection`,
  `Fixtures.TupleCollection`).
- A foreign-key column whose python type is neither int nor str, such as a UUID key, is not
  filtered out. Its annotation becomes a relationship field that refers to
  `UUIDFlatModel` (serializers.py:124-128, `Fixtures.UuidForeignKey`).
