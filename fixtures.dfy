/** The Author/Book mapping the test suite declares, and what the engine builds
    for it; plus a class with hybrid properties. */
module Fixtures {
  import opened Wrappers
  import opened Dicts
  import opened PyTypes
  import opened Descriptors
  import opened Serializers
  import opened Orm
  import opened SchemaDriver

  /** Author: id and name columns, and `books: Mapped[list[Book]]`. */
  const Author := Entity(
    "Author", "author",
    [Column("id", Int, false, false), Column("name", Str, false, false)],
    [Annotation("id", true, Int), Annotation("name", true, Str), Annotation("books", true, ListOf(EntityClass("Book")))],
    [])

  /** Book: id, name and an author_id foreign key, and `author: Mapped[Author]`. */
  const Book := Entity(
    "Book", "book",
    [Column("id", Int, false, false), Column("name", Str, false, false), Column("author_id", Int, false, true)],
    [Annotation("id", true, Int), Annotation("name", true, Str), Annotation("author_id", true, Int),
     Annotation("author", true, EntityClass("Author"))],
    [])

  const IdField := ("id", FieldDecl(Int, Required))
  const NameField := ("name", FieldDecl(Str, Required))

  const AuthorFlat := PydanticModel(FlatModelName("Author"), [IdField, NameField])
  const BookFlat := PydanticModel(FlatModelName("Book"), [IdField, NameField, ("author_id", FieldDecl(Int, Required))])
  const AuthorFull := PydanticModel(ModelName("Author"), [IdField, NameField, ("books", FieldDecl(ListOf(FlatRef("Book")), EmptyListFactory))])
  const BookFull := PydanticModel(ModelName("Book"), [IdField, NameField, ("author", FieldDecl(FlatRef("Author"), Required))])

  lemma FixturesValid()
    ensures ValidEntity(Author) && ValidEntity(Book)
    ensures ReferencedClasses(Author, {}) == {"Book"} && ReferencedClasses(Book, {}) == {"Author"}
  {
    AuthorValid();
    BookValid();
    AuthorReferences();
    BookReferences();
  }

  lemma AuthorValid()
    ensures ValidEntity(Author)
  {
    var a := Author.annotations;
    assert forall x :: x in a ==> x == a[0] || x == a[1] || x == a[2];
    assert RefsOf(a[2].arg) == {} by {
      assert RefsOf(a[2].arg) == RefsOf(EntityClass("Book"));
    }
  }

  lemma BookValid()
    ensures ValidEntity(Book)
  {
    BookNames();
    BookTypes();
  }

  /** Book's columns have class types and its annotations hold no forward reference. */
  lemma BookTypes()
    ensures forall c :: c in Book.columns ==> IsColumnClass(c.pyType)
    ensures forall a :: a in Book.annotations ==> IsSourceType(a.arg)
  {
    var c, b := Book.columns, Book.annotations;
    assert forall x :: x in c ==> x == c[0] || x == c[1] || x == c[2];
    assert forall x :: x in b ==> x == b[0] || x == b[1] || x == b[2] || x == b[3];
  }

  /** Book's column names and annotation names are distinct. */
  lemma BookNames()
    ensures forall i, j :: 0 <= i < j < |Book.columns| ==> Book.columns[i].name != Book.columns[j].name
    ensures forall i, j :: 0 <= i < j < |Book.annotations| ==> Book.annotations[i].name != Book.annotations[j].name
  {
    var c, b := Book.columns, Book.annotations;
    assert |c[0].name| == 2 && |c[1].name| == 4 && |c[2].name| == 9;
    assert |b[0].name| == 2 && |b[1].name| == 4 && |b[2].name| == 9 && |b[3].name| == 6;
  }

  /** Author's full model can refer to Book, through `books`. */
  lemma AuthorReferences()
    ensures ReferencedClasses(Author, {}) == {"Book"}
  {
    var cols, a := Author.columns, Author.annotations;
    assert ColumnGet(cols, "books") == None;
    assert IsRelationship(cols, {}, a[2]);
    assert ClassNames(a[2].arg) == {"Book"} by {
      assert ClassNames(a[2].arg) == ClassNames(EntityClass("Book"));
    }
    assert ClassNames(a[0].arg) == {} && ClassNames(a[1].arg) == {};
    assert forall x :: x in a ==> x == a[0] || x == a[1] || x == a[2];
  }

  /** Book's full model can refer to Author, through `author`. */
  lemma BookReferences()
    ensures ReferencedClasses(Book, {}) == {"Author"}
  {
    var cols, b := Book.columns, Book.annotations;
    BookFilters();
    assert ClassNames(b[3].arg) == {"Author"};
    assert "Author" in ReferencedClasses(Book, {}) by {
      assert b[3] in b;
    }
    forall n | n in ReferencedClasses(Book, {}) ensures n == "Author" {
      var x :| x in b && IsRelationship(cols, {}, x) && n in ClassNames(x.arg);
      assert x == b[0] || x == b[1] || x == b[2] || x == b[3];
    }
  }

  /** Author's flat model holds its two columns, both required. */
  lemma AuthorFlatModel()
    ensures SqlalchemyToPydantic(Author, {}, true, true, true) ==
      Success(AuthorFlat)
  {
    AuthorFlatFields();
  }

  lemma AuthorFlatFields()
    ensures SqlalchemyToPydantic(Author, {}, true, true, true).value.fields == [IdField, NameField]
  {
    AuthorValid();
    FlatModelIsColumns(Author, {});
    AuthorSimpleFields(true);
  }

  /** Book's flat model holds every column, the author_id foreign key included. */
  lemma BookFlatModel()
    ensures SqlalchemyToPydantic(Book, {}, true, true, true) ==
      Success(BookFlat)
  {
    BookFlatFields();
  }

  lemma BookFlatFields()
    ensures SqlalchemyToPydantic(Book, {}, true, true, true).value.fields ==
      [IdField, NameField, ("author_id", FieldDecl(Int, Required))]
  {
    BookValid();
    FlatModelIsColumns(Book, {});
    BookColumnFields();
  }

  lemma AuthorSimpleFields(includeFk: bool)
    ensures ConvertSimpleFields(Author.columns, {}, includeFk) == [IdField, NameField]
  {
    var cols := Author.columns;
    SimpleDeclRule(cols[0]);
    SimpleDeclRule(cols[1]);
    SimpleFieldsCons(cols, includeFk);
    SimpleFieldsCons(cols[1..], includeFk);
    assert cols[1..][1..] == [];
  }

  lemma BookSimpleFields()
    ensures ConvertSimpleFields(Book.columns, {}, false) == [IdField, NameField]
  {
    var cols := Book.columns;
    SimpleDeclRule(cols[0]);
    SimpleDeclRule(cols[1]);
    SimpleFieldsCons(cols, false);
    SimpleFieldsCons(cols[1..], false);
    SimpleFieldsCons(cols[1..][1..], false);
    assert cols[1..][1..][1..] == [];
  }

  lemma BookColumnFields()
    ensures ConvertSimpleFields(Book.columns, {}, true) == [IdField, NameField, ("author_id", FieldDecl(Int, Required))]
  {
    var cols := Book.columns;
    SimpleDeclRule(cols[0]);
    SimpleDeclRule(cols[1]);
    SimpleDeclRule(cols[2]);
    SimpleFieldsCons(cols, true);
    SimpleFieldsCons(cols[1..], true);
    SimpleFieldsCons(cols[1..][1..], true);
    assert cols[1..][1..][1..] == [];
    Append3(IdField, NameField, ("author_id", FieldDecl(Int, Required)));
  }

  /** One column at a time, without exclusions. */
  lemma SimpleFieldsCons(cols: seq<Column>, includeFk: bool)
    requires cols != []
    ensures ConvertSimpleFields(cols, {}, includeFk) ==
      (if includeFk || !cols[0].hasForeignKey then [(cols[0].name, SimpleDecl(cols[0]))] else [])
        + ConvertSimpleFields(cols[1..], {}, includeFk)
  {
  }

  /** Author's full model adds `books`, a list of Book flat models defaulting to an
      empty list. */
  lemma AuthorModel()
    ensures SqlalchemyToPydantic(Author, {}, false, true, true) ==
      Success(AuthorFull)
  {
    AuthorSimpleFields(false);
    AuthorRelationships();
    IdNameModel(Author, ("books", FieldDecl(ListOf(FlatRef("Book")), EmptyListFactory)));
  }

  /** The full model of a class without hybrid properties whose simple fields are id
      and name and whose one relationship is rel. */
  lemma IdNameModel(e: Entity, rel: (string, FieldDecl))
    requires e.hybrids == [] && rel.0 != "id" && rel.0 != "name"
    requires ConvertSimpleFields(e.columns, {}, false) == [IdField, NameField]
    requires ConvertRelationships(e.columns, e.annotations, {}) == Success([rel])
    ensures SqlalchemyToPydantic(e, {}, false, true, true) == Success(PydanticModel(ModelName(e.name), [IdField, NameField, rel]))
  {
    IdNameKeys(rel.0);
    Append3(IdField, NameField, rel);
    FullFields(e, [IdField, NameField], rel, [IdField, NameField, rel]);
  }

  lemma Append3<T>(a: T, b: T, c: T)
    ensures [a, b] + [c] == [a, b, c]
  {
  }

  lemma IdNameKeys(k: string)
    requires k != "id" && k != "name"
    ensures DistinctKeys([IdField, NameField]) && k !in Keys([IdField, NameField])
  {
    assert Keys([IdField, NameField]) == ["id", "name"];
  }

  /** The full model of a class without hybrid properties whose simple fields are
      simple and whose one relationship is rel: those fields, in that order. */
  lemma FullFields(e: Entity, simple: seq<(string, FieldDecl)>, rel: (string, FieldDecl), fields: seq<(string, FieldDecl)>)
    requires e.hybrids == [] && DistinctKeys(simple) && rel.0 !in Keys(simple) && fields == simple + [rel]
    requires ConvertSimpleFields(e.columns, {}, false) == simple
    requires ConvertRelationships(e.columns, e.annotations, {}) == Success([rel])
    ensures SqlalchemyToPydantic(e, {}, false, true, true) == Success(PydanticModel(ModelName(e.name), fields))
  {
    FromDistinctPairs(simple);
    assert ConvertHybridProperties(e.hybrids, {}) == Success([]);
    assert FromPairs<FieldDecl>([]) == [];
    assert Merge(simple, []) == simple;
    assert DistinctKeys([rel]);
    FromDistinctPairs([rel]);
    UpdateFresh(simple, [rel]);
  }

  lemma AuthorRelationships()
    ensures ConvertRelationships(Author.columns, Author.annotations, {}) ==
      Success([("books", FieldDecl(ListOf(FlatRef("Book")), EmptyListFactory))])
  {
    var cols, a := Author.columns, Author.annotations;
    assert RelationshipAnnotations(cols, a, {}) == [a[2]] by {
      assert ColumnGet(cols, "books") == None;
      assert ColumnGet(cols, "name") == Some(cols[1]);
      assert a[1..][1..] == [a[2]];
      assert ColumnGet(cols, "id") == Some(cols[0]);
    }
    RelationshipDeclShapes(a[2].arg);
    OneRelationship(a[2], FieldDecl(ListOf(FlatRef("Book")), EmptyListFactory));
  }

  /** The fields of a single annotation that converts. */
  lemma OneRelationship(x: Annotation, d: FieldDecl)
    requires RelationshipDecl(x.arg) == Success(d)
    ensures RelationshipFields([x]) == Success([(x.name, d)])
  {
    assert [x][0] == x && [x][1..] == [];
    assert [(x.name, d)] + [] == [(x.name, d)];
  }

  /** Book's full model drops the int foreign key author_id and adds `author`, a
      required reference to Author's flat model. */
  lemma BookModel()
    ensures SqlalchemyToPydantic(Book, {}, false, true, true) ==
      Success(BookFull)
  {
    BookSimpleFields();
    BookRelationships();
    IdNameModel(Book, ("author", FieldDecl(FlatRef("Author"), Required)));
  }

  lemma BookRelationships()
    ensures ConvertRelationships(Book.columns, Book.annotations, {}) ==
      Success([("author", FieldDecl(FlatRef("Author"), Required))])
  {
    var cols, b := Book.columns, Book.annotations;
    BookKept();
    RelationshipDeclShapes(b[3].arg);
    OneRelationship(b[3], FieldDecl(FlatRef("Author"), Required));
  }

  lemma BookKept()
    ensures RelationshipAnnotations(Book.columns, Book.annotations, {}) == [Book.annotations[3]]
  {
    var cols, b := Book.columns, Book.annotations;
    BookFilters();
    assert RelationshipAnnotations(cols, b[3..], {}) == [b[3]] by {
      assert b[3..][1..] == [];
    }
    assert b[2..][1..] == b[3..] && b[1..][1..] == b[2..];
  }

  /** Of Book's annotations only `author` passes the relationship filters. */
  lemma BookFilters()
    ensures !IsRelationship(Book.columns, {}, Book.annotations[0])
    ensures !IsRelationship(Book.columns, {}, Book.annotations[1])
    ensures !IsRelationship(Book.columns, {}, Book.annotations[2])
    ensures IsRelationship(Book.columns, {}, Book.annotations[3])
  {
    var cols := Book.columns;
    assert ColumnGet(cols, "author") == None;
    assert ColumnGet(cols, "author_id") == Some(cols[2]);
    assert ColumnGet(cols, "name") == Some(cols[1]);
    assert ColumnGet(cols, "id") == Some(cols[0]);
  }

  /** A foreign key whose python type is neither int nor str is not filtered out: a
      UUID key column becomes a relationship field referring to `UUIDFlatModel`. */
  lemma UuidForeignKey()
    ensures ConvertRelationships([Column("owner_id", OtherClass("UUID"), false, true)],
                                 [Annotation("owner_id", true, OtherClass("UUID"))], {})
      == Success([("owner_id", FieldDecl(FlatRef("UUID"), Required))])
  {
    var cols := [Column("owner_id", OtherClass("UUID"), false, true)];
    var x := Annotation("owner_id", true, OtherClass("UUID"));
    assert ColumnGet(cols, "owner_id") == Some(cols[0]);
    assert RelationshipAnnotations(cols, [x], {}) == [x] by {
      assert [x][1..] == [];
    }
    RelationshipDeclShapes(x.arg);
    OneRelationship(x, FieldDecl(FlatRef("UUID"), Required));
  }

  /** SQLAlchemy's set collection `Mapped[set[Book]]`: its origin is set, not list, so
      the to-many relationship becomes a single required reference to BookFlatModel. */
  lemma SetCollection()
    ensures RelationshipDecl(Generic("set", [EntityClass("Book")])) == Success(FieldDecl(FlatRef("Book"), Required))
  {
    GetPythonTypeShapes(Generic("set", [EntityClass("Book")]));
  }

  /** `Mapped[dict[str, Book]]`: str maps to None, so reduce builds `None | ref`, the
      optional Book reference, and the field is still required. */
  lemma DictCollection()
    ensures RelationshipDecl(Generic("dict", [Str, EntityClass("Book")]))
      == Success(FieldDecl(Union([NoneType, FlatRef("Book")]), Required))
  {
    KeyedRef(Generic("dict", [Str, EntityClass("Book")]));
  }

  /** `Mapped[tuple[Book, ...]]`: the Ellipsis argument is not a class, so issubclass
      raises. */
  lemma TupleCollection()
    ensures RelationshipDecl(Generic("tuple", [EntityClass("Book"), EllipsisValue])) == Failure(IssubclassTypeError)
  {
    var t := Generic("tuple", [EntityClass("Book"), EllipsisValue]);
    assert GetPythonTypeInner(t.args[1]).Failure?;
  }

  /** Without hybrid properties the write models are the full models. */
  lemma WriteModels()
    ensures SqlalchemyToPydantic(Author, {}, false, true, false) == SqlalchemyToPydantic(Author, {}, false, true, true)
    ensures SqlalchemyToPydantic(Book, {}, false, true, false) == SqlalchemyToPydantic(Book, {}, false, true, true)
  {
    NoHybrids(Author);
    NoHybrids(Book);
  }

  /** Leaving hybrid properties out changes nothing for a class that has none. */
  lemma NoHybrids(e: Entity)
    requires e.hybrids == []
    ensures SqlalchemyToPydantic(e, {}, false, true, false) == SqlalchemyToPydantic(e, {}, false, true, true)
  {
    var simple := FromPairs(ConvertSimpleFields(e.columns, {}, false));
    assert ConvertHybridProperties(e.hybrids, {}) == Success([]);
    assert FromPairs<FieldDecl>([]) == [];
    assert Merge(simple, []) == simple;
  }

  // ----- hybrid properties -----

  const Bool := StrIntSubclass("bool")

  /** A hybrid property returning bool keeps bool as its type and is required, though
      bool maps to None. */
  lemma BoolHybrid()
    ensures HybridDecl(Bool) == Success(FieldDecl(Bool, Required))
  {
    HybridDeclShapes(Bool);
  }

  /** A hybrid property returning float refers to `floatFlatModel`, which no class
      registers. */
  lemma FloatHybrid()
    ensures HybridDecl(OtherClass("float")) == Success(FieldDecl(FlatRef("float"), Required))
  {
    HybridDeclShapes(OtherClass("float"));
  }

  /** A hybrid property returning `int | None` makes its class's full model raise:
      both arguments map to None and reduce evaluates `None | None`. */
  lemma OptionalIntHybrid()
    ensures HybridDecl(Union([Int, NoneType])) == Failure(OrTypeError)
  {
    HybridDeclShapes(Union([Int, NoneType]));
  }

  /** An Author with such a hybrid property gets no full model, though its write
      model, which leaves hybrid properties out, can still be built. */
  lemma OptionalHybridFailsFullModel()
    ensures SqlalchemyToPydantic(Author.(hybrids := [HybridProperty("rank", Union([Int, NoneType]))]), {}, false, true, true)
      == Failure(OrTypeError)
    ensures SqlalchemyToPydantic(Author.(hybrids := [HybridProperty("rank", Union([Int, NoneType]))]), {}, false, true, false).Success?
  {
    var e := Author.(hybrids := [HybridProperty("rank", Union([Int, NoneType]))]);
    OptionalIntHybrid();
    assert ConvertHybridProperties(e.hybrids, {}) == Failure(OrTypeError);
    AuthorModel();
    ModelSucceeds(e, {}, true, false);
    assert ConvertRelationships(e.columns, e.annotations, {}) == ConvertRelationships(Author.columns, Author.annotations, {});
  }

  // ----- setup_schema over the fixture -----

  function Schema(name: string, session: SessionId): MarshmallowSchema {
    MarshmallowSchema(SchemaName(name), name, session, true, true)
  }

  lemma AuthorStep(session: SessionId)
    ensures Step(Synth(session), Author) == Success(Artifacts(Schema("Author", session), AuthorFull, AuthorFull))
  {
    AuthorModel();
    WriteModels();
    SynthStep(session, Author);
  }

  lemma BookStep(session: SessionId)
    ensures Step(Synth(session), Book) == Success(Artifacts(Schema("Book", session), BookFull, BookFull))
  {
    BookModel();
    WriteModels();
    SynthStep(session, Book);
  }

  /** Both classes complete: each gets its schema, and its full model twice, as full
      and as write model. */
  lemma AuthorBookPlan(cs: seq<ModelClass>, session: SessionId)
    requires |cs| == 2 && cs[0].entity == Author && cs[1].entity == Book
    ensures Plan(cs, Synth(session)) ==
      [Artifacts(Schema("Author", session), AuthorFull, AuthorFull), Artifacts(Schema("Book", session), BookFull, BookFull)]
  {
    AuthorStep(session);
    BookStep(session);
    PlanOfTwo(cs, Synth(session), Artifacts(Schema("Author", session), AuthorFull, AuthorFull),
      Artifacts(Schema("Book", session), BookFull, BookFull));
  }

  lemma PlanOfTwo(cs: seq<ModelClass>, cv: Conversions, a0: Artifacts, a1: Artifacts)
    requires |cs| == 2 && Step(cv, cs[0].entity) == Success(a0) && Step(cv, cs[1].entity) == Success(a1)
    ensures Plan(cs, cv) == [a0, a1]
  {
    PlanIs(cs, cv, [a0, a1]);
  }

  /** The module holds the two flat and the two full models. */
  lemma AuthorBookNamespace(cs: seq<ModelClass>, session: SessionId)
    requires |cs| == 2 && cs[0].entity == Author && cs[1].entity == Book
    ensures FinalNamespace(cs, Synth(session)) ==
      map[FlatModelName("Author") := AuthorFlat, FlatModelName("Book") := BookFlat,
          ModelName("Author") := AuthorFull, ModelName("Book") := BookFull]
  {
    AuthorBookPlan(cs, session);
    AuthorFlatModel();
    BookFlatModel();
    NamespaceOfTwo(cs, Synth(session), Artifacts(Schema("Author", session), AuthorFull, AuthorFull),
      Artifacts(Schema("Book", session), BookFull, BookFull));
  }

  lemma NamespaceOfTwo(cs: seq<ModelClass>, cv: Conversions, a0: Artifacts, a1: Artifacts)
    requires |cs| == 2 && Plan(cs, cv) == [a0, a1]
    ensures FinalNamespace(cs, cv) ==
      map[cv.flat(cs[0].entity).name := cv.flat(cs[0].entity)][cv.flat(cs[1].entity).name := cv.flat(cs[1].entity)]
        [a0.pydantic.name := a0.pydantic][a1.pydantic.name := a1.pydantic]
  {
    var f0, f1 := cv.flat(cs[0].entity), cv.flat(cs[1].entity);
    assert cs[..1][..0] == [] && cs[..1][0] == cs[0];
    assert WithFlats(map[], cs[..1], cv) == map[f0.name := f0];
    var flats := map[f0.name := f0][f1.name := f1];
    assert WithFlats(map[], cs, cv) == flats;
    assert [a0, a1][..1] == [a0] && [a0][..0] == [];
    assert WithFulls(flats, [a0]) == flats[a0.pydantic.name := a0.pydantic];
  }

  /** The classes of a registry holding a class, a token, then another class. */
  lemma TwoClasses(k0: string, k1: string, k2: string, a: ModelClass, t: Entry, b: ModelClass)
    requires !t.ClassEntry?
    ensures Classes([(k0, ClassEntry(a)), (k1, t), (k2, ClassEntry(b))]) == [a, b]
  {
    var e := [(k0, ClassEntry(a)), (k1, t), (k2, ClassEntry(b))];
    assert e[..2] == [(k0, ClassEntry(a)), (k1, t)];
    assert e[..2][..1] == [(k0, ClassEntry(a))];
    assert e[..2][..1][..0] == [];
    assert Classes(e[..2][..1]) == [a];
    assert Classes(e[..2]) == [a];
  }

  lemma FixtureRegistry(entries: Dict<Entry>)
    requires |entries| == 3 && entries[1] == ("_sa_module_registry", ModuleMarker)
    requires entries[0].0 == "Author" && entries[2].0 == "Book"
    requires entries[0].1.ClassEntry? && entries[0].1.cls.entity == Author
    requires entries[2].1.ClassEntry? && entries[2].1.cls.entity == Book
    ensures WellFormed(entries)
  {
    assert |entries[0].0| == 6 && |entries[1].0| == 19 && |entries[2].0| == 4;
  }

  /** setup_schema on a registry holding Author, the module marker and Book: the marker
      is filed when the first class of the module is. */
  method SetupAuthorBook(session: SessionId)
    returns (r: Outcome<Error>, members: map<string, PydanticModel>, author: ModelClass, book: ModelClass)
    ensures r == Pass
    ensures members == map[FlatModelName("Author") := AuthorFlat, FlatModelName("Book") := BookFlat,
                            ModelName("Author") := AuthorFull, ModelName("Book") := BookFull]
    ensures SlotsOf(author) == Slots(Some(Schema("Author", session)), Some(AuthorFull), Some(AuthorFull))
    ensures SlotsOf(book) == Slots(Some(Schema("Book", session)), Some(BookFull), Some(BookFull))
  {
    author := new ModelClass(Author);
    book := new ModelClass(Book);
    var entries := [("Author", ClassEntry(author)), ("_sa_module_registry", ModuleMarker), ("Book", ClassEntry(book))];
    var registry := new Registry();
    registry.classRegistry := entries;
    var base := new DeclBase(registry);
    var modules := new SysModules();
    TwoClasses("Author", "_sa_module_registry", "Book", author, ModuleMarker, book);
    FixtureRegistry(entries);
    assert Objects(Classes(base.registry.classRegistry)) == {author, book};
    r := SetupSchema(base, modules, session);
    AuthorBookPlan([author, book], session);
    AuthorBookNamespace([author, book], session);
    members := modules.synth.members;
  }
}
