/**
 * What the engine reads from a mapped class, stated explicitly instead of found
 * by reflection, and what it produces: field declarations and schemas.
 */
module Descriptors {
  import opened PyTypes
  import opened Dicts

  /** One entry of `__table__.columns`. */
  datatype Column = Column(name: string, pyType: PyType, nullable: bool, hasForeignKey: bool)

  /** One entry of the class's own annotations: `name: Mapped[arg]` when isMapped,
      otherwise `name: arg` (a ClassVar and the like). */
  datatype Annotation = Annotation(name: string, isMapped: bool, arg: PyType)

  /** A hybrid_property in the class's namespace, with its getter's return annotation. */
  datatype HybridProperty = HybridProperty(name: string, returnType: PyType)

  /** A mapped entity class. */
  datatype Entity = Entity(
    name: string,
    tablename: string,
    columns: seq<Column>,
    annotations: seq<Annotation>,
    hybrids: seq<HybridProperty>)

  /** The default half of a pydantic field declaration. */
  datatype Default =
    | Required           // ...
    | DefaultNone        // None
    | EmptyListFactory   // Field(default_factory=list)

  /** A pydantic field declaration: (type, default). */
  datatype FieldDecl = FieldDecl(ty: PyType, default: Default)

  /** A model built by pydantic's create_model: its name and its fields in order. */
  datatype PydanticModel = PydanticModel(name: string, fields: Dict<FieldDecl>)

  /** A live database session, passed through. */
  type SessionId = nat

  /** An SQLAlchemyAutoSchema subclass and the options of its Meta. */
  datatype MarshmallowSchema = MarshmallowSchema(
    name: string,
    model: string,
    session: SessionId,
    includeRelationships: bool,
    loadInstance: bool)

  /** The class object a column's python_type is. */
  predicate IsColumnClass(t: PyType) {
    t.Int? || t.Str? || t.StrIntSubclass? || t.OtherClass? || t.EntityClass?
  }

  /** What SQLAlchemy and Python guarantee of a mapped class: column names,
      annotation names and attribute names are dictionary keys, column types
      are classes, and source annotations hold no forward reference. */
  predicate ValidEntity(e: Entity) {
    && (forall i, j :: 0 <= i < j < |e.columns| ==> e.columns[i].name != e.columns[j].name)
    && (forall i, j :: 0 <= i < j < |e.annotations| ==> e.annotations[i].name != e.annotations[j].name)
    && (forall i, j :: 0 <= i < j < |e.hybrids| ==> e.hybrids[i].name != e.hybrids[j].name)
    && (forall c :: c in e.columns ==> IsColumnClass(c.pyType))
    && (forall a :: a in e.annotations ==> IsSourceType(a.arg))
    && (forall h :: h in e.hybrids ==> IsSourceType(h.returnType))
  }
}
