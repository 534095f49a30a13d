/** The compiled descriptors of entity classes and the two registries that
    hold them, keyed by fully qualified class name. */
module Mapping {
  import opened JavaLang

  /** The key-generation policies an entity can declare. */
  datatype IdType = INPUT | ASSIGN_ID | ASSIGN_UUID | ASSIGN_OBJECT_ID

  /** One mapped field: the reflected field, its column name and that name's
      bytes, and the declared type used to decode it. */
  datatype Property = Property(field: FieldDecl, column: string, columnBytes: Bytes, propType: JClass)

  /** An ObjectMappedStatement. The copies of that class differ; the byte
      forms and the row key are set by the registrar only, and the id type by
      no compiler in this model, so they are optional here. `properties` is
      the column map (`getColumns()` / `getProperties()`). */
  datatype Statement = Statement(
    id: string,
    tableId: FieldDecl,
    tableName: string,
    tableNameBytes: Option<Bytes>,
    columnFamily: string,
    columnFamilyBytes: Option<Bytes>,
    rowKey: Option<Bytes>,
    idType: Option<IdType>,
    properties: map<string, Property>)

  /** The IllegalArgumentException the parsers raise when a class has no
      statement. */
  const NOT_MAPPED := IllegalArgument("class is not mapped")

  /** The registry bean: a concurrent map from class name to statement. */
  class ObjectMappedFactory {
    var statements: map<string, Statement>

    constructor ()
      ensures statements == map[]
    {
      statements := map[];
    }

    /** `getStatement(id)`: the statement registered under id, or null. */
    function GetStatement(id: string): (r: Option<Statement>)
      reads this
      ensures r.Some? <==> id in statements
      ensures r.Some? ==> r.value == statements[id]
    {
      if id in statements then Some(statements[id]) else None
    }

    /** `addStatement(id, s)`: registers s under id, replacing any earlier
        statement for id; every other id keeps its statement. */
    method AddStatement(id: string, s: Statement)
      modifies this
      ensures statements == old(statements)[id := s]
      ensures GetStatement(id) == Some(s)
      ensures forall other :: other != id ==> GetStatement(other) == old(GetStatement(other))
    {
      statements := statements[id := s];
    }
  }

  /** The static registry the scanner fills: one map for the whole program. */
  class HbaseMappedFactory {
    var mappedStatements: map<string, Statement>

    constructor ()
      ensures mappedStatements == map[]
    {
      mappedStatements := map[];
    }

    function GetStatement(id: string): (r: Option<Statement>)
      reads this
      ensures r.Some? <==> id in mappedStatements
      ensures r.Some? ==> r.value == mappedStatements[id]
    {
      if id in mappedStatements then Some(mappedStatements[id]) else None
    }

    /** `getStatements()`: the map itself, holding exactly the ids added. */
    function GetStatements(): (r: map<string, Statement>)
      reads this
      ensures forall id :: id in r <==> GetStatement(id).Some?
      ensures forall id :: id in r ==> GetStatement(id) == Some(r[id])
    {
      mappedStatements
    }

    /** `addStatement(id, s)`: the last write for an id wins; other ids are
        untouched. */
    method AddStatement(id: string, s: Statement)
      modifies this
      ensures mappedStatements == old(mappedStatements)[id := s]
      ensures GetStatement(id) == Some(s)
      ensures forall other :: other != id ==> GetStatement(other) == old(GetStatement(other))
      ensures GetStatements().Keys == old(GetStatements().Keys) + {id}
    {
      mappedStatements := mappedStatements[id := s];
    }
  }
}
