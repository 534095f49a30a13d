/** `cn.darkjrong.hbase.factory.ObjectParser`: the statement is passed in and
    cells are decoded with the root codec. Unlike `objectParse`, a row without
    cells still gives a fresh object. */
module FactoryObjectParser {
  import opened JavaLang
  import opened Collaborators
  import opened Entities
  import opened Mapping
  import opened CellParsing
  import HbaseUtils

  method Parse(cls: ClassDecl, cells: seq<Cell>, statement: Option<Statement>, conv: Conversions)
    returns (r: Result<Instance>)
    ensures statement.None? ==> r == Err(NOT_MAPPED)
    ensures statement.Some? ==> (r.Ok? <==> ParseRow(cls, cells, statement.value.properties, HbaseUtils.CellDecoder(conv), conv.convert).Ok?)
    ensures r.Err? && statement.Some? ==> r.error == ParseRow(cls, cells, statement.value.properties, HbaseUtils.CellDecoder(conv), conv.convert).error
    ensures r.Ok? ==> fresh(r.value) && r.value.cls == cls && r.value.Valid()
                      && r.value.values == ParseRow(cls, cells, statement.value.properties, HbaseUtils.CellDecoder(conv), conv.convert).value
    ensures statement.Some? && cells == [] ==> r.Ok? && r.value.values == Defaults(cls.fields)
  {
    if statement.None? {
      return Err(NOT_MAPPED);
    }
    r := NewInstanceFromRow(cls, cells, statement.value.properties, HbaseUtils.CellDecoder(conv), conv.convert);
  }
}

/** `cn.darkjrong.hbase.repository.ObjectParser`: the statement is looked up
    in the registry by class name, and cells are decoded with the common codec
    (no Long branch). */
module RepositoryObjectParser {
  import opened JavaLang
  import opened Collaborators
  import opened Entities
  import opened Mapping
  import opened CellParsing
  import CommonHbaseUtils

  method Parse(factory: ObjectMappedFactory, cls: ClassDecl, cells: seq<Cell>, conv: Conversions)
    returns (r: Result<Instance>)
    ensures cls.name !in factory.statements ==> r == Err(NOT_MAPPED)
    ensures cls.name in factory.statements ==>
              (r.Ok? <==> ParseRow(cls, cells, factory.statements[cls.name].properties, CommonHbaseUtils.CellDecoder(conv), conv.convert).Ok?)
    ensures r.Err? && cls.name in factory.statements ==>
              r.error == ParseRow(cls, cells, factory.statements[cls.name].properties, CommonHbaseUtils.CellDecoder(conv), conv.convert).error
    ensures r.Ok? ==> fresh(r.value) && r.value.cls == cls && r.value.Valid()
                      && r.value.values == ParseRow(cls, cells, factory.statements[cls.name].properties, CommonHbaseUtils.CellDecoder(conv), conv.convert).value
    ensures cls.name in factory.statements && cells == [] ==> r.Ok? && r.value.values == Defaults(cls.fields)
  {
    var statement := factory.GetStatement(cls.name);
    if statement.None? {
      return Err(NOT_MAPPED);
    }
    r := NewInstanceFromRow(cls, cells, statement.value.properties, CommonHbaseUtils.CellDecoder(conv), conv.convert);
  }
}

/** `cn.darkjrong.hbase.common.callback.ObjectParser`: the same lookup and
    loop as the repository copy, over the mapping package's registry. */
module CallbackObjectParser {
  import opened JavaLang
  import opened Collaborators
  import opened Entities
  import opened Mapping
  import opened CellParsing
  import CommonHbaseUtils

  method Parse(factory: ObjectMappedFactory, cls: ClassDecl, cells: seq<Cell>, conv: Conversions)
    returns (r: Result<Instance>)
    ensures cls.name !in factory.statements ==> r == Err(NOT_MAPPED)
    ensures cls.name in factory.statements ==>
              (r.Ok? <==> ParseRow(cls, cells, factory.statements[cls.name].properties, CommonHbaseUtils.CellDecoder(conv), conv.convert).Ok?)
    ensures r.Err? && cls.name in factory.statements ==>
              r.error == ParseRow(cls, cells, factory.statements[cls.name].properties, CommonHbaseUtils.CellDecoder(conv), conv.convert).error
    ensures r.Ok? ==> fresh(r.value) && r.value.cls == cls && r.value.Valid()
                      && r.value.values == ParseRow(cls, cells, factory.statements[cls.name].properties, CommonHbaseUtils.CellDecoder(conv), conv.convert).value
    ensures cls.name in factory.statements && cells == [] ==> r.Ok? && r.value.values == Defaults(cls.fields)
  {
    var statement := factory.GetStatement(cls.name);
    if statement.None? {
      return Err(NOT_MAPPED);
    }
    r := NewInstanceFromRow(cls, cells, statement.value.properties, CommonHbaseUtils.CellDecoder(conv), conv.convert);
  }
}
