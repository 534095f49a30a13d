/** `cn.darkjrong.hbase.common.configuration.ObjectMappedScanner`: the second
    copy of the registrar. It shares `getTableName`, `getColumnFamily` and
    `getBasePackages` word for word (ObjectMappedRegistrar's members model
    them), but maps every field including `serialVersionUID`, leaves the byte
    forms and the row key unset, and registers into the static
    `HbaseMappedFactory`. */
module ObjectMappedScanner {
  import opened JavaLang
  import opened Mapping
  import R = ObjectMappedRegistrar

  /** The properties in field order: every field, with no filter. */
  function PropertyList(cls: Option<ClassDecl>): seq<Property> {
    if cls.None? then [] else R.ToProperties(cls.value.fields)
  }

  /** `parseProperties`: one property per column, the first field winning. */
  function ParseProperties(cls: Option<ClassDecl>): (m: map<string, Property>)
    ensures cls.None? ==> m == map[]
    ensures forall c :: c in m ==> m[c].column == c && m[c] == R.PropertyOf(m[c].field)
    ensures cls.Some? ==> forall c :: c in m ==> m[c].field in cls.value.fields
    ensures cls.Some? ==> forall f :: f in cls.value.fields ==> R.PropertyOf(f).column in m
  {
    PropertyMapFacts(cls);
    R.FirstByColumn(PropertyList(cls))
  }

  lemma PropertyMapFacts(cls: Option<ClassDecl>)
    ensures var m := R.FirstByColumn(PropertyList(cls));
            && (forall c :: c in m ==> m[c].column == c && m[c] == R.PropertyOf(m[c].field))
            && (cls.None? ==> m == map[])
            && (cls.Some? ==> forall c :: c in m ==> m[c].field in cls.value.fields)
            && (cls.Some? ==> forall f :: f in cls.value.fields ==> R.PropertyOf(f).column in m)
  {
    var ps := PropertyList(cls);
    var m := R.FirstByColumn(ps);
    if cls.Some? {
      var fields := cls.value.fields;
      forall f | f in fields
        ensures R.PropertyOf(f).column in m
      {
        var i :| 0 <= i < |fields| && fields[i] == f;
        assert ps[i].column == R.PropertyOf(f).column;
      }
      forall c | c in m
        ensures m[c].column == c && m[c] == R.PropertyOf(m[c].field) && m[c].field in fields
      {
        var i :| 0 <= i < |ps| && ps[i] == m[c] && m[c].column == c;
        assert ps[i] == R.PropertyOf(fields[i]);
      }
    }
  }

  /** The key property: a kept `@TableId` property, else the one under the
      column "id". */
  function ResolveKey(cls: Option<ClassDecl>): (r: Option<Property>)
    ensures var m := ParseProperties(cls);
            && (r.Some? ==> r.value.column in m && m[r.value.column] == r.value)
            && (r.Some? && !r.value.field.tableId ==> R.ID in m && r.value == m[R.ID]
                                                      && forall c :: c in m ==> !m[c].field.tableId)
            && (r.None? <==> R.ID !in m && forall c :: c in m ==> !m[c].field.tableId)
  {
    var t := R.FindTableId(PropertyList(cls), ParseProperties(cls));
    if t.None? then
      NoTableIdKept(cls);
      if R.ID in ParseProperties(cls) then Some(ParseProperties(cls)[R.ID]) else None
    else t
  }

  lemma NoTableIdKept(cls: Option<ClassDecl>)
    requires R.FindTableId(PropertyList(cls), ParseProperties(cls)).None?
    ensures forall c :: c in ParseProperties(cls) ==> !ParseProperties(cls)[c].field.tableId
  {
    var ps := PropertyList(cls);
    var m := ParseProperties(cls);
    forall c | c in m ensures !m[c].field.tableId {
      var i :| 0 <= i < |ps| && ps[i] == m[c] && m[c].column == c;
    }
  }

  /** A class with a single `@TableId` field, whose column no other field
      shares, has that field as its key, whatever the iteration order. */
  lemma SingleTableIdIsTheKey(cls: ClassDecl, f: FieldDecl)
    requires f in cls.fields && f.tableId
    requires forall g :: g in cls.fields && g.tableId ==> g == f
    requires forall g :: g in cls.fields && R.PropertyOf(g).column == R.PropertyOf(f).column ==> g == f
    ensures ResolveKey(Some(cls)) == Some(R.PropertyOf(f))
  {
    var m := ParseProperties(Some(cls));
    var r := ResolveKey(Some(cls));
    assert m[R.PropertyOf(f).column].field == f;
    assert r.Some? && r.value.field.tableId;
    assert m[r.value.column] == r.value;
  }

  /** The statement this copy's `parseTableName` builds: id, names, column
      map and key field only. */
  function Compile(className: string, attrs: R.TableNameAttributes, cls: Option<ClassDecl>): (r: Result<Statement>)
    ensures r.Err? <==> ResolveKey(cls).None?
    ensures r.Err? ==> r.error == R.ID_NOT_FOUND
    ensures r.Ok? ==> r.value.id == className && r.value.properties == ParseProperties(cls)
                      && r.value.tableId == ResolveKey(cls).value.field
    ensures r.Ok? ==> r.value.tableName == R.GetTableName(attrs) && r.value.columnFamily == attrs.columnFamily
    ensures r.Ok? ==> r.value.tableNameBytes.None? && r.value.columnFamilyBytes.None?
                      && r.value.rowKey.None? && r.value.idType.None?
  {
    var key := ResolveKey(cls);
    if key.None? then Err(R.ID_NOT_FOUND)
    else Ok(Statement(className, key.value.field, R.GetTableName(attrs), None,
                      R.GetColumnFamily(attrs), None, None, None, ParseProperties(cls)))
  }

  /** Unlike the registrar, the scanner maps `serialVersionUID` as a column. */
  lemma SerialVersionUidIsMapped(cls: ClassDecl, f: FieldDecl)
    requires f in cls.fields && f.name == R.SERIAL_VERSION_ID && f.columnName.None?
    requires forall g :: g in cls.fields ==> g.columnName != Some(R.SERIAL_VERSION_ID)
    ensures R.SERIAL_VERSION_ID in ParseProperties(Some(cls))
    ensures R.SERIAL_VERSION_ID !in R.ParseProperties(Some(cls))
  {
    assert R.PropertyOf(f).column == R.SERIAL_VERSION_ID;
    RegistrarDropsSerialVersionUid(cls);
  }

  lemma RegistrarDropsSerialVersionUid(cls: ClassDecl)
    requires forall g :: g in cls.fields ==> g.columnName != Some(R.SERIAL_VERSION_ID)
    ensures R.SERIAL_VERSION_ID !in R.ParseProperties(Some(cls))
  {
    var m := R.ParseProperties(Some(cls));
    forall c | c in m
      ensures c != R.SERIAL_VERSION_ID
    {
      var g := m[c].field;
      assert g in cls.fields && g.name != R.SERIAL_VERSION_ID;
    }
  }

  /** Without a `serialVersionUID` field the two copies compute the same
      column map. */
  lemma SameColumnsAsRegistrar(cls: ClassDecl)
    requires forall f :: f in cls.fields ==> f.name != R.SERIAL_VERSION_ID
    ensures ParseProperties(Some(cls)) == R.ParseProperties(Some(cls))
  {
    MappableKeepsAll(cls.fields);
  }

  lemma {:induction false} MappableKeepsAll(fields: seq<FieldDecl>)
    requires forall f :: f in fields ==> f.name != R.SERIAL_VERSION_ID
    ensures R.Mappable(fields) == fields
  {
    if fields != [] {
      assert fields[0] in fields;
      MappableKeepsAll(fields[1..]);
      assert fields == [fields[0]] + fields[1..];
    }
  }

  /** `parseTableName`: registers into the static registry; nothing is
      registered when the key assertion fails. */
  method ParseTableName(factory: HbaseMappedFactory, className: string, attrs: R.TableNameAttributes, cls: Option<ClassDecl>)
    returns (o: Outcome)
    modifies factory
    ensures o.Pass? <==> Compile(className, attrs, cls).Ok?
    ensures o.Pass? ==> factory.mappedStatements == old(factory.mappedStatements)[className := Compile(className, attrs, cls).value]
    ensures o.Fail? ==> o.error == R.ID_NOT_FOUND && factory.mappedStatements == old(factory.mappedStatements)
  {
    var s := Compile(className, attrs, cls);
    if s.Err? {
      return Fail(s.error);
    }
    factory.AddStatement(className, s.value);
    o := Pass;
  }

  /** The registry after the candidate loop and whether it ran to the end. */
  function RegisterAll(m: map<string, Statement>, cands: seq<R.Candidate>): (map<string, Statement>, Outcome)
    decreases |cands|
  {
    if cands == [] then (m, Pass)
    else
      var c := cands[0];
      if c.isInterface then RegisterAll(m, cands[1..])
      else match Compile(c.className, c.attributes, c.loaded)
        case Err(e) => (m, Fail(e))
        case Ok(s) => RegisterAll(m[c.className := s], cands[1..])
  }

  /** Interfaces are skipped before parsing: dropping them changes nothing. */
  lemma {:induction false} InterfacesNeverParsed(m: map<string, Statement>, cands: seq<R.Candidate>)
    ensures RegisterAll(m, cands) == RegisterAll(m, R.NonInterfaces(cands))
    decreases |cands|
  {
    if cands != [] {
      var rest := R.NonInterfaces(cands[1..]);
      if !cands[0].isInterface {
        assert R.NonInterfaces(cands) == [cands[0]] + rest;
        assert ([cands[0]] + rest)[1..] == rest;
        match Compile(cands[0].className, cands[0].attributes, cands[0].loaded)
        case Err(_) =>
        case Ok(s) => InterfacesNeverParsed(m[cands[0].className := s], cands[1..]);
      } else {
        InterfacesNeverParsed(m, cands[1..]);
      }
    }
  }

  /** `registerBeanDefinitions`, over the candidates the scan found. */
  method RegisterBeanDefinitions(factory: HbaseMappedFactory, cands: seq<R.Candidate>) returns (o: Outcome)
    modifies factory
    ensures (factory.mappedStatements, o) == RegisterAll(old(factory.mappedStatements), cands)
  {
    var i := 0;
    while i < |cands|
      invariant 0 <= i <= |cands|
      invariant RegisterAll(factory.mappedStatements, cands[i..]) == RegisterAll(old(factory.mappedStatements), cands)
    {
      assert cands[i..][1..] == cands[i + 1..];
      var c := cands[i];
      if !c.isInterface {
        o := ParseTableName(factory, c.className, c.attributes, c.loaded);
        if o.Fail? {
          return;
        }
      }
      i := i + 1;
    }
    assert cands[i..] == [];
    o := Pass;
  }
}
