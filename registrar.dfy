/** `cn.darkjrong.hbase.common.config.ObjectMappedRegistrar`: compiles each
    `@TableName` class found by the classpath scan into a statement and
    registers it in the `ObjectMappedFactory` bean. The scan itself is left
    out; its result is the sequence of candidates. */
module ObjectMappedRegistrar {
  import opened JavaLang
  import Utf8
  import B = HBaseBytes
  import opened Mapping

  /** The key column used when no field carries `@TableId`. */
  const ID := "id"
  /** The field name the registrar never maps. */
  const SERIAL_VERSION_ID := "serialVersionUID"
  /** The assertion raised when a class has no key. */
  const ID_NOT_FOUND := IllegalArgument("id not found")

  /** The attributes of a class's `@TableName` annotation (the annotation
      gives "" for value and name and "info" for columnFamily by default). */
  datatype TableNameAttributes = TableNameAttributes(value: string, name: string, columnFamily: string)

  /** A class found by the scan: its name, whether it is an interface, its
      `@TableName` attributes, and the class `ClassUtil.loadClass` gives for
      the name (None when it gives null). */
  datatype Candidate = Candidate(className: string, isInterface: bool, attributes: TableNameAttributes, loaded: Option<ClassDecl>)

  /** `getTableName`: `name` unless it is blank, then `value`. */
  function GetTableName(attrs: TableNameAttributes): (r: string)
    ensures !IsBlank(Some(attrs.name)) ==> r == attrs.name
    ensures IsBlank(Some(attrs.name)) ==> r == attrs.value
  {
    if IsBlank(Some(attrs.name)) then attrs.value else attrs.name
  }

  /** `getColumnFamily`: the annotation's column family. */
  function GetColumnFamily(attrs: TableNameAttributes): (r: string)
    ensures r == attrs.columnFamily
  {
    attrs.columnFamily
  }

  /** The property one field becomes: the `@ColumnName` value if present,
      else the field name, with that column's UTF-8 bytes. */
  function PropertyOf(f: FieldDecl): (p: Property)
    ensures p.field == f && p.propType == f.fieldType
    ensures f.columnName.Some? ==> p.column == f.columnName.value
    ensures f.columnName.None? ==> p.column == f.name
    ensures Utf8.Decode(p.columnBytes) == p.column
  {
    var column := if f.columnName.Some? then f.columnName.value else f.name;
    Utf8.DecodeEncode(column);
    Property(f, column, Utf8.Encode(column), f.fieldType)
  }

  function ToProperties(fields: seq<FieldDecl>): (ps: seq<Property>)
    ensures |ps| == |fields|
    ensures forall i :: 0 <= i < |fields| ==> ps[i] == PropertyOf(fields[i])
  {
    seq(|fields|, i requires 0 <= i < |fields| => PropertyOf(fields[i]))
  }

  /** `Collectors.toMap(getColumn, p -> p, (a, b) -> a)`: one entry per column,
      holding the first property with that column. */
  function FirstByColumn(ps: seq<Property>): (m: map<string, Property>)
    ensures forall c :: c in m <==> exists i :: 0 <= i < |ps| && ps[i].column == c
    ensures forall c :: c in m ==> exists i :: 0 <= i < |ps| && ps[i] == m[c] && m[c].column == c
                                             && forall j :: 0 <= j < i ==> ps[j].column != c
  {
    if ps == [] then map[]
    else
      var m := FirstByColumn(ps[..|ps| - 1]);
      var p := ps[|ps| - 1];
      FirstByColumnSnoc(ps, m);
      if p.column in m then m else m[p.column := p]
  }

  /** The step of `FirstByColumn`: adding the last property keeps the map's
      two facts. */
  lemma FirstByColumnSnoc(ps: seq<Property>, m: map<string, Property>)
    requires ps != []
    requires var init := ps[..|ps| - 1];
             && (forall c :: c in m <==> exists i :: 0 <= i < |init| && init[i].column == c)
             && (forall c :: c in m ==> exists i :: 0 <= i < |init| && init[i] == m[c] && m[c].column == c
                                                  && forall j :: 0 <= j < i ==> init[j].column != c)
    ensures var p := ps[|ps| - 1];
            var r := if p.column in m then m else m[p.column := p];
            && (forall c :: c in r <==> exists i :: 0 <= i < |ps| && ps[i].column == c)
            && (forall c :: c in r ==> exists i :: 0 <= i < |ps| && ps[i] == r[c] && r[c].column == c
                                                 && forall j :: 0 <= j < i ==> ps[j].column != c)
  {
    SnocKeys(ps, m);
    SnocFirst(ps, m);
  }

  lemma SnocKeys(ps: seq<Property>, m: map<string, Property>)
    requires ps != []
    requires var init := ps[..|ps| - 1];
             forall c :: c in m <==> exists i :: 0 <= i < |init| && init[i].column == c
    ensures var p := ps[|ps| - 1];
            var r := if p.column in m then m else m[p.column := p];
            forall c :: c in r <==> exists i :: 0 <= i < |ps| && ps[i].column == c
  {
    var n := |ps| - 1;
    var init := ps[..n];
    var p := ps[n];
    var r := if p.column in m then m else m[p.column := p];
    forall c
      ensures c in r <==> exists i :: 0 <= i < |ps| && ps[i].column == c
    {
      if exists i :: 0 <= i < |ps| && ps[i].column == c {
        var i :| 0 <= i < |ps| && ps[i].column == c;
        if i < n {
          assert init[i].column == c;
        }
      }
      if c in m {
        var i :| 0 <= i < |init| && init[i].column == c;
        assert ps[i].column == c;
      }
    }
  }

  lemma SnocFirst(ps: seq<Property>, m: map<string, Property>)
    requires ps != []
    requires var init := ps[..|ps| - 1];
             forall c :: c in m ==> exists i :: 0 <= i < |init| && init[i] == m[c] && m[c].column == c
                                               && forall j :: 0 <= j < i ==> init[j].column != c
    requires var init := ps[..|ps| - 1];
             forall c :: c in m <==> exists i :: 0 <= i < |init| && init[i].column == c
    ensures var p := ps[|ps| - 1];
            var r := if p.column in m then m else m[p.column := p];
            forall c :: c in r ==> exists i :: 0 <= i < |ps| && ps[i] == r[c] && r[c].column == c
                                              && forall j :: 0 <= j < i ==> ps[j].column != c
  {
    var n := |ps| - 1;
    var init := ps[..n];
    var p := ps[n];
    var r := if p.column in m then m else m[p.column := p];
    forall c | c in r
      ensures exists i :: 0 <= i < |ps| && ps[i] == r[c] && r[c].column == c
                          && forall j :: 0 <= j < i ==> ps[j].column != c
    {
      if c in m {
        var i :| 0 <= i < |init| && init[i] == m[c] && m[c].column == c
                 && forall j :: 0 <= j < i ==> init[j].column != c;
        assert forall j :: 0 <= j < i ==> ps[j] == init[j];
        assert ps[i] == r[c];
      } else {
        assert c == p.column && r[c] == p;
        forall j | 0 <= j < n
          ensures ps[j].column != c
        {
          assert init[j] == ps[j];
        }
        assert ps[n] == r[c];
      }
    }
  }

  /** On a duplicate column, the property of the earliest field is kept. */
  lemma FirstWins(ps: seq<Property>, k: int)
    requires 0 <= k < |ps|
    requires forall j :: 0 <= j < k ==> ps[j].column != ps[k].column
    ensures ps[k].column in FirstByColumn(ps) && FirstByColumn(ps)[ps[k].column] == ps[k]
  {
    var m := FirstByColumn(ps);
    var c := ps[k].column;
    assert c in m by {
      assert 0 <= k < |ps| && ps[k].column == c;
    }
    var i :| 0 <= i < |ps| && ps[i] == m[c] && m[c].column == c && forall j :: 0 <= j < i ==> ps[j].column != c;
    assert ps[i].column == c;
    assert !(i < k);
    assert !(k < i);
  }

  /** The fields that become properties: all but `serialVersionUID`, in
      declaration order. */
  function Mappable(fields: seq<FieldDecl>): (r: seq<FieldDecl>)
    ensures forall f :: f in r <==> f in fields && f.name != SERIAL_VERSION_ID
    ensures |r| <= |fields|
  {
    if fields == [] then []
    else if fields[0].name == SERIAL_VERSION_ID then Mappable(fields[1..])
    else [fields[0]] + Mappable(fields[1..])
  }

  /** The properties in the order the stream produces them. */
  function PropertyList(cls: Option<ClassDecl>): seq<Property> {
    if cls.None? then [] else ToProperties(Mappable(cls.value.fields))
  }

  /** `parseProperties`: the column map of a loaded class; an empty map when
      the class could not be loaded. */
  function ParseProperties(cls: Option<ClassDecl>): (m: map<string, Property>)
    ensures cls.None? ==> m == map[]
    ensures forall c :: c in m ==> m[c].column == c && m[c] == PropertyOf(m[c].field)
    ensures cls.Some? ==> forall c :: c in m ==> m[c].field in cls.value.fields && m[c].field.name != SERIAL_VERSION_ID
    ensures cls.Some? ==> forall f :: f in cls.value.fields && f.name != SERIAL_VERSION_ID ==> PropertyOf(f).column in m
  {
    var m := FirstByColumn(PropertyList(cls));
    PropertyMapFacts(cls, m);
    m
  }

  lemma PropertyMapFacts(cls: Option<ClassDecl>, m: map<string, Property>)
    requires m == FirstByColumn(PropertyList(cls))
    ensures && (forall c :: c in m ==> m[c].column == c && m[c] == PropertyOf(m[c].field))
            && (cls.None? ==> m == map[])
            && (cls.Some? ==> forall c :: c in m ==> m[c].field in cls.value.fields && m[c].field.name != SERIAL_VERSION_ID)
            && (cls.Some? ==> forall f :: f in cls.value.fields && f.name != SERIAL_VERSION_ID ==> PropertyOf(f).column in m)
  {
    var ps := PropertyList(cls);
    if cls.Some? {
      var kept := Mappable(cls.value.fields);
      assert forall i :: 0 <= i < |ps| ==> ps[i] == PropertyOf(kept[i]);
      forall f | f in cls.value.fields && f.name != SERIAL_VERSION_ID
        ensures PropertyOf(f).column in m
      {
        var i :| 0 <= i < |kept| && kept[i] == f;
        assert ps[i].column == PropertyOf(f).column;
      }
      forall c | c in m
        ensures m[c].column == c && m[c] == PropertyOf(m[c].field)
        ensures m[c].field in cls.value.fields && m[c].field.name != SERIAL_VERSION_ID
      {
        var i :| 0 <= i < |ps| && ps[i] == m[c] && m[c].column == c;
        assert ps[i] == PropertyOf(kept[i]);
        assert kept[i] in kept;
      }
    }
  }

  /** The first property, in field order, that carries `@TableId` and was kept
      in the column map. */
  function FindTableId(ps: seq<Property>, m: map<string, Property>): (r: Option<Property>)
    ensures r.Some? ==> r.value.field.tableId && r.value.column in m && m[r.value.column] == r.value
    ensures r.None? ==> forall i :: 0 <= i < |ps| && ps[i].field.tableId ==> !(ps[i].column in m && m[ps[i].column] == ps[i])
  {
    if ps == [] then None
    else if ps[0].field.tableId && ps[0].column in m && m[ps[0].column] == ps[0] then Some(ps[0])
    else FindTableId(ps[1..], m)
  }

  /** The key property: one carrying `@TableId` if any property does (the
      stream's `findAny`), else the property under the column "id". */
  function ResolveKey(cls: Option<ClassDecl>): (r: Option<Property>)
    ensures var m := ParseProperties(cls);
            && (r.Some? ==> r.value.column in m && m[r.value.column] == r.value)
            && (r.Some? && !r.value.field.tableId ==> ID in m && r.value == m[ID]
                                                      && forall c :: c in m ==> !m[c].field.tableId)
            && (r.None? <==> ID !in m && forall c :: c in m ==> !m[c].field.tableId)
  {
    var t := FindTableId(PropertyList(cls), ParseProperties(cls));
    if t.None? then
      NoTableIdKept(cls);
      if ID in ParseProperties(cls) then Some(ParseProperties(cls)[ID]) else None
    else t
  }

  lemma NoTableIdKept(cls: Option<ClassDecl>)
    requires FindTableId(PropertyList(cls), ParseProperties(cls)).None?
    ensures forall c :: c in ParseProperties(cls) ==> !ParseProperties(cls)[c].field.tableId
  {
    var ps := PropertyList(cls);
    var m := ParseProperties(cls);
    forall c | c in m ensures !m[c].field.tableId {
      var i :| 0 <= i < |ps| && ps[i] == m[c] && m[c].column == c;
    }
  }

  /** `Map.size()` as an int: saturates at Integer.MAX_VALUE. */
  function SizeAsInt(n: nat): (r: Int32)
    ensures n < 0x8000_0000 ==> r == n
  {
    if n < 0x8000_0000 then n else 0x7FFF_FFFF
  }

  /** The statement `parseTableName` builds, or the failed key assertion. */
  function Compile(className: string, attrs: TableNameAttributes, cls: Option<ClassDecl>): (r: Result<Statement>)
    ensures r.Err? <==> ResolveKey(cls).None?
    ensures r.Err? ==> r.error == ID_NOT_FOUND
    ensures r.Ok? ==> r.value.id == className && r.value.properties == ParseProperties(cls)
                      && r.value.tableId == ResolveKey(cls).value.field
    ensures r.Ok? ==> r.value.tableName == GetTableName(attrs) && r.value.columnFamily == attrs.columnFamily
    ensures r.Ok? ==> r.value.tableNameBytes == Some(Utf8.Encode(r.value.tableName))
                      && r.value.columnFamilyBytes == Some(Utf8.Encode(r.value.columnFamily))
    ensures r.Ok? ==> r.value.rowKey.Some? && |r.value.rowKey.value| == 4
                      && B.DecodeSigned(r.value.rowKey.value) == SizeAsInt(|r.value.properties|)
    ensures r.Ok? ==> r.value.idType.None?
  {
    var tableName := GetTableName(attrs);
    var columnFamily := GetColumnFamily(attrs);
    var properties := ParseProperties(cls);
    var key := ResolveKey(cls);
    if key.None? then Err(ID_NOT_FOUND)
    else
      var count := SizeAsInt(|properties|);
      B.Widths();
      B.SignedRoundTrip(count, B.SIZEOF_INT);
      Ok(Statement(className, key.value.field, tableName, Some(B.StringToBytes(tableName)),
                   columnFamily, Some(B.StringToBytes(columnFamily)), Some(B.IntToBytes(count)), None, properties))
  }

  /** A class that could not be loaded has no properties, hence no key. */
  lemma UnloadableClassFails(className: string, attrs: TableNameAttributes)
    ensures Compile(className, attrs, None) == Err(ID_NOT_FOUND)
  {
    assert ParseProperties(None) == map[];
  }

  /** The key is found by column, not by field name: in a class without
      `@TableId`, a field that no other field shares a column with is the key
      exactly when it is stored under the column "id", whatever it is called. */
  lemma KeyIsFoundByColumn(cls: ClassDecl, f: FieldDecl)
    requires f in cls.fields && f.name != SERIAL_VERSION_ID
    requires forall g :: g in cls.fields ==> !g.tableId
    requires forall g :: g in cls.fields && PropertyOf(g).column == PropertyOf(f).column ==> g == f
    ensures ResolveKey(Some(cls)) == Some(PropertyOf(f)) <==> PropertyOf(f).column == ID
  {
    var m := ParseProperties(Some(cls));
    var r := ResolveKey(Some(cls));
    assert m[PropertyOf(f).column].field == f;
    if PropertyOf(f).column == ID {
      assert r.Some? && !r.value.field.tableId;
    }
  }

  /** A class with a single `@TableId` field, whose column no other field
      shares, has that field as its key, whatever order the column map is
      walked in. */
  lemma SingleTableIdIsTheKey(cls: ClassDecl, f: FieldDecl)
    requires f in cls.fields && f.name != SERIAL_VERSION_ID && f.tableId
    requires forall g :: g in cls.fields && g.tableId ==> g == f
    requires forall g :: g in cls.fields && PropertyOf(g).column == PropertyOf(f).column ==> g == f
    ensures ResolveKey(Some(cls)) == Some(PropertyOf(f))
  {
    var m := ParseProperties(Some(cls));
    var r := ResolveKey(Some(cls));
    assert m[PropertyOf(f).column].field == f;
    assert r.Some? && r.value.field.tableId;
    assert m[r.value.column] == r.value;
  }

  /** `parseTableName`: registers the compiled statement under the class
      name; when the key assertion fails nothing is registered. */
  method ParseTableName(factory: ObjectMappedFactory, className: string, attrs: TableNameAttributes, cls: Option<ClassDecl>)
    returns (o: Outcome)
    modifies factory
    ensures o.Pass? <==> Compile(className, attrs, cls).Ok?
    ensures o.Pass? ==> factory.statements == old(factory.statements)[className := Compile(className, attrs, cls).value]
    ensures o.Fail? ==> o.error == ID_NOT_FOUND && factory.statements == old(factory.statements)
  {
    var s := Compile(className, attrs, cls);
    if s.Err? {
      return Fail(s.error);
    }
    factory.AddStatement(className, s.value);
    o := Pass;
  }

  /** The registry after the candidate loop, and whether it ran to the end:
      interfaces are skipped, and the first failed assertion ends the loop
      with the earlier registrations kept. */
  function RegisterAll(m: map<string, Statement>, cands: seq<Candidate>): (map<string, Statement>, Outcome)
    decreases |cands|
  {
    if cands == [] then (m, Pass)
    else
      var c := cands[0];
      if c.isInterface then RegisterAll(m, cands[1..])
      else match Compile(c.className, c.attributes, c.loaded)
        case Err(e) => (m, Fail(e))
        case Ok(s) => RegisterAll(m[c.className := s], cands[1..])
  }

  function NonInterfaces(cands: seq<Candidate>): (r: seq<Candidate>)
    ensures forall c :: c in r <==> c in cands && !c.isInterface
  {
    if cands == [] then []
    else if cands[0].isInterface then NonInterfaces(cands[1..])
    else [cands[0]] + NonInterfaces(cands[1..])
  }

  /** Interfaces are never parsed: dropping them changes nothing. */
  lemma {:induction false} InterfacesNeverParsed(m: map<string, Statement>, cands: seq<Candidate>)
    ensures RegisterAll(m, cands) == RegisterAll(m, NonInterfaces(cands))
    decreases |cands|
  {
    if cands != [] {
      var rest := NonInterfaces(cands[1..]);
      if !cands[0].isInterface {
        assert NonInterfaces(cands) == [cands[0]] + rest;
        assert ([cands[0]] + rest)[1..] == rest;
        match Compile(cands[0].className, cands[0].attributes, cands[0].loaded)
        case Err(_) =>
        case Ok(s) => InterfacesNeverParsed(m[cands[0].className := s], cands[1..]);
      } else {
        InterfacesNeverParsed(m, cands[1..]);
      }
    }
  }

  /** The class names of the candidates that are not interfaces. */
  function ClassNames(cands: seq<Candidate>): (names: set<string>)
    ensures forall c :: c in cands && !c.isInterface ==> c.className in names
  {
    if cands == [] then {}
    else (if cands[0].isInterface then {} else {cands[0].className}) + ClassNames(cands[1..])
  }

  /** When the loop runs to the end, every non-interface candidate is
      registered under its class name, and nothing else is added. */
  lemma {:induction false} RegisteredKeys(m: map<string, Statement>, cands: seq<Candidate>)
    requires RegisterAll(m, cands).1.Pass?
    ensures RegisterAll(m, cands).0.Keys == m.Keys + ClassNames(cands)
    decreases |cands|
  {
    if cands != [] {
      var m' := RegisteredStep(m, cands);
      RegisteredKeys(m', cands[1..]);
    }
  }

  /** One candidate of a loop that runs to the end: an interface is skipped,
      any other class is compiled and registered under its name. */
  lemma RegisteredStep(m: map<string, Statement>, cands: seq<Candidate>) returns (m': map<string, Statement>)
    requires cands != []
    requires RegisterAll(m, cands).1.Pass?
    ensures RegisterAll(m, cands) == RegisterAll(m', cands[1..])
    ensures m.Keys + ClassNames(cands) == m'.Keys + ClassNames(cands[1..])
  {
    var c := cands[0];
    if c.isInterface {
      m' := m;
      assert ClassNames(cands) == ClassNames(cands[1..]);
    } else {
      CompiledFirst(m, cands);
      var s := Compile(c.className, c.attributes, c.loaded).value;
      m' := m[c.className := s];
      assert ClassNames(cands) == {c.className} + ClassNames(cands[1..]);
      InsertedKey(m, c.className, s, ClassNames(cands[1..]));
    }
  }

  lemma CompiledFirst(m: map<string, Statement>, cands: seq<Candidate>)
    requires cands != [] && !cands[0].isInterface
    requires RegisterAll(m, cands).1.Pass?
    ensures Compile(cands[0].className, cands[0].attributes, cands[0].loaded).Ok?
    ensures var s := Compile(cands[0].className, cands[0].attributes, cands[0].loaded).value;
            RegisterAll(m, cands) == RegisterAll(m[cands[0].className := s], cands[1..])
  {
  }

  lemma InsertedKey(m: map<string, Statement>, k: string, s: Statement, rest: set<string>)
    ensures m.Keys + ({k} + rest) == m[k := s].Keys + rest
  {
  }

  /** `registerBeanDefinitions`, over the candidates the scan found. */
  method RegisterBeanDefinitions(factory: ObjectMappedFactory, cands: seq<Candidate>) returns (o: Outcome)
    modifies factory
    ensures (factory.statements, o) == RegisterAll(old(factory.statements), cands)
  {
    var i := 0;
    while i < |cands|
      invariant 0 <= i <= |cands|
      invariant RegisterAll(factory.statements, cands[i..]) == RegisterAll(old(factory.statements), cands)
    {
      assert cands[i..][1..] == cands[i + 1..];
      var c := cands[i];
      if !c.isInterface {
        o := ParseTableName(factory, c.className, c.attributes, c.loaded);
        if o.Fail? {
          return;
        }
      }
      i := i + 1;
    }
    assert cands[i..] == [];
    o := Pass;
  }

  /** The packages named in a list that contain some non-whitespace text. */
  function WithText(pkgs: seq<string>): set<string> {
    set p | p in pkgs && HasText(p)
  }

  /** `getBasePackages`: the non-blank entries of `value` and `basePackages`;
      when there are none, the package of the importing class alone. */
  method GetBasePackages(value: seq<string>, basePackages: seq<string>, importingClassName: string)
    returns (pkgs: set<string>)
    ensures WithText(value) + WithText(basePackages) != {} ==> pkgs == WithText(value) + WithText(basePackages)
    ensures WithText(value) + WithText(basePackages) == {} ==> pkgs == {PackageName(importingClassName)}
  {
    pkgs := {};
    var i := 0;
    while i < |value|
      invariant 0 <= i <= |value|
      invariant pkgs == WithText(value[..i])
    {
      assert value[..i + 1] == value[..i] + [value[i]];
      if HasText(value[i]) {
        pkgs := pkgs + {value[i]};
      }
      i := i + 1;
    }
    assert value[..i] == value;
    var j := 0;
    while j < |basePackages|
      invariant 0 <= j <= |basePackages|
      invariant pkgs == WithText(value) + WithText(basePackages[..j])
    {
      assert basePackages[..j + 1] == basePackages[..j] + [basePackages[j]];
      if HasText(basePackages[j]) {
        pkgs := pkgs + {basePackages[j]};
      }
      j := j + 1;
    }
    assert basePackages[..j] == basePackages;
    if pkgs == {} {
      pkgs := {PackageName(importingClassName)};
    }
  }
}
