# HBase entity mapping engine, modelled in Dafny

This project models the mapping engine of `hbase-spring-boot-starter`: everything between a
typed Java entity and the untyped byte cells of an HBase row.

- **Byte codec.** Both `HbaseUtils` classes are modelled. `toBytes` dispatches on the value's
  runtime class. `getValue` dispatches on the declared class of a property.
- **Descriptor compilation.** `ObjectMappedRegistrar` and its copy `ObjectMappedScanner` turn a
  `@TableName` class into an `ObjectMappedStatement`: a table, a column family, a column map and
  a key field. The registrar also fills in the byte forms and a row key.
- **Statement registries.** `ObjectMappedFactory` and `HbaseMappedFactory`.
- **Row parsers.** `HbaseUtils.objectParse` and the three `ObjectParser` copies turn the cells of
  a row into a fresh entity.
- **Row-key generators.** The four generators and the `RowKeyGeneratorFactory` that dispatches to
  them by `IdType`.
- **Save paths.** `HbaseServiceImpl.save` and `SimpleHbaseRepository.save` each build one `Put`.
  The service also checks ids in its by-id operations.
- **Result collectors.** `RowMapper.mapRow(Result[])` and `RowMapperResultsExtractor`.
- **Connection settings.** `HbaseFactoryBean` checks `HbaseProperties` and builds the client
  configuration from them.

How Java appears in the model:

- A reflected class becomes a `ClassDecl`: a list of `FieldDecl`s with name, declared type,
  `@ColumnName` and `@TableId`.
- An entity object is an `Entities.Instance`: its class and a map from field name to `Value`.
- `Value` covers null, String, the boxed primitives and an opaque object. Doubles and floats are
  carried as their IEEE-754 bit patterns. BigDecimal is opaque.
- Exceptions are error tags in `Result`/`Outcome`.
- HBase `Bytes` for short, int, long and boolean is modelled concretely, as big-endian two's
  complement (module `HBaseBytes`).
- Strings are encoded as UTF-8 following RFC 3629 (module `Utf8`).
- Library code without visible source is passed in as parameters: hutool's conversions, HBase's
  BigDecimal layout, and the ids `IdUtil` draws (`Collaborators.Conversions`,
  `KeyGeneration.IdSource`).

Every class that the source changes in place is a Dafny `class`, and each of its methods is
proved against a specification function. The registries, the generator factory, the factory bean,
entity objects and `Put` are such classes. The loops of the source are `while` loops with
invariants: candidate registration, base packages, cell parsing, the `addColumn` loop, the
row-mapper loops and the generator map.

`ObjectMappedScanner.getTableName`, `getColumnFamily` and `getBasePackages`
(src/main/java/cn/darkjrong/hbase/common/configuration/ObjectMappedScanner.java:176-224) are the
same as the registrar's. The rows for `ObjectMappedRegistrar.GetTableName` and `GetBasePackages`
model both copies, and the `Compile` row covers the column family. The scanner looks its default
key column up through `QueryConstant.ID`, taken to be `"id"` like `HbaseConstant.ID`.

Statements come from several copies of `ObjectMappedStatement`, and `Mapping.Statement` unifies
them:

- `getColumns()` and `getProperties()` both read `properties`.
- The byte forms and the row key are set only by the registrar, so they are `Option`s.
- `idType` is never set by either compiler, so a service statement compiled here has `None`.
  Every method takes the statement as an input and handles both cases.

## Model

| member | source | states |
|---|---|---|
| HbaseUtils.ToBytesSerializable | src/main/java/cn/darkjrong/hbase/HbaseUtils.java:100-106 | A Number goes to `numberToBytes`. A String comes back by UTF-8 decoding. Null gives a null array. Any other class throws ClassCastException, and it is the only failure. |
| HbaseUtils.ToBytes | src/main/java/cn/darkjrong/hbase/HbaseUtils.java:112-133 | Fails exactly on null, with NullPointerException. Int, Long and Short become 4, 8 and 2 big-endian bytes that decode back to the value. Boolean becomes one byte, non-zero iff true. A String decodes back to itself. BigDecimal and other classes go to their converters. |
| HbaseUtils.GetValue | src/main/java/cn/darkjrong/hbase/HbaseUtils.java:164-184 | int/long/short succeed iff the whole array has at least 4/8/2 bytes. boolean succeeds iff the array has exactly one byte, and gives true iff it is non-zero. String and unknown classes give a String. For a non-empty range they succeed iff the range lies inside the array. |
| HbaseUtils.FixedWidthIgnoresRange | src/main/java/cn/darkjrong/hbase/HbaseUtils.java:167-180 | For every fixed-width class, the result does not depend on offset or length. |
| HbaseUtils.IntReadsFromIndexZero | src/main/java/cn/darkjrong/hbase/HbaseUtils.java:167-168 | An int is the value of data[0..4), whatever the cell's offset. |
| HbaseUtils.RangedBranchesReadOnlyTheRange | src/main/java/cn/darkjrong/hbase/HbaseUtils.java:164-184 | The String, BigDecimal and fallback branches depend only on data[offset..offset+length). |
| HbaseUtils.IntAtOffsetReadsWrongBytes | src/main/java/cn/darkjrong/hbase/HbaseUtils.java:165-168 | Concrete case: an int stored at offset 4 of a shared array decodes as the int at offset 0. A String at offset 1 decodes correctly. |
| HbaseUtils.RoundTrip | src/main/java/cn/darkjrong/hbase/HbaseUtils.java:116-180 | For String, Integer, Long, Short, Boolean, Double and Float, `getValue(classOf(v), toBytes(v), 0, len)` returns v. |
| HbaseUtils.ObjectParse | src/main/java/cn/darkjrong/hbase/HbaseUtils.java:80-93 | A null statement fails. A row with no cells gives null. Otherwise the result is a fresh object holding exactly what the cell loop computes, values converted to their fields' types included, or that loop's error (an unmapped qualifier, an undecodable value, an undeclared field, a value that does not fit its field). |
| CommonHbaseUtils.GetValueAll | src/main/java/cn/darkjrong/hbase/common/utils/HbaseUtils.java:68-86 | int/short/boolean succeed on the same array lengths as above. Every class outside the fixed-width list and BigDecimal, long included, is the UTF-8 text of the whole array. |
| CommonHbaseUtils.GetValue | src/main/java/cn/darkjrong/hbase/common/utils/HbaseUtils.java:97-115 | The same length conditions. The string branches give a String. For a non-empty range they succeed iff the range is inside the array. |
| CommonHbaseUtils.LongDecodedAsString | src/main/java/cn/darkjrong/hbase/common/utils/HbaseUtils.java:68-115 | The 8 bytes of any long decode to a String in both overloads, never to a Long. The root copy gives the Long back. |
| CommonHbaseUtils.FixedWidthIgnoresRange | src/main/java/cn/darkjrong/hbase/common/utils/HbaseUtils.java:100-111 | The fixed-width branches ignore offset and length and equal the two-argument overload. |
| CommonHbaseUtils.RangedBranchesReadOnlyTheRange | src/main/java/cn/darkjrong/hbase/common/utils/HbaseUtils.java:97-115 | The String, BigDecimal and fallback branches read exactly data[offset..offset+length). |
| CommonHbaseUtils.LongFieldThroughBothCodecs | src/main/java/cn/darkjrong/hbase/common/utils/HbaseUtils.java:97-115 | For a Long field and a cell holding a long's eight bytes, the root codec stores that long; this copy stores hutool's conversion of the decoded text when it is a long, and fails with IllegalArgumentException when the conversion answers null. |
| CommonHbaseUtils.OverloadsAgree | src/main/java/cn/darkjrong/hbase/common/utils/HbaseUtils.java:68-115 | With offset 0 and the full length, the two overloads agree for every class. |
| CommonHbaseUtils.AgreesWithRootExceptLong | src/main/java/cn/darkjrong/hbase/common/utils/HbaseUtils.java:97-115 | For every class but long/Long, this copy decodes exactly like the root copy. |
| ObjectMappedRegistrar.GetTableName | src/main/java/cn/darkjrong/hbase/common/config/ObjectMappedRegistrar.java:205-211 | The `name` attribute when it is not blank, otherwise `value`. |
| ObjectMappedRegistrar.PropertyOf | src/main/java/cn/darkjrong/hbase/common/config/ObjectMappedRegistrar.java:133-144 | The column is the `@ColumnName` value if present, else the field name. The column bytes decode to the column, and the type is the field's type. |
| ObjectMappedRegistrar.ToProperties | src/main/java/cn/darkjrong/hbase/common/config/ObjectMappedRegistrar.java:130-145 | One property per field, in field order. |
| ObjectMappedRegistrar.FirstByColumn | src/main/java/cn/darkjrong/hbase/common/config/ObjectMappedRegistrar.java:147 | The keys are exactly the columns that occur. Each entry is the earliest property with that column. |
| ObjectMappedRegistrar.FirstWins | src/main/java/cn/darkjrong/hbase/common/config/ObjectMappedRegistrar.java:147 | On a duplicate column, the first property is the one kept. |
| ObjectMappedRegistrar.Mappable | src/main/java/cn/darkjrong/hbase/common/config/ObjectMappedRegistrar.java:130-132 | The kept fields are exactly those not named `serialVersionUID`. |
| ObjectMappedRegistrar.ParseProperties | src/main/java/cn/darkjrong/hbase/common/config/ObjectMappedRegistrar.java:127-150 | An unloadable class gives the empty map. Otherwise every entry sits under its own column, comes from a declared non-`serialVersionUID` field, and every such field's column is present. |
| ObjectMappedRegistrar.FindTableId | src/main/java/cn/darkjrong/hbase/common/config/ObjectMappedRegistrar.java:110 | Finds a `@TableId` property that is kept in the map. None means no kept property carries `@TableId`. |
| ObjectMappedRegistrar.ResolveKey | src/main/java/cn/darkjrong/hbase/common/config/ObjectMappedRegistrar.java:110-113 | The key is a kept `@TableId` property. If there is none, it is the entry under the column "id". It is absent iff neither exists. |
| ObjectMappedRegistrar.SizeAsInt | src/main/java/cn/darkjrong/hbase/common/config/ObjectMappedRegistrar.java:117 | `Map.size()` equals the count for any count below 2^31. |
| ObjectMappedRegistrar.Compile | src/main/java/cn/darkjrong/hbase/common/config/ObjectMappedRegistrar.java:96-119 | Fails with the key assertion iff there is no key. Otherwise the statement has id = class name, table name and column family from the annotation, their UTF-8 bytes, the column map and the key field. The row key is 4 bytes that decode to the property count. |
| ObjectMappedRegistrar.UnloadableClassFails | src/main/java/cn/darkjrong/hbase/common/config/ObjectMappedRegistrar.java:128-149 | A class that cannot be loaded always fails the key assertion. |
| ObjectMappedRegistrar.KeyIsFoundByColumn | src/main/java/cn/darkjrong/hbase/common/config/ObjectMappedRegistrar.java:110-113 | In any class without `@TableId`, a field that shares its column with no other field is the key iff its column is "id". Its field name does not matter. |
| ObjectMappedRegistrar.SingleTableIdIsTheKey | src/main/java/cn/darkjrong/hbase/common/config/ObjectMappedRegistrar.java:110 | In a class with exactly one `@TableId` field, whose column no other field shares, that field's property is the key. The map's iteration order cannot change the choice. |
| ObjectMappedRegistrar.ParseTableName | src/main/java/cn/darkjrong/hbase/common/config/ObjectMappedRegistrar.java:96-119 | On success the registry gains exactly the compiled statement under the class name. On failure the registry is unchanged. |
| ObjectMappedRegistrar.NonInterfaces | src/main/java/cn/darkjrong/hbase/common/config/ObjectMappedRegistrar.java:76-79 | Keeps exactly the candidates that are not interfaces. |
| ObjectMappedRegistrar.InterfacesNeverParsed | src/main/java/cn/darkjrong/hbase/common/config/ObjectMappedRegistrar.java:71-85 | Removing the interfaces from the candidates changes neither the registry nor the outcome. |
| ObjectMappedRegistrar.ClassNames | src/main/java/cn/darkjrong/hbase/common/config/ObjectMappedRegistrar.java:71-85 | Contains the class name of every non-interface candidate. |
| ObjectMappedRegistrar.RegisteredKeys | src/main/java/cn/darkjrong/hbase/common/config/ObjectMappedRegistrar.java:54-87 | A registration loop that completes adds exactly the non-interface class names. |
| ObjectMappedRegistrar.RegisterBeanDefinitions | src/main/java/cn/darkjrong/hbase/common/config/ObjectMappedRegistrar.java:54-87 | The loop leaves the registry and the outcome given by the candidate-by-candidate definition. The first failure stops the loop, and earlier registrations are kept. |
| ObjectMappedRegistrar.GetBasePackages | src/main/java/cn/darkjrong/hbase/common/config/ObjectMappedRegistrar.java:178-197 | The entries with text from `value` and `basePackages`. If there are none, only the package of the importing class. |
| ObjectMappedScanner.ParseProperties | src/main/java/cn/darkjrong/hbase/common/configuration/ObjectMappedScanner.java:127-148 | Like the registrar's but with no filter: every declared field's column is present, `serialVersionUID` included, and the first field wins. |
| ObjectMappedScanner.ResolveKey | src/main/java/cn/darkjrong/hbase/common/configuration/ObjectMappedScanner.java:111-114 | A kept `@TableId` property, else the column "id". It is absent iff neither exists. |
| ObjectMappedScanner.SingleTableIdIsTheKey | src/main/java/cn/darkjrong/hbase/common/configuration/ObjectMappedScanner.java:111 | The same for the scanner: a single `@TableId` field with its own column is the key, whatever the iteration order. |
| ObjectMappedScanner.Compile | src/main/java/cn/darkjrong/hbase/common/configuration/ObjectMappedScanner.java:101-119 | Fails iff there is no key. Otherwise sets id, names, column map and key, and leaves the byte forms and the row key unset. |
| ObjectMappedScanner.SerialVersionUidIsMapped | src/main/java/cn/darkjrong/hbase/common/configuration/ObjectMappedScanner.java:130-143 | A `serialVersionUID` field is a column for the scanner and not for the registrar. |
| ObjectMappedScanner.SameColumnsAsRegistrar | src/main/java/cn/darkjrong/hbase/common/configuration/ObjectMappedScanner.java:127-148 | Without a `serialVersionUID` field, both copies build the same column map. |
| ObjectMappedScanner.ParseTableName | src/main/java/cn/darkjrong/hbase/common/configuration/ObjectMappedScanner.java:101-119 | On success the static registry gains the statement under the class name. On failure nothing changes. |
| ObjectMappedScanner.InterfacesNeverParsed | src/main/java/cn/darkjrong/hbase/common/configuration/ObjectMappedScanner.java:75-90 | Interfaces are skipped: removing them changes nothing. |
| ObjectMappedScanner.RegisterBeanDefinitions | src/main/java/cn/darkjrong/hbase/common/configuration/ObjectMappedScanner.java:58-92 | The loop yields the registry and the outcome given by the candidate-by-candidate definition. |
| Mapping.ObjectMappedFactory.constructor | src/main/java/cn/darkjrong/hbase/mapping/ObjectMappedFactory.java:21 | The registry starts empty. |
| Mapping.ObjectMappedFactory.GetStatement | src/main/java/cn/darkjrong/hbase/mapping/ObjectMappedFactory.java:39-41 | Returns a statement iff the id was added, and then the one stored; otherwise null. |
| Mapping.ObjectMappedFactory.AddStatement | src/main/java/cn/darkjrong/hbase/mapping/ObjectMappedFactory.java:29-31 | Get after add returns s. The last write wins, and every other id keeps its statement. |
| Mapping.HbaseMappedFactory.constructor | src/main/java/cn/darkjrong/hbase/mapping/HbaseMappedFactory.java:24 | The static map starts empty. |
| Mapping.HbaseMappedFactory.GetStatement | src/main/java/cn/darkjrong/hbase/mapping/HbaseMappedFactory.java:42-44 | A statement iff the id was added; null for an unknown id. |
| Mapping.HbaseMappedFactory.GetStatements | src/main/java/cn/darkjrong/hbase/mapping/HbaseMappedFactory.java:51-53 | The map holds exactly the ids that `getStatement` finds, with the same statements. |
| Mapping.HbaseMappedFactory.AddStatement | src/main/java/cn/darkjrong/hbase/mapping/HbaseMappedFactory.java:32-34 | Get after add returns s, other ids are untouched, and the key set grows by exactly id. |
| Entities.Defaults | src/main/java/cn/darkjrong/hbase/HbaseUtils.java:83 | A new object has one slot per field, holding the Java default of its declared type. |
| Entities.Instance.constructor | src/main/java/cn/darkjrong/hbase/HbaseUtils.java:83 | A new object of class c holds the defaults. |
| Entities.Instance.FieldValue | src/main/java/cn/darkjrong/hbase/service/impl/HbaseServiceImpl.java:63 | A field of the object's class reads its slot. A field of another class is rejected. |
| Entities.Instance.SetFieldValue | src/main/java/cn/darkjrong/hbase/HbaseUtils.java:88 | `ReflectUtil.setFieldValue`: an undeclared name throws. Otherwise the field gets what `Assigned` gives for its declared type (default for null, the value itself when it is an instance, else hutool's conversion), or the call throws IllegalArgumentException. Nothing else changes; on failure nothing changes. A well-typed object stays well typed. |
| Entities.Instance.SetField | src/main/java/cn/darkjrong/hbase/keygen/SnowflakeIdRowKeyGenerator.java:24-28 | A plain store, as the key generators use it: writes the named field and nothing else; an undeclared name throws and changes nothing. |
| Entities.Assigned | src/main/java/cn/darkjrong/hbase/HbaseUtils.java:88 | What `setFieldValue` stores in a field of type t: null becomes the type's default; an instance of t is kept; otherwise the converted value (or the original when the conversion answers null), which must fit the field or the call fails with IllegalArgumentException. Exactly the values that cannot be made to fit fail, and whatever is stored fits. |
| Entities.DefaultsWellTyped | src/main/java/cn/darkjrong/hbase/HbaseUtils.java:83 | A freshly constructed object holds in each field a value its type accepts. |
| CellParsing.Step | src/main/java/cn/darkjrong/hbase/HbaseUtils.java:86-88 | A step succeeds iff the qualifier is mapped, the value decodes, the qualifier names a field and the decoded value can be made to fit that field's type; it then writes the assigned value to that field only. An unmapped qualifier throws NullPointerException. |
| CellParsing.NewInstanceFromRow | src/main/java/cn/darkjrong/hbase/factory/ObjectParser.java:32-39 | A fresh object of the class, holding exactly the parse of the row (each value assigned through hutool's conversion), or the parse's error. |
| CellParsing.ApplyCellsTo | src/main/java/cn/darkjrong/hbase/HbaseUtils.java:85-89 | The loop over the live object leaves it equal to the cell-by-cell definition, or returns that definition's error. |
| CellParsing.ApplyCell | src/main/java/cn/darkjrong/hbase/HbaseUtils.java:86-88 | One pass of the loop body on the live object: it succeeds exactly when Step does and then holds Step's values; on failure it reports Step's error and leaves the object as it was. |
| CellParsing.ApplyCellsSnoc | src/main/java/cn/darkjrong/hbase/HbaseUtils.java:85-89 | Cells are applied in order: one more cell is one more step. |
| CellParsing.LastCellWins | src/main/java/cn/darkjrong/hbase/factory/ObjectParser.java:34-38 | The field named by the last cell holds that cell's decoded value as assigned to the field's type, whatever came before. |
| CellParsing.UnmappedQualifierFails | src/main/java/cn/darkjrong/hbase/factory/ObjectParser.java:36 | A qualifier with no property anywhere in the row makes the parse fail. |
| CellParsing.OnlyQualifiedFieldsChange | src/main/java/cn/darkjrong/hbase/HbaseUtils.java:85-89 | No field is added or removed. A field no qualifier names keeps its value. |
| CellParsing.RenamedColumnFails | src/main/java/cn/darkjrong/hbase/HbaseUtils.java:86-88 | A column that is not the name of any field (renamed with `@ColumnName`) fails with the undeclared-field error. |
| CellParsing.MismatchedValueFails | src/main/java/cn/darkjrong/hbase/HbaseUtils.java:88 | A decoded value that neither fits its field nor converts to something that does makes the parse fail with IllegalArgumentException. |
| CellParsing.ApplyCellsWellTyped | src/main/java/cn/darkjrong/hbase/HbaseUtils.java:85-89 | The cell loop keeps every field holding a value its type accepts. |
| CellParsing.ParseRowWellTyped | src/main/java/cn/darkjrong/hbase/HbaseUtils.java:83-89 | A parsed object is well typed. |
| FactoryObjectParser.Parse | src/main/java/cn/darkjrong/hbase/factory/ObjectParser.java:30-40 | A null statement fails. Otherwise a fresh object parsed with the root codec and hutool's conversion, or exactly the parse's error. Zero cells give a fresh object with defaults, not null. |
| RepositoryObjectParser.Parse | src/main/java/cn/darkjrong/hbase/repository/ObjectParser.java:35-46 | No statement under the class name fails before any object is made. Otherwise the result is a fresh object holding the parse with the common codec and hutool's conversion, or exactly that parse's error (a Long field fed the common codec's text fails when the conversion gives nothing). Zero cells give the defaults. |
| CallbackObjectParser.Parse | src/main/java/cn/darkjrong/hbase/common/callback/ObjectParser.java:37-48 | The same as the repository copy, including the error of a failed parse. Its registry is the mapping package's `ObjectMappedFactory`. |
| KeyGeneration.KeyField | src/main/java/cn/darkjrong/hbase/keygen/SnowflakeIdRowKeyGenerator.java:20-23 | The explicit field when given, else the class's field named `id`. |
| KeyGeneration.Write | src/main/java/cn/darkjrong/hbase/keygen/SnowflakeIdRowKeyGenerator.java:24-28 | Sets the field iff the object declares it. Every other slot is unchanged. |
| SnowflakeIdRowKeyGenerator.PostProcessed | src/main/java/cn/darkjrong/hbase/keygen/SnowflakeIdRowKeyGenerator.java:19-46 | With no key field, NullPointerException. Only the key changes, and only to the numeric id (Number types) or the string id (types String fits). An explicit field whose type takes an id is always overwritten. The default path leaves a non-null id alone and fills a null one. Other types are untouched, with no error. |
| SnowflakeIdRowKeyGenerator.DefaultGenerated | src/main/java/cn/darkjrong/hbase/keygen/SnowflakeIdRowKeyGenerator.java:37-46 | A class without an `id` field gives NullPointerException. A non-null id is left alone. A null id gets the numeric or string snowflake id when its type takes one, and is otherwise left alone. |
| SnowflakeIdRowKeyGenerator.PrimitiveKeyNeverGenerated | src/main/java/cn/darkjrong/hbase/keygen/SnowflakeIdRowKeyGenerator.java:37-46 | A primitive key field of a new object is never assigned. |
| SnowflakeIdRowKeyGenerator.DefaultGeneratorKey | src/main/java/cn/darkjrong/hbase/keygen/SnowflakeIdRowKeyGenerator.java:37-46 | The object ends as the default-path definition says. On failure it is unchanged. |
| SnowflakeIdRowKeyGenerator.PostProcess | src/main/java/cn/darkjrong/hbase/keygen/SnowflakeIdRowKeyGenerator.java:19-29 | The object ends as `PostProcessed` says. On failure it is unchanged. |
| StringUUIDRowKeyGenerator.PostProcessed | src/main/java/cn/darkjrong/hbase/keygen/StringUUIDRowKeyGenerator.java:19-44 | An explicit non-String field throws before any write. An explicit String field is always set to the UUID. The default path acts only while `id` is null, so a preset non-String id passes. Only the key changes. |
| StringUUIDRowKeyGenerator.DefaultGeneratorKey | src/main/java/cn/darkjrong/hbase/keygen/StringUUIDRowKeyGenerator.java:36-44 | The object ends as the default-path definition says. On failure it is unchanged. |
| StringUUIDRowKeyGenerator.PostProcess | src/main/java/cn/darkjrong/hbase/keygen/StringUUIDRowKeyGenerator.java:19-28 | The object ends as `PostProcessed` says. On failure it is unchanged. |
| StringObjectIdRowKeyGenerator.PostProcessed | src/main/java/cn/darkjrong/hbase/keygen/StringObjectIdRowKeyGenerator.java:19-44 | The same rules as the UUID generator, with the ObjectId string. |
| StringObjectIdRowKeyGenerator.DefaultGeneratorKey | src/main/java/cn/darkjrong/hbase/keygen/StringObjectIdRowKeyGenerator.java:36-44 | The object ends as the default-path definition says. On failure it is unchanged. |
| StringObjectIdRowKeyGenerator.PostProcess | src/main/java/cn/darkjrong/hbase/keygen/StringObjectIdRowKeyGenerator.java:19-28 | The object ends as `PostProcessed` says. On failure it is unchanged. |
| InputKeyGenerator.PostProcessed | src/main/java/cn/darkjrong/hbase/keygen/InputKeyGenerator.java:15-18 | Always succeeds and changes nothing, a null key included. |
| InputKeyGenerator.DefaultGenerated | src/main/java/cn/darkjrong/hbase/keygen/InputKeyGenerator.java:25-27 | Always succeeds and changes nothing. |
| RowKeyGeneratorFactory.TypeOf | src/main/java/cn/darkjrong/hbase/factory/RowKeyGeneratorFactory.java:30 | Each bean reports its generator's `getType()`: ASSIGN_ID for the snowflake bean, ASSIGN_UUID for the UUID bean, ASSIGN_OBJECT_ID for the ObjectId bean, INPUT for the input bean. |
| RowKeyGeneratorFactory.TypesAreDistinct | src/main/java/cn/darkjrong/hbase/factory/RowKeyGeneratorFactory.java:28-31 | Two beans report the same type iff they are the same bean, so the four beans fill four slots. |
| RowKeyGeneratorFactory.HandlersTouchOnlyTheKey | src/main/java/cn/darkjrong/hbase/factory/RowKeyGeneratorFactory.java:48 | Whatever generator runs, fields are neither added nor removed, and only the key field may change. |
| RowKeyGeneratorFactory.TypesOf | src/main/java/cn/darkjrong/hbase/factory/RowKeyGeneratorFactory.java:28-31 | Contains the type of every bean. |
| RowKeyGeneratorFactory.Indexed | src/main/java/cn/darkjrong/hbase/factory/RowKeyGeneratorFactory.java:28-31 | The keys are the old keys plus every bean's type. Other entries are untouched. Every generator stays filed under its own type. |
| RowKeyGeneratorFactory.LaterBeanWins | src/main/java/cn/darkjrong/hbase/factory/RowKeyGeneratorFactory.java:30 | A bean not followed by another of the same type is the one stored under that type. |
| RowKeyGeneratorFactory.RowKeyGeneratorFactory.constructor | src/main/java/cn/darkjrong/hbase/factory/RowKeyGeneratorFactory.java:25 | The map starts empty. |
| RowKeyGeneratorFactory.RowKeyGeneratorFactory.AfterPropertiesSet | src/main/java/cn/darkjrong/hbase/factory/RowKeyGeneratorFactory.java:28-31 | The loop leaves the map given by the bean-by-bean definition. Every bean's type is present, and consistency is kept. |
| RowKeyGeneratorFactory.RowKeyGeneratorFactory.DoHandler | src/main/java/cn/darkjrong/hbase/factory/RowKeyGeneratorFactory.java:45-49 | A null type gives NullPointerException. An unregistered type throws IllegalArgumentException and leaves the entity untouched. Otherwise the registered generator runs once, and the entity ends as its `postProcess` says. |
| RowKeyGeneratorFactory.TestInitResolvesEveryType | src/test/java/cn/darkjrong/hbase/TestInit.java:38-45 | In the test map every `IdType` resolves to its own generator. It is also what `afterPropertiesSet` builds from the four beans. |
| RowMapper.MapAll | src/main/java/cn/darkjrong/hbase/callback/RowMapper.java:35-42 | Row i is mapped with row number i. On success there is one entry per row. The first exception is the result. |
| RowMapper.Present | src/main/java/cn/darkjrong/hbase/callback/RowMapper.java:38-40 | Keeps every non-null result and only those, never making the list longer. |
| RowMapper.PresentAppend | src/main/java/cn/darkjrong/hbase/callback/RowMapper.java:38-40 | Dropping nulls distributes over concatenation, so order is kept. |
| RowMapper.PresentKeepsAll | src/main/java/cn/darkjrong/hbase/callback/RowMapper.java:38-40 | The output is as long as the input iff no result is null, and then it is the results in order. |
| RowMapper.MapRows | src/main/java/cn/darkjrong/hbase/callback/RowMapper.java:35-42 | The loop returns the non-null results of the numbered mapping in order, or its first exception. |
| RowMapperResultsExtractor.Extractor.ExtractData | src/main/java/cn/darkjrong/hbase/callback/RowMapperResultsExtractor.java:27-34 | Entry i is `mapRow(result_i, i)`, nulls kept, one entry per result. |
| RowMapperResultsExtractor.New | src/main/java/cn/darkjrong/hbase/callback/RowMapperResultsExtractor.java:21-24 | Fails iff the mapper is null. |
| Mutations.CheckRow | src/main/java/cn/darkjrong/hbase/service/impl/HbaseServiceImpl.java:64 | `new Put(row)` accepts a row iff it is non-null, non-empty and at most 32767 bytes, each failure with its own exception. |
| Mutations.Put.constructor | src/main/java/cn/darkjrong/hbase/service/impl/HbaseServiceImpl.java:64 | A new Put has the row and no cells. |
| Mutations.NewPut | src/main/java/cn/darkjrong/hbase/service/impl/HbaseServiceImpl.java:64 | A fresh empty Put iff the row passes the checks, otherwise that check's exception. |
| Mutations.Put.AddColumn | src/main/java/cn/darkjrong/hbase/service/impl/HbaseServiceImpl.java:67-69 | Appends exactly one cell. |
| Mutations.ColumnCell | src/main/java/cn/darkjrong/hbase/service/impl/HbaseServiceImpl.java:66-69 | A cell with the family, the column bytes and the encoded field value. An undeclared field is rejected, and an encoding failure propagates. |
| Mutations.ColumnCells | src/main/java/cn/darkjrong/hbase/service/impl/HbaseServiceImpl.java:65-69 | Succeeds iff every column does, with one cell per column in iteration order. A failure is some column's error. |
| Mutations.AddColumns | src/main/java/cn/darkjrong/hbase/service/impl/HbaseServiceImpl.java:65-69 | The `forEach` appends exactly those cells to the Put, or stops with that error. |
| Mutations.QualifiersDistinct | src/main/java/cn/darkjrong/hbase/service/impl/HbaseServiceImpl.java:65-69 | The qualifiers of the cells are pairwise distinct, so each column is written once. |
| HbaseServiceImpl.SaveMutation | src/main/java/cn/darkjrong/hbase/service/impl/HbaseServiceImpl.java:62-70 | An undeclared key field is rejected. A null key gives NullPointerException. The row is `toBytes` of the key, 1..32767 bytes long. Cell i has the family, column i's bytes and `toBytes` of its field. A null column value fails the save. |
| HbaseServiceImpl.RowIdentifiesKey | src/main/java/cn/darkjrong/hbase/service/impl/HbaseServiceImpl.java:63-64 | For String keys, two saves write the same row iff their keys are equal. |
| HbaseServiceImpl.EmptyStringKeyFails | src/main/java/cn/darkjrong/hbase/service/impl/HbaseServiceImpl.java:64 | A key "" gives an empty row, which is refused. |
| HbaseServiceImpl.Save | src/main/java/cn/darkjrong/hbase/service/impl/HbaseServiceImpl.java:59-72 | The generator runs first, and the entity keeps what it wrote. The one Put sent to the statement's table has the row and cells of `SaveMutation` on the generated fields. A generator failure leaves the entity unchanged. |
| HbaseServiceImpl.SaveReplacesPresetUuidKey | src/main/java/cn/darkjrong/hbase/service/impl/HbaseServiceImpl.java:62 | `save` passes the key field explicitly, so under ASSIGN_UUID a preset String key is replaced by the new UUID. |
| HbaseServiceImpl.ExistsById | src/main/java/cn/darkjrong/hbase/service/impl/HbaseServiceImpl.java:96-100 | A null id is refused first. Succeeds iff the id is non-null and a statement exists, and then targets its table. |
| HbaseServiceImpl.FindAllById | src/main/java/cn/darkjrong/hbase/service/impl/HbaseServiceImpl.java:103-112 | A null or empty id set is refused. Otherwise the request names the table, the ids and the column family. |
| HbaseServiceImpl.DeleteById | src/main/java/cn/darkjrong/hbase/service/impl/HbaseServiceImpl.java:115-119 | A null id is refused. Otherwise the request names the table, that id and the family. |
| SimpleHbaseRepository.EncoderWritesStringForm | src/main/java/cn/darkjrong/hbase/repository/SimpleHbaseRepository.java:52 | A cell fails exactly on null. Otherwise it holds the UTF-8 bytes of `Convert.toStr(value)`, whatever the type. |
| SimpleHbaseRepository.SaveMutation | src/main/java/cn/darkjrong/hbase/repository/SimpleHbaseRepository.java:46-53 | The row is the statement's `rowKey` (missing gives NullPointerException). Cell i decodes to the string form of column i's field. Any null column fails the save. With a valid row and all columns set, it succeeds. |
| SimpleHbaseRepository.RowIgnoresEntity | src/main/java/cn/darkjrong/hbase/repository/SimpleHbaseRepository.java:47 | Every entity saved through one statement goes to the same row. |
| SimpleHbaseRepository.RegistrarRowIsColumnCount | src/main/java/cn/darkjrong/hbase/repository/SimpleHbaseRepository.java:47 | With a registrar statement, that row is 4 bytes that decode to the number of mapped columns. |
| SimpleHbaseRepository.Save | src/main/java/cn/darkjrong/hbase/repository/SimpleHbaseRepository.java:44-56 | The entity is not modified. One fresh Put with `SaveMutation`'s row and cells goes to the statement's table, or the save fails with its error. |
| HbaseFactoryBean.DefaultProperties | src/main/java/cn/darkjrong/spring/boot/autoconfigure/HbaseProperties.java:21-42 | Unbound properties: no quorum or root dir, znode parent "/hbase", sanity checks on, ASSIGN_ID. |
| HbaseFactoryBean.Validate | src/main/java/cn/darkjrong/spring/boot/autoconfigure/HbaseFactoryBean.java:31-34 | Checks in order: a blank quorum, a blank rootDir, a blank nodeParent, or a nodeParent not starting with "/" each fails with its own exception. Passing implies all four hold. |
| HbaseFactoryBean.ValidIffSettingsUsable | src/main/java/cn/darkjrong/spring/boot/autoconfigure/HbaseFactoryBean.java:31-34 | Passes iff quorum and rootDir are not blank and nodeParent starts with "/". |
| HbaseFactoryBean.DefaultsNeedQuorumTestSettingsPass | src/test/java/cn/darkjrong/hbase/TestInit.java:26-32 | The unbound defaults fail on the quorum. The test's settings pass. |
| HbaseFactoryBean.Configured | src/main/java/cn/darkjrong/spring/boot/autoconfigure/HbaseFactoryBean.java:36-39 | The three keys hold the three property values. Every other key of the created configuration is kept. |
| HbaseFactoryBean.HbaseFactoryBean.constructor | src/main/java/cn/darkjrong/spring/boot/autoconfigure/HbaseFactoryBean.java:24-26 | Stores the properties; no configuration yet. |
| HbaseFactoryBean.HbaseFactoryBean.AfterPropertiesSet | src/main/java/cn/darkjrong/spring/boot/autoconfigure/HbaseFactoryBean.java:29-41 | The outcome is the validation. On failure the stored configuration is unchanged. On success it is the configured map. |
| HbaseFactoryBean.HbaseFactoryBean.GetObject | src/main/java/cn/darkjrong/spring/boot/autoconfigure/HbaseFactoryBean.java:44-46 | The stored configuration, null before a successful set-up. |
| HbaseFactoryBean.HbaseFactoryBean.IsSingleton | src/main/java/cn/darkjrong/spring/boot/autoconfigure/HbaseFactoryBean.java:54-56 | Always true. |
| HbaseFactoryBean.ConfigureAndGet | src/main/java/cn/darkjrong/spring/boot/autoconfigure/HbaseFactoryBean.java:29-46 | Construct, set up and `getObject`: fails iff validation does. Otherwise it returns the three settings over the created configuration. |

## Left out

- `HbaseTemplate` / `HbaseOperations` and the network. The save paths and the by-id operations
  return the request they would hand to the template (`SaveRequest`, `KeyRequest`, the table
  name). The template's answer (`Boolean`, rows) is not modelled.
- Spring wiring, proxies and the classpath scan. The candidates the scan would find are an input
  sequence, in the container's iteration order. Whether `ClassUtil.loadClass` returns null or
  throws is folded into `Candidate.loaded`.
- The order in which `HashMap`/`ConcurrentHashMap` iterate is an input `order` or bean sequence when
  cells are written or beans are filed. It is not derived from hashing.
- ObjectMappedRegistrar.FindTableId: when several kept properties carry `@TableId`, it takes the first
  in field declaration order. The source's `findAny` over the column map's values takes whichever
  comes first in hash order, so which one becomes the key is not modelled. The same applies to
  `ObjectMappedScanner.ResolveKey`. With a single such property the two agree (`SingleTableIdIsTheKey`).
- The `HbaseUtils.close` helpers, root `getValue(Class, byte[])` (a hutool `Convert.convert`),
  `PropertiesUtils` and exception message texts. Errors are tags with fixed messages.
- Double, Float and BigDecimal are carried as opaque bits or converter results. No floating-point
  semantics are modelled.
- hutool's `Convert.toStr`, `Convert.toPrimitiveByteArray`, `ByteUtil.numberToBytes` and the
  BigDecimal layout are parameters. `StrUtil.bytes` uses the platform charset, assumed UTF-8.
- `Utf8.Decode` of malformed input gives one U+FFFD per offending byte. This simplifies Java's
  replacement rules; well-formed input is exact.
- hutool's `Convert.convert(type, value)` is the parameter `Conversions.convert`; its rules are
  not modelled, only what `setFieldValue` does with its answer.
- Entities.Assigned: `isAssignableFrom` knows the classes named in `JClass`. A class outside them
  is a subtype only of itself, `Object` and (when it is a number) `Number`, and an opaque object is
  never taken to implement `Serializable` or `Comparable`. `Field.set`'s widening of a boxed
  value into a wider primitive field (an `Integer` into a `long`) is not modelled; such a value
  goes through the conversion instead.
- KeyGeneration.Write: the generators store their id with `Instance.SetField`, without hutool's
  conversion, so a snowflake `Long` written into an `Integer` key is stored as a `Long`.
- Shadowed inherited fields, field initialisers and constructors other than the default are not
  modelled. A new object holds the Java defaults.
- `KeyGeneration.IdSource`: the snowflake, UUID and ObjectId values are inputs. Their uniqueness,
  monotonicity and format belong to hutool.
- `RowKeyGeneratorFactory`: only the four generator beans of the library can be registered;
  user-defined `RowKeyGenerator` beans are not.
- `HbaseMappedFactory`'s `synchronized` and the concurrent maps: the model is sequential.
- `Put` timestamps, cell grouping by family and the mutation's durability are not modelled. A
  `Put` is its row and its cells in `addColumn` order.
- `RowMapper.MapAll`: the `int` row counter is unbounded, so the model does not wrap it for more
  than 2^31 rows.
- `HbaseFactoryBean`: `HBaseConfiguration.create()` is an input map, the configuration the
  classpath resources would load. `getObjectType` is not modelled.
- ObjectMappedRegistrar.ParseTableName, ObjectMappedRegistrar.RegisterBeanDefinitions and
  RepositoryObjectParser.Parse: `cn.darkjrong.hbase.common.config.ObjectMappedFactory` is not part
  of this model. The registrar files its statements there
  (src/main/java/cn/darkjrong/hbase/common/config/ObjectMappedRegistrar.java:228-229), and the
  repository's `ObjectParser` bean is built over the same registry
  (src/main/java/cn/darkjrong/hbase/common/config/HbaseConfiguration.java:42-43). In these
  three members `Mapping.ObjectMappedFactory` stands for that shared registry. The callback
  `ObjectParser` reads `cn.darkjrong.hbase.mapping.ObjectMappedFactory`, a different object, which
  the registrar never fills; `CallbackObjectParser.Parse` takes it as a separate argument.
- Null receivers and arguments are excluded by Dafny's non-null types. This covers a null `results`
  array in `RowMapper.MapRows`, which throws NullPointerException at the for-each. It also covers a
  null entity in `HbaseServiceImpl.Save` and `SimpleHbaseRepository.Save`, a null factory in the
  `ObjectParser.Parse` copies, and a null `HbaseProperties` in `HbaseFactoryBean`.
- Mapping.Statement: `idType` is not set by either compiler. The service's statement is an input,
  so the id type reaching `doHandler` is whatever the statement holds.
