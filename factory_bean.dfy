/** `HbaseProperties` and `HbaseFactoryBean`: the connection settings and the
    bean that checks them and turns them into the client configuration. */
module HbaseFactoryBean {
  import opened JavaLang
  import opened Mapping

  /** The `spring.data.hbase` properties. */
  datatype HbaseProperties = HbaseProperties(quorum: Option<string>, rootDir: Option<string>, nodeParent: Option<string>,
                                             tableSanityChecks: bool, idType: IdType)

  /** `HConstants.DEFAULT_ZOOKEEPER_ZNODE_PARENT`. */
  const DEFAULT_ZNODE_PARENT := "/hbase"

  /** The properties before any are bound: no quorum or root directory, the
      default znode parent, sanity checks on, ASSIGN_ID keys. */
  function DefaultProperties(): (p: HbaseProperties)
    ensures p.quorum.None? && p.rootDir.None?
    ensures StartsWith(p.nodeParent, "/") && p.tableSanityChecks && p.idType == ASSIGN_ID
  {
    HbaseProperties(None, None, Some(DEFAULT_ZNODE_PARENT), true, ASSIGN_ID)
  }

  /** The configuration keys the bean sets. */
  const ZOOKEEPER_QUORUM := "hbase.zookeeper.quorum"
  const HBASE_DIR := "hbase.rootdir"
  const ZOOKEEPER_ZNODE_PARENT := "zookeeper.znode.parent"

  /** The IllegalArgumentExceptions hutool's `Assert` raises. */
  const QUORUM_REQUIRED := IllegalArgument("The given 'quorum' must not be null!")
  const ROOT_DIR_REQUIRED := IllegalArgument("The given 'rootDir' must not be null!")
  const NODE_PARENT_REQUIRED := IllegalArgument("The given 'nodeParent' must not be null!")
  const NODE_PARENT_NOT_ABSOLUTE := IllegalArgument("Path must start with / character")

  /** The four checks of `afterPropertiesSet`, in order; the first that fails
      is the exception. */
  function Validate(p: HbaseProperties): (o: Outcome)
    ensures IsBlank(p.quorum) ==> o == Fail(QUORUM_REQUIRED)
    ensures !IsBlank(p.quorum) && IsBlank(p.rootDir) ==> o == Fail(ROOT_DIR_REQUIRED)
    ensures !IsBlank(p.quorum) && !IsBlank(p.rootDir) && IsBlank(p.nodeParent) ==> o == Fail(NODE_PARENT_REQUIRED)
    ensures !IsBlank(p.quorum) && !IsBlank(p.rootDir) && !IsBlank(p.nodeParent) && !StartsWith(p.nodeParent, "/")
            ==> o == Fail(NODE_PARENT_NOT_ABSOLUTE)
    ensures o.Pass? ==> !IsBlank(p.quorum) && !IsBlank(p.rootDir) && StartsWith(p.nodeParent, "/")
  {
    if IsBlank(p.quorum) then Fail(QUORUM_REQUIRED)
    else if IsBlank(p.rootDir) then Fail(ROOT_DIR_REQUIRED)
    else if IsBlank(p.nodeParent) then Fail(NODE_PARENT_REQUIRED)
    else if !StartsWith(p.nodeParent, "/") then Fail(NODE_PARENT_NOT_ABSOLUTE)
    else Pass
  }

  /** A path starting with "/" is not blank, so the third check never decides
      anything the fourth would not: the properties pass exactly when quorum
      and root directory are not blank and the znode parent starts with "/". */
  lemma ValidIffSettingsUsable(p: HbaseProperties)
    ensures Validate(p).Pass? <==> !IsBlank(p.quorum) && !IsBlank(p.rootDir) && StartsWith(p.nodeParent, "/")
  {
    if StartsWith(p.nodeParent, "/") {
      assert !IsBlankChar(p.nodeParent.value[0]);
    }
  }

  /** Unbound properties are refused for the missing quorum; the settings
      the tests bind pass every check. */
  lemma DefaultsNeedQuorumTestSettingsPass()
    ensures Validate(DefaultProperties()) == Fail(QUORUM_REQUIRED)
    ensures Validate(HbaseProperties(Some("127.0.0.1:2181"), Some("hdfs://localhost:8020/hbase"), Some("/hbase"),
                                     true, ASSIGN_ID)) == Pass
  {
    assert !IsBlankChar("127.0.0.1:2181"[0]);
    assert !IsBlankChar("hdfs://localhost:8020/hbase"[0]);
    ValidIffSettingsUsable(HbaseProperties(Some("127.0.0.1:2181"), Some("hdfs://localhost:8020/hbase"), Some("/hbase"),
                                           true, ASSIGN_ID));
  }

  /** The three keys set on the created configuration. */
  function Configured(base: map<string, string>, p: HbaseProperties): (c: map<string, string>)
    requires p.quorum.Some? && p.rootDir.Some? && p.nodeParent.Some?
    ensures c.Keys == base.Keys + {ZOOKEEPER_QUORUM, HBASE_DIR, ZOOKEEPER_ZNODE_PARENT}
    ensures c[ZOOKEEPER_QUORUM] == p.quorum.value && c[HBASE_DIR] == p.rootDir.value
            && c[ZOOKEEPER_ZNODE_PARENT] == p.nodeParent.value
    ensures forall k :: k in base && k !in {ZOOKEEPER_QUORUM, HBASE_DIR, ZOOKEEPER_ZNODE_PARENT} ==> c[k] == base[k]
  {
    base[ZOOKEEPER_QUORUM := p.quorum.value][HBASE_DIR := p.rootDir.value][ZOOKEEPER_ZNODE_PARENT := p.nodeParent.value]
  }

  class HbaseFactoryBean {
    const hbaseProperties: HbaseProperties
    var configuration: Option<map<string, string>>

    constructor (p: HbaseProperties)
      ensures hbaseProperties == p && configuration.None?
    {
      hbaseProperties := p;
      configuration := None;
    }

    /** `afterPropertiesSet()`: `base` is what `HBaseConfiguration.create()`
        loads. On a failed check the stored configuration is left as it was. */
    method AfterPropertiesSet(base: map<string, string>) returns (o: Outcome)
      modifies this
      ensures o == Validate(hbaseProperties)
      ensures o.Fail? ==> configuration == old(configuration)
      ensures o.Pass? ==> configuration == Some(Configured(base, hbaseProperties))
    {
      o := Validate(hbaseProperties);
      if o.Fail? {
        return;
      }
      var c := base;
      c := c[ZOOKEEPER_QUORUM := hbaseProperties.quorum.value];
      c := c[HBASE_DIR := hbaseProperties.rootDir.value];
      c := c[ZOOKEEPER_ZNODE_PARENT := hbaseProperties.nodeParent.value];
      configuration := Some(c);
    }

    /** `getObject()`: the stored configuration, null before a successful
        `afterPropertiesSet`. */
    function GetObject(): (c: Option<map<string, string>>)
      reads this
      ensures c == configuration
    {
      configuration
    }

    /** `isSingleton()`. */
    function IsSingleton(): (b: bool)
      ensures b
    {
      true
    }
  }

  /** The bean's configuration, once `afterPropertiesSet` has passed, carries
      the three settings verbatim. */
  method ConfigureAndGet(p: HbaseProperties, base: map<string, string>) returns (c: Result<map<string, string>>)
    ensures c.Err? <==> Validate(p).Fail?
    ensures c.Err? ==> c.error == Validate(p).error
    ensures c.Ok? ==> p.quorum.Some? && p.rootDir.Some? && p.nodeParent.Some? && c.value == Configured(base, p)
  {
    var bean := new HbaseFactoryBean(p);
    var o := bean.AfterPropertiesSet(base);
    if o.Fail? {
      return Err(o.error);
    }
    var got := bean.GetObject();
    c := Ok(got.value);
  }
}
