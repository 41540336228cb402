/**
 * `OverrideRepository`: the in-memory store of overrides filled by the
 * `add*`/`set*` calls, its scans, and the strategy that answers each query
 * from the overrides first and from a baseline strategy otherwise.
 */
module Repository {
  import opened Wrappers
  import opened Keys
  import opened TypeMappings
  import opened TableFilters
  import opened MetaAttributes
  import opened OverrideStore
  import opened Names
  import Baseline

  class OverrideRepository {
    /** `MetaAttributeBinder.toRealMetaAttribute`, fixed for the repository's lifetime. */
    const realize: Realizer

    var typeMappings: Buckets
    var tableFilters: seq<TableFilter>
    var tables: seq<Table>
    /** Reverse index: referenced table to the foreign keys referencing it. */
    var foreignKeys: ForeignKeyIndex
    var typeForColumn: map<TableColumnKey, string>
    var propertyNameForColumn: map<TableColumnKey, string>
    var identifierStrategyForTable: map<TableIdentifier, string>
    /** The parameters may be null; a null entry is kept and reads as absent. */
    var identifierPropertiesForTable: map<TableIdentifier, Option<Properties>>
    var primaryKeyColumnsForTable: map<TableIdentifier, seq<string>>
    var excludedColumns: set<TableColumnKey>
    var tableToClassName: map<TableIdentifier, string>
    var schemaSelections: seq<SchemaSelection>
    var propertyNameForPrimaryKey: map<TableIdentifier, string>
    var compositeIdNameForTable: map<TableIdentifier, string>
    var foreignKeyToOneName: map<string, string>
    var foreignKeyToInverseName: map<string, string>
    var foreignKeyInverseExclude: map<string, bool>
    var foreignKeyToOneExclude: map<string, bool>
    var foreignKeyToEntityInfo: map<string, AssociationInfo>
    var foreignKeyToInverseEntityInfo: map<string, AssociationInfo>
    var tableMetaAttributes: map<TableIdentifier, MetaMap>
    var columnMetaAttributes: map<TableColumnKey, MetaMap>

    /**
     * What the mutators keep true: buckets hold only their own rules, the
     * reverse index only keys referencing its table, the two identifier
     * strategy maps have the same keys, and no skip-empty map holds an empty
     * value. Each conjunct reads only the fields its mutators write, so a
     * mutator keeps its own part and leaves the others untouched.
     */
    ghost predicate Valid()
      reads this
    {
      && TypeMappingsValid()
      && ForeignKeysValid()
      && ClassNamesValid()
      && ColumnOverridesValid()
      && IdentifierStrategyValid()
      && PrimaryKeysValid()
      && ForeignKeyNamesValid()
      && MetaAttributesValid()
    }

    ghost predicate TypeMappingsValid()
      reads this`typeMappings
    {
      WellKeyed(typeMappings)
    }

    ghost predicate ForeignKeysValid()
      reads this`foreignKeys
    {
      IndexWellKeyed(foreignKeys)
    }

    ghost predicate ClassNamesValid()
      reads this`tableToClassName
    {
      NoEmptyValues(tableToClassName)
    }

    ghost predicate ColumnOverridesValid()
      reads this`typeForColumn, this`propertyNameForColumn
    {
      NoEmptyValues(typeForColumn) && NoEmptyValues(propertyNameForColumn)
    }

    ghost predicate IdentifierStrategyValid()
      reads this`identifierPropertiesForTable, this`identifierStrategyForTable
    {
      identifierPropertiesForTable.Keys == identifierStrategyForTable.Keys
    }

    ghost predicate PrimaryKeysValid()
      reads this`propertyNameForPrimaryKey, this`compositeIdNameForTable, this`primaryKeyColumnsForTable
    {
      && NoEmptyValues(propertyNameForPrimaryKey)
      && NoEmptyValues(compositeIdNameForTable)
      && NoEmptyValues(primaryKeyColumnsForTable)
    }

    ghost predicate ForeignKeyNamesValid()
      reads this`foreignKeyToOneName, this`foreignKeyToInverseName
    {
      NoEmptyValues(foreignKeyToOneName) && NoEmptyValues(foreignKeyToInverseName)
    }

    ghost predicate MetaAttributesValid()
      reads this`tableMetaAttributes, this`columnMetaAttributes
    {
      NoEmptyMaps(tableMetaAttributes) && NoEmptyMaps(columnMetaAttributes)
    }

    constructor (realize: Realizer)
      ensures Valid() && this.realize == realize
      ensures typeMappings == map[] && tableFilters == [] && tables == [] && foreignKeys == map[]
      ensures typeForColumn == map[] && propertyNameForColumn == map[]
      ensures identifierStrategyForTable == map[] && identifierPropertiesForTable == map[]
      ensures primaryKeyColumnsForTable == map[] && excludedColumns == {} && tableToClassName == map[]
      ensures schemaSelections == [] && propertyNameForPrimaryKey == map[] && compositeIdNameForTable == map[]
      ensures foreignKeyToOneName == map[] && foreignKeyToInverseName == map[]
      ensures foreignKeyInverseExclude == map[] && foreignKeyToOneExclude == map[]
      ensures foreignKeyToEntityInfo == map[] && foreignKeyToInverseEntityInfo == map[]
      ensures tableMetaAttributes == map[] && columnMetaAttributes == map[]
    {
      this.realize := realize;
      typeMappings := map[];
      tableFilters := [];
      tables := [];
      foreignKeys := map[];
      typeForColumn := map[];
      propertyNameForColumn := map[];
      identifierStrategyForTable := map[];
      identifierPropertiesForTable := map[];
      primaryKeyColumnsForTable := map[];
      propertyNameForPrimaryKey := map[];
      tableToClassName := map[];
      excludedColumns := {};
      schemaSelections := [];
      compositeIdNameForTable := map[];
      foreignKeyToOneName := map[];
      foreignKeyToInverseName := map[];
      foreignKeyInverseExclude := map[];
      foreignKeyToOneExclude := map[];
      tableMetaAttributes := map[];
      columnMetaAttributes := map[];
      foreignKeyToEntityInfo := map[];
      foreignKeyToInverseEntityInfo := map[];
    }

    // ---------------------------------------------------------------
    // Type mappings

    /** The scan of one bucket (null when no bucket was found). */
    method ScanForMatch(col: ColumnType, l: Option<seq<SQLTypeMapping>>) returns (r: Option<string>)
      ensures l.None? ==> r.None?
      ensures l.Some? ==> r == FirstMatch(col, l.value)
    {
      if l.Some? {
        var items := l.value;
        var i := 0;
        while i < |items|
          invariant 0 <= i <= |items|
          invariant FirstMatch(col, items) == FirstMatch(col, items[i..])
        {
          var element := items[i];
          assert items[i..][1..] == items[i + 1..];
          if element.jdbcType != col.sqlType {
            return None;
          }
          if element.accepts(col) {
            return Some(element.hibernateType);
          }
          i := i + 1;
        }
      }
      return None;
    }

    /** The exact (type, length) bucket, else the UNKNOWN_LENGTH bucket, scanned. */
    method GetPreferredHibernateType(col: ColumnType) returns (r: Option<string>)
      ensures r == PreferredHibernateType(typeMappings, col)
    {
      var l := Get(typeMappings, TypeMappingKey(col.sqlType, col.length));
      if l.None? {
        l := Get(typeMappings, TypeMappingKey(col.sqlType, UNKNOWN_LENGTH));
      }
      r := ScanForMatch(col, l);
    }

    /** Appends the rule to the bucket of its own (type, length), creating it if missing. */
    method AddTypeMapping(m: SQLTypeMapping)
      requires TypeMappingsValid()
      modifies this`typeMappings
      ensures TypeMappingsValid()
      ensures typeMappings == WithMapping(old(typeMappings), m)
    {
      var key := KeyOf(m);
      var list := if key in typeMappings then typeMappings[key] else [];
      typeMappings := typeMappings[key := list + [m]];
    }

    // ---------------------------------------------------------------
    // Table filters

    method AddTableFilter(filter: TableFilter)
      modifies this`tableFilters
      ensures tableFilters == old(tableFilters) + [filter]
    {
      tableFilters := tableFilters + [filter];
    }

    /** `getPackageName`: the first package a filter gives. */
    method GetPackageName(ti: TableIdentifier) returns (r: Option<string>)
      ensures r == PackageName(tableFilters, ti)
    {
      var i := 0;
      while i < |tableFilters|
        invariant 0 <= i <= |tableFilters|
        invariant PackageName(tableFilters, ti) == PackageName(tableFilters[i..], ti)
      {
        assert tableFilters[i..][1..] == tableFilters[i + 1..];
        var value := tableFilters[i].packageFor(ti);
        if value.Some? {
          return value;
        }
        i := i + 1;
      }
      return None;
    }

    /** `excludeTable`: the first verdict decides; without one, the table is
        excluded iff an include-type filter was passed on the way. */
    method ExcludeTable(ti: TableIdentifier) returns (r: bool)
      ensures r == Excluded(tableFilters, ti)
    {
      var hasInclude := false;
      var i := 0;
      while i < |tableFilters|
        invariant 0 <= i <= |tableFilters|
        invariant FirstVerdict(tableFilters, ti) == FirstVerdict(tableFilters[i..], ti)
        invariant hasInclude <==> exists j | 0 <= j < i :: !tableFilters[j].excludeSetting
      {
        assert tableFilters[i..][1..] == tableFilters[i + 1..];
        var tf := tableFilters[i];
        var value := tf.exclude(ti);
        if value.Some? {
          return value.value;
        }
        if !tf.excludeSetting {
          hasInclude := true;
        }
        i := i + 1;
      }
      if hasInclude {
        return true;
      } else {
        return false;
      }
    }

    /** `findGeneralAttributes`: the first meta-attribute map a filter gives. */
    method FindGeneralAttributes(ti: TableIdentifier) returns (r: Option<MetaMap>)
      ensures r == GeneralAttributes(tableFilters, ti)
    {
      var i := 0;
      while i < |tableFilters|
        invariant 0 <= i <= |tableFilters|
        invariant GeneralAttributes(tableFilters, ti) == GeneralAttributes(tableFilters[i..], ti)
      {
        assert tableFilters[i..][1..] == tableFilters[i + 1..];
        var value := tableFilters[i].metaAttributesFor(ti);
        if value.Some? {
          return value;
        }
        i := i + 1;
      }
      return None;
    }

    // ---------------------------------------------------------------
    // Meta-attributes

    /** `toMetaAttributes`: each raw entry realised under its own name. */
    method ToMetaAttributes(value: MetaMap) returns (result: map<string, MetaAttribute>)
      ensures result == RealizeAll(value, realize)
    {
      result := map[];
      var remaining := value.Keys;
      while remaining != {}
        invariant remaining <= value.Keys
        invariant result.Keys == value.Keys - remaining
        invariant forall name | name in result :: result[name] == realize(name, value[name])
        decreases remaining
      {
        var name :| name in remaining;
        result := result[name := realize(name, value[name])];
        remaining := remaining - {name};
      }
    }

    method TableToMetaAttributes(ti: TableIdentifier) returns (r: Option<map<string, MetaAttribute>>)
      ensures r == TableMeta(tableMetaAttributes, tableFilters, ti, realize)
    {
      if ti in tableMetaAttributes && |tableMetaAttributes[ti]| > 0 {
        var m := ToMetaAttributes(tableMetaAttributes[ti]);
        return Some(m);
      }
      var general := FindGeneralAttributes(ti);
      if general.Some? && |general.value| > 0 {
        var m := ToMetaAttributes(general.value);
        return Some(m);
      }
      return None;
    }

    method ColumnToMetaAttributes(ti: TableIdentifier, column: string) returns (r: Option<map<string, MetaAttribute>>)
      ensures r == ColumnMeta(columnMetaAttributes, TableColumnKey(ti, column), realize)
    {
      var key := TableColumnKey(ti, column);
      if key in columnMetaAttributes && |columnMetaAttributes[key]| > 0 {
        var m := ToMetaAttributes(columnMetaAttributes[key]);
        return Some(m);
      }
      return None;
    }

    /** `addMetaAttributeInfo(Table, Map)`: ignored for a null or empty map. */
    method AddTableMetaAttributeInfo(table: Table, m: Option<MetaMap>)
      requires MetaAttributesValid()
      modifies this`tableMetaAttributes
      ensures MetaAttributesValid()
      ensures tableMetaAttributes ==
                if m.Some? && |m.value| > 0 then old(tableMetaAttributes)[table.identifier := m.value]
                else old(tableMetaAttributes)
    {
      if m.Some? && |m.value| > 0 {
        tableMetaAttributes := tableMetaAttributes[table.identifier := m.value];
      }
    }

    /** `addMetaAttributeInfo(TableIdentifier, String, MultiMap)`: ignored for a null or empty map. */
    method AddColumnMetaAttributeInfo(ti: TableIdentifier, name: string, m: Option<MetaMap>)
      requires MetaAttributesValid()
      modifies this`columnMetaAttributes
      ensures MetaAttributesValid()
      ensures columnMetaAttributes ==
                if m.Some? && |m.value| > 0 then old(columnMetaAttributes)[TableColumnKey(ti, name) := m.value]
                else old(columnMetaAttributes)
    {
      if m.Some? && |m.value| > 0 {
        columnMetaAttributes := columnMetaAttributes[TableColumnKey(ti, name) := m.value];
      }
    }

    // ---------------------------------------------------------------
    // Tables, columns and keys

    /** Indexes each foreign key of the table under its referenced table,
        records the table, and its class name when one is given. */
    method AddTable(table: Table, wantedClassName: Option<string>)
      requires ForeignKeysValid() && ClassNamesValid()
      modifies this`foreignKeys, this`tables, this`tableToClassName
      ensures ForeignKeysValid() && ClassNamesValid()
      ensures foreignKeys == Indexed(old(foreignKeys), table.foreignKeys)
      ensures tables == old(tables) + [table]
      ensures tableToClassName == PutIfNotEmpty(old(tableToClassName), table.identifier, wantedClassName)
    {
      var fks := table.foreignKeys;
      var i := 0;
      while i < |fks|
        modifies this`foreignKeys
        invariant 0 <= i <= |fks|
        invariant foreignKeys == Indexed(old(foreignKeys), fks[..i])
      {
        var fk := fks[i];
        var identifier := fk.referencedTable;
        var existing := if identifier in foreignKeys then foreignKeys[identifier] else [];
        foreignKeys := foreignKeys[identifier := existing + [fk]];
        assert fks[..i + 1][..i] == fks[..i];
        i := i + 1;
      }
      assert fks[..|fks|] == fks;
      IndexedKeepsWellKeyed(old(foreignKeys), fks);
      tables := tables + [table];
      tableToClassName := PutIfNotEmpty(tableToClassName, table.identifier, wantedClassName);
    }

    method SetTypeNameForColumn(ti: TableIdentifier, columnName: string, typeName: Option<string>)
      requires ColumnOverridesValid()
      modifies this`typeForColumn
      ensures ColumnOverridesValid()
      ensures typeForColumn == PutIfNotEmpty(old(typeForColumn), TableColumnKey(ti, columnName), typeName)
    {
      typeForColumn := PutIfNotEmpty(typeForColumn, TableColumnKey(ti, columnName), typeName);
    }

    method SetExcludedColumn(ti: TableIdentifier, columnName: string)
      modifies this`excludedColumns
      ensures excludedColumns == old(excludedColumns) + {TableColumnKey(ti, columnName)}
    {
      excludedColumns := excludedColumns + {TableColumnKey(ti, columnName)};
    }

    method SetPropertyNameForColumn(ti: TableIdentifier, columnName: string, property: Option<string>)
      requires ColumnOverridesValid()
      modifies this`propertyNameForColumn
      ensures ColumnOverridesValid()
      ensures propertyNameForColumn == PutIfNotEmpty(old(propertyNameForColumn), TableColumnKey(ti, columnName), property)
    {
      propertyNameForColumn := PutIfNotEmpty(propertyNameForColumn, TableColumnKey(ti, columnName), property);
    }

    /** Records strategy and parameters together, and only for a non-null
        strategy class (which may be empty; the parameters may be null). */
    method AddTableIdentifierStrategy(table: Table, identifierClass: Option<string>, params: Option<Properties>)
      requires IdentifierStrategyValid()
      modifies this`identifierStrategyForTable, this`identifierPropertiesForTable
      ensures IdentifierStrategyValid()
      ensures identifierStrategyForTable == PutIfPresent(old(identifierStrategyForTable), table.identifier, identifierClass)
      ensures identifierPropertiesForTable ==
                if identifierClass.Some? then old(identifierPropertiesForTable)[table.identifier := params]
                else old(identifierPropertiesForTable)
    {
      if identifierClass.Some? {
        var tid := table.identifier;
        identifierStrategyForTable := identifierStrategyForTable[tid := identifierClass.value];
        identifierPropertiesForTable := identifierPropertiesForTable[tid := params];
      }
    }

    /** Each of the three fields is written on its own, and only when non-empty. */
    method AddPrimaryKeyNamesForTable(table: Table, boundColumnNames: Option<seq<string>>,
                                      propertyName: Option<string>, compositeIdName: Option<string>)
      requires PrimaryKeysValid()
      modifies this`primaryKeyColumnsForTable, this`propertyNameForPrimaryKey, this`compositeIdNameForTable
      ensures PrimaryKeysValid()
      ensures primaryKeyColumnsForTable ==
                if boundColumnNames.Some? && |boundColumnNames.value| > 0
                then old(primaryKeyColumnsForTable)[table.identifier := boundColumnNames.value]
                else old(primaryKeyColumnsForTable)
      ensures propertyNameForPrimaryKey == PutIfNotEmpty(old(propertyNameForPrimaryKey), table.identifier, propertyName)
      ensures compositeIdNameForTable == PutIfNotEmpty(old(compositeIdNameForTable), table.identifier, compositeIdName)
    {
      var ti := table.identifier;
      if boundColumnNames.Some? && |boundColumnNames.value| > 0 {
        primaryKeyColumnsForTable := primaryKeyColumnsForTable[ti := boundColumnNames.value];
      }
      propertyNameForPrimaryKey := PutIfNotEmpty(propertyNameForPrimaryKey, ti, propertyName);
      compositeIdNameForTable := PutIfNotEmpty(compositeIdNameForTable, ti, compositeIdName);
    }

    method AddSchemaSelection(selection: SchemaSelection)
      modifies this`schemaSelections
      ensures schemaSelections == old(schemaSelections) + [selection]
    {
      schemaSelections := schemaSelections + [selection];
    }

    /** Everything recorded for one constraint name. */
    function ForeignKeyInfoFor(constraintName: string): ForeignKeyInfo
      reads this
    {
      InfoAt(foreignKeyToOneName, foreignKeyToOneExclude, foreignKeyToInverseName, foreignKeyInverseExclude,
             foreignKeyToEntityInfo, foreignKeyToInverseEntityInfo, constraintName)
    }

    /** `addForeignKeyInfo`: a sparse merge into the constraint's bundle;
        other constraint names are untouched. */
    method AddForeignKeyInfo(constraintName: string, toOneProperty: Option<string>, excludeToOne: Option<bool>,
                             inverseProperty: Option<string>, excludeInverse: Option<bool>,
                             associationInfo: Option<AssociationInfo>, inverseAssociationInfo: Option<AssociationInfo>)
      requires ForeignKeyNamesValid()
      modifies this`foreignKeyToOneName, this`foreignKeyToInverseName, this`foreignKeyInverseExclude,
               this`foreignKeyToOneExclude, this`foreignKeyToEntityInfo, this`foreignKeyToInverseEntityInfo
      ensures ForeignKeyNamesValid()
      ensures foreignKeyToOneName == PutIfNotEmpty(old(foreignKeyToOneName), constraintName, toOneProperty)
      ensures foreignKeyToInverseName == PutIfNotEmpty(old(foreignKeyToInverseName), constraintName, inverseProperty)
      ensures foreignKeyInverseExclude == PutIfPresent(old(foreignKeyInverseExclude), constraintName, excludeInverse)
      ensures foreignKeyToOneExclude == PutIfPresent(old(foreignKeyToOneExclude), constraintName, excludeToOne)
      ensures foreignKeyToEntityInfo == PutIfPresent(old(foreignKeyToEntityInfo), constraintName, associationInfo)
      ensures foreignKeyToInverseEntityInfo ==
                PutIfPresent(old(foreignKeyToInverseEntityInfo), constraintName, inverseAssociationInfo)
      ensures ForeignKeyInfoFor(constraintName) ==
                Merge(old(ForeignKeyInfoFor(constraintName)),
                      ForeignKeyInfo(toOneProperty, excludeToOne, inverseProperty, excludeInverse,
                                     associationInfo, inverseAssociationInfo))
      ensures forall c | c != constraintName :: ForeignKeyInfoFor(c) == old(ForeignKeyInfoFor(c))
    {
      var update := ForeignKeyInfo(toOneProperty, excludeToOne, inverseProperty, excludeInverse,
                                   associationInfo, inverseAssociationInfo);
      var toOneName := PutIfNotEmpty(foreignKeyToOneName, constraintName, toOneProperty);
      var inverseName := PutIfNotEmpty(foreignKeyToInverseName, constraintName, inverseProperty);
      var inverseExclude := PutIfPresent(foreignKeyInverseExclude, constraintName, excludeInverse);
      var toOneExclude := PutIfPresent(foreignKeyToOneExclude, constraintName, excludeToOne);
      var entityInfo := PutIfPresent(foreignKeyToEntityInfo, constraintName, associationInfo);
      var inverseEntityInfo := PutIfPresent(foreignKeyToInverseEntityInfo, constraintName, inverseAssociationInfo);
      forall c
        ensures InfoAt(toOneName, toOneExclude, inverseName, inverseExclude, entityInfo, inverseEntityInfo, c)
                == if c == constraintName then Merge(ForeignKeyInfoFor(c), update) else ForeignKeyInfoFor(c)
      {
        SparseWriteMerges(foreignKeyToOneName, foreignKeyToOneExclude, foreignKeyToInverseName, foreignKeyInverseExclude,
                          foreignKeyToEntityInfo, foreignKeyToInverseEntityInfo, constraintName, update, c);
      }
      foreignKeyToOneName, foreignKeyToInverseName, foreignKeyInverseExclude,
        foreignKeyToOneExclude, foreignKeyToEntityInfo, foreignKeyToInverseEntityInfo :=
        toOneName, inverseName, inverseExclude, toOneExclude, entityInfo, inverseEntityInfo;
    }

    /** The decorating strategy over `delegate`; it reads this repository live. */
    method GetReverseEngineeringStrategy(delegate: Baseline.Strategy) returns (s: DelegatingStrategy)
      ensures fresh(s) && s.repo == this && s.delegate == delegate
    {
      s := new DelegatingStrategy(this, delegate);
    }
  }

  /** The column-level type override, consulted only when both table and
      column are non-null. */
  function ExplicitColumnType(typeForColumn: map<TableColumnKey, string>, table: Option<TableIdentifier>,
                              columnName: Option<string>): Option<string>
  {
    if table.Some? && columnName.Some? then Get(typeForColumn, TableColumnKey(table.value, columnName.value))
    else None
  }

  /**
   * `tableToClassName`'s rule over the override, the first filter package
   * and the baseline's name: a dotted override is kept, a simple one is
   * qualified by the package if there is one; without an override the
   * baseline's simple name is qualified by the package if there is one.
   */
  function ClassName(override: Option<string>, package: Option<string>, baseline: Option<string>): Option<string> {
    if override.Some? then
      if '.' in override.value then override
      else if package.None? then override
      else Some(Qualify(package.value, override.value))
    else if package.None? then baseline
    else if baseline.None? then None
    else Some(Qualify(package.value, Unqualify(baseline.value)))
  }

  /** What `tableToClassName` promises: an override always keeps its own
      simple name; a package, when found, becomes the qualifier of any name
      that was not already qualified; the baseline is used only without an
      override, and then keeps its simple name. */
  lemma ClassNameQualification(override: Option<string>, package: Option<string>, baseline: Option<string>)
    ensures var r := ClassName(override, package, baseline);
      && (override.Some? ==> r.Some? && Unqualify(r.value) == Unqualify(override.value))
      && (override.Some? && ('.' in override.value || package.None?) ==> r == override)
      && (override.Some? && '.' !in override.value && package.Some? ==>
            r.value == Qualify(package.value, override.value))
      && (override.None? && package.Some? && baseline.Some? ==>
            r.Some? && Unqualify(r.value) == Unqualify(baseline.value)
            && r.value == Qualify(package.value, Unqualify(r.value)))
      && (override.None? && (package.None? || baseline.None?) ==> r == baseline)
  {
    if override.Some? && '.' !in override.value && package.Some? {
      UnqualifyQualify(package.value, override.value);
    }
    if override.None? && package.Some? && baseline.Some? {
      UnqualifyQualify(package.value, Unqualify(baseline.value));
    }
  }

  /**
   * The strategy `getReverseEngineeringStrategy` returns: every query is
   * answered from the repository's overrides when an entry is present and
   * by the baseline `delegate` otherwise.
   */
  class DelegatingStrategy {
    const repo: OverrideRepository
    const delegate: Baseline.Strategy

    constructor (repo: OverrideRepository, delegate: Baseline.Strategy)
      ensures this.repo == repo && this.delegate == delegate
    {
      this.repo := repo;
      this.delegate := delegate;
    }

    method ExcludeTable(ti: TableIdentifier) returns (r: bool)
      ensures r == Excluded(repo.tableFilters, ti)
    {
      r := repo.ExcludeTable(ti);
    }

    method TableToMetaAttributes(ti: TableIdentifier) returns (r: Option<map<string, MetaAttribute>>)
      ensures r == TableMeta(repo.tableMetaAttributes, repo.tableFilters, ti, repo.realize)
    {
      r := repo.TableToMetaAttributes(ti);
    }

    method ColumnToMetaAttributes(ti: TableIdentifier, column: string) returns (r: Option<map<string, MetaAttribute>>)
      ensures r == ColumnMeta(repo.columnMetaAttributes, TableColumnKey(ti, column), repo.realize)
    {
      r := repo.ColumnToMetaAttributes(ti, column);
    }

    /** A column is excluded iff it was marked; the baseline is never asked. */
    method ExcludeColumn(ti: TableIdentifier, columnName: string) returns (r: bool)
      ensures r <==> TableColumnKey(ti, columnName) in repo.excludedColumns
    {
      r := TableColumnKey(ti, columnName) in repo.excludedColumns;
    }

    method TableToCompositeIdName(ti: TableIdentifier) returns (r: string)
      requires repo.PrimaryKeysValid()
      ensures ti in repo.compositeIdNameForTable ==> r == repo.compositeIdNameForTable[ti] && |r| > 0
      ensures ti !in repo.compositeIdNameForTable ==> r == delegate.tableToCompositeIdName(ti)
    {
      if ti in repo.compositeIdNameForTable {
        r := repo.compositeIdNameForTable[ti];
      } else {
        r := delegate.tableToCompositeIdName(ti);
      }
    }

    /** The added selections, or the baseline's when none were added. */
    method GetSchemaSelections() returns (r: seq<SchemaSelection>)
      ensures |repo.schemaSelections| > 0 ==> r == repo.schemaSelections
      ensures |repo.schemaSelections| == 0 ==> r == delegate.schemaSelections
    {
      if |repo.schemaSelections| == 0 {
        r := delegate.schemaSelections;
      } else {
        r := repo.schemaSelections;
      }
    }

    /** Column override first, then the type-mapping rules, then the baseline. */
    method ColumnToHibernateTypeName(table: Option<TableIdentifier>, columnName: Option<string>,
                                     col: ColumnType, generatedIdentifier: bool) returns (r: string)
      ensures var explicit := ExplicitColumnType(repo.typeForColumn, table, columnName);
              explicit.Some? ==> r == explicit.value
      ensures var explicit := ExplicitColumnType(repo.typeForColumn, table, columnName);
              var mapped := PreferredHibernateType(repo.typeMappings, col);
              explicit.None? && mapped.Some? ==> r == mapped.value
      ensures var explicit := ExplicitColumnType(repo.typeForColumn, table, columnName);
              var mapped := PreferredHibernateType(repo.typeMappings, col);
              explicit.None? && mapped.None? ==>
                r == delegate.columnToHibernateTypeName(table, columnName, col, generatedIdentifier)
    {
      if table.Some? && columnName.Some? {
        var key := TableColumnKey(table.value, columnName.value);
        if key in repo.typeForColumn {
          return repo.typeForColumn[key];
        }
      }
      var result := repo.GetPreferredHibernateType(col);
      if result.None? {
        r := delegate.columnToHibernateTypeName(table, columnName, col, generatedIdentifier);
      } else {
        r := result.value;
      }
    }

    method TableToClassName(ti: TableIdentifier) returns (r: Option<string>)
      ensures r == ClassName(Get(repo.tableToClassName, ti), PackageName(repo.tableFilters, ti),
                             delegate.tableToClassName(ti))
    {
      if ti in repo.tableToClassName {
        var className := repo.tableToClassName[ti];
        if '.' in className {
          return Some(className);
        } else {
          var packageName := repo.GetPackageName(ti);
          if packageName.None? {
            return Some(className);
          } else {
            return Some(Qualify(packageName.value, className));
          }
        }
      }
      var packageName := repo.GetPackageName(ti);
      if packageName.None? {
        r := delegate.tableToClassName(ti);
      } else {
        var s := delegate.tableToClassName(ti);
        if s.None? {
          return None;
        }
        r := Some(Qualify(packageName.value, Unqualify(s.value)));
      }
    }

    /** The repository's reverse-index list (all referencing this table),
        or the baseline's when the table has none. */
    method GetForeignKeys(referencedTable: TableIdentifier) returns (r: seq<ForeignKey>)
      requires repo.ForeignKeysValid()
      ensures referencedTable in repo.foreignKeys ==>
                r == repo.foreignKeys[referencedTable] && |r| > 0
                && forall i | 0 <= i < |r| :: r[i].referencedTable == referencedTable
      ensures referencedTable !in repo.foreignKeys ==> r == delegate.foreignKeys(referencedTable)
    {
      if referencedTable in repo.foreignKeys {
        r := repo.foreignKeys[referencedTable];
      } else {
        r := delegate.foreignKeys(referencedTable);
      }
    }

    method ColumnToPropertyName(ti: TableIdentifier, column: string) returns (r: string)
      requires repo.ColumnOverridesValid()
      ensures var key := TableColumnKey(ti, column);
              key in repo.propertyNameForColumn ==> r == repo.propertyNameForColumn[key] && |r| > 0
      ensures TableColumnKey(ti, column) !in repo.propertyNameForColumn ==> r == delegate.columnToPropertyName(ti, column)
    {
      var key := TableColumnKey(ti, column);
      if key in repo.propertyNameForColumn {
        r := repo.propertyNameForColumn[key];
      } else {
        r := delegate.columnToPropertyName(ti, column);
      }
    }

    method TableToIdentifierPropertyName(ti: TableIdentifier) returns (r: string)
      requires repo.PrimaryKeysValid()
      ensures ti in repo.propertyNameForPrimaryKey ==> r == repo.propertyNameForPrimaryKey[ti] && |r| > 0
      ensures ti !in repo.propertyNameForPrimaryKey ==> r == delegate.tableToIdentifierPropertyName(ti)
    {
      if ti in repo.propertyNameForPrimaryKey {
        r := repo.propertyNameForPrimaryKey[ti];
      } else {
        r := delegate.tableToIdentifierPropertyName(ti);
      }
    }

    method GetTableIdentifierStrategyName(ti: TableIdentifier) returns (r: string)
      ensures ti in repo.identifierStrategyForTable ==> r == repo.identifierStrategyForTable[ti]
      ensures ti !in repo.identifierStrategyForTable ==> r == delegate.tableIdentifierStrategyName(ti)
    {
      if ti in repo.identifierStrategyForTable {
        r := repo.identifierStrategyForTable[ti];
      } else {
        r := delegate.tableIdentifierStrategyName(ti);
      }
    }

    /** Parameters recorded as null read as absent and are delegated. */
    method GetTableIdentifierProperties(ti: TableIdentifier) returns (r: Properties)
      ensures ti in repo.identifierPropertiesForTable && repo.identifierPropertiesForTable[ti].Some? ==>
                r == repo.identifierPropertiesForTable[ti].value
      ensures (ti !in repo.identifierPropertiesForTable || repo.identifierPropertiesForTable[ti].None?) ==>
                r == delegate.tableIdentifierProperties(ti)
    {
      var result := if ti in repo.identifierPropertiesForTable then repo.identifierPropertiesForTable[ti] else None;
      if result.None? {
        r := delegate.tableIdentifierProperties(ti);
      } else {
        r := result.value;
      }
    }

    method GetPrimaryKeyColumnNames(ti: TableIdentifier) returns (r: seq<string>)
      requires repo.PrimaryKeysValid()
      ensures ti in repo.primaryKeyColumnsForTable ==> r == repo.primaryKeyColumnsForTable[ti] && |r| > 0
      ensures ti !in repo.primaryKeyColumnsForTable ==> r == delegate.primaryKeyColumnNames(ti)
    {
      if ti in repo.primaryKeyColumnsForTable {
        r := repo.primaryKeyColumnsForTable[ti];
      } else {
        r := delegate.primaryKeyColumnNames(ti);
      }
    }

    method ForeignKeyToEntityName(ref: Baseline.ForeignKeyReference, uniqueReference: bool) returns (r: string)
      requires repo.ForeignKeyNamesValid()
      ensures ref.keyName in repo.foreignKeyToOneName ==> r == repo.foreignKeyToOneName[ref.keyName] && |r| > 0
      ensures ref.keyName !in repo.foreignKeyToOneName ==> r == delegate.foreignKeyToEntityName(ref, uniqueReference)
    {
      if ref.keyName in repo.foreignKeyToOneName {
        r := repo.foreignKeyToOneName[ref.keyName];
      } else {
        r := delegate.foreignKeyToEntityName(ref, uniqueReference);
      }
    }

    method ForeignKeyToInverseEntityName(ref: Baseline.ForeignKeyReference, uniqueReference: bool) returns (r: string)
      requires repo.ForeignKeyNamesValid()
      ensures ref.keyName in repo.foreignKeyToInverseName ==> r == repo.foreignKeyToInverseName[ref.keyName] && |r| > 0
      ensures ref.keyName !in repo.foreignKeyToInverseName ==>
                r == delegate.foreignKeyToInverseEntityName(ref, uniqueReference)
    {
      if ref.keyName in repo.foreignKeyToInverseName {
        r := repo.foreignKeyToInverseName[ref.keyName];
      } else {
        r := delegate.foreignKeyToInverseEntityName(ref, uniqueReference);
      }
    }

    /** The collection name shares its override with the inverse entity name. */
    method ForeignKeyToCollectionName(ref: Baseline.ForeignKeyReference, uniqueReference: bool) returns (r: string)
      requires repo.ForeignKeyNamesValid()
      ensures ref.keyName in repo.foreignKeyToInverseName ==> r == repo.foreignKeyToInverseName[ref.keyName] && |r| > 0
      ensures ref.keyName !in repo.foreignKeyToInverseName ==>
                r == delegate.foreignKeyToCollectionName(ref, uniqueReference)
    {
      if ref.keyName in repo.foreignKeyToInverseName {
        r := repo.foreignKeyToInverseName[ref.keyName];
      } else {
        r := delegate.foreignKeyToCollectionName(ref, uniqueReference);
      }
    }

    method ExcludeForeignKeyAsCollection(ref: Baseline.ForeignKeyReference) returns (r: bool)
      ensures ref.keyName in repo.foreignKeyInverseExclude ==> r == repo.foreignKeyInverseExclude[ref.keyName]
      ensures ref.keyName !in repo.foreignKeyInverseExclude ==> r == delegate.excludeForeignKeyAsCollection(ref)
    {
      if ref.keyName in repo.foreignKeyInverseExclude {
        r := repo.foreignKeyInverseExclude[ref.keyName];
      } else {
        r := delegate.excludeForeignKeyAsCollection(ref);
      }
    }

    method ExcludeForeignKeyAsManyToOne(ref: Baseline.ForeignKeyReference) returns (r: bool)
      ensures ref.keyName in repo.foreignKeyToOneExclude ==> r == repo.foreignKeyToOneExclude[ref.keyName]
      ensures ref.keyName !in repo.foreignKeyToOneExclude ==> r == delegate.excludeForeignKeyAsManyToOne(ref)
    {
      if ref.keyName in repo.foreignKeyToOneExclude {
        r := repo.foreignKeyToOneExclude[ref.keyName];
      } else {
        r := delegate.excludeForeignKeyAsManyToOne(ref);
      }
    }

    method ForeignKeyToInverseAssociationInfo(fk: ForeignKey) returns (r: AssociationInfo)
      ensures fk.name in repo.foreignKeyToInverseEntityInfo ==> r == repo.foreignKeyToInverseEntityInfo[fk.name]
      ensures fk.name !in repo.foreignKeyToInverseEntityInfo ==> r == delegate.foreignKeyToInverseAssociationInfo(fk)
    {
      if fk.name in repo.foreignKeyToInverseEntityInfo {
        r := repo.foreignKeyToInverseEntityInfo[fk.name];
      } else {
        r := delegate.foreignKeyToInverseAssociationInfo(fk);
      }
    }

    method ForeignKeyToAssociationInfo(fk: ForeignKey) returns (r: AssociationInfo)
      ensures fk.name in repo.foreignKeyToEntityInfo ==> r == repo.foreignKeyToEntityInfo[fk.name]
      ensures fk.name !in repo.foreignKeyToEntityInfo ==> r == delegate.foreignKeyToAssociationInfo(fk)
    {
      if fk.name in repo.foreignKeyToEntityInfo {
        r := repo.foreignKeyToEntityInfo[fk.name];
      } else {
        r := delegate.foreignKeyToAssociationInfo(fk);
      }
    }
  }
}
