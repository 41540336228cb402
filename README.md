# OverrideRepository, modelled in Dafny

This project models `OverrideRepository` from Hibernate Tools' reverse-engineering
layer. The repository is an in-memory store of user overrides. The `add*`/`set*`
calls fill it, and it answers reverse-engineering queries in front of a
baseline strategy. Three parts are modelled:

- **The mutators.** They append to ordered lists, write keyed maps and add to
  a set, and they skip empty or null payloads. `addTable` builds a reverse
  index of foreign keys by referenced table. `addForeignKeyInfo` merges sparse
  fields into six per-constraint maps.
- **The resolution rules.**
  - Type mappings: the exact `(type, length)` bucket is used, else the
    `UNKNOWN_LENGTH` bucket. The scan inside a bucket is first-match-wins and
    stops at a rule with another type code.
  - The table-filter chain answers the first-non-null queries for package,
    verdict and general meta-attributes. When no filter gives a verdict, a
    table is excluded iff the chain holds an include-type filter.
  - Meta-attributes: a table's or column's own map wins; a table falls back
    to the filter chain.
- **The decorator** (`getReverseEngineeringStrategy`). Each query is answered
  from an override map when it holds an entry, and by the baseline otherwise.

Modules, one file each:

| file | module | models |
|---|---|---|
| `wrappers.dfy` | `Wrappers` | `Option` (Java's null), `Get` (`Map.get`) and `ListAt` (a list-valued map's entry, empty when missing) |
| `keys.dfy` | `Keys` | `TableIdentifier`, `TableColumnKey`, `ForeignKey`, `Table` and the other values the repository stores |
| `type_mappings.dfy` | `TypeMappings` | the type-mapping buckets and the bucket scan |
| `table_filters.dfy` | `TableFilters` | the filter chain's first-answer queries and the exclusion rule |
| `meta_attributes.dfy` | `MetaAttributes` | specific-or-general meta-attribute resolution |
| `names.dfy` | `Names` | dotted class names: qualify and unqualify |
| `override_store.dfy` | `OverrideStore` | skip-empty writes, the foreign-key info bundle, and the reverse foreign-key index |
| `baseline.dfy` | `Baseline` | the baseline strategy, as a record of given functions |
| `repository.dfy` | `Repository` | the class `OverrideRepository` and the decorator class `DelegatingStrategy` |

The Java object becomes the class `OverrideRepository`, which has one field per
Java field. Each mutator is a method with a field-granular `modifies` clause.
Each query that loops in the source is a method with a `while` loop. That
method is proved equal to a recursive function, and the lemmas are stated
about that function. `Valid()` is the repository's invariant and has one part
per group of fields:

- buckets hold only rules of their own type code;
- every reverse-index list is non-empty and references its own table;
- the two identifier-strategy maps have the same keys;
- no skip-empty map holds an empty value.

Each part reads only the fields its mutators write. So each mutator keeps
its own part, and its frame leaves the other parts unchanged. A decorator
query that promises a non-empty override requires only the part of `Valid()`
covering the map it reads.

## Model

| member | source | states |
|---|---|---|
| TypeMappings.WithMapping | src/java/org/hibernate/cfg/reveng/OverrideRepository.java:190-199 | `addTypeMapping` puts the rule at the end of its own `(type, length)` bucket and creates the bucket if it is missing. Earlier rules keep their order, every other bucket is unchanged, and buckets stay well-keyed. |
| TypeMappings.FirstMatchSpec | src/java/org/hibernate/cfg/reveng/OverrideRepository.java:176-188 | The scan answers iff some rule accepts the column and every rule before it has the column's type code and rejects it. It then answers with that rule's Hibernate type. Both directions are proved. |
| TypeMappings.MismatchStopsScan | src/java/org/hibernate/cfg/reveng/OverrideRepository.java:176-188 | A rule with another type code, reached before any accepting rule, ends the scan with null, whatever the later rules accept. |
| TypeMappings.UniformBucketScan | src/java/org/hibernate/cfg/reveng/OverrideRepository.java:176-188 | In a bucket whose rules all have the column's type code, the scan answers iff some rule accepts. |
| TypeMappings.AppendKeepsAnswer | src/java/org/hibernate/cfg/reveng/OverrideRepository.java:176-199 | Rules appended later never displace an answer the bucket already gives, because insertion order decides. |
| TypeMappings.AppendedRuleReached | src/java/org/hibernate/cfg/reveng/OverrideRepository.java:176-199 | An appended accepting rule answers when no earlier rule of the same code accepts. |
| TypeMappings.BucketRulesHaveItsType | src/java/org/hibernate/cfg/reveng/OverrideRepository.java:190-199 | In well-keyed buckets, every rule of bucket `(t, n)` has type code `t`. |
| TypeMappings.ExactBucketShadowsUnknown | src/java/org/hibernate/cfg/reveng/OverrideRepository.java:167-174 | When an exact `(type, length)` bucket exists, the lookup answers iff a rule of that bucket accepts, and its answer is that bucket's scan. It never falls back to `UNKNOWN_LENGTH`. |
| TypeMappings.UnknownLengthFallback | src/java/org/hibernate/cfg/reveng/OverrideRepository.java:167-174 | Without an exact bucket, the lookup answers iff a rule of the `(type, UNKNOWN_LENGTH)` bucket accepts, and its answer is that bucket's scan. With neither bucket there is no answer. |
| Repository.OverrideRepository.ScanForMatch | src/java/org/hibernate/cfg/reveng/OverrideRepository.java:176-188 | The loop returns what the scan function gives, and null for a null list. |
| Repository.OverrideRepository.GetPreferredHibernateType | src/java/org/hibernate/cfg/reveng/OverrideRepository.java:167-174 | Returns the scan of the exact bucket if there is one, else the scan of the `UNKNOWN_LENGTH` bucket. |
| Repository.OverrideRepository.AddTypeMapping | src/java/org/hibernate/cfg/reveng/OverrideRepository.java:190-199 | The new buckets are `WithMapping` of the old ones, and the buckets stay well-keyed. |
| TableFilters.FirstAnswerSpec | src/java/org/hibernate/cfg/reveng/OverrideRepository.java:234-244 | A first-non-null chain query is null iff no filter answers. Otherwise it is the answer of the first filter that does. |
| TableFilters.FirstAnswerAppend | src/java/org/hibernate/cfg/reveng/OverrideRepository.java:269-271 | A filter added at the end changes a chain answer only when no earlier filter answered. |
| TableFilters.ExcludedSpec | src/java/org/hibernate/cfg/reveng/OverrideRepository.java:246-267 | A table is excluded iff the first filter with a verdict says true, or no filter has a verdict and some filter is include-type. |
| TableFilters.EmptyChainIncludesAll | src/java/org/hibernate/cfg/reveng/OverrideRepository.java:264-266 | The empty chain excludes no table. |
| TableFilters.ExcludedAfterAppend | src/java/org/hibernate/cfg/reveng/OverrideRepository.java:246-271 | After a filter is added, a decided table keeps its verdict. An undecided one takes the new filter's verdict. Otherwise it is excluded iff the longer chain holds an include-type filter. |
| TableFilters.IncludeFilterNarrowsUniverse | src/java/org/hibernate/cfg/reveng/OverrideRepository.java:246-267 | An include-type filter with no verdict for a table excludes that table, which the other filter alone includes. |
| Repository.OverrideRepository.GetPackageName | src/java/org/hibernate/cfg/reveng/OverrideRepository.java:234-244 | The loop returns the chain's first package. |
| Repository.OverrideRepository.ExcludeTable | src/java/org/hibernate/cfg/reveng/OverrideRepository.java:246-267 | The loop, with its `hasInclude` flag, returns the exclusion rule `Excluded`. |
| Repository.OverrideRepository.FindGeneralAttributes | src/java/org/hibernate/cfg/reveng/OverrideRepository.java:528-538 | The loop returns the chain's first general meta-attribute map. |
| Repository.OverrideRepository.AddTableFilter | src/java/org/hibernate/cfg/reveng/OverrideRepository.java:269-271 | The filter is appended at the end of the chain. |
| MetaAttributes.RealizeAll | src/java/org/hibernate/cfg/reveng/OverrideRepository.java:540-553 | The result has exactly the raw map's attribute names. |
| MetaAttributes.TableMeta | src/java/org/hibernate/cfg/reveng/OverrideRepository.java:501-513 | A non-null result is never empty. The table's own non-empty map wins over the filters. |
| MetaAttributes.ColumnMeta | src/java/org/hibernate/cfg/reveng/OverrideRepository.java:491-498 | The result is non-null iff the column has a non-empty map of its own, and then has that map's names. There is no fallback. |
| MetaAttributes.GeneralFallback | src/java/org/hibernate/cfg/reveng/OverrideRepository.java:501-538 | Without a specific map, the first filter that gives a map decides: its map if it is non-empty, else null, even when later filters hold attributes. |
| MetaAttributes.NoAttributesAnywhere | src/java/org/hibernate/cfg/reveng/OverrideRepository.java:501-513 | With neither a specific nor a general map, the answer is null. |
| Repository.OverrideRepository.ToMetaAttributes | src/java/org/hibernate/cfg/reveng/OverrideRepository.java:540-553 | The loop over the entries builds `RealizeAll` of the raw map. |
| Repository.OverrideRepository.TableToMetaAttributes | src/java/org/hibernate/cfg/reveng/OverrideRepository.java:501-513 | Returns `TableMeta` of the stored maps and the filter chain. |
| Repository.OverrideRepository.ColumnToMetaAttributes | src/java/org/hibernate/cfg/reveng/OverrideRepository.java:491-498 | Returns `ColumnMeta` of the stored column maps. |
| Repository.OverrideRepository.AddTableMetaAttributeInfo | src/java/org/hibernate/cfg/reveng/OverrideRepository.java:694-699 | Stores the map under the table only when it is non-null and non-empty. Otherwise nothing changes. No stored map is empty. |
| Repository.OverrideRepository.AddColumnMetaAttributeInfo | src/java/org/hibernate/cfg/reveng/OverrideRepository.java:701-706 | The same rule, keyed by `(table, column)`. |
| Names.Qualify | src/java/org/hibernate/cfg/reveng/OverrideRepository.java:347 | The prefix and the name, joined by one dot at position `|prefix|`. |
| Names.LastDot | src/java/org/hibernate/cfg/reveng/OverrideRepository.java:359 | Null iff the string has no dot. Otherwise it is the position of a dot with none after it. |
| Names.Unqualify | src/java/org/hibernate/cfg/reveng/OverrideRepository.java:359 | The result has no dot, and a name without a dot is returned unchanged. |
| Names.UnqualifyQualify | src/java/org/hibernate/cfg/reveng/OverrideRepository.java:359 | Unqualifying a qualified simple name gives that name back. |
| Repository.ClassNameQualification | src/java/org/hibernate/cfg/reveng/OverrideRepository.java:336-361 | An override keeps its simple name. A dotted override, or any override when no filter gives a package, is returned unchanged. A simple override is qualified by the package when there is one. Without an override, a package qualifies the baseline's simple name. Otherwise the baseline's answer is returned. |
| Repository.DelegatingStrategy.TableToClassName | src/java/org/hibernate/cfg/reveng/OverrideRepository.java:336-361 | Returns `ClassName` of the override, the chain's first package and the baseline's name. `ClassNameQualification` gives that rule's properties. |
| OverrideStore.PutIfNotEmpty | src/java/org/hibernate/cfg/reveng/OverrideRepository.java:618-622 | A skip-empty write never stores an empty value. |
| OverrideStore.EmptyWriteKeepsEarlier | src/java/org/hibernate/cfg/reveng/OverrideRepository.java:628-632 | A later empty or null write leaves an earlier value in place. |
| OverrideStore.Merge | src/java/org/hibernate/cfg/reveng/OverrideRepository.java:672-692 | An update that supplies no field leaves the constraint's bundle unchanged. |
| OverrideStore.DisjointUpdatesCommute | src/java/org/hibernate/cfg/reveng/OverrideRepository.java:672-692 | Two updates supplying different fields give the same bundle in either order, and every field either update supplies survives the other. |
| OverrideStore.SparseWriteMerges | src/java/org/hibernate/cfg/reveng/OverrideRepository.java:672-692 | The six guarded puts merge the update into that constraint's bundle and leave every other constraint's bundle as it was. |
| OverrideStore.Referencing | src/java/org/hibernate/cfg/reveng/OverrideRepository.java:559-569 | The keys that reference a table, in order. The list is empty iff none does. |
| OverrideStore.ReferencingAppend | src/java/org/hibernate/cfg/reveng/OverrideRepository.java:559-569 | One more key extends a table's referencing list iff the key references that table. |
| OverrideStore.IndexedLookup | src/java/org/hibernate/cfg/reveng/OverrideRepository.java:559-569 | After `addTable`'s loop, each table's list is its old list followed by the table's new referencing keys, in order. |
| OverrideStore.IndexedKeys | src/java/org/hibernate/cfg/reveng/OverrideRepository.java:559-569 | A table gains an index entry iff some new key references it. |
| OverrideStore.IndexedKeepsWellKeyed | src/java/org/hibernate/cfg/reveng/OverrideRepository.java:559-569 | The index stays well-keyed: lists are non-empty and hold only keys referencing their table. |
| Repository.OverrideRepository.constructor | src/java/org/hibernate/cfg/reveng/OverrideRepository.java:78-103 | Every list, map and set starts empty, and the invariant holds. |
| Repository.OverrideRepository.AddTable | src/java/org/hibernate/cfg/reveng/OverrideRepository.java:559-577 | The index becomes `Indexed` of the old index and the table's keys. The table is appended. The class name is recorded only when it is non-empty. |
| Repository.OverrideRepository.SetTypeNameForColumn | src/java/org/hibernate/cfg/reveng/OverrideRepository.java:618-622 | Writes the type under `(table, column)` only when it is non-empty. |
| Repository.OverrideRepository.SetExcludedColumn | src/java/org/hibernate/cfg/reveng/OverrideRepository.java:624-626 | Adds `(table, column)` to the excluded set. |
| Repository.OverrideRepository.SetPropertyNameForColumn | src/java/org/hibernate/cfg/reveng/OverrideRepository.java:628-632 | Writes the property under `(table, column)` only when it is non-empty. |
| Repository.OverrideRepository.AddTableIdentifierStrategy | src/java/org/hibernate/cfg/reveng/OverrideRepository.java:634-640 | Does nothing for a null class. Otherwise it writes the strategy and the parameters, which may be null, under the same key, so the two maps keep equal key sets. |
| Repository.OverrideRepository.AddPrimaryKeyNamesForTable | src/java/org/hibernate/cfg/reveng/OverrideRepository.java:642-653 | Each of the three fields is written on its own, and only when it is non-null and non-empty. |
| Repository.OverrideRepository.AddSchemaSelection | src/java/org/hibernate/cfg/reveng/OverrideRepository.java:663-665 | Appends the selection. |
| Repository.OverrideRepository.AddForeignKeyInfo | src/java/org/hibernate/cfg/reveng/OverrideRepository.java:672-692 | Each map changes only for a supplied argument. The constraint's bundle becomes `Merge(old bundle, update)`, and every other constraint's bundle is unchanged. |
| Repository.OverrideRepository.GetReverseEngineeringStrategy | src/java/org/hibernate/cfg/reveng/OverrideRepository.java:273-274 | Returns a new decorator over this repository and the given baseline. |
| Repository.DelegatingStrategy.constructor | src/java/org/hibernate/cfg/reveng/OverrideRepository.java:273-274 | Holds the repository and the baseline. |
| Repository.DelegatingStrategy.ExcludeTable | src/java/org/hibernate/cfg/reveng/OverrideRepository.java:276-278 | The repository's exclusion rule. |
| Repository.DelegatingStrategy.TableToMetaAttributes | src/java/org/hibernate/cfg/reveng/OverrideRepository.java:280-282 | The repository's table meta-attributes. |
| Repository.DelegatingStrategy.ColumnToMetaAttributes | src/java/org/hibernate/cfg/reveng/OverrideRepository.java:284-286 | The repository's column meta-attributes. |
| Repository.DelegatingStrategy.ExcludeColumn | src/java/org/hibernate/cfg/reveng/OverrideRepository.java:288-290 | True iff the column was marked excluded. The baseline is never asked. |
| Repository.DelegatingStrategy.TableToCompositeIdName | src/java/org/hibernate/cfg/reveng/OverrideRepository.java:292-299 | Returns the override, which is non-empty, when present, else the baseline's answer. |
| Repository.DelegatingStrategy.GetSchemaSelections | src/java/org/hibernate/cfg/reveng/OverrideRepository.java:300-306 | Returns the added selections, or the baseline's when none were added. |
| Repository.DelegatingStrategy.ColumnToHibernateTypeName | src/java/org/hibernate/cfg/reveng/OverrideRepository.java:308-334 | A column override, consulted only for a non-null table and column, wins. Otherwise the type-mapping answer is used. Otherwise the baseline answers. |
| Repository.DelegatingStrategy.GetForeignKeys | src/java/org/hibernate/cfg/reveng/OverrideRepository.java:363-370 | Returns the indexed list, which is non-empty and references only that table, or the baseline's answer. |
| Repository.DelegatingStrategy.ColumnToPropertyName | src/java/org/hibernate/cfg/reveng/OverrideRepository.java:372-379 | Returns the non-empty override, else the baseline's answer. |
| Repository.DelegatingStrategy.TableToIdentifierPropertyName | src/java/org/hibernate/cfg/reveng/OverrideRepository.java:381-388 | Returns the non-empty override, else the baseline's answer. |
| Repository.DelegatingStrategy.GetTableIdentifierStrategyName | src/java/org/hibernate/cfg/reveng/OverrideRepository.java:390-398 | Returns the recorded strategy, else the baseline's answer. |
| Repository.DelegatingStrategy.GetTableIdentifierProperties | src/java/org/hibernate/cfg/reveng/OverrideRepository.java:400-407 | Returns the recorded parameters. Parameters recorded as null read as absent and go to the baseline. |
| Repository.DelegatingStrategy.GetPrimaryKeyColumnNames | src/java/org/hibernate/cfg/reveng/OverrideRepository.java:409-416 | Returns the non-empty column list, else the baseline's answer. |
| Repository.DelegatingStrategy.ForeignKeyToEntityName | src/java/org/hibernate/cfg/reveng/OverrideRepository.java:418-425 | Returns the non-empty to-one name, else the baseline's answer. |
| Repository.DelegatingStrategy.ForeignKeyToInverseEntityName | src/java/org/hibernate/cfg/reveng/OverrideRepository.java:428-439 | Returns the non-empty inverse name, else the baseline's answer. |
| Repository.DelegatingStrategy.ForeignKeyToCollectionName | src/java/org/hibernate/cfg/reveng/OverrideRepository.java:441-448 | Uses the same inverse-name override as the inverse entity name, else the baseline's answer. |
| Repository.DelegatingStrategy.ExcludeForeignKeyAsCollection | src/java/org/hibernate/cfg/reveng/OverrideRepository.java:450-458 | Returns the recorded inverse exclusion, else the baseline's answer. |
| Repository.DelegatingStrategy.ExcludeForeignKeyAsManyToOne | src/java/org/hibernate/cfg/reveng/OverrideRepository.java:460-468 | Returns the recorded to-one exclusion, else the baseline's answer. |
| Repository.DelegatingStrategy.ForeignKeyToInverseAssociationInfo | src/java/org/hibernate/cfg/reveng/OverrideRepository.java:471-478 | Returns the recorded inverse association info, else the baseline's answer. |
| Repository.DelegatingStrategy.ForeignKeyToAssociationInfo | src/java/org/hibernate/cfg/reveng/OverrideRepository.java:480-487 | Returns the recorded association info, else the baseline's answer. |

## Left out

- Document ingestion (`addFile`, `addResource`, `addInputStream`, `add`, lines 105-165). This is file and class-loader I/O plus XML parsing and binding by `OverrideBinder`, which is not part of this model.
- Logging and the debug location strings of `columnToHibernateTypeName` (lines 309-317). They do not affect any result.
- `TypeMappingKey.hashCode` and `TableColumnKey.hashCode`. Keys are datatypes, so map lookup uses the structural equality those classes define (lines 216-223, 598-614).
- `getReverseEngineeringStrategy()` with a null delegate (lines 555-557). The baseline is always a given `Baseline.Strategy`, and what a null delegate does is not specified.
- The collaborators are not part of this model and are taken as given pure functions:
  - `SQLTypeMapping.match` is the `accepts` field of a rule.
  - The `TableFilter` queries are fields of `TableFilters.TableFilter`. `getExclude()` is assumed non-null.
  - `MetaAttributeBinder.toRealMetaAttribute` is the repository's `realize` function.
  - Each baseline query is a field of `Baseline.Strategy`. Its answers are plain values, except the class name, which may be null.
- `SQLTypeMapping.UNKNOWN_LENGTH` is taken to be `Integer.MAX_VALUE` (2147483647). `SQLTypeMapping` is not part of this model.
- `StringHelper` is not part of this model:
  - `qualify(p, c)` is defined as `p + "." + c`.
  - `unqualify(s)` is defined as the text after the last `.`, or `s` when it has no dot.
  - `isNotEmpty` means non-null with length above zero.
- `TableIdentifier.create(table)` is modelled as reading the table's identifier field.
- Null table or column arguments are modelled only where the source tests them: in `columnToHibernateTypeName`, and in the payloads of the mutators. Elsewhere a `TableColumnKey` always holds a table identifier and a column name.
- Repository.DelegatingStrategy.GetForeignKeys: returns the index's list as a value. The source returns the live `ArrayList` that a later `addTable` keeps appending to; that aliasing is not modelled.
- Repository.DelegatingStrategy.GetSchemaSelections: returns the selection list as a value; the aliasing of the live list is not modelled either.
- The mutators' `return this` chaining (`addTypeMapping`) is not modelled; the methods return nothing.
- Iteration order of `toMetaAttributes`'s entry set does not matter for its result and is not modelled; the loop picks any remaining name.
- In a well-keyed repository, `scanForMatch`'s early return on a type mismatch can never fire, because every rule of a bucket carries the bucket's type code (`BucketRulesHaveItsType`). The early return is modelled anyway, and `MismatchStopsScan` states what it does on an arbitrary list.
