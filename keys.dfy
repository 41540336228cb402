/**
 * Value keys and the schema entities the repository stores or indexes.
 * Every key is a datatype, so equality is structural, as the Java
 * `equals` methods of the keys define it.
 */
module Keys {
  import opened Wrappers

  /** A table location; each part may be null in the schema reader. */
  datatype TableIdentifier = TableIdentifier(catalog: Option<string>, schema: Option<string>, name: Option<string>)

  /** A column location: table identifier plus column name (`TableColumnKey`). */
  datatype TableColumnKey = TableColumnKey(table: TableIdentifier, column: string)

  /** The parts of a foreign key the repository reads: its constraint name,
      the identifier of the table it references and its columns. */
  datatype ForeignKey = ForeignKey(name: string, referencedTable: TableIdentifier, columns: seq<string>)

  /** A schema table: its identifier and the foreign keys it owns. */
  datatype Table = Table(identifier: TableIdentifier, foreignKeys: seq<ForeignKey>)

  /** A (catalog, schema, table) pattern selecting what the reader scans. */
  datatype SchemaSelection = SchemaSelection(matchCatalog: Option<string>, matchSchema: Option<string>, matchTable: Option<string>)

  /** Association settings attached to one side of a foreign key. */
  datatype AssociationInfo = AssociationInfo(cascade: Option<string>, fetch: Option<string>, update: Option<bool>, insert: Option<bool>)

  /** One raw meta-attribute value as the binder records it. */
  datatype SimpleMetaAttribute = SimpleMetaAttribute(value: string, inheritable: bool)

  /** Raw meta-attributes: attribute name to the values given for it (a `MultiMap`). */
  type MetaMap = map<string, seq<SimpleMetaAttribute>>

  /** `java.util.Properties`: string keys to string values. */
  type Properties = map<string, string>

  /** `StringHelper.isNotEmpty`: non-null and at least one character. */
  predicate IsNotEmpty(s: Option<string>) {
    s.Some? && |s.value| > 0
  }
}
