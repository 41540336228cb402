/**
 * The baseline reverse-engineering strategy the repository decorates. Its
 * implementation is not part of this model: each query is a given function.
 */
module Baseline {
  import opened Wrappers
  import opened Keys
  import opened TypeMappings

  /** The arguments of the foreign-key naming and exclusion queries. */
  datatype ForeignKeyReference = ForeignKeyReference(
    keyName: string,
    fromTable: TableIdentifier,
    fromColumns: seq<string>,
    referencedTable: TableIdentifier,
    referencedColumns: seq<string>)

  /** The baseline's answer to every query the decorator may delegate. */
  datatype Strategy = Strategy(
    tableToCompositeIdName: TableIdentifier -> string,
    schemaSelections: seq<SchemaSelection>,
    columnToHibernateTypeName: (Option<TableIdentifier>, Option<string>, ColumnType, bool) -> string,
    tableToClassName: TableIdentifier -> Option<string>,
    foreignKeys: TableIdentifier -> seq<ForeignKey>,
    columnToPropertyName: (TableIdentifier, string) -> string,
    tableToIdentifierPropertyName: TableIdentifier -> string,
    tableIdentifierStrategyName: TableIdentifier -> string,
    tableIdentifierProperties: TableIdentifier -> Properties,
    primaryKeyColumnNames: TableIdentifier -> seq<string>,
    foreignKeyToEntityName: (ForeignKeyReference, bool) -> string,
    foreignKeyToInverseEntityName: (ForeignKeyReference, bool) -> string,
    foreignKeyToCollectionName: (ForeignKeyReference, bool) -> string,
    excludeForeignKeyAsCollection: ForeignKeyReference -> bool,
    excludeForeignKeyAsManyToOne: ForeignKeyReference -> bool,
    foreignKeyToAssociationInfo: ForeignKey -> AssociationInfo,
    foreignKeyToInverseAssociationInfo: ForeignKey -> AssociationInfo)
}
