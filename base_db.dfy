/**
 * The part of the IDE's base database that the crate-graph view reads: the
 * crate graph itself and the two lookups that classify a crate's root file.
 * The database is an immutable snapshot for the duration of one request.
 */
module BaseDb {
  import opened Wrappers

  /** A crate handle, unique within one crate graph. */
  type CrateId = nat

  type FileId = nat

  type SourceRootId = nat

  /** A directed edge record: the crate depended on, and the name under which it is imported. */
  datatype Dependency = Dependency(crateId: CrateId, name: string)

  /** The attributes of one crate that the view uses. */
  datatype CrateData = CrateData(
    displayName: Option<string>,
    rootFileId: FileId,
    dependencies: seq<Dependency>)

  /** The crate graph: every crate of the workspace session, keyed by its id. */
  type CrateGraph = map<CrateId, CrateData>

  datatype SourceRoot = SourceRoot(isLibrary: bool)

  /**
   * A read-only view of the database. `fileSourceRoot` and `sourceRoot` stand
   * for the queries of the same names; both are total, as they are in the
   * database.
   */
  datatype Database = Database(
    crateGraph: CrateGraph,
    fileSourceRoot: FileId -> SourceRootId,
    sourceRoot: SourceRootId -> SourceRoot)
}
