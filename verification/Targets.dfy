/** The rows that say whose a target is and whether its text may be sent. */
module Targets {
  datatype VersionRow = VersionRow(noteId: string, body: string, deleted: bool, purged: bool)
  datatype SnapshotRow = SnapshotRow(externalId: string, body: string, tombstone: bool)
  datatype ExternalRow = ExternalRow(noEgress: bool, sourceType: string)

  /** The tables of versions and snapshots, each note's flag, and the table of externals. */
  datatype Store = Store(versions: map<string, VersionRow>, noteFlags: map<string, bool>,
                         snapshots: map<string, SnapshotRow>, externals: map<string, ExternalRow>)
}
