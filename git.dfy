/**
 * The repository data the core consumes. Everything here is produced by
 * git2 and chrono and enters the model as given values.
 */
module Git {

  /** A commit's summary record, as built by `CommitInfo::new`. */
  datatype CommitInfo = CommitInfo(
    oid: seq<bv8>,
    seconds: int,
    offsetMinutes: int,
    author: string,
    message: string)

  /** One raw patch line handed to the `diff.print` callback, already decoded. */
  datatype RawLine = RawLine(origin: char, content: string)

  /** The aggregate counts of `diff.stats()`. */
  datatype DiffStats = DiffStats(filesChanged: nat, insertions: nat, deletions: nat)

  /** A commit diff against its first parent: the printed patch lines and the stats. */
  datatype Patch = Patch(lines: seq<RawLine>, stats: DiffStats)

  /** Failures of the repository lookups. */
  datatype GitError =
    | NoParent      // `parent(0)` on a commit that has no parent
    | Repository    // any other failing lookup, diff or print
}
