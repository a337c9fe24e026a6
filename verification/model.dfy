// The values the session transfer engine works on, shared by all modules.

module Model {

  newtype byte = x: int | 0 <= x < 256

  type Bytes = seq<byte>

  const NEWLINE: byte := 10

  const MAX_U64: int := 0xFFFF_FFFF_FFFF_FFFF

  /** The uint64 of record ordinals. */
  type u64 = x: int | 0 <= x <= 0xFFFF_FFFF_FFFF_FFFF

  const MAX_INT64: nat := 0x7FFF_FFFF_FFFF_FFFF

  /** The int64 of sizes and limits. */
  type int64 = x: int | -0x8000_0000_0000_0000 <= x <= 0x7FFF_FFFF_FFFF_FFFF

  datatype Option<+T> = None | Some(value: T)

  datatype Result<+T> = Ok(value: T) | Err(error: Error) {
    predicate IsFailure() {
      Err?
    }

    function PropagateFailure<U>(): Result<U>
      requires Err?
    {
      Err(error)
    }

    function Extract(): T
      requires Ok?
    {
      value
    }
  }

  /** Why an operation was refused. */
  datatype Error =
    // records and rollouts
    | ReadFailed | RecordTooLong | IncompleteRecord | FileTooLong | BadRecord
    | BadMetadata | MisplacedMetadata | BadOrdinal | MissingMetadata
    | InvalidBoundary | BoundaryMismatch | UnfinishedRecord | NoSavedRecords
    // lineage
    | InvalidId | InvalidLimits | UnmanagedSelection | PrerequisiteSelected | MissingRollout
    | NotFound | WrongThread | Ambiguous | TooManyFiles | Cycle | Disagreement
    | SelectionMismatch | SelectionChanged
    // publication
    | Conflict | NotExtendable | Diverges | Interrupted | Exists | EmptyIncoming
    // wire
    | BadPath | BadManifest | ManifestTooLong | BadMember | Truncated | ChecksumMismatch
    | SourceChanged | BadLineage | TrailingData | Unencodable
    // locks, staging, the state database
    | Busy | Unqualified | Replaced

  /** A position in a rollout: everything before `endByte` and before `endOrdinal`. */
  datatype HistoryPosition = HistoryPosition(rollout: string, endOrdinal: u64, endByte: nat)

  datatype Metadata = Metadata(thread: string, timestamp: string, mode: string, base: Option<HistoryPosition>)

  /** What the JSON decoder reports for one record: `meta` is the payload decoded as session metadata. */
  datatype Line = Line(kind: string, ordinal: Option<u64>, hasPayload: bool, meta: Option<Metadata>)

  /** What a reader of a file yields: its decoded bytes, then end of file (`clean`) or a read error. */
  datatype Stream = Stream(data: Bytes, clean: bool)

  /** A stored file: inode number, raw bytes and modification time. */
  datatype Node = Node(ino: nat, raw: Bytes, mtime: int)

  /** The live session storage of a home: relative path to stored file. */
  type Tree = map<string, Node>

  datatype Candidate = Candidate(path: string, thread: string, rollout: string)

  datatype File = File(
    source: string, path: string, thread: string, rollout: string, bytes: nat, sha: string,
    modified: int, prefix: bool, meta: Metadata, lastOrdinal: u64, stored: Node)

  datatype Plan = Plan(thread: string, files: seq<File>)

  datatype Limits = Limits(recordBytes: int64, fileBytes: int64, files: int64, manifestBytes: int64) {
    predicate Valid() {
      recordBytes >= 1 && fileBytes >= 1 && recordBytes <= fileBytes && files >= 1 && manifestBytes >= 1
    }
  }

  /** The row SQLite holds for a thread; `path` is relative to the home. */
  datatype Selection = Selection(path: string, mode: string, archived: bool)

  /** The libraries the engine calls: JSON record decoder, Zstandard, SHA-256, the RFC 3339 clock format (a parsed
      timestamp, rendered as 2006-01-02T15-04-05 in UTC) and the local time zone: how many minutes it is ahead of UTC
      at an instant. */
  datatype World = World(
    parse: Bytes -> Option<Line>,
    inflate: Bytes -> Stream,
    deflate: Bytes -> Bytes,
    hash: Bytes -> string,
    stamp: string -> Option<string>,
    zone: int -> int)

  /** SHA-256 idealised: no two contents share a digest. */
  ghost predicate CollisionFree(w: World) {
    forall a: Bytes, b: Bytes :: w.hash(a) == w.hash(b) ==> a == b
  }

  /** Zstandard loses nothing. */
  ghost predicate Lossless(w: World) {
    forall a: Bytes :: w.inflate(w.deflate(a)) == Stream(a, true)
  }

  /** Rendered timestamps are file name parts. */
  ghost predicate ClockFormats(w: World) {
    forall s: string :: w.stamp(s).Some? ==> '/' !in w.stamp(s).value
  }
}
