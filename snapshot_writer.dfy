/** Persisting one table's accumulated items: the path the script derives
    from the table name, and the `open(..., 'w')` / `json.dump` step, over
    a directory whose failures are given as an oracle. */
module SnapshotWriter {
  import opened DynamoTypes

  /** The backup directory the script writes into. */
  const BackupDir: string := "Backup_dynamodb_tables"

  /** The fixed suffix of every snapshot file name. */
  const Suffix: string := "_backup.json"

  /** `os.path.join(a, b)` on POSIX: an absolute b replaces a; otherwise b is
      appended, with a separator unless a is empty or already ends in one. */
  function PathJoin(a: string, b: string): string
  {
    if |b| > 0 && b[0] == '/' then b
    else if a == [] || a[|a| - 1] == '/' then a + b
    else a + "/" + b
  }

  /** `os.path.join(backup_dir, f'{table_name}_backup.json')`. */
  function BackupPath(table: string): string
  {
    PathJoin(BackupDir, table + Suffix)
  }

  /** What the file at a path holds: a complete JSON array of items, or the
      remains of a dump that failed after `open` had truncated the file. */
  datatype FileContent = Json(items: seq<Item>) | Corrupt

  /** How writing a path can fail with an `IOError`: `open` itself fails and
      the file is left as it was, or `open` succeeds (truncating the file) and
      the dump or the close fails. */
  datatype IOFault = OpenFault | DumpFault

  /** The outcome of the write step for one table. */
  datatype WriteStatus = Written | WriteFailed(fault: IOFault)

  function Lookup(files: map<string, FileContent>, p: string): Option<FileContent>
  {
    if p in files then Some(files[p]) else None
  }

  /** What a path holds after a write of items with the given outcome, when
      it held prev before: a successful write replaces whatever was there. */
  function Artifact(prev: Option<FileContent>, items: seq<Item>, w: WriteStatus): Option<FileContent>
  {
    match w
    case Written => Some(Json(items))
    case WriteFailed(OpenFault) => prev
    case WriteFailed(DumpFault) => Some(Corrupt)
  }

  /** The directory after writing items to path with outcome w. */
  function AfterWrite(files: map<string, FileContent>, path: string, items: seq<Item>, w: WriteStatus):
    (r: map<string, FileContent>)
    ensures Lookup(r, path) == Artifact(Lookup(files, path), items, w)
    ensures forall p :: p != path ==> Lookup(r, p) == Lookup(files, p)
  {
    match w
    case Written => files[path := Json(items)]
    case WriteFailed(OpenFault) => files
    case WriteFailed(DumpFault) => files[path := Corrupt]
  }

  /** The outcome the directory gives a write to path. */
  function WriteOutcome(faults: map<string, IOFault>, path: string): WriteStatus
  {
    if path in faults then WriteFailed(faults[path]) else Written
  }

  /** Every path the script writes ends in the suffix, and for a table name
      that does not start with '/' (DynamoDB table names never do) it is
      `Backup_dynamodb_tables/<name>_backup.json`. */
  lemma BackupPathShape(table: string)
    ensures |table| > 0 && table[0] == '/' ==> BackupPath(table) == table + Suffix
    ensures !(|table| > 0 && table[0] == '/') ==> BackupPath(table) == BackupDir + "/" + table + Suffix
    ensures BackupPath(table)[|BackupPath(table)| - |Suffix|..] == Suffix
  {
    if |table| > 0 && table[0] == '/' {
      assert (table + Suffix)[0] == '/';
    } else {
      assert (table + Suffix)[0] == Suffix[0] || (table + Suffix)[0] == table[0];
    }
  }

  /** Distinct tables never share a snapshot path string. On a filesystem
      that compares paths exactly, no table's write can then overwrite
      another table's snapshot. */
  lemma BackupPathInjective(t1: string, t2: string)
    requires BackupPath(t1) == BackupPath(t2)
    ensures t1 == t2
  {
    BackupPathShape(t1);
    BackupPathShape(t2);
    var p := BackupPath(t1);
    var x1 := if |t1| > 0 && t1[0] == '/' then t1 else BackupDir + "/" + t1;
    var x2 := if |t2| > 0 && t2[0] == '/' then t2 else BackupDir + "/" + t2;
    assert p == x1 + Suffix == x2 + Suffix;
    assert x1 == p[..|p| - |Suffix|] == x2;
    var pre := BackupDir + "/";
    if !(|t1| > 0 && t1[0] == '/') && !(|t2| > 0 && t2[0] == '/') {
      assert t1 == x1[|pre|..] && t2 == x2[|pre|..];
    }
  }

  /** The backup directory, with the write failures it will produce given as
      an oracle per path. */
  class FileStore {
    const faults: map<string, IOFault>
    var files: map<string, FileContent>

    constructor (faults: map<string, IOFault>, files: map<string, FileContent>)
      ensures this.faults == faults && this.files == files
    {
      this.faults := faults;
      this.files := files;
    }

    /** `with open(path, 'w') as outfile: json.dump(items, outfile, indent=4)`,
        with an `IOError` returned as the outcome instead of raised. */
    method Write(path: string, items: seq<Item>) returns (w: WriteStatus)
      modifies this
      ensures w == WriteOutcome(faults, path)
      ensures files == AfterWrite(old(files), path, items, w)
    {
      if path in faults {
        w := WriteFailed(faults[path]);
        if faults[path] == DumpFault {
          files := files[path := Corrupt];
        }
      } else {
        files := files[path := Json(items)];
        w := Written;
      }
    }
  }
}
