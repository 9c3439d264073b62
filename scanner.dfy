/**
 * categorize_changes of s4lt/mods/scanner.py: the package files on disk,
 * keyed by their path relative to the Mods folder, against the mods the
 * database knows, keyed by the same relative path, split into new,
 * modified and deleted.
 */
module Scanner {
  import opened Wrappers

  /** The mtime and size columns of a mod row, and what stat() gives for a disk file. */
  datatype FileStamp = FileStamp(mtime: int, size: int)

  /** The base as a directory prefix: with one trailing '/', so that the root "/" stays "/". */
  function DirPrefix(base: string): string
  {
    if |base| > 0 && base[|base| - 1] == '/' then base else base + "/"
  }

  /**
   * PurePath.relative_to on normalised '/'-separated paths: "." for the
   * base itself, the rest of the path below it, or None where Python
   * raises ValueError.
   */
  function RelativeTo(path: string, base: string): (r: Option<string>)
    ensures path == base ==> r == Some(".")
    ensures path != base && r.Some? ==> r.value != [] && DirPrefix(base) + r.value == path
  {
    var dir := DirPrefix(base);
    if path == base then Some(".")
    else if |path| > |dir| && path[..|dir|] == dir then Some(path[|dir|..])
    else None
  }

  /** Every path below the base is relative to it, as the rest after the base's directory prefix. */
  lemma RelativeToComplete(path: string, base: string, rel: string)
    requires rel != [] && DirPrefix(base) + rel == path
    ensures RelativeTo(path, base) == Some(rel)
  {
    var dir := DirPrefix(base);
    assert path[..|dir|] == dir && path[|dir|..] == rel;
    assert |path| > |base|;
  }

  /** Below the root every absolute path is relative: "/a" relative to "/" is "a". */
  lemma RelativeToRoot(rest: string)
    requires rest != []
    ensures RelativeTo("/" + rest, "/") == Some(rest)
  {
    RelativeToComplete("/" + rest, "/", rest);
  }

  /** The key a disk file gets: its path relative to the Mods folder, or the path itself when it is not under it. */
  function KeyOf(path: string, modsPath: string): string
  {
    match RelativeTo(path, modsPath)
    case Some(rel) => rel
    case None => path
  }

  /** disk_relative after the files of ps, in iteration order: each key maps to the last file that gave it. */
  function DiskRelative(ps: seq<string>, modsPath: string): (m: map<string, string>)
    ensures forall k :: k in m ==> m[k] in ps && KeyOf(m[k], modsPath) == k
    ensures forall k :: k in m <==> exists i :: 0 <= i < |ps| && KeyOf(ps[i], modsPath) == k
  {
    if ps == [] then map[]
    else
      var init, p := ps[..|ps| - 1], ps[|ps| - 1];
      var m := DiskRelative(init, modsPath);
      assert forall i :: 0 <= i < |init| ==> ps[i] == init[i];
      m[KeyOf(p, modsPath) := p]
  }

  /** The three sets categorize_changes returns. */
  datatype Changes = Changes(newFiles: set<string>, modified: set<string>, deleted: set<string>)

  /** A disk file whose stat differs in mtime or size from its database row. */
  predicate Changed(s: FileStamp, row: FileStamp)
  {
    s.mtime != row.mtime || s.size != row.size
  }

  /** What categorize_changes returns for the database rows, the disk files in iteration order and their stat results. */
  ghost function ChangesSpec(db: map<string, FileStamp>, modsPath: string, disk: seq<string>, stat: string -> FileStamp): Changes
  {
    var rel := DiskRelative(disk, modsPath);
    Changes(
      set k | k in rel.Keys - db.Keys :: rel[k],
      set k | k in rel.Keys * db.Keys && Changed(stat(rel[k]), db[k]) :: rel[k],
      db.Keys - rel.Keys)
  }

  /** The loop that fills disk_relative. */
  method BuildDiskRelative(disk: seq<string>, modsPath: string) returns (rel: map<string, string>)
    ensures rel == DiskRelative(disk, modsPath)
  {
    rel := map[];
    for i := 0 to |disk|
      invariant rel == DiskRelative(disk[..i], modsPath)
    {
      var path := disk[i];
      var r := RelativeTo(path, modsPath);
      if r.Some? {
        rel := rel[r.value := path];
      } else {
        rel := rel[path := path];
      }
      assert disk[..i + 1][..i] == disk[..i];
    }
    assert disk[..|disk|] == disk;
  }

  /** The loop over the existing keys that collects the modified files. */
  method CollectModified(rel: map<string, string>, db: map<string, FileStamp>, stat: string -> FileStamp)
    returns (modified: set<string>)
    ensures modified == set k | k in rel.Keys * db.Keys && Changed(stat(rel[k]), db[k]) :: rel[k]
  {
    var existing := rel.Keys * db.Keys;
    var todo := existing;
    modified := {};
    while todo != {}
      invariant todo <= existing
      invariant modified == set k | k in existing - todo && Changed(stat(rel[k]), db[k]) :: rel[k]
      decreases |todo|
    {
      var relPath :| relPath in todo;
      var diskPath := rel[relPath];
      var dbRecord := db[relPath];
      var s := stat(diskPath);
      if s.mtime != dbRecord.mtime || s.size != dbRecord.size {
        modified := modified + {diskPath};
      }
      todo := todo - {relPath};
    }
  }

  /** categorize_changes. */
  method CategorizeChanges(db: map<string, FileStamp>, modsPath: string, disk: seq<string>, stat: string -> FileStamp)
    returns (c: Changes)
    ensures c == ChangesSpec(db, modsPath, disk, stat)
  {
    var rel := BuildDiskRelative(disk, modsPath);
    var diskPathSet := rel.Keys;
    var dbPaths := db.Keys;
    var newPaths := diskPathSet - dbPaths;
    var deletedPaths := dbPaths - diskPathSet;
    var newFiles := set p | p in newPaths :: rel[p];
    var modified := CollectModified(rel, db, stat);
    c := Changes(newFiles, modified, deletedPaths);
  }

  // ------------------------------------------------------------ properties

  /**
   * Every key of the disk or the database is new, deleted or existing, and
   * only one of them; deleted keys are the database keys no disk file has.
   */
  lemma KeysPartition(db: map<string, FileStamp>, modsPath: string, disk: seq<string>, k: string)
    ensures var rel := DiskRelative(disk, modsPath);
      var isNew, isDeleted, isExisting := k in rel && k !in db, k in db && k !in rel, k in rel && k in db;
      (k in rel.Keys + db.Keys <==> isNew || isDeleted || isExisting) &&
      !(isNew && isDeleted) && !(isNew && isExisting) && !(isDeleted && isExisting)
  {
  }

  /** Deleted entries are exactly the database paths that no disk file has as its key. */
  lemma DeletedIff(db: map<string, FileStamp>, modsPath: string, disk: seq<string>, stat: string -> FileStamp, k: string)
    ensures k in ChangesSpec(db, modsPath, disk, stat).deleted <==>
      k in db && forall i :: 0 <= i < |disk| ==> KeyOf(disk[i], modsPath) != k
  {
  }

  /** A new file is a disk file whose key the database lacks; every such key has one. */
  lemma NewFilesIff(db: map<string, FileStamp>, modsPath: string, disk: seq<string>, stat: string -> FileStamp, p: string)
    ensures p in ChangesSpec(db, modsPath, disk, stat).newFiles ==> p in disk && KeyOf(p, modsPath) !in db
    ensures forall i :: 0 <= i < |disk| && KeyOf(disk[i], modsPath) !in db ==>
      exists q :: q in ChangesSpec(db, modsPath, disk, stat).newFiles && KeyOf(q, modsPath) == KeyOf(disk[i], modsPath)
  {
    var rel := DiskRelative(disk, modsPath);
    var c := ChangesSpec(db, modsPath, disk, stat);
    forall i | 0 <= i < |disk| && KeyOf(disk[i], modsPath) !in db
      ensures exists q :: q in c.newFiles && KeyOf(q, modsPath) == KeyOf(disk[i], modsPath)
    {
      var k := KeyOf(disk[i], modsPath);
      assert rel[k] in c.newFiles;
    }
  }

  /**
   * A modified file is a disk file whose key the database has and whose
   * stat differs from the row; a new file is never a modified one.
   */
  lemma ModifiedIff(db: map<string, FileStamp>, modsPath: string, disk: seq<string>, stat: string -> FileStamp, p: string)
    ensures var c := ChangesSpec(db, modsPath, disk, stat);
      p in c.modified <==>
        var k := KeyOf(p, modsPath);
        k in DiskRelative(disk, modsPath) && DiskRelative(disk, modsPath)[k] == p && k in db && Changed(stat(p), db[k])
    ensures var c := ChangesSpec(db, modsPath, disk, stat);
      p in c.modified ==> p in disk && p !in c.newFiles
  {
    var rel := DiskRelative(disk, modsPath);
    var c := ChangesSpec(db, modsPath, disk, stat);
    if p in c.modified {
      var k :| k in rel.Keys * db.Keys && Changed(stat(rel[k]), db[k]) && rel[k] == p;
      assert KeyOf(p, modsPath) == k;
    }
    if p in c.newFiles {
      var k :| k in rel.Keys - db.Keys && rel[k] == p;
      assert KeyOf(p, modsPath) == k;
    }
  }
}
