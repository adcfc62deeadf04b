/**
 * The slice of java.nio.file.Files the relocation engines use, over an abstract file system:
 * regular files map to their bytes, directories form a set, and no path is both. Failures the
 * real file system may produce at any time (I/O errors, a target on another file store, a copy
 * that does not write the bytes it read) are nondeterministic choices of each operation.
 */
module FileSystem {
  import opened Wrappers
  import opened Paths

  type Bytes = seq<bv8>

  /** The exceptions the operations throw, as far as the callers tell them apart. */
  datatype IOError =
    | NoSuchFile                // NoSuchFileException (and FileNotFoundException)
    | FileAlreadyExists         // FileAlreadyExistsException
    | AtomicMoveNotSupported    // AtomicMoveNotSupportedException
    | OtherIO                   // any other IOException

  /** Every ancestor of p that createDirectories has to find or create. */
  function AncestorSet(p: Path): set<Path> {
    set a | a in Ancestors(p)
  }

  /** The directories Files.createDirectories(to.getParent()) makes sure of before a file goes to `to`. */
  function ParentDirs(to: Path): set<Path> {
    if Parent(to).Some? then AncestorSet(Parent(to).value) else {}
  }

  class FileSystem {
    var files: map<Path, Bytes>
    var dirs: set<Path>

    /** A path is never both a regular file and a directory. */
    predicate Valid()
      reads this
    {
      files.Keys !! dirs
    }

    constructor (files: map<Path, Bytes>, dirs: set<Path>)
      requires files.Keys !! dirs
      ensures Valid() && this.files == files && this.dirs == dirs
    {
      this.files := files;
      this.dirs := dirs;
    }

    predicate Exists(p: Path)
      reads this
    {
      p in files || p in dirs
    }

    /**
     * Files.createDirectories: every missing ancestor of p becomes a directory. A regular file
     * at p itself makes it throw FileAlreadyExistsException; a regular file at a proper ancestor
     * makes the first mkdir below it fail with a plain FileSystemException ("Not a directory").
     * Any other I/O error may stop it part way, with some of the directories already created.
     */
    method CreateDirectories(p: Path) returns (err: Option<IOError>)
      requires Valid()
      modifies this`dirs
      ensures Valid()
      ensures p in files ==> err == Some(FileAlreadyExists) && dirs == old(dirs)
      ensures p !in files && (exists a :: a in AncestorSet(p) && a in files) ==> err == Some(OtherIO) && dirs == old(dirs)
      ensures err.None? ==> dirs == old(dirs) + AncestorSet(p)
      ensures err.Some? ==> old(dirs) <= dirs <= old(dirs) + AncestorSet(p)
    {
      if p in files {
        return Some(FileAlreadyExists);
      }
      if exists a :: a in AncestorSet(p) && a in files {
        return Some(OtherIO);
      }
      var fails: bool :| true;
      if fails {
        var made: set<Path> :| made <= AncestorSet(p);
        dirs := dirs + made;
        return Some(OtherIO);
      }
      dirs := dirs + AncestorSet(p);
      err := None;
    }

    /**
     * Files.move(from, to, ATOMIC_MOVE): the file is renamed in one step, replacing a regular
     * file at the target. A missing source or target directory throws NoSuchFileException; a
     * directory at the target, or any I/O error, throws; a move across file stores throws
     * AtomicMoveNotSupportedException. A failed move changes nothing. Moving a file onto
     * itself returns at once and changes nothing.
     */
    method Move(from: Path, to: Path) returns (err: Option<IOError>)
      requires Valid()
      modifies this`files
      ensures Valid()
      ensures from !in old(files) ==> err == Some(NoSuchFile)
      ensures from in old(files) && from == to ==> err.None?
      ensures from in old(files) && from != to && (Parent(to).None? || Parent(to).value !in dirs) ==>
        err == Some(NoSuchFile)
      ensures err.None? ==> from in old(files) && files == (old(files) - {from})[to := old(files)[from]]
      ensures err.None? && from != to ==> Parent(to).Some? && Parent(to).value in dirs && to !in dirs
      ensures err.Some? ==> files == old(files)
    {
      if from !in files {
        return Some(NoSuchFile);
      }
      if from == to {
        assert (files - {from})[to := files[from]] == files;
        return None;
      }
      var parent := Parent(to);
      if parent.None? || parent.value !in dirs {
        return Some(NoSuchFile);
      }
      if to in dirs {
        return Some(OtherIO);
      }
      var outcome: Option<IOError> :| outcome != Some(NoSuchFile) && outcome != Some(FileAlreadyExists);
      if outcome.Some? {
        return outcome;
      }
      files := (files - {from})[to := files[from]];
      err := None;
    }

    /**
     * Files.copy(from, to) without REPLACE_EXISTING: when source and target are the same file
     * it returns at once and changes nothing; otherwise an existing target throws
     * FileAlreadyExistsException, a missing source or target directory NoSuchFileException. A
     * completed copy leaves the source in place and a regular file at the target holding the
     * bytes that were written, which a faulty transfer may have altered.
     */
    method Copy(from: Path, to: Path) returns (err: Option<IOError>, ghost written: Bytes)
      requires Valid()
      modifies this`files
      ensures Valid()
      ensures from !in old(files) ==> err == Some(NoSuchFile)
      ensures from in old(files) && from == to ==> err.None? && written == old(files)[from]
      ensures from in old(files) && from != to && (to in old(files) || to in dirs) ==>
        err == Some(FileAlreadyExists)
      ensures err.None? ==> from in old(files) && files == old(files)[to := written]
      ensures err.None? && from != to ==>
        to !in old(files) && to !in dirs && Parent(to).Some? && Parent(to).value in dirs
      ensures err.Some? ==> files == old(files)
    {
      written := [];
      if from !in files {
        return Some(NoSuchFile), written;
      }
      if from == to {
        written := files[from];
        return None, written;
      }
      if to in files || to in dirs {
        return Some(FileAlreadyExists), written;
      }
      var parent := Parent(to);
      if parent.None? || parent.value !in dirs {
        return Some(NoSuchFile), written;
      }
      var fails: bool :| true;
      if fails {
        return Some(OtherIO), written;
      }
      var bytes: Bytes :| true;
      written := bytes;
      files := files[to := bytes];
      err := None;
    }

    /** Files.delete on a regular file: a missing file throws NoSuchFileException; an I/O error leaves it in place. */
    method Delete(p: Path) returns (err: Option<IOError>)
      requires Valid()
      modifies this`files
      ensures Valid()
      ensures p !in old(files) ==> err == Some(NoSuchFile)
      ensures err.None? ==> p in old(files) && files == old(files) - {p}
      ensures err.Some? ==> files == old(files)
    {
      if p !in files {
        return Some(NoSuchFile);
      }
      var fails: bool :| true;
      if fails {
        return Some(OtherIO);
      }
      files := files - {p};
      err := None;
    }
  }
}
