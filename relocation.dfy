/**
 * The relocation engine: every media object of a queue is moved to the path its title
 * information generates under a destination directory. The standard runner tries an atomic
 * move and falls back to copy, checksum validation and deletion of the source when the two
 * paths are on different file stores; the non-atomic runner always takes the fallback. A
 * failing item is logged and the batch goes on with the next one.
 */
module Relocation {
  import opened Wrappers
  import opened Paths
  import Text
  import opened Media
  import opened FileSystem
  import opened Checksum
  import opened MediaQueue
  import opened FileOperation
  import TVParser = TV
  import MovieParser = Movie

  /** generateCustomPathStructure, dispatched on the media type. */
  function Destination(m: Media, root: Path): Path
    reads m
  {
    DestinationAt(m, m.file, root)
  }

  /** The destination of the media object when its file is `file`; moving it changes no field this reads. */
  function DestinationAt(m: Media, file: Path, root: Path): Path
    reads m`seriesName, m`seasonNumber, m`customName, m`movieName
  {
    match m.mediaType
    case TV => TVParser.CustomPath(m, file, root)
    case MOVIE => MovieParser.CustomPath(m, file, root)
  }

  /**
   * Every TV destination has a parent, and so does every movie destination whose file has an
   * extension: the path always holds a separator with a name after it ("/Season ..." for TV,
   * "/" then the name and its extension for a movie). Only such a parent-less destination
   * aborts a runner, so a runner over these media never aborts.
   */
  lemma DestinationHasParent(m: Media, root: Path)
    requires m.mediaType == MOVIE ==> ExtOf(m.file) != ""
    ensures Parent(Destination(m, root)).Some?
  {
  }

  /**
   * One media object on its way from `from` to `to`, with the checksum of the source taken
   * when the wrapper is made (None when it could not be computed) and the success flag.
   */
  class MediaIOWrapper {
    const media: Media
    const from: Path
    const to: Path
    var checksum: Option<string>
    var operationSuccess: bool

    constructor (media: Media, from: Path, to: Path, fs: FileSystem, hash: Bytes -> Bytes)
      ensures this.media == media && this.from == from && this.to == to
      ensures checksum == (if from in fs.files then Some(HexEncode(hash(fs.files[from]))) else None)
      ensures !operationSuccess
    {
      var c := GetChecksum(fs, from, hash);
      this.media := media;
      this.from := from;
      this.to := to;
      checksum := if c.Ok? then Some(c.value) else None;
      operationSuccess := false;
    }

    /**
     * validateChecksum: false unless source and target are regular files; then true exactly
     * when the checksum taken at creation exists and equals the target's.
     */
    method ValidateChecksum(fs: FileSystem, hash: Bytes -> Bytes) returns (valid: bool)
      ensures valid <==> from in fs.files && to in fs.files && checksum == Some(HexEncode(hash(fs.files[to])))
    {
      if from !in fs.files || to !in fs.files {
        return false;
      }
      var target := GetChecksum(fs, to, hash);
      valid := checksum.Some? && target.Ok? && checksum.value == target.value;
    }

    method SetOperationSuccess(success: bool)
      modifies this`operationSuccess
      ensures operationSuccess == success
    {
      operationSuccess := success;
    }
  }

  /** A checksum string equal to the hexadecimal digest of the target means equal digests. */
  lemma ValidatedDigest(orig: Bytes, written: Bytes, hash: Bytes -> Bytes)
    requires HexEncode(hash(orig)) == HexEncode(hash(written))
    ensures hash(orig) == hash(written)
  {
    HexInjective(hash(orig), hash(written));
  }

  // ---------------------------------------------------------------- the copy fallback

  /**
   * A relocation from `from` to `to` leaves every other file as it was: the same paths, holding
   * the same bytes.
   */
  ghost predicate OnlyTouches(from: Path, to: Path, before: map<Path, Bytes>, after: map<Path, Bytes>) {
    forall p :: p != from && p != to ==> (p in after <==> p in before) && (p in after ==> after[p] == before[p])
  }

  /**
   * removeSourceFilePostMove: deletes the source; the operation succeeds once the source is
   * confirmed gone. A failed delete is logged and changes nothing.
   */
  method RemoveSourceFilePostMove(w: MediaIOWrapper, fs: FileSystem)
    requires fs.Valid()
    modifies fs`files, w`operationSuccess
    ensures fs.Valid()
    ensures fs.files == old(fs.files) - {w.from} || fs.files == old(fs.files)
    ensures w.operationSuccess == (old(w.operationSuccess) || (w.from in old(fs.files) && w.from !in fs.files))
  {
    var err := fs.Delete(w.from);
    if err.None? && w.from !in fs.files {
      w.SetOperationSuccess(true);
    }
  }

  /**
   * copyMedia: makes sure the target's directory exists, copies the media's file there (an
   * existing target other than the source itself makes the copy throw), and reports true only
   * when the target exists and its checksum matches the one taken from the source; the media
   * then points at the target. Exceptions reach the caller as `err`.
   */
  method CopyMedia(w: MediaIOWrapper, fs: FileSystem, hash: Bytes -> Bytes) returns (ok: bool, err: Option<IOError>)
    requires fs.Valid() && Parent(w.to).Some? && w.media.file == w.from
    modifies fs`files, fs`dirs, w.media`file
    ensures fs.Valid()
    ensures err.Some? ==> !ok
    ensures ok ==> w.to in fs.files && w.checksum == Some(HexEncode(hash(fs.files[w.to]))) && w.media.file == w.to
    ensures !ok ==> w.media.file == old(w.media.file)
    ensures err.None? ==> w.from in old(fs.files) && w.to in fs.files && (w.from != w.to ==> w.to !in old(fs.files))
    ensures fs.files == old(fs.files) ||
      (w.from != w.to && w.to !in old(fs.files) && w.to in fs.files && fs.files == old(fs.files)[w.to := fs.files[w.to]])
    ensures old(fs.dirs) <= fs.dirs <= old(fs.dirs) + ParentDirs(w.to)
  {
    var parent := Parent(w.to).value;
    if fs.Exists(parent) {
      var e := fs.CreateDirectories(parent);
      if e.Some? {
        return false, e;
      }
    }
    var e, written := fs.Copy(w.media.file, w.to);
    if e.Some? {
      return false, e;
    }
    var valid := w.ValidateChecksum(fs, hash);
    if w.to in fs.files && valid {
      w.media.SetFile(w.to);
      return true, None;
    }
    ok, err := false, None;
  }

  /**
   * safeNonAtomicMove as written: copy, validate, then delete the source. When the source is
   * already its own target, Files.copy finds the same file and does nothing, the checksum of
   * the "copy" is the source's own, and the delete that follows removes the only copy.
   */
  method SafeNonAtomicMoveAsWritten(w: MediaIOWrapper, newFilePath: Path, fs: FileSystem, hash: Bytes -> Bytes)
    returns (result: Path)
    requires fs.Valid() && Parent(w.to).Some? && w.media.file == w.from
    modifies fs`files, fs`dirs, w.media`file, w`operationSuccess
    ensures fs.Valid()
    ensures w.from == w.to && w.from in old(fs.files) && w.checksum == Some(HexEncode(hash(old(fs.files)[w.from]))) ==>
      fs.files == old(fs.files) ||
      (fs.files == old(fs.files) - {w.from} && w.operationSuccess && w.media.file == newFilePath && result == w.to)
    ensures old(fs.dirs) <= fs.dirs <= old(fs.dirs) + ParentDirs(w.to)
  {
    var ok, err := CopyMedia(w, fs, hash);
    if err.Some? {
      return "";
    }
    if ok {
      w.media.SetFile(newFilePath);
      RemoveSourceFilePostMove(w, fs);
    }
    result := w.to;
  }

  /**
   * The outcome above where the delete goes through: the source has gone and nothing holds its
   * bytes, so the relocation is not safe.
   */
  lemma SameFileDeleteLoses(p: Path, before: map<Path, Bytes>, after: map<Path, Bytes>, hash: Bytes -> Bytes)
    requires p in before && after == before - {p}
    ensures !Relocated(p, p, before, after, hash)
  {
    assert p !in after;
  }

  /**
   * safeNonAtomicMove with the same-file case skipped: a source that already is its target is
   * left alone. Otherwise copy, validate, then delete the source; the media is pointed at the
   * new path and the source deleted only after copyMedia validated the copy, so the source is
   * never removed unless the target carries the checksum taken from it. Returns the target, or
   * the empty path when the copy threw.
   */
  method SafeNonAtomicMove(w: MediaIOWrapper, newFilePath: Path, fs: FileSystem, hash: Bytes -> Bytes)
    returns (result: Path)
    requires fs.Valid() && Parent(w.to).Some? && w.media.file == w.from
    modifies fs`files, fs`dirs, w.media`file, w`operationSuccess
    ensures fs.Valid()
    ensures result == w.to || result == ""
    ensures result != "" ==> w.to in fs.files
    ensures w.from == w.to ==>
      (result == w.to <==> w.from in old(fs.files)) && fs.files == old(fs.files) &&
      w.media.file == old(w.media.file) && w.operationSuccess == old(w.operationSuccess)
    ensures w.from in old(fs.files) && w.from !in fs.files ==>
      result == w.to && w.media.file == newFilePath &&
      w.to in fs.files && w.checksum == Some(HexEncode(hash(fs.files[w.to])))
    ensures OnlyTouches(w.from, w.to, old(fs.files), fs.files)
    ensures w.media.file == old(w.media.file) || (w.media.file == newFilePath && w.to in fs.files)
    ensures w.operationSuccess <==> old(w.operationSuccess) || (w.from in old(fs.files) && w.from !in fs.files)
    ensures old(fs.dirs) <= fs.dirs <= old(fs.dirs) + ParentDirs(w.to)
  {
    if w.from == w.to {
      return if w.from in fs.files then w.to else "";
    }
    var ok, err := CopyMedia(w, fs, hash);
    if err.Some? {
      return "";
    }
    if ok {
      w.media.SetFile(newFilePath);
      RemoveSourceFilePostMove(w, fs);
    }
    result := w.to;
  }

  // ---------------------------------------------------------------- per-item outcome

  /**
   * The headline property of one relocation, between the file system before and after it: a
   * source that disappeared has a target holding bytes with the source's digest.
   */
  ghost predicate Relocated(from: Path, to: Path, before: map<Path, Bytes>, after: map<Path, Bytes>, hash: Bytes -> Bytes) {
    from in before && from !in after ==> to in after && hash(after[to]) == hash(before[from])
  }

  /**
   * safeNonAtomicMove, seen from a runner: whatever the outcome, the relocation is safe, and the
   * operation is flagged a success exactly when the source was confirmed gone.
   */
  method Fallback(w: MediaIOWrapper, fs: FileSystem, hash: Bytes -> Bytes) returns (tmp: Path)
    requires fs.Valid() && Parent(w.to).Some? && w.media.file == w.from
    requires w.checksum == (if w.from in fs.files then Some(HexEncode(hash(fs.files[w.from]))) else None)
    modifies fs`files, fs`dirs, w.media`file, w`operationSuccess
    ensures fs.Valid()
    ensures tmp == w.to || tmp == ""
    ensures tmp != "" ==> w.to in fs.files
    ensures w.from == w.to ==> fs.files == old(fs.files) && w.media.file == old(w.media.file)
    ensures w.from in old(fs.files) && w.from !in fs.files ==> tmp == w.to && w.media.file == w.to
    ensures Relocated(w.from, w.to, old(fs.files), fs.files, hash)
    ensures OnlyTouches(w.from, w.to, old(fs.files), fs.files)
    ensures w.media.file == old(w.media.file) || (w.media.file == w.to && w.to in fs.files)
    ensures w.operationSuccess <==> old(w.operationSuccess) || (w.from in old(fs.files) && w.from !in fs.files)
    ensures old(fs.dirs) <= fs.dirs <= old(fs.dirs) + ParentDirs(w.to)
  {
    ghost var before := fs.files;
    tmp := SafeNonAtomicMove(w, w.to, fs, hash);
    if w.from in before && w.from !in fs.files {
      ValidatedDigest(before[w.from], fs.files[w.to], hash);
    }
  }

  /**
   * One item of ioStandardMoveRunner once its wrapper exists and its target has a parent: the
   * target's directories are created, then the file is moved atomically, and a successful move
   * points the media at the target. A move across file stores falls back to safeNonAtomicMove,
   * whose confirmed delete of the source marks the item a success; a missing file or any other
   * I/O error marks it failed.
   */
  method StandardMove(w: MediaIOWrapper, fs: FileSystem, hash: Bytes -> Bytes)
    requires fs.Valid() && Parent(w.to).Some? && w.media.file == w.from
    requires w.checksum == (if w.from in fs.files then Some(HexEncode(hash(fs.files[w.from]))) else None)
    modifies fs`files, fs`dirs, w.media`file, w`operationSuccess
    ensures fs.Valid()
    ensures Relocated(w.from, w.to, old(fs.files), fs.files, hash)
    ensures OnlyTouches(w.from, w.to, old(fs.files), fs.files)
    ensures w.from == w.to ==> fs.files == old(fs.files)
    ensures w.operationSuccess ==> w.to in fs.files && w.media.file == w.to
    ensures w.from != w.to ==> (w.operationSuccess <==> w.from in old(fs.files) && w.from !in fs.files)
    ensures w.media.file == old(w.media.file) || w.media.file == w.to
    ensures old(fs.dirs) <= fs.dirs <= old(fs.dirs) + ParentDirs(w.to)
    ensures w.operationSuccess ==> ParentDirs(w.to) <= fs.dirs
  {
    w.SetOperationSuccess(false);
    var e := fs.CreateDirectories(Parent(w.to).value);
    if e.Some? {
      return;
    }
    e := fs.Move(w.from, w.to);
    if e.None? {
      w.SetOperationSuccess(fs.Exists(w.to));
      if w.operationSuccess && w.to in fs.files {
        w.media.SetFile(w.to);
      }
    } else if e == Some(AtomicMoveNotSupported) {
      var _ := Fallback(w, fs, hash);
    }
  }

  /**
   * One item of ioNonAtomicMoveRunner once its wrapper exists and its target has a parent: the
   * directories, then safeNonAtomicMove. The item counts as a success when the returned path
   * exists, and the media is then pointed at it. A copy that failed validation leaves its target
   * behind, so it too counts as a success and the media points at the copy, while the source
   * stays where it was.
   */
  method NonAtomicMove(w: MediaIOWrapper, fs: FileSystem, hash: Bytes -> Bytes)
    requires fs.Valid() && Parent(w.to).Some? && w.media.file == w.from
    requires w.checksum == (if w.from in fs.files then Some(HexEncode(hash(fs.files[w.from]))) else None)
    modifies fs`files, fs`dirs, w.media`file, w`operationSuccess
    ensures fs.Valid()
    ensures Relocated(w.from, w.to, old(fs.files), fs.files, hash)
    ensures OnlyTouches(w.from, w.to, old(fs.files), fs.files)
    ensures w.from == w.to ==> fs.files == old(fs.files)
    ensures w.operationSuccess ==> w.to in fs.files && w.media.file == w.to
    ensures w.from in old(fs.files) && w.from !in fs.files ==> w.operationSuccess
    ensures w.media.file == old(w.media.file) || w.media.file == w.to
    ensures old(fs.dirs) <= fs.dirs <= old(fs.dirs) + ParentDirs(w.to)
    ensures w.operationSuccess ==> ParentDirs(w.to) <= fs.dirs
  {
    w.SetOperationSuccess(false);
    var e := fs.CreateDirectories(Parent(w.to).value);
    if e.Some? {
      return;
    }
    var tmp := Fallback(w, fs, hash);
    w.SetOperationSuccess(tmp != "" && fs.Exists(tmp));
    if w.operationSuccess && tmp in fs.files {
      w.media.SetFile(tmp);
    }
  }

  /** Which runner relocates the items. */
  datatype Runner = Atomic | NonAtomic

  /**
   * The record of one item a runner reached: the media object, the path it was moved from, its
   * destination, and whether the runner counted it a success.
   */
  datatype Report = Report(media: Media, from: Path, to: Path, success: bool)

  /**
   * What one item does to the files, between the file system just before and just after it:
   * the relocation is safe and touches no other file; a success leaves a file at the target; a
   * source that is its own target stays as it is; a source that went away was counted a
   * success; and under the atomic runner a success means the source went away.
   */
  ghost predicate Step(runner: Runner, r: Report, before: map<Path, Bytes>, after: map<Path, Bytes>, hash: Bytes -> Bytes) {
    Relocated(r.from, r.to, before, after, hash) &&
    OnlyTouches(r.from, r.to, before, after) &&
    (r.success ==> r.to in after) &&
    (r.from == r.to ==> after == before) &&
    (r.from in before && r.from !in after ==> r.success) &&
    (runner == Atomic && r.success && r.from != r.to ==> r.from !in after)
  }

  /**
   * Where an item leaves its media object's file: at its source, or at its destination on a
   * success.
   */
  ghost predicate Landed(r: Report, file: Path) {
    (file == r.from || file == r.to) && (r.success ==> file == r.to)
  }

  /**
   * One item of a runner: its destination, the wrapper (which takes the source's checksum),
   * then the move. `aborted` is a destination without a parent, on which getParent() is null
   * and the runner dies dereferencing null; I/O errors never abort.
   */
  method RelocateItem(runner: Runner, m: Media, root: Path, fs: FileSystem, hash: Bytes -> Bytes)
    returns (aborted: bool, success: bool)
    requires fs.Valid()
    modifies fs`files, fs`dirs, m`file
    ensures fs.Valid()
    ensures aborted <==> Parent(old(Destination(m, root))).None?
    ensures aborted ==> fs.files == old(fs.files) && fs.dirs == old(fs.dirs) && m.file == old(m.file) && !success
    ensures Step(runner, Report(m, old(m.file), old(Destination(m, root)), success), old(fs.files), fs.files, hash)
    ensures Landed(Report(m, old(m.file), old(Destination(m, root)), success), m.file)
    ensures old(fs.dirs) <= fs.dirs <= old(fs.dirs) + ParentDirs(old(Destination(m, root)))
    ensures success ==> ParentDirs(old(Destination(m, root))) <= fs.dirs
  {
    var to := Destination(m, root);
    var w := new MediaIOWrapper(m, m.file, to, fs, hash);
    if Parent(to).None? {
      return true, false;
    }
    success := Relocate(runner, w, fs, hash);
    aborted := false;
  }

  /** The move of one item by the chosen runner. */
  method Relocate(runner: Runner, w: MediaIOWrapper, fs: FileSystem, hash: Bytes -> Bytes) returns (success: bool)
    requires fs.Valid() && Parent(w.to).Some? && w.media.file == w.from
    requires w.checksum == (if w.from in fs.files then Some(HexEncode(hash(fs.files[w.from]))) else None)
    modifies fs`files, fs`dirs, w.media`file, w`operationSuccess
    ensures fs.Valid()
    ensures Step(runner, Report(w.media, w.from, w.to, success), old(fs.files), fs.files, hash)
    ensures Landed(Report(w.media, w.from, w.to, success), w.media.file)
    ensures old(fs.dirs) <= fs.dirs <= old(fs.dirs) + ParentDirs(w.to)
    ensures success ==> ParentDirs(w.to) <= fs.dirs
  {
    match runner {
      case Atomic => StandardMove(w, fs, hash);
      case NonAtomic => NonAtomicMove(w, fs, hash);
    }
    success := w.operationSuccess;
  }

  // ---------------------------------------------------------------- the runners

  /**
   * Every destination a run reached had a parent, except the last one of an aborted run, whose
   * missing parent aborted it and which was not counted a success.
   */
  predicate Reached(rs: seq<Report>, aborted: bool) {
    (forall k :: 0 <= k < |rs| && (k < |rs| - 1 || !aborted) ==> Parent(rs[k].to).Some?) &&
    (aborted ==> |rs| > 0 && Parent(rs[|rs| - 1].to).None? && !rs[|rs| - 1].success)
  }

  /**
   * The file system of a run, state by state: `states[k]` just before the k-th record's item and
   * `states[k + 1]` just after it, each item a Step.
   */
  ghost predicate Trace(runner: Runner, rs: seq<Report>, states: seq<map<Path, Bytes>>, hash: Bytes -> Bytes) {
    |states| == |rs| + 1 &&
    forall k :: 0 <= k < |rs| ==> Step(runner, rs[k], states[k], states[k + 1], hash)
  }

  /** No media object occurs twice. */
  predicate Distinct(ms: seq<Media>) {
    forall a, b :: 0 <= a < b < |ms| ==> ms[a] != ms[b]
  }

  /** The directories above the destinations of a run's records, record by record. */
  ghost function DirsOf(rs: seq<Report>): set<Path> {
    if rs == [] then {} else DirsOf(rs[..|rs| - 1]) + ParentDirs(rs[|rs| - 1].to)
  }

  /** The directories above each record's destination are among them. */
  lemma {:induction false} DirsOfIncludes(rs: seq<Report>, k: nat)
    requires k < |rs|
    ensures ParentDirs(rs[k].to) <= DirsOf(rs)
    decreases |rs|
  {
    if k < |rs| - 1 {
      var init := rs[..|rs| - 1];
      assert init[k] == rs[k];
      DirsOfIncludes(init, k);
    }
  }

  /** And each of them lies above the destination of some record. */
  lemma {:induction false} DirsOfWitness(rs: seq<Report>, d: Path) returns (k: nat)
    requires d in DirsOf(rs)
    ensures k < |rs| && d in ParentDirs(rs[k].to)
    decreases |rs|
  {
    var init := rs[..|rs| - 1];
    if d in ParentDirs(rs[|rs| - 1].to) {
      k := |rs| - 1;
    } else {
      k := DirsOfWitness(init, d);
      assert init[k] == rs[k];
    }
  }

  /**
   * The directories of a run, from `before` to `after`: none is removed, each new one lies above
   * the destination of an item the run reached (DirsOfWitness), and every item counted a success
   * has all the directories above its destination.
   */
  ghost predicate DirsMade(rs: seq<Report>, before: set<Path>, after: set<Path>) {
    before <= after <= before + DirsOf(rs) &&
    forall k {:trigger ParentDirs(rs[k].to)} :: 0 <= k < |rs| && rs[k].success ==> ParentDirs(rs[k].to) <= after
  }

  /** One more item, which makes sure of directories above its own destination only. */
  lemma DirsMadeAppend(rs: seq<Report>, r: Report, before: set<Path>, mid: set<Path>, after: set<Path>)
    requires DirsMade(rs, before, mid) && mid <= after <= mid + ParentDirs(r.to)
    requires r.success ==> ParentDirs(r.to) <= after
    ensures DirsMade(rs + [r], before, after)
  {
    var all := rs + [r];
    assert all[..|rs|] == rs;
    forall k | 0 <= k < |all| && all[k].success ensures ParentDirs(all[k].to) <= after {
      if k < |rs| {
        assert all[k] == rs[k];
      }
    }
  }
  /**
   * What one item does to the directories: it adds only directories above its destination, and
   * all of them when it counts a success.
   */
  ghost predicate DirStep(r: Report, before: set<Path>, after: set<Path>) {
    before <= after <= before + ParentDirs(r.to) && (r.success ==> ParentDirs(r.to) <= after)
  }

  /** The directories of a run, set by set: `ds[k]` just before the k-th record's item and `ds[k + 1]` just after it. */
  ghost predicate DirTrace(rs: seq<Report>, ds: seq<set<Path>>) {
    |ds| == |rs| + 1 &&
    forall k :: 0 <= k < |rs| ==> DirStep(rs[k], ds[k], ds[k + 1])
  }

  lemma DirTraceAppend(rs: seq<Report>, ds: seq<set<Path>>, r: Report, d: set<Path>)
    requires DirTrace(rs, ds) && DirStep(r, ds[|rs|], d)
    ensures DirTrace(rs + [r], ds + [d])
  {
    var all, dd := rs + [r], ds + [d];
    forall k | 0 <= k < |all| ensures DirStep(all[k], dd[k], dd[k + 1]) {
      if k < |rs| {
        assert all[k] == rs[k] && dd[k] == ds[k] && dd[k + 1] == ds[k + 1];
      }
    }
  }

  /** A run's directory steps add up to what DirsMade says, from its first set to its last. */
  lemma {:induction false} DirTraceMade(rs: seq<Report>, ds: seq<set<Path>>)
    requires DirTrace(rs, ds)
    ensures DirsMade(rs, ds[0], ds[|rs|])
    decreases |rs|
  {
    if rs != [] {
      var n := |rs| - 1;
      var init, prefix := rs[..n], ds[..n + 1];
      forall k | 0 <= k < n ensures DirStep(init[k], prefix[k], prefix[k + 1]) {
        assert init[k] == rs[k];
      }
      DirTraceMade(init, prefix);
      assert DirStep(rs[n], ds[n], ds[n + 1]);
      DirsMadeAppend(init, rs[n], ds[0], ds[n], ds[n + 1]);
      assert init + [rs[n]] == rs;
    }
  }


  /** Records of a run that went on, followed by the records of the next part of the run. */
  lemma ReachedAppend(rs: seq<Report>, more: seq<Report>, aborted: bool)
    requires Reached(rs, false) && Reached(more, aborted)
    ensures Reached(rs + more, aborted)
  {
    var all := rs + more;
    forall k | 0 <= k < |all| && (k < |all| - 1 || !aborted) ensures Parent(all[k].to).Some? {
      if k >= |rs| { assert all[k] == more[k - |rs|]; }
    }
    if aborted {
      assert all[|all| - 1] == more[|more| - 1];
    }
  }

  /** The trace of a run followed by the trace of the next part, which starts where it ended. */
  lemma TraceAppend(runner: Runner, rs: seq<Report>, states: seq<map<Path, Bytes>>,
                    more: seq<Report>, next: seq<map<Path, Bytes>>, hash: Bytes -> Bytes)
    requires Trace(runner, rs, states, hash) && Trace(runner, more, next, hash)
    requires states[|rs|] == next[0]
    ensures Trace(runner, rs + more, states + next[1..], hash)
    ensures (states + next[1..])[0] == states[0]
    ensures (states + next[1..])[|rs + more|] == next[|more|]
  {
    var all, st := rs + more, states + next[1..];
    forall k | 0 <= k < |all| ensures Step(runner, all[k], st[k], st[k + 1], hash) {
      if k < |rs| {
        assert all[k] == rs[k] && st[k] == states[k] && st[k + 1] == states[k + 1];
      } else {
        assert all[k] == more[k - |rs|] && st[k] == next[k - |rs|] && st[k + 1] == next[k - |rs| + 1];
      }
    }
  }

  /**
   * The files of a run's items after the object m's file became f: every position holding m
   * has f, every other position keeps its file.
   */
  ghost function WithFile(items: seq<Media>, now: seq<Path>, m: Media, f: Path): (after: seq<Path>)
    requires |items| == |now|
    ensures |after| == |now|
    ensures forall k :: 0 <= k < |now| ==> after[k] == if items[k] == m then f else now[k]
  {
    seq(|now|, k requires 0 <= k < |now| => if items[k] == m then f else now[k])
  }

  /**
   * The records of the first |rs| items of a run: the k-th is about the k-th item and, when no
   * object occurs twice, about the file and the destination it had before the run (`files`,
   * `dests`), and its item left the file it has now (`now`) where the record says.
   */
  ghost predicate Recorded(rs: seq<Report>, items: seq<Media>, files: seq<Path>, dests: seq<Path>, now: seq<Path>) {
    |rs| <= |items| == |files| == |dests| == |now| &&
    forall k {:trigger rs[k]} :: 0 <= k < |rs| ==>
      (rs[k].media == items[k] &&
       (Distinct(items) ==> rs[k].from == files[k] && rs[k].to == dests[k] && Landed(rs[k], now[k])))
  }

  /** When no object occurs twice, the items from j on still have the files they had before the run. */
  ghost predicate Pending(items: seq<Media>, files: seq<Path>, now: seq<Path>, j: nat) {
    |items| == |files| == |now| &&
    (Distinct(items) ==> forall k :: j <= k < |items| ==> now[k] == files[k])
  }

  /**
   * `dests[k]` is the destination item k has when its file is `files[k]`. A run changes no field
   * this reads.
   */
  ghost predicate Aimed(items: seq<Media>, files: seq<Path>, dests: seq<Path>, root: Path)
    reads (set m | m in items)`seriesName, (set m | m in items)`seasonNumber
    reads (set m | m in items)`customName, (set m | m in items)`movieName
  {
    |items| == |files| == |dests| &&
    forall k {:trigger DestinationAt(items[k], files[k], root)} :: 0 <= k < |items| ==> dests[k] == DestinationAt(items[k], files[k], root)
  }

  /** The record of item j joins the records of the items before it. */
  lemma RecordedAppend(rs: seq<Report>, r: Report, items: seq<Media>, files: seq<Path>, dests: seq<Path>,
                       now: seq<Path>, f: Path)
    requires Recorded(rs, items, files, dests, now) && |rs| < |items| && r.media == items[|rs|]
    requires Distinct(items) ==> r.from == files[|rs|] && r.to == dests[|rs|] && Landed(r, f)
    ensures Recorded(rs + [r], items, files, dests, WithFile(items, now, items[|rs|], f))
  {
    var j, after, all := |rs|, WithFile(items, now, items[|rs|], f), rs + [r];
    forall k | 0 <= k < |all|
      ensures all[k].media == items[k] &&
        (Distinct(items) ==> all[k].from == files[k] && all[k].to == dests[k] && Landed(all[k], after[k]))
    {
      if k < j {
        assert all[k] == rs[k];
        if Distinct(items) {
          assert items[k] != items[j] && after[k] == now[k];
        }
      } else {
        assert all[k] == r;
      }
    }
  }

  /** Moving item j leaves the items after it where they were. */
  lemma PendingAdvance(items: seq<Media>, files: seq<Path>, now: seq<Path>, j: nat, f: Path)
    requires Pending(items, files, now, j) && j < |items|
    ensures Pending(items, files, WithFile(items, now, items[j], f), j + 1)
  {
    var after := WithFile(items, now, items[j], f);
    if Distinct(items) {
      forall k | j + 1 <= k < |items| ensures after[k] == files[k] {
        assert items[k] != items[j];
      }
    }
  }

  /**
   * The next item of a run, `items[j]`: when no object occurs twice, its record is about the file
   * and the destination it had before the run, and the media object landed as the record says.
   * `now'` is the files of the items after it.
   */
  method RunNext(runner: Runner, m: Media, root: Path, fs: FileSystem, hash: Bytes -> Bytes,
                 ghost items: seq<Media>, ghost files: seq<Path>, ghost dests: seq<Path>, ghost now: seq<Path>,
                 ghost j: nat)
    returns (aborted: bool, ghost r: Report, ghost now': seq<Path>)
    requires fs.Valid() && j < |items| && m == items[j]
    requires Pending(items, files, now, j) && Aimed(items, files, dests, root) && Holds(items, now)
    modifies fs`files, fs`dirs, m`file
    ensures fs.Valid()
    ensures aborted <==> Parent(r.to).None?
    ensures aborted ==> !r.success
    ensures Step(runner, r, old(fs.files), fs.files, hash)
    ensures r.media == m
    ensures Distinct(items) ==> r.from == files[j] && r.to == dests[j] && Landed(r, m.file)
    ensures now' == WithFile(items, now, m, m.file) && Holds(items, now')
    ensures DirStep(r, old(fs.dirs), fs.dirs)
  {
    assert Distinct(items) ==> m.file == files[j];
    assert Destination(m, root) == DestinationAt(items[j], now[j], root);
    assert dests[j] == DestinationAt(items[j], files[j], root);
    ghost var from, to := m.file, Destination(m, root);
    var success;
    aborted, success := RelocateItem(runner, m, root, fs, hash);
    r := Report(m, from, to, success);
    now' := WithFile(items, now, m, m.file);
    forall k | 0 <= k < |items| ensures items[k].file == now'[k] {
      if items[k] != m {
        assert items[k].file == old(items[k].file) == now[k] == now'[k];
      } else {
        assert now'[k] == m.file;
      }
    }
  }

  /**
   * One turn of a runner's inner loop: the next item of the run, `items[|reports|]`, its record,
   * the file system after it and the files of the items after it.
   */
  method RunStep(runner: Runner, m: Media, root: Path, fs: FileSystem, hash: Bytes -> Bytes,
                 ghost items: seq<Media>, ghost files: seq<Path>, ghost dests: seq<Path>,
                 ghost reports: seq<Report>, ghost states: seq<map<Path, Bytes>>, ghost now: seq<Path>,
                 ghost dirSets: seq<set<Path>>)
    returns (aborted: bool, ghost reports': seq<Report>, ghost states': seq<map<Path, Bytes>>, ghost now': seq<Path>,
             ghost dirSets': seq<set<Path>>)
    requires fs.Valid() && |reports| < |items| && m == items[|reports|]
    requires DirTrace(reports, dirSets) && dirSets[|reports|] == fs.dirs
    requires Recorded(reports, items, files, dests, now) && Pending(items, files, now, |reports|)
    requires Aimed(items, files, dests, root) && Holds(items, now)
    requires Reached(reports, false) && Trace(runner, reports, states, hash) && states[|reports|] == fs.files
    modifies fs`files, fs`dirs, m`file
    ensures fs.Valid()
    ensures |reports'| == |reports| + 1
    ensures Recorded(reports', items, files, dests, now') && Pending(items, files, now', |reports'|)
    ensures Aimed(items, files, dests, root) && Holds(items, now')
    ensures Reached(reports', aborted) && Trace(runner, reports', states', hash)
    ensures states'[0] == states[0] && states'[|reports'|] == fs.files
    ensures DirTrace(reports', dirSets') && dirSets'[0] == dirSets[0] && dirSets'[|reports'|] == fs.dirs
  {
    ghost var j := |reports|;
    ghost var r;
    aborted, r, now' := RunNext(runner, m, root, fs, hash, items, files, dests, now, j);
    DirTraceAppend(reports, dirSets, r, fs.dirs);
    RecordedAppend(reports, r, items, files, dests, now, m.file);
    PendingAdvance(items, files, now, j, m.file);
    ReachedAppend(reports, [r], aborted);
    TraceAppend(runner, reports, states, [r], [states[j], fs.files], hash);
    reports', states', dirSets' := reports + [r], states + [fs.files], dirSets + [fs.dirs];
  }

  /**
   * The inner loop of a runner, over the media of one list, which are the next items of the
   * run. It stops at the first item whose destination has no parent, which aborts the whole
   * run; every other item, whatever I/O error it meets, is reported and the loop goes on.
   */
  method RunList(runner: Runner, list: MediaList, root: Path, fs: FileSystem, hash: Bytes -> Bytes,
                 ghost items: seq<Media>, ghost files: seq<Path>, ghost dests: seq<Path>,
                 ghost reports: seq<Report>, ghost states: seq<map<Path, Bytes>>, ghost now: seq<Path>,
                 ghost dirSets: seq<set<Path>>)
    returns (aborted: bool, ghost reports': seq<Report>, ghost states': seq<map<Path, Bytes>>, ghost now': seq<Path>,
             ghost dirSets': seq<set<Path>>)
    requires fs.Valid() && DirTrace(reports, dirSets) && dirSets[|reports|] == fs.dirs
    requires |reports| + |list.items| <= |items| && items[|reports|..|reports| + |list.items|] == list.items
    requires Recorded(reports, items, files, dests, now) && Pending(items, files, now, |reports|)
    requires Aimed(items, files, dests, root) && Holds(items, now)
    requires Reached(reports, false) && Trace(runner, reports, states, hash) && states[|reports|] == fs.files
    modifies fs`files, fs`dirs, (set m | m in list.items)`file
    ensures fs.Valid()
    ensures |reports| <= |reports'| <= |reports| + |list.items|
    ensures !aborted ==> |reports'| == |reports| + |list.items|
    ensures Recorded(reports', items, files, dests, now') && Pending(items, files, now', |reports'|)
    ensures Aimed(items, files, dests, root) && Holds(items, now')
    ensures Reached(reports', aborted) && Trace(runner, reports', states', hash)
    ensures states'[0] == states[0] && states'[|reports'|] == fs.files
    ensures DirTrace(reports', dirSets') && dirSets'[0] == dirSets[0] && dirSets'[|reports'|] == fs.dirs
  {
    aborted := false;
    reports', states', now', dirSets' := reports, states, now, dirSets;
    ghost var off := |reports|;
    var ms := list.items;
    var j := 0;
    while j < |ms| && !aborted
      invariant 0 <= j <= |ms| && fs.Valid() && items[off..off + |ms|] == ms
      invariant |reports'| == off + j && Reached(reports', aborted)
      invariant Recorded(reports', items, files, dests, now') && Pending(items, files, now', |reports'|)
      invariant Aimed(items, files, dests, root) && Holds(items, now')
      invariant Trace(runner, reports', states', hash) && states'[0] == states[0] && states'[|reports'|] == fs.files
      invariant DirTrace(reports', dirSets') && dirSets'[0] == dirSets[0] && dirSets'[|reports'|] == fs.dirs
    {
      assert ms[j] == items[off + j];
      aborted, reports', states', now', dirSets' := RunStep(runner, ms[j], root, fs, hash, items, files, dests, reports', states', now', dirSets');
      j := j + 1;
    }
  }

  /** The media of a sequence of lists, in queue order. */
  ghost function Items(lists: seq<MediaList>): seq<Media>
    reads set l | l in lists
  {
    Flatten(Parts(lists))
  }

  /** The items of each list. */
  ghost function Parts(lists: seq<MediaList>): seq<seq<Media>>
    reads set l | l in lists
  {
    seq(|lists|, k requires 0 <= k < |lists| reads set l | l in lists => lists[k].items)
  }

  /** A sequence of sequences, one after the other. */
  ghost function Flatten(parts: seq<seq<Media>>): seq<Media> {
    if parts == [] then [] else Flatten(parts[..|parts| - 1]) + parts[|parts| - 1]
  }

  /** The files of a sequence of media objects. */
  ghost function Files(ms: seq<Media>): seq<Path>
    reads set m | m in ms
  {
    seq(|ms|, k requires 0 <= k < |ms| reads set m | m in ms => ms[k].file)
  }

  /** Each of the media objects has the matching file of `now`. */
  ghost predicate Holds(ms: seq<Media>, now: seq<Path>)
    reads (set m | m in ms)`file
  {
    |ms| == |now| && forall k :: 0 <= k < |ms| ==> ms[k].file == now[k]
  }

  /** The destinations of a sequence of media objects under `root`. */
  ghost function Destinations(ms: seq<Media>, root: Path): seq<Path>
    reads set m | m in ms
  {
    seq(|ms|, k requires 0 <= k < |ms| reads set m | m in ms => Destination(ms[k], root))
  }

  /**
   * When the parts before part i make up the first n items, part i holds the next ones, and
   * the parts up to and including it the items up to its last.
   */
  lemma FlattenSlice(parts: seq<seq<Media>>, i: nat, all: seq<Media>, n: nat)
    requires i < |parts| && all == Flatten(parts) && n <= |all| && Flatten(parts[..i]) == all[..n]
    ensures n + |parts[i]| <= |all| && all[n..n + |parts[i]|] == parts[i]
    ensures Flatten(parts[..i + 1]) == all[..n + |parts[i]|]
  {
    assert parts[..i + 1][..i] == parts[..i];
    FlattenPrefix(parts, i + 1);
    var m := |parts[i]|;
    assert Flatten(parts[..i + 1]) == all[..n] + parts[i];
    assert Flatten(parts[..i + 1]) == all[..n + m];
    assert all[n..n + m] == all[..n + m][n..];
  }

  /** The items of a prefix of the parts are a prefix of the items of all of them. */
  lemma {:induction false} FlattenPrefix(parts: seq<seq<Media>>, n: nat)
    requires n <= |parts|
    ensures Flatten(parts[..n]) <= Flatten(parts)
    decreases |parts|
  {
    if n < |parts| {
      assert parts[..|parts| - 1][..n] == parts[..n];
      FlattenPrefix(parts[..|parts| - 1], n);
    } else {
      assert parts[..n] == parts;
    }
  }

  /** As many items as TotalSize counts. */
  lemma {:induction false} ItemsSize(lists: seq<MediaList>)
    ensures |Items(lists)| == TotalSize(lists)
    decreases |lists|
  {
    if lists != [] {
      var init := lists[..|lists| - 1];
      ItemsSize(init);
      assert Parts(lists)[..|lists| - 1] == Parts(init);
    }
  }

  lemma ListMediaQueued(q: MediaQueue, i: nat)
    requires i < |q.queue|
    ensures (set m | m in q.queue[i].items) <= QueuedMedia(q)
  {
  }

  /** The media objects of a queue's lists, the objects a runner updates. */
  ghost function QueuedMedia(q: MediaQueue): set<Media>
    reads q, set l | l in q.queue
  {
    set l, m | l in q.queue && m in l.items :: m
  }

  /** The lists of a queue one after the other: list i of the run is the next slice of its items. */
  method RunPart(runner: Runner, list: MediaList, root: Path, fs: FileSystem, hash: Bytes -> Bytes,
                 ghost parts: seq<seq<Media>>, ghost i: nat, ghost items: seq<Media>, ghost files: seq<Path>,
                 ghost dests: seq<Path>, ghost reports: seq<Report>, ghost states: seq<map<Path, Bytes>>,
                 ghost now: seq<Path>, ghost dirSets: seq<set<Path>>)
    returns (aborted: bool, ghost reports': seq<Report>, ghost states': seq<map<Path, Bytes>>, ghost now': seq<Path>,
             ghost dirSets': seq<set<Path>>)
    requires fs.Valid() && i < |parts| && list.items == parts[i] && items == Flatten(parts)
    requires DirTrace(reports, dirSets) && dirSets[|reports|] == fs.dirs
    requires |reports| <= |items| && Flatten(parts[..i]) == items[..|reports|]
    requires Recorded(reports, items, files, dests, now) && Pending(items, files, now, |reports|)
    requires Aimed(items, files, dests, root) && Holds(items, now)
    requires Reached(reports, false) && Trace(runner, reports, states, hash) && states[|reports|] == fs.files
    modifies fs`files, fs`dirs, (set m | m in list.items)`file
    ensures fs.Valid()
    ensures |reports'| <= |items| && (!aborted ==> Flatten(parts[..i + 1]) == items[..|reports'|])
    ensures Recorded(reports', items, files, dests, now') && Pending(items, files, now', |reports'|)
    ensures Aimed(items, files, dests, root) && Holds(items, now')
    ensures Reached(reports', aborted) && Trace(runner, reports', states', hash)
    ensures states'[0] == states[0] && states'[|reports'|] == fs.files
    ensures DirTrace(reports', dirSets') && dirSets'[0] == dirSets[0] && dirSets'[|reports'|] == fs.dirs
  {
    FlattenSlice(parts, i, items, |reports|);
    aborted, reports', states', now', dirSets' := RunList(runner, list, root, fs, hash, items, files, dests, reports, states, now, dirSets);
  }

  /** Before a run, every item is aimed at its destination. */
  lemma AimedAtStart(ms: seq<Media>, root: Path)
    ensures Aimed(ms, Files(ms), Destinations(ms, root), root) && Holds(ms, Files(ms))
  {
  }

  /**
   * ioStandardMoveRunner (Atomic) and ioNonAtomicMoveRunner (NonAtomic): every media object of
   * every list, in queue order. `reports` holds one record per item reached and `states` the
   * file system around each one; the run reaches every item unless it is aborted, and only a
   * destination without a parent aborts it. When no media object is queued twice, the k-th
   * record is about the k-th queued item's file and destination before the run, the item now
   * has the file the record says, and every item the run did not reach keeps its file.
   */
  method RunQueue(runner: Runner, q: MediaQueue, root: Path, fs: FileSystem, hash: Bytes -> Bytes)
    returns (aborted: bool, ghost reports: seq<Report>, ghost states: seq<map<Path, Bytes>>)
    requires fs.Valid()
    modifies fs`files, fs`dirs, QueuedMedia(q)`file
    ensures fs.Valid()
    ensures |reports| <= |Items(q.queue)| && (!aborted ==> |reports| == |Items(q.queue)|)
    ensures Reached(reports, aborted)
    ensures Trace(runner, reports, states, hash) && states[0] == old(fs.files) && states[|reports|] == fs.files
    ensures Recorded(reports, Items(q.queue), old(Files(Items(q.queue))), old(Destinations(Items(q.queue), root)),
                     Files(Items(q.queue)))
    ensures Pending(Items(q.queue), old(Files(Items(q.queue))), Files(Items(q.queue)), |reports|)
    ensures DirsMade(reports, old(fs.dirs), fs.dirs)
  {
    ghost var parts := Parts(q.queue);
    ghost var all := Flatten(parts);
    ghost var files, dests := Files(all), Destinations(all, root);
    AimedAtStart(all, root);
    ghost var now, dirSets;
    aborted, reports, states, now, dirSets := RunLists(runner, q, root, fs, hash, parts, all, files, dests);
    DirTraceMade(reports, dirSets);
    assert Parts(q.queue) == parts;
    assert Files(all) == now;
  }

  /** The outer loop of a runner, over the lists of the queue, with the run's items `all`. */
  method RunLists(runner: Runner, q: MediaQueue, root: Path, fs: FileSystem, hash: Bytes -> Bytes,
                  ghost parts: seq<seq<Media>>, ghost all: seq<Media>, ghost files: seq<Path>, ghost dests: seq<Path>)
    returns (aborted: bool, ghost reports: seq<Report>, ghost states: seq<map<Path, Bytes>>, ghost now: seq<Path>,
             ghost dirSets: seq<set<Path>>)
    requires fs.Valid() && all == Flatten(parts)
    requires |parts| == |q.queue| && forall k :: 0 <= k < |q.queue| ==> q.queue[k].items == parts[k]
    requires Aimed(all, files, dests, root) && Holds(all, files)
    modifies fs`files, fs`dirs, QueuedMedia(q)`file
    ensures fs.Valid()
    ensures |reports| <= |all| && (!aborted ==> |reports| == |all|)
    ensures Reached(reports, aborted)
    ensures Trace(runner, reports, states, hash) && states[0] == old(fs.files) && states[|reports|] == fs.files
    ensures Recorded(reports, all, files, dests, now) && Pending(all, files, now, |reports|) && Holds(all, now)
    ensures DirTrace(reports, dirSets) && dirSets[0] == old(fs.dirs) && dirSets[|reports|] == fs.dirs
  {
    now := files;
    aborted := false;
    reports, states, dirSets := [], [fs.files], [fs.dirs];
    var i := 0;
    while i < |q.queue| && !aborted
      invariant 0 <= i <= |q.queue| && fs.Valid()
      invariant |parts| == |q.queue| && forall k :: 0 <= k < |q.queue| ==> q.queue[k].items == parts[k]
      invariant |reports| <= |all| && (!aborted ==> Flatten(parts[..i]) == all[..|reports|])
      invariant Reached(reports, aborted)
      invariant Trace(runner, reports, states, hash) && states[0] == old(fs.files) && states[|reports|] == fs.files
      invariant Recorded(reports, all, files, dests, now) && Pending(all, files, now, |reports|)
      invariant Aimed(all, files, dests, root) && Holds(all, now)
      invariant DirTrace(reports, dirSets) && dirSets[0] == old(fs.dirs) && dirSets[|reports|] == fs.dirs
    {
      ListMediaQueued(q, i);
      aborted, reports, states, now, dirSets := RunPart(runner, q.queue[i], root, fs, hash, parts, i, all, files, dests, reports, states, now, dirSets);
      i := i + 1;
    }
    if !aborted {
      assert parts[..i] == parts;
    }
  }

  /**
   * executeFileOperation: an atomic move runs the standard runner; copy-and-delete runs the
   * non-atomic runner and then, falling through to the default case, also logs that the
   * operation is not implemented. Either way the runner's guarantees hold.
   */
  method ExecuteFileOperation(op: FileOperation, q: MediaQueue, root: Path, fs: FileSystem, hash: Bytes -> Bytes)
    returns (aborted: bool, ghost reports: seq<Report>, ghost states: seq<map<Path, Bytes>>)
    requires fs.Valid()
    modifies fs`files, fs`dirs, QueuedMedia(q)`file
    ensures fs.Valid()
    ensures |reports| <= |Items(q.queue)| && (!aborted ==> |reports| == |Items(q.queue)|)
    ensures Reached(reports, aborted)
    ensures Trace(if op == MOVE_FILE_ATOMICALLY then Atomic else NonAtomic, reports, states, hash)
    ensures states[0] == old(fs.files) && states[|reports|] == fs.files
    ensures Recorded(reports, Items(q.queue), old(Files(Items(q.queue))), old(Destinations(Items(q.queue), root)),
                     Files(Items(q.queue)))
    ensures Pending(Items(q.queue), old(Files(Items(q.queue))), Files(Items(q.queue)), |reports|)
    ensures DirsMade(reports, old(fs.dirs), fs.dirs)
  {
    match op
    case MOVE_FILE_ATOMICALLY =>
      aborted, reports, states := RunQueue(Atomic, q, root, fs, hash);
    case COPY_FILE_AND_DELETE_SRC =>
      aborted, reports, states := RunQueue(NonAtomic, q, root, fs, hash);
  }
}
