/**
 * The older relocation engine: every media object of a queue is moved atomically to an
 * organized path under a target directory, "<series>/Season <n>/<name><ext>" for TV and
 * "<name><ext>" directly under the target for a movie. A file name without a '.' makes the
 * extension lookup throw and ends the whole run; an I/O error only skips the item.
 */
module OrganizedMove {
  import opened Wrappers
  import opened Text
  import opened Paths
  import opened Media
  import opened FileSystem
  import opened MediaQueue
  import Relocation
  import TVParser = TV

  /**
   * The organized target of a media object, or None when its file name has no '.', on which
   * substring(lastIndexOf('.')) throws.
   */
  function OrganizedTarget(m: Media, target: Path): Option<Path>
    reads m
  {
    TargetOf(m, m.file, target)
  }

  /**
   * The organized target the media object would have if its file were `file`. It reads none of
   * the fields a move changes.
   */
  function TargetOf(m: Media, file: Path, target: Path): Option<Path>
    reads m`seriesName, m`seasonNumber, m`customName
  {
    match FileExtension(file)
    case None => None
    case Some(ext) =>
      var rest := match m.mediaType
        case TV => m.seriesName + "/Season " + Decimal(m.seasonNumber) + "/" + m.customName + ext
        case MOVIE => "/" + m.customName + ext;
      Some(Join(target, rest))
  }

  /**
   * Only a file name without a '.' has no organized target, and every target has a parent, so
   * createDirectories is never handed a null.
   */
  lemma OrganizedTargetShape(m: Media, target: Path)
    ensures OrganizedTarget(m, target).None? <==> !Contains(FileName(m.file), ".")
    ensures OrganizedTarget(m, target).Some? ==> Parent(OrganizedTarget(m, target).value).Some?
  {
    FileExtensionIs(m.file);
    match Extension(FileName(m.file))
    case None =>
      assert !Contains(FileName(m.file), ".");
    case Some(ext) =>
      assert Contains(FileName(m.file), ".");
      var rest := match m.mediaType
        case TV => m.seriesName + "/Season " + Decimal(m.seasonNumber) + "/" + m.customName + ext
        case MOVIE => "/" + m.customName + ext;
      OrganizedRestHasName(m, ext, rest);
      JoinHasParent(target, rest);
  }

  lemma OrganizedRestHasName(m: Media, ext: string, rest: string)
    requires |ext| >= 1 && ext[0] == '.'
    requires rest == match m.mediaType
      case TV => m.seriesName + "/Season " + Decimal(m.seasonNumber) + "/" + m.customName + ext
      case MOVIE => "/" + m.customName + ext
    ensures SeparatorBefore(rest)
  {
    match m.mediaType
    case TV =>
      assert rest[|m.seriesName|] == Separator && rest[|m.seriesName| + 1] == 'S';
    case MOVIE =>
      assert rest[0] == Separator && rest[1 + |m.customName|] == '.';
  }

  /**
   * For TV the organized target is the path the newer engine generates: both file an episode
   * under its series and season directories.
   */
  lemma TVTargetsAgree(m: Media, target: Path)
    requires m.mediaType == TV && Contains(FileName(m.file), ".")
    ensures OrganizedTarget(m, target) == Some(Relocation.Destination(m, target))
  {
    FileExtensionIs(m.file);
    TVTargetIsCustomPath(m, m.file, target);
  }

  /** The TV target of a file with an extension is the generated custom path. */
  lemma TVTargetIsCustomPath(m: Media, file: Path, target: Path)
    requires m.mediaType == TV && FileExtension(file).Some?
    ensures TargetOf(m, file, target) == Some(TVParser.CustomPath(m, file, target))
  {
    var ext := FileExtension(file).value;
    assert ExtOf(file) == ext;
    SeasonTailRegroups(m.seriesName, Decimal(m.seasonNumber), m.customName, ext);
  }

  /** The organized rest of a TV file is the series name followed by the custom path's tail. */
  lemma SeasonTailRegroups(series: string, season: string, name: string, ext: string)
    ensures series + "/Season " + season + "/" + name + ext == series + ("/Season " + season + "/" + name + ext)
  {
  }

  /**
   * moveMedia: creates the target's directories and moves the media's file there atomically;
   * a completed move points the media at the target. Any I/O error is logged and leaves the
   * files and the media as they were (directories created before it stay).
   */
  method MoveMedia(m: Media, to: Path, fs: FileSystem) returns (err: Option<IOError>)
    requires fs.Valid() && Parent(to).Some?
    modifies fs`files, fs`dirs, m`file
    ensures fs.Valid()
    ensures old(m.file) !in old(fs.files) ==> err.Some?
    ensures err.None? ==>
      old(m.file) in old(fs.files) && m.file == to &&
      fs.files == (old(fs.files) - {old(m.file)})[to := old(fs.files)[old(m.file)]]
    ensures err.Some? ==> fs.files == old(fs.files) && m.file == old(m.file)
    ensures old(fs.dirs) <= fs.dirs <= old(fs.dirs) + ParentDirs(to)
    ensures err.None? ==> ParentDirs(to) <= fs.dirs
  {
    err := fs.CreateDirectories(Parent(to).value);
    if err.Some? {
      return;
    }
    err := fs.Move(m.file, to);
    if err.None? && fs.Exists(to) {
      m.SetFile(to);
    }
  }

  /**
   * The record of one item organizedMove reached: the media object, its source, its target
   * (None for the file name without an extension that ends the run), and the error the move
   * met.
   */
  datatype Moved = Moved(media: Media, from: Path, to: Option<Path>, err: Option<IOError>)

  /**
   * What one item does to the files: a completed move takes the source's bytes to the target;
   * an item without a target, or whose move failed, changes no file.
   */
  ghost predicate MoveStep(r: Moved, before: map<Path, Bytes>, after: map<Path, Bytes>) {
    if Completed(r) then r.from in before && after == (before - {r.from})[r.to.value := before[r.from]]
    else after == before
  }

  /** Where an item leaves its media object's file: at its target after a completed move, else at its source. */
  ghost predicate Placed(r: Moved, file: Path) {
    file == if Completed(r) then r.to.value else r.from
  }

  /** The item had a target and its move went through. */
  predicate Completed(r: Moved) {
    r.to.Some? && r.err.None?
  }

  /** The directories moveMedia makes sure of for the item: those above its target, if it has one. */
  function TargetDirs(r: Moved): set<Path> {
    if r.to.Some? then ParentDirs(r.to.value) else {}
  }

  /** A source that disappeared has its bytes, unchanged, at the target. */
  predicate Kept(from: Path, to: Path, before: map<Path, Bytes>, after: map<Path, Bytes>) {
    from in before && from !in after ==> to in after && after[to] == before[from]
  }

  /** Every item keeps the bytes it moves and touches no file but its source and its target. */
  lemma MoveStepKeeps(r: Moved, before: map<Path, Bytes>, after: map<Path, Bytes>)
    requires MoveStep(r, before, after) && r.to.Some?
    ensures Kept(r.from, r.to.value, before, after)
    ensures Relocation.OnlyTouches(r.from, r.to.value, before, after)
  {
  }

  /** Every item had a target except the last one of an aborted run. */
  predicate MovedAll(rs: seq<Moved>, aborted: bool) {
    (forall k :: 0 <= k < |rs| && (k < |rs| - 1 || !aborted) ==> rs[k].to.Some?) &&
    (aborted ==> |rs| > 0 && rs[|rs| - 1].to.None?)
  }

  /** The file system of a run, state by state around each record's item. */
  ghost predicate MoveTrace(rs: seq<Moved>, states: seq<map<Path, Bytes>>) {
    |states| == |rs| + 1 &&
    forall k :: 0 <= k < |rs| ==> MoveStep(rs[k], states[k], states[k + 1])
  }

  lemma MovedAllAppend(rs: seq<Moved>, more: seq<Moved>, aborted: bool)
    requires MovedAll(rs, false) && MovedAll(more, aborted)
    ensures MovedAll(rs + more, aborted)
  {
    var all := rs + more;
    forall k | 0 <= k < |all| && (k < |all| - 1 || !aborted) ensures all[k].to.Some? {
      if k >= |rs| { assert all[k] == more[k - |rs|]; }
    }
    if aborted {
      assert all[|all| - 1] == more[|more| - 1];
    }
  }

  lemma MoveTraceAppend(rs: seq<Moved>, states: seq<map<Path, Bytes>>, more: seq<Moved>, next: seq<map<Path, Bytes>>)
    requires MoveTrace(rs, states) && MoveTrace(more, next) && states[|rs|] == next[0]
    ensures MoveTrace(rs + more, states + next[1..])
    ensures (states + next[1..])[0] == states[0]
    ensures (states + next[1..])[|rs + more|] == next[|more|]
  {
    var all, st := rs + more, states + next[1..];
    forall k | 0 <= k < |all| ensures MoveStep(all[k], st[k], st[k + 1]) {
      if k < |rs| {
        assert all[k] == rs[k] && st[k] == states[k] && st[k + 1] == states[k + 1];
      } else {
        assert all[k] == more[k - |rs|] && st[k] == next[k - |rs|] && st[k + 1] == next[k - |rs| + 1];
      }
    }
  }

  /** The directories above the targets of a run's records, record by record. */
  ghost function TargetDirsOf(rs: seq<Moved>): set<Path> {
    if rs == [] then {} else TargetDirsOf(rs[..|rs| - 1]) + TargetDirs(rs[|rs| - 1])
  }

  /** The directories above each record's target are among them. */
  lemma {:induction false} TargetDirsOfIncludes(rs: seq<Moved>, k: nat)
    requires k < |rs|
    ensures TargetDirs(rs[k]) <= TargetDirsOf(rs)
    decreases |rs|
  {
    if k < |rs| - 1 {
      var init := rs[..|rs| - 1];
      assert init[k] == rs[k];
      TargetDirsOfIncludes(init, k);
    }
  }

  /** And each of them lies above the target of some record. */
  lemma {:induction false} TargetDirsOfWitness(rs: seq<Moved>, d: Path) returns (k: nat)
    requires d in TargetDirsOf(rs)
    ensures k < |rs| && rs[k].to.Some? && d in ParentDirs(rs[k].to.value)
    decreases |rs|
  {
    var init := rs[..|rs| - 1];
    if d in TargetDirs(rs[|rs| - 1]) {
      k := |rs| - 1;
    } else {
      k := TargetDirsOfWitness(init, d);
      assert init[k] == rs[k];
    }
  }

  /**
   * The directories of a run, from `before` to `after`: none is removed, each new one lies above
   * the target of an item the run reached (TargetDirsOfWitness), and every completed item has all
   * the directories above its target.
   */
  ghost predicate DirsMoved(rs: seq<Moved>, before: set<Path>, after: set<Path>) {
    before <= after <= before + TargetDirsOf(rs) &&
    forall k {:trigger TargetDirs(rs[k])} :: 0 <= k < |rs| && Completed(rs[k]) ==> TargetDirs(rs[k]) <= after
  }

  /** One more item, which makes sure of directories above its own target only. */
  lemma DirsMovedAppend(rs: seq<Moved>, r: Moved, before: set<Path>, mid: set<Path>, after: set<Path>)
    requires DirsMoved(rs, before, mid) && mid <= after <= mid + TargetDirs(r)
    requires Completed(r) ==> TargetDirs(r) <= after
    ensures DirsMoved(rs + [r], before, after)
  {
    var all := rs + [r];
    assert all[..|rs|] == rs;
    forall k | 0 <= k < |all| && Completed(all[k]) ensures TargetDirs(all[k]) <= after {
      if k < |rs| {
        assert all[k] == rs[k];
      }
    }
  }
  /**
   * What one item does to the directories: it adds only directories above its target, and all
   * of them after a completed move.
   */
  ghost predicate DirStep(r: Moved, before: set<Path>, after: set<Path>) {
    before <= after <= before + TargetDirs(r) && (Completed(r) ==> TargetDirs(r) <= after)
  }

  /** The directories of a run, set by set: `ds[k]` just before the k-th record's item and `ds[k + 1]` just after it. */
  ghost predicate DirTrace(rs: seq<Moved>, ds: seq<set<Path>>) {
    |ds| == |rs| + 1 &&
    forall k :: 0 <= k < |rs| ==> DirStep(rs[k], ds[k], ds[k + 1])
  }

  lemma DirTraceAppend(rs: seq<Moved>, ds: seq<set<Path>>, r: Moved, d: set<Path>)
    requires DirTrace(rs, ds) && DirStep(r, ds[|rs|], d)
    ensures DirTrace(rs + [r], ds + [d])
  {
    var all, dd := rs + [r], ds + [d];
    forall k | 0 <= k < |all| ensures DirStep(all[k], dd[k], dd[k + 1]) {
      if k < |rs| {
        assert all[k] == rs[k] && dd[k] == ds[k] && dd[k + 1] == ds[k + 1];
      }
    }
  }

  /** A run's directory steps add up to what DirsMoved says, from its first set to its last. */
  lemma {:induction false} DirTraceMoved(rs: seq<Moved>, ds: seq<set<Path>>)
    requires DirTrace(rs, ds)
    ensures DirsMoved(rs, ds[0], ds[|rs|])
    decreases |rs|
  {
    if rs != [] {
      var n := |rs| - 1;
      var init, prefix := rs[..n], ds[..n + 1];
      forall k | 0 <= k < n ensures DirStep(init[k], prefix[k], prefix[k + 1]) {
        assert init[k] == rs[k];
      }
      DirTraceMoved(init, prefix);
      assert DirStep(rs[n], ds[n], ds[n + 1]);
      DirsMovedAppend(init, rs[n], ds[0], ds[n], ds[n + 1]);
      assert init + [rs[n]] == rs;
    }
  }


  /** The organized targets of a sequence of media objects. */
  ghost function OrganizedTargets(ms: seq<Media>, target: Path): seq<Option<Path>>
    reads set m | m in ms
  {
    seq(|ms|, k requires 0 <= k < |ms| reads set m | m in ms => OrganizedTarget(ms[k], target))
  }

  /**
   * The records of the first |rs| items of a run: the k-th is about the k-th item and, when no
   * object occurs twice, about the file and the target it had before the run (`files`,
   * `targets`), and its item left the file it has now (`now`) Placed.
   */
  ghost predicate Organized(rs: seq<Moved>, items: seq<Media>, files: seq<Path>, targets: seq<Option<Path>>, now: seq<Path>) {
    |rs| <= |items| == |files| == |targets| == |now| &&
    forall k {:trigger rs[k]} :: 0 <= k < |rs| ==>
      (rs[k].media == items[k] &&
       (Relocation.Distinct(items) ==> rs[k].from == files[k] && rs[k].to == targets[k] && Placed(rs[k], now[k])))
  }

  /** `targets[k]` is the organized target item k has when its file is `files[k]`. A run changes no field this reads. */
  ghost predicate Targeted(items: seq<Media>, files: seq<Path>, targets: seq<Option<Path>>, target: Path)
    reads (set m | m in items)`seriesName, (set m | m in items)`seasonNumber, (set m | m in items)`customName
  {
    |items| == |files| == |targets| &&
    forall k {:trigger TargetOf(items[k], files[k], target)} :: 0 <= k < |items| ==>
      targets[k] == TargetOf(items[k], files[k], target)
  }

  /** Before a run, every item is targeted as its file says. */
  lemma TargetedAtStart(ms: seq<Media>, target: Path)
    ensures Targeted(ms, Relocation.Files(ms), OrganizedTargets(ms, target), target)
    ensures Relocation.Holds(ms, Relocation.Files(ms))
  {
  }

  /** The record of item j joins the records of the items before it. */
  lemma OrganizedAppend(rs: seq<Moved>, r: Moved, items: seq<Media>, files: seq<Path>, targets: seq<Option<Path>>,
                        now: seq<Path>, f: Path)
    requires Organized(rs, items, files, targets, now) && |rs| < |items| && r.media == items[|rs|]
    requires Relocation.Distinct(items) ==> r.from == files[|rs|] && r.to == targets[|rs|] && Placed(r, f)
    ensures Organized(rs + [r], items, files, targets, Relocation.WithFile(items, now, items[|rs|], f))
  {
    var j, after, all := |rs|, Relocation.WithFile(items, now, items[|rs|], f), rs + [r];
    forall k | 0 <= k < |all|
      ensures all[k].media == items[k] &&
        (Relocation.Distinct(items) ==> all[k].from == files[k] && all[k].to == targets[k] && Placed(all[k], after[k]))
    {
      if k < j {
        assert all[k] == rs[k];
        if Relocation.Distinct(items) {
          assert items[k] != items[j] && after[k] == now[k];
        }
      } else {
        assert all[k] == r;
      }
    }
  }

  /** When no object occurs twice, the next item of a run still has its file and its target. */
  lemma NextTarget(m: Media, target: Path, items: seq<Media>, files: seq<Path>, targets: seq<Option<Path>>,
                   now: seq<Path>, j: nat)
    requires j < |items| && m == items[j]
    requires Relocation.Pending(items, files, now, j) && Targeted(items, files, targets, target)
    requires Relocation.Holds(items, now)
    ensures Relocation.Distinct(items) ==> m.file == files[j] && OrganizedTarget(m, target) == targets[j]
  {
    assert targets[j] == TargetOf(items[j], files[j], target);
  }

  /** One item: its organized target, then moveMedia; `aborted` is the missing extension. */
  method OrganizeItem(m: Media, target: Path, fs: FileSystem) returns (aborted: bool, ghost r: Moved)
    requires fs.Valid()
    modifies fs`files, fs`dirs, m`file
    ensures fs.Valid()
    ensures aborted <==> r.to.None?
    ensures r.media == m && r.from == old(m.file) && r.to == old(OrganizedTarget(m, target))
    ensures MoveStep(r, old(fs.files), fs.files) && Placed(r, m.file)
    ensures aborted ==> fs.dirs == old(fs.dirs)
    ensures old(fs.dirs) <= fs.dirs <= old(fs.dirs) + TargetDirs(r)
    ensures Completed(r) ==> TargetDirs(r) <= fs.dirs
  {
    var from := m.file;
    var to := OrganizedTarget(m, target);
    OrganizedTargetShape(m, target);
    if to.None? {
      return true, Moved(m, from, None, None);
    }
    var err := MoveMedia(m, to.value, fs);
    aborted := false;
    r := Moved(m, from, to, err);
  }

  /**
   * The next item of a run, `items[j]`: when no object occurs twice, its record is about the file
   * and the target it had before the run, and the media object is placed as the record says.
   * `now'` is the files of the items after it.
   */
  method OrganizeNext(m: Media, target: Path, fs: FileSystem,
                      ghost items: seq<Media>, ghost files: seq<Path>, ghost targets: seq<Option<Path>>,
                      ghost now: seq<Path>, ghost j: nat)
    returns (aborted: bool, ghost r: Moved, ghost now': seq<Path>)
    requires fs.Valid() && j < |items| && m == items[j]
    requires Relocation.Pending(items, files, now, j) && Targeted(items, files, targets, target)
    requires Relocation.Holds(items, now)
    modifies fs`files, fs`dirs, m`file
    ensures fs.Valid()
    ensures aborted <==> r.to.None?
    ensures MoveStep(r, old(fs.files), fs.files)
    ensures r.media == m
    ensures Relocation.Distinct(items) ==> r.from == files[j] && r.to == targets[j] && Placed(r, m.file)
    ensures now' == Relocation.WithFile(items, now, m, m.file) && Relocation.Holds(items, now')
    ensures DirStep(r, old(fs.dirs), fs.dirs)
  {
    NextTarget(m, target, items, files, targets, now, j);
    aborted, r := OrganizeItem(m, target, fs);
    now' := Relocation.WithFile(items, now, m, m.file);
    forall k | 0 <= k < |items| ensures items[k].file == now'[k] {
      if items[k] != m {
        assert items[k].file == old(items[k].file) == now[k] == now'[k];
      } else {
        assert now'[k] == m.file;
      }
    }
  }

  /** One turn of organizedMove's inner loop: the next item of the run, its record, the file system and the files after it. */
  method OrganizeStep(m: Media, target: Path, fs: FileSystem,
                      ghost items: seq<Media>, ghost files: seq<Path>, ghost targets: seq<Option<Path>>,
                      ghost reports: seq<Moved>, ghost states: seq<map<Path, Bytes>>, ghost now: seq<Path>,
                      ghost dirSets: seq<set<Path>>)
    returns (aborted: bool, ghost reports': seq<Moved>, ghost states': seq<map<Path, Bytes>>, ghost now': seq<Path>,
             ghost dirSets': seq<set<Path>>)
    requires fs.Valid() && |reports| < |items| && m == items[|reports|]
    requires DirTrace(reports, dirSets) && dirSets[|reports|] == fs.dirs
    requires Organized(reports, items, files, targets, now) && Relocation.Pending(items, files, now, |reports|)
    requires Targeted(items, files, targets, target) && Relocation.Holds(items, now)
    requires MovedAll(reports, false) && MoveTrace(reports, states) && states[|reports|] == fs.files
    modifies fs`files, fs`dirs, m`file
    ensures fs.Valid()
    ensures |reports'| == |reports| + 1
    ensures Organized(reports', items, files, targets, now') && Relocation.Pending(items, files, now', |reports'|)
    ensures Targeted(items, files, targets, target) && Relocation.Holds(items, now')
    ensures MovedAll(reports', aborted) && MoveTrace(reports', states')
    ensures states'[0] == states[0] && states'[|reports'|] == fs.files
    ensures DirTrace(reports', dirSets') && dirSets'[0] == dirSets[0] && dirSets'[|reports'|] == fs.dirs
  {
    ghost var j := |reports|;
    ghost var r;
    aborted, r, now' := OrganizeNext(m, target, fs, items, files, targets, now, j);
    OrganizedAppend(reports, r, items, files, targets, now, m.file);
    Relocation.PendingAdvance(items, files, now, j, m.file);
    MovedAllAppend(reports, [r], aborted);
    MoveTraceAppend(reports, states, [r], [states[j], fs.files]);
    DirTraceAppend(reports, dirSets, r, fs.dirs);
    reports', states', dirSets' := reports + [r], states + [fs.files], dirSets + [fs.dirs];
  }

  /** The inner loop of organizedMove, over the media of one list, which are the next items of the run. */
  method OrganizeList(list: MediaList, target: Path, fs: FileSystem,
                      ghost items: seq<Media>, ghost files: seq<Path>, ghost targets: seq<Option<Path>>,
                      ghost reports: seq<Moved>, ghost states: seq<map<Path, Bytes>>, ghost now: seq<Path>,
                      ghost dirSets: seq<set<Path>>)
    returns (aborted: bool, ghost reports': seq<Moved>, ghost states': seq<map<Path, Bytes>>, ghost now': seq<Path>,
             ghost dirSets': seq<set<Path>>)
    requires fs.Valid() && DirTrace(reports, dirSets) && dirSets[|reports|] == fs.dirs
    requires |reports| + |list.items| <= |items| && items[|reports|..|reports| + |list.items|] == list.items
    requires Organized(reports, items, files, targets, now) && Relocation.Pending(items, files, now, |reports|)
    requires Targeted(items, files, targets, target) && Relocation.Holds(items, now)
    requires MovedAll(reports, false) && MoveTrace(reports, states) && states[|reports|] == fs.files
    modifies fs`files, fs`dirs, (set m | m in list.items)`file
    ensures fs.Valid()
    ensures |reports| <= |reports'| <= |reports| + |list.items|
    ensures !aborted ==> |reports'| == |reports| + |list.items|
    ensures Organized(reports', items, files, targets, now') && Relocation.Pending(items, files, now', |reports'|)
    ensures Targeted(items, files, targets, target) && Relocation.Holds(items, now')
    ensures MovedAll(reports', aborted) && MoveTrace(reports', states')
    ensures states'[0] == states[0] && states'[|reports'|] == fs.files
    ensures DirTrace(reports', dirSets') && dirSets'[0] == dirSets[0] && dirSets'[|reports'|] == fs.dirs
  {
    aborted := false;
    reports', states', now', dirSets' := reports, states, now, dirSets;
    ghost var off := |reports|;
    var ms := list.items;
    var j := 0;
    while j < |ms| && !aborted
      invariant 0 <= j <= |ms| && fs.Valid() && items[off..off + |ms|] == ms
      invariant |reports'| == off + j && MovedAll(reports', aborted)
      invariant Organized(reports', items, files, targets, now') && Relocation.Pending(items, files, now', |reports'|)
      invariant Targeted(items, files, targets, target) && Relocation.Holds(items, now')
      invariant MoveTrace(reports', states') && states'[0] == states[0] && states'[|reports'|] == fs.files
      invariant DirTrace(reports', dirSets') && dirSets'[0] == dirSets[0] && dirSets'[|reports'|] == fs.dirs
    {
      assert ms[j] == items[off + j];
      aborted, reports', states', now', dirSets' := OrganizeStep(ms[j], target, fs, items, files, targets, reports', states', now', dirSets');
      j := j + 1;
    }
  }

  /**
   * organizedMove: every media object of every list, in queue order. The run reaches every item
   * unless a file name without an extension ends it; no I/O error does. `reports` holds one
   * record per item reached and `states` the files around each one. When no media object is
   * queued twice, the k-th record is about the k-th queued item's file and target before the
   * run, the item now has the file the record says, and every item the run did not reach keeps
   * its file.
   */
  method OrganizedMove(q: MediaQueue, target: Path, fs: FileSystem)
    returns (aborted: bool, ghost reports: seq<Moved>, ghost states: seq<map<Path, Bytes>>)
    requires fs.Valid()
    modifies fs`files, fs`dirs, Relocation.QueuedMedia(q)`file
    ensures fs.Valid()
    ensures |reports| <= |Relocation.Items(q.queue)| && (!aborted ==> |reports| == |Relocation.Items(q.queue)|)
    ensures MovedAll(reports, aborted)
    ensures MoveTrace(reports, states) && states[0] == old(fs.files) && states[|reports|] == fs.files
    ensures Organized(reports, Relocation.Items(q.queue), old(Relocation.Files(Relocation.Items(q.queue))),
      old(OrganizedTargets(Relocation.Items(q.queue), target)), Relocation.Files(Relocation.Items(q.queue)))
    ensures Relocation.Pending(Relocation.Items(q.queue), old(Relocation.Files(Relocation.Items(q.queue))),
      Relocation.Files(Relocation.Items(q.queue)), |reports|)
    ensures DirsMoved(reports, old(fs.dirs), fs.dirs)
  {
    ghost var parts := Relocation.Parts(q.queue);
    ghost var all := Relocation.Flatten(parts);
    ghost var files, targets := Relocation.Files(all), OrganizedTargets(all, target);
    TargetedAtStart(all, target);
    ghost var now, dirSets;
    aborted, reports, states, now, dirSets := OrganizeLists(q, target, fs, parts, all, files, targets);
    DirTraceMoved(reports, dirSets);
    assert Relocation.Parts(q.queue) == parts;
    assert Relocation.Files(all) == now;
  }

  /** The outer loop of organizedMove, over the lists of the queue, with the run's items `all`. */
  method OrganizeLists(q: MediaQueue, target: Path, fs: FileSystem,
                       ghost parts: seq<seq<Media>>, ghost all: seq<Media>, ghost files: seq<Path>,
                       ghost targets: seq<Option<Path>>)
    returns (aborted: bool, ghost reports: seq<Moved>, ghost states: seq<map<Path, Bytes>>, ghost now: seq<Path>,
             ghost dirSets: seq<set<Path>>)
    requires fs.Valid() && all == Relocation.Flatten(parts)
    requires |parts| == |q.queue| && forall k :: 0 <= k < |q.queue| ==> q.queue[k].items == parts[k]
    requires Targeted(all, files, targets, target) && Relocation.Holds(all, files)
    modifies fs`files, fs`dirs, Relocation.QueuedMedia(q)`file
    ensures fs.Valid()
    ensures |reports| <= |all| && (!aborted ==> |reports| == |all|)
    ensures MovedAll(reports, aborted)
    ensures MoveTrace(reports, states) && states[0] == old(fs.files) && states[|reports|] == fs.files
    ensures Organized(reports, all, files, targets, now) && Relocation.Pending(all, files, now, |reports|)
    ensures Relocation.Holds(all, now)
    ensures DirTrace(reports, dirSets) && dirSets[0] == old(fs.dirs) && dirSets[|reports|] == fs.dirs
  {
    now := files;
    aborted := false;
    reports, states, dirSets := [], [fs.files], [fs.dirs];
    var i := 0;
    while i < |q.queue| && !aborted
      invariant 0 <= i <= |q.queue| && fs.Valid()
      invariant |parts| == |q.queue| && forall k :: 0 <= k < |q.queue| ==> q.queue[k].items == parts[k]
      invariant |reports| <= |all| && (!aborted ==> Relocation.Flatten(parts[..i]) == all[..|reports|])
      invariant MovedAll(reports, aborted)
      invariant MoveTrace(reports, states) && states[0] == old(fs.files) && states[|reports|] == fs.files
      invariant Organized(reports, all, files, targets, now) && Relocation.Pending(all, files, now, |reports|)
      invariant Targeted(all, files, targets, target) && Relocation.Holds(all, now)
      invariant DirTrace(reports, dirSets) && dirSets[0] == old(fs.dirs) && dirSets[|reports|] == fs.dirs
    {
      Relocation.ListMediaQueued(q, i);
      aborted, reports, states, now, dirSets := OrganizePart(q.queue[i], target, fs, parts, i, all, files, targets, reports, states, now, dirSets);
      i := i + 1;
    }
    if !aborted {
      assert parts[..i] == parts;
    }
  }

  /** The lists of a queue one after the other: list i of the run is the next slice of its items. */
  method OrganizePart(list: MediaList, target: Path, fs: FileSystem,
                      ghost parts: seq<seq<Media>>, ghost i: nat, ghost items: seq<Media>, ghost files: seq<Path>,
                      ghost targets: seq<Option<Path>>, ghost reports: seq<Moved>, ghost states: seq<map<Path, Bytes>>,
                      ghost now: seq<Path>, ghost dirSets: seq<set<Path>>)
    returns (aborted: bool, ghost reports': seq<Moved>, ghost states': seq<map<Path, Bytes>>, ghost now': seq<Path>,
             ghost dirSets': seq<set<Path>>)
    requires fs.Valid() && i < |parts| && list.items == parts[i] && items == Relocation.Flatten(parts)
    requires |reports| <= |items| && Relocation.Flatten(parts[..i]) == items[..|reports|]
    requires Organized(reports, items, files, targets, now) && Relocation.Pending(items, files, now, |reports|)
    requires Targeted(items, files, targets, target) && Relocation.Holds(items, now)
    requires MovedAll(reports, false) && MoveTrace(reports, states) && states[|reports|] == fs.files
    requires DirTrace(reports, dirSets) && dirSets[|reports|] == fs.dirs
    modifies fs`files, fs`dirs, (set m | m in list.items)`file
    ensures fs.Valid()
    ensures |reports'| <= |items| && (!aborted ==> Relocation.Flatten(parts[..i + 1]) == items[..|reports'|])
    ensures Organized(reports', items, files, targets, now') && Relocation.Pending(items, files, now', |reports'|)
    ensures Targeted(items, files, targets, target) && Relocation.Holds(items, now')
    ensures MovedAll(reports', aborted) && MoveTrace(reports', states')
    ensures states'[0] == states[0] && states'[|reports'|] == fs.files
    ensures DirTrace(reports', dirSets') && dirSets'[0] == dirSets[0] && dirSets'[|reports'|] == fs.dirs
  {
    Relocation.FlattenSlice(parts, i, items, |reports|);
    aborted, reports', states', now', dirSets' := OrganizeList(list, target, fs, items, files, targets, reports, states, now, dirSets);
  }
}
