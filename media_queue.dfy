/**
 * Grouping of media files: a queue of lists, one list per directory of TV episodes or one per
 * movie file, each list named after the title most of its valid items carry.
 *
 * The file system is seen through two sets, the regular files and the directories; the
 * recursive file search is an input sequence (`found`), and the iteration order of the tally's
 * hash map is chosen arbitrarily among all orders of its keys.
 */
module MediaQueue {
  import opened Wrappers
  import opened Text
  import opened Paths
  import opened Media
  import TVParser = TV
  import MovieParser = Movie

  // ---------------------------------------------------------------- MediaType.instantiate

  /**
   * MediaType.instantiate on a path already known to be a regular file: a new TV or Movie
   * object, parsed from its name. A parse that throws or hangs is reported as `failure`.
   */
  method Instantiate(mediaType: MediaType, path: Path, currentYear: nat) returns (m: Media, failure: Option<Failure>)
    requires currentYear >= 100
    ensures fresh(m) && m.mediaType == mediaType && m.file == path
    ensures mediaType == TV ==> var r := TVParser.TVTitleOf(path);
      (r.Err? ==> failure == Some(r.error)) &&
      (r.Ok? ==> failure.None? && TVParser.TVTitle(m.resolution, TVParser.InfoOf(m), m.customName) == r.value)
    ensures mediaType == MOVIE ==> var r := MovieParser.MovieTitleOf(path, currentYear);
      (r.Err? ==> failure == Some(r.error)) &&
      (r.Ok? ==> failure.None? && MovieParser.MovieTitle(m.resolution, m.releaseYear, m.movieName, m.customName) == r.value)
  {
    match mediaType
    case TV =>
      m, failure := TVParser.NewTV(path);
    case MOVIE =>
      m, failure := MovieParser.NewMovie(path, currentYear);
  }

  /** isValid, dispatched on the media type. */
  predicate IsValid(m: Media, files: set<Path>)
    reads m
  {
    match m.mediaType
    case TV => TVParser.IsValid(m, files)
    case MOVIE => MovieParser.IsValid(m, files)
  }

  // ---------------------------------------------------------------- tally

  /** What one item contributes to the tally: its title when it is valid, nothing otherwise. */
  function Vote(m: Media, files: set<Path>): Option<string>
    reads m
  {
    if IsValid(m, files) then Some(m.MediaTitle()) else None
  }

  function Votes(items: seq<Media>, files: set<Path>): seq<Option<string>>
    reads set m | m in items
  {
    if items == [] then []
    else Votes(items[..|items| - 1], files) + [Vote(items[|items| - 1], files)]
  }

  lemma VotesAppend(items: seq<Media>, m: Media, files: set<Path>)
    ensures Votes(items + [m], files) == Votes(items, files) + [Vote(m, files)]
  {
    assert (items + [m])[..|items|] == items;
  }

  /** One call of tallyNames: a valid title is introduced with 1 or has its count raised by 1. */
  function TallyOne(counts: map<string, nat>, vote: Option<string>): map<string, nat> {
    match vote
    case None => counts
    case Some(t) => if t in counts then counts[t := counts[t] + 1] else counts[t := 1]
  }

  /** The tally after a sequence of votes, built one tallyNames call at a time. */
  function Tally(votes: seq<Option<string>>): map<string, nat> {
    if votes == [] then map[]
    else TallyOne(Tally(votes[..|votes| - 1]), votes[|votes| - 1])
  }

  /**
   * Each title's count in the tally is the number of votes for it, and the titles present are
   * exactly those with at least one vote; invalid items (None) are not counted.
   */
  lemma {:induction false} TallyCounts(votes: seq<Option<string>>)
    ensures forall t :: t in Tally(votes) <==> Some(t) in votes
    ensures forall t :: t in Tally(votes) ==> Tally(votes)[t] == multiset(votes)[Some(t)]
  {
    if votes != [] {
      var prev := votes[..|votes| - 1];
      var last := votes[|votes| - 1];
      TallyCounts(prev);
      assert votes == prev + [last];
      assert multiset(votes) == multiset(prev) + multiset{last};
    }
  }

  // ---------------------------------------------------------------- majority selection

  /** `order` lists every key exactly once: one possible iteration order of the hash map. */
  predicate IsOrdering(order: seq<string>, keys: set<string>) {
    (forall i, j :: 0 <= i < j < |order| ==> order[i] != order[j]) &&
    (forall j :: 0 <= j < |order| ==> order[j] in keys) &&
    (forall k :: k in keys ==> k in order)
  }

  lemma {:induction false} OrderingExists(keys: set<string>) returns (order: seq<string>)
    ensures IsOrdering(order, keys)
    decreases |keys|
  {
    if keys == {} {
      order := [];
    } else {
      var k :| k in keys;
      var rest := OrderingExists(keys - {k});
      order := [k] + rest;
    }
  }

  /**
   * The selection loop: in iteration order, a key replaces the current choice only when its
   * count is strictly greater. The winner (at index `at` of the order) has the largest count,
   * and every key before it has a smaller one; with no keys the name stays unset.
   */
  method ChooseName(counts: map<string, nat>) returns (order: seq<string>, name: Option<string>, freq: int, ghost at: nat)
    ensures IsOrdering(order, counts.Keys)
    ensures name.None? <==> |counts| == 0
    ensures name.None? ==> freq == -1
    ensures name.Some? ==> at < |order| && order[at] == name.value && freq == counts[name.value]
    ensures forall k :: k in counts ==> counts[k] <= freq
    ensures name.Some? ==> forall j :: 0 <= j < at ==> counts[order[j]] < freq
  {
    ghost var someOrder := OrderingExists(counts.Keys);
    order :| IsOrdering(order, counts.Keys);
    assert IsOrdering(order, counts.Keys);
    assert forall j :: 0 <= j < |order| ==> order[j] in counts.Keys;
    freq := -1;
    name := None;
    at := 0;
    var i := 0;
    while i < |order|
      invariant 0 <= i <= |order|
      invariant name.None? <==> i == 0
      invariant name.None? ==> freq == -1
      invariant name.Some? ==> at < i && order[at] == name.value && freq == counts[name.value]
      invariant forall j :: 0 <= j < i ==> counts[order[j]] <= freq
      invariant name.Some? ==> forall j :: 0 <= j < at ==> counts[order[j]] < freq
    {
      var key := order[i];
      if counts[key] > freq {
        freq := counts[key];
        name := Some(key);
        at := i;
      }
      i := i + 1;
    }
    forall k | k in counts
      ensures counts[k] <= freq
    {
      assert k in counts.Keys;
      assert k in order;
    }
  }

  // ---------------------------------------------------------------- MediaList

  /** A group of media processed together, named after the title most of its items carry. */
  class MediaList {
    const dir: Path
    const ext: string
    var items: seq<Media>
    var name: Option<string>

    constructor (dir: Path, ext: string)
      ensures this.dir == dir && this.ext == ext && items == [] && name.None?
    {
      this.dir := dir;
      this.ext := ext;
      items := [];
      name := None;
    }

    /**
     * addFileToList: instantiates the file (known to be a regular file) and appends the new
     * media object; a parse that throws or hangs leaves the list as it was.
     */
    method AddFileToList(mediaType: MediaType, f: Path, currentYear: nat) returns (failure: Option<Failure>)
      requires currentYear >= 100
      modifies this`items
      ensures failure.Some? ==> items == old(items)
      ensures failure.None? ==>
        |items| == |old(items)| + 1 && items[..|old(items)|] == old(items) &&
        fresh(items[|old(items)|]) && items[|old(items)|].file == f && items[|old(items)|].mediaType == mediaType
    {
      var m;
      m, failure := Instantiate(mediaType, f, currentYear);
      if failure.None? {
        items := items + [m];
      }
    }

    method SetName(n: Option<string>)
      modifies this`name
      ensures name == n
    {
      name := n;
    }
  }

  /** Why a list or a queue could not be built. */
  datatype BuildError =
    | NoSuchFile              // the list's path is neither a directory nor a regular file
    | SourceMissing           // the queue's source does not exist
    | BadExtension            // the extension does not start with '.'
    | MediaFailed(Failure)    // building one of the media objects threw or did not terminate

  /** Paths are distinct, regular files are not directories, and every found file is a regular file. */
  predicate WellFormedView(found: seq<Path>, files: set<Path>, dirs: set<Path>) {
    files !! dirs && forall f :: f in found ==> f in files
  }

  /**
   * The list's name is a majority title: unset exactly when no item is valid, and otherwise a
   * tallied title whose count no other title exceeds.
   */
  predicate NamedByMajority(items: seq<Media>, files: set<Path>, name: Option<string>)
    reads set m | m in items
  {
    var counts := Tally(Votes(items, files));
    (name.None? <==> forall i :: 0 <= i < |items| ==> !IsValid(items[i], files)) &&
    (name.Some? ==> name.value in counts && forall t :: t in counts ==> counts[t] <= counts[name.value])
  }

  /** What ChooseName promises about the tally of the items is a majority naming of them. */
  lemma MajorityLemma(items: seq<Media>, files: set<Path>, name: Option<string>)
    requires var counts := Tally(Votes(items, files));
      (name.None? <==> |counts| == 0) &&
      (name.Some? ==> name.value in counts && forall t :: t in counts ==> counts[t] <= counts[name.value])
    ensures NamedByMajority(items, files, name)
  {
    TallyCounts(Votes(items, files));
    VotesLength(items, files);
    forall j | 0 <= j < |items|
      ensures IsValid(items[j], files) ==> Some(items[j].MediaTitle()) in Votes(items, files)
    {
      VotesIndex(items, files, j);
    }
    if name.Some? {
      VotesValid(items, files, name.value);
    }
  }

  /** One round of the directory loop: addFileToList, then tallyNames on the new last item. */
  method AddAndTally(list: MediaList, mediaType: MediaType, f: Path, files: set<Path>, currentYear: nat,
                     counts: map<string, nat>)
    returns (counts': map<string, nat>, failure: Option<Failure>)
    requires currentYear >= 100 && counts == Tally(Votes(list.items, files))
    modifies list`items
    ensures failure.Some? ==> list.items == old(list.items)
    ensures failure.None? ==>
      |list.items| == |old(list.items)| + 1 && list.items[..|old(list.items)|] == old(list.items) &&
      list.items[|old(list.items)|].file == f && list.items[|old(list.items)|].mediaType == mediaType
    ensures counts' == Tally(Votes(list.items, files))
  {
    ghost var before := list.items;
    failure := list.AddFileToList(mediaType, f, currentYear);
    if failure.Some? {
      return counts, failure;
    }
    var m := list.items[|list.items| - 1];
    assert list.items == before + [m];
    VotesAppend(before, m, files);
    ghost var votes := Votes(before, files);
    assert (votes + [Vote(m, files)])[..|votes|] == votes;
    counts' := TallyOne(counts, Vote(m, files));
  }

  /**
   * The directory loop of the MediaList constructor: one media object per found file, in order,
   * each tallied as it is added. A media object that cannot be built ends the loop.
   */
  method AddFoundFiles(list: MediaList, mediaType: MediaType, found: seq<Path>, files: set<Path>, currentYear: nat)
    returns (counts: map<string, nat>, failure: Option<Failure>)
    requires currentYear >= 100 && list.items == []
    modifies list`items
    ensures forall m :: m in list.items ==> m.mediaType == mediaType
    ensures failure.None? ==> |list.items| == |found| && forall i :: 0 <= i < |found| ==> list.items[i].file == found[i]
    ensures counts == Tally(Votes(list.items, files))
  {
    counts := map[];
    var i := 0;
    while i < |found|
      invariant 0 <= i <= |found| && |list.items| == i
      invariant forall j :: 0 <= j < i ==> list.items[j].mediaType == mediaType && list.items[j].file == found[j]
      invariant counts == Tally(Votes(list.items, files))
    {
      counts, failure := AddAndTally(list, mediaType, found[i], files, currentYear, counts);
      if failure.Some? {
        return;
      }
      i := i + 1;
    }
    failure := None;
  }

  /** The file branch of the MediaList constructor: one item, and the list takes its title as name. */
  method SingleFileList(path: Path, ext: string, mediaType: MediaType, currentYear: nat)
    returns (list: MediaList, failure: Option<Failure>)
    requires currentYear >= 100
    ensures fresh(list) && list.dir == path && list.ext == ext
    ensures forall m :: m in list.items ==> m.mediaType == mediaType
    ensures failure.None? ==>
      |list.items| == 1 && list.items[0].file == path && list.name == Some(list.items[0].MediaTitle())
  {
    list := new MediaList(path, ext);
    failure := list.AddFileToList(mediaType, path, currentYear);
    if failure.None? {
      list.SetName(Some(list.items[0].MediaTitle()));
    }
  }

  /**
   * The directory branch of the MediaList constructor: every found file is added and tallied,
   * then the majority title becomes the list's name.
   */
  method DirectoryList(path: Path, ext: string, mediaType: MediaType, found: seq<Path>, files: set<Path>, currentYear: nat)
    returns (list: MediaList, failure: Option<Failure>)
    requires currentYear >= 100
    ensures fresh(list) && list.dir == path && list.ext == ext
    ensures forall m :: m in list.items ==> m.mediaType == mediaType
    ensures failure.None? ==>
      |list.items| == |found| &&
      (forall i :: 0 <= i < |found| ==> list.items[i].file == found[i]) &&
      NamedByMajority(list.items, files, list.name)
  {
    list := new MediaList(path, ext);
    var counts;
    counts, failure := AddFoundFiles(list, mediaType, found, files, currentYear);
    if failure.None? {
      NameByMajority(list, files, counts);
    }
  }

  /** The naming step of the directory branch: the title ChooseName picks from the tally of the items. */
  method NameByMajority(list: MediaList, files: set<Path>, counts: map<string, nat>)
    requires counts == Tally(Votes(list.items, files))
    modifies list`name
    ensures NamedByMajority(list.items, files, list.name)
  {
    var order, name, freq, at := ChooseName(counts);
    MajorityLemma(list.items, files, name);
    list.SetName(name);
  }

  /**
   * new MediaList(path, ext, type). A regular file gives a one-item list named after that
   * item's title. A directory gives one item per found file, in order, named by the majority
   * title among the valid items. Anything else throws NoSuchFileException.
   */
  method NewMediaList(path: Path, ext: string, mediaType: MediaType, found: seq<Path>,
                      files: set<Path>, dirs: set<Path>, currentYear: nat)
    returns (list: MediaList, err: Option<BuildError>)
    requires currentYear >= 100 && WellFormedView(found, files, dirs)
    ensures fresh(list) && list.dir == path && list.ext == ext
    ensures forall m :: m in list.items ==> m.mediaType == mediaType
    ensures err == Some(NoSuchFile) <==> path !in dirs && path !in files
    ensures err.Some? ==> err.value.NoSuchFile? || err.value.MediaFailed?
    ensures err.None? && path in files ==>
      |list.items| == 1 && list.items[0].file == path && list.name == Some(list.items[0].MediaTitle())
    ensures err.None? && path in dirs ==>
      |list.items| == |found| &&
      (forall i :: 0 <= i < |found| ==> list.items[i].file == found[i]) &&
      NamedByMajority(list.items, files, list.name)
  {
    if path in dirs {
      var failure;
      list, failure := DirectoryList(path, ext, mediaType, found, files, currentYear);
      err := if failure.Some? then Some(MediaFailed(failure.value)) else None;
    } else if path in files {
      var failure;
      list, failure := SingleFileList(path, ext, mediaType, currentYear);
      err := if failure.Some? then Some(MediaFailed(failure.value)) else None;
    } else {
      list := new MediaList(path, ext);
      err := Some(NoSuchFile);
    }
  }


  lemma {:induction false} VotesIndex(items: seq<Media>, files: set<Path>, j: nat)
    requires j < |items|
    ensures |Votes(items, files)| == |items| && Votes(items, files)[j] == Vote(items[j], files)
    decreases |items|
  {
    var init := items[..|items| - 1];
    VotesLength(init, files);
    if j < |items| - 1 {
      VotesIndex(init, files, j);
    }
  }

  lemma {:induction false} VotesLength(items: seq<Media>, files: set<Path>)
    ensures |Votes(items, files)| == |items|
    decreases |items|
  {
    if items != [] {
      VotesLength(items[..|items| - 1], files);
    }
  }

  /** A title that has a vote belongs to some valid item. */
  lemma {:induction false} VotesValid(items: seq<Media>, files: set<Path>, t: string)
    requires Some(t) in Votes(items, files)
    ensures exists j :: 0 <= j < |items| && IsValid(items[j], files)
  {
    VotesLength(items, files);
    var j :| 0 <= j < |Votes(items, files)| && Votes(items, files)[j] == Some(t);
    VotesIndex(items, files, j);
  }

  // ---------------------------------------------------------------- MediaQueue

  function TotalSize(lists: seq<MediaList>): nat
    reads set l | l in lists
  {
    if lists == [] then 0 else TotalSize(lists[..|lists| - 1]) + |lists[|lists| - 1].items|
  }

  /** The queue of media lists the relocation runs over. */
  class MediaQueue {
    var queue: seq<MediaList>

    constructor ()
      ensures queue == []
    {
      queue := [];
    }

    /** addMediaListToQueue: only a non-empty list is appended; an empty one leaves the queue as it was. */
    method AddMediaListToQueue(list: MediaList) returns (added: bool)
      modifies this`queue
      ensures added <==> |list.items| > 0
      ensures queue == old(queue) + (if added then [list] else [])
      ensures TotalSize(queue) == old(TotalSize(queue)) + |list.items|
    {
      added := |list.items| > 0;
      if added {
        assert (queue + [list])[..|queue|] == queue;
        queue := queue + [list];
      }
    }

    /** size(): the items of all lists added up. */
    method Size() returns (n: nat)
      ensures n == TotalSize(queue)
    {
      n := 0;
      var i := 0;
      while i < |queue|
        invariant 0 <= i <= |queue|
        invariant n == TotalSize(queue[..i])
      {
        assert queue[..i + 1][..i] == queue[..i];
        n := n + |queue[i].items|;
        i := i + 1;
      }
      assert queue[..i] == queue;
    }
  }

  /** Every list of the queue is non-empty and its first item is the file it was built from. */
  predicate ListsStartAtDir(lists: seq<MediaList>)
    reads set l | l in lists
    reads set l | l in lists && |l.items| > 0 :: l.items[0]
  {
    forall l :: l in lists ==> |l.items| > 0 && l.items[0].file == l.dir
  }

  /**
   * One round of the movie branch: the MediaList constructor on a regular file, and the new
   * one-item list joins the queue; a media object that cannot be built leaves the queue as it was.
   */
  method AddFileList(q: MediaQueue, ext: string, f: Path, currentYear: nat) returns (failure: Option<Failure>)
    requires currentYear >= 100 && ListsStartAtDir(q.queue)
    modifies q`queue
    ensures ListsStartAtDir(q.queue)
    ensures failure.Some? ==> q.queue == old(q.queue)
    ensures failure.None? ==>
      |q.queue| == |old(q.queue)| + 1 && q.queue[..|old(q.queue)|] == old(q.queue) &&
      q.queue[|old(q.queue)|].dir == f && TotalSize(q.queue) == old(TotalSize(q.queue)) + 1
  {
    var list;
    list, failure := SingleFileList(f, ext, MOVIE, currentYear);
    if failure.Some? {
      return;
    }
    ghost var before := q.queue;
    var added := q.AddMediaListToQueue(list);
    assert q.queue == before + [list];
    assert q.queue[..|before|] == before;
    forall l | l in q.queue
      ensures |l.items| > 0 && l.items[0].file == l.dir
    {
      if l != list {
        assert l in before;
      }
    }
  }

  /**
   * The movie branch of the MediaQueue constructor: every found file becomes a list of its own,
   * in order. A media object that cannot be built ends the construction.
   */
  method AddListPerFile(q: MediaQueue, ext: string, found: seq<Path>, files: set<Path>, dirs: set<Path>, currentYear: nat)
    returns (err: Option<BuildError>)
    requires currentYear >= 100 && WellFormedView(found, files, dirs) && q.queue == []
    modifies q`queue
    ensures err.Some? ==> err.value.MediaFailed?
    ensures forall l :: l in q.queue ==> |l.items| > 0
    ensures err.None? ==>
      |q.queue| == |found| && TotalSize(q.queue) == |found| &&
      forall i :: 0 <= i < |found| ==> q.queue[i].dir == found[i] && q.queue[i].items[0].file == found[i]
  {
    var i := 0;
    while i < |found|
      invariant 0 <= i <= |found| && |q.queue| == i && TotalSize(q.queue) == i
      invariant ListsStartAtDir(q.queue)
      invariant forall j :: 0 <= j < i ==> q.queue[j].dir == found[j]
    {
      // a found file is a regular file, so the MediaList constructor takes its file branch
      assert found[i] in files && found[i] !in dirs;
      var failure := AddFileList(q, ext, found[i], currentYear);
      if failure.Some? {
        return Some(MediaFailed(failure.value));
      }
      i := i + 1;
    }
    err := None;
    assert forall j :: 0 <= j < |found| ==> q.queue[j] in q.queue;
  }

  /**
   * new MediaQueue(src, ext, type). A missing source is rejected before the extension is looked
   * at; an extension must start with '.'. A source directory then gives one list per found file
   * for movies and a single list for TV; only non-empty lists join the queue. A source that is
   * a regular file leaves the queue empty.
   */
  method NewMediaQueue(src: Path, ext: string, mediaType: MediaType, found: seq<Path>,
                       files: set<Path>, dirs: set<Path>, currentYear: nat)
    returns (q: MediaQueue, err: Option<BuildError>)
    requires currentYear >= 100 && WellFormedView(found, files, dirs)
    ensures fresh(q)
    ensures src !in files && src !in dirs ==> err == Some(SourceMissing)
    ensures (src in files || src in dirs) && !StartsWith(ext, ".") ==> err == Some(BadExtension)
    ensures err.Some? ==> err.value.SourceMissing? || err.value.BadExtension? || err.value.MediaFailed?
    ensures err.None? ==> forall l :: l in q.queue ==> |l.items| > 0
    ensures err.None? && src !in dirs ==> q.queue == []
    ensures err.None? && src in dirs && mediaType == MOVIE ==>
      |q.queue| == |found| && TotalSize(q.queue) == |found| &&
      forall i :: 0 <= i < |found| ==> q.queue[i].dir == found[i] && q.queue[i].items[0].file == found[i]
    ensures err.None? && src in dirs && mediaType == TV ==>
      |q.queue| == (if found == [] then 0 else 1) && TotalSize(q.queue) == |found|
    ensures err.None? && src in dirs && mediaType == TV && found != [] ==>
      var l := q.queue[0];
      l.dir == src && |l.items| == |found| &&
      (forall i :: 0 <= i < |found| ==> l.items[i].file == found[i] && l.items[i].mediaType == TV) &&
      NamedByMajority(l.items, files, l.name)
  {
    q := new MediaQueue();
    if src !in files && src !in dirs {
      return q, Some(SourceMissing);
    }
    if !StartsWith(ext, ".") {
      return q, Some(BadExtension);
    }
    if src !in dirs {
      return q, None;
    }
    match mediaType
    case MOVIE =>
      err := AddListPerFile(q, ext, found, files, dirs, currentYear);
    case TV =>
      var list, e := NewMediaList(src, ext, mediaType, found, files, dirs, currentYear);
      if e.Some? {
        return q, e;
      }
      var added := q.AddMediaListToQueue(list);
      err := None;
  }
}
