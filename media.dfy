/**
 * The Media record shared by TV episodes and movies: a mutable file plus the metadata parsed
 * from its name. Java's abstract base class and its two subclasses become one class whose
 * `mediaType` says which of the subclass fields are meaningful; the parsers in the TV and
 * Movie modules fill them in.
 */
module Media {
  import opened Wrappers
  import opened Text
  import opened Paths
  import opened MetadataOps

  datatype MediaType = TV | MOVIE

  /** How building a media object can fail: an exception, or a loop that never ends. */
  datatype Failure = Throws | Hangs

  class Media {
    var file: Path
    const mediaType: MediaType
    var customName: string
    var resolution: string
    // TV fields
    var seriesName: string
    var seasonNumber: nat
    var episodeNumber: int
    // Movie fields
    var movieName: string
    var releaseYear: int

    /** Stores the path and the type; every other field has its declared default. */
    constructor (path: Path, mediaType: MediaType)
      ensures file == path && this.mediaType == mediaType
      ensures resolution == ResUnknown && customName == ""
      ensures seriesName == "" && seasonNumber == 1 && episodeNumber == 0
      ensures movieName == "" && releaseYear == 0
    {
      file := path;
      this.mediaType := mediaType;
      customName := "";
      resolution := ResUnknown;
      seriesName := "";
      seasonNumber := 1;
      episodeNumber := 0;
      movieName := "";
      releaseYear := 0;
    }

    /** Replaces the file and nothing else. */
    method SetFile(f: Path)
      modifies this`file
      ensures file == f
      ensures customName == old(customName) && resolution == old(resolution)
      ensures seriesName == old(seriesName) && seasonNumber == old(seasonNumber)
      ensures episodeNumber == old(episodeNumber)
      ensures movieName == old(movieName) && releaseYear == old(releaseYear)
    {
      file := f;
    }

    /** The title the media is grouped and filed under: the series name or the movie name. */
    function MediaTitle(): string
      reads this
    {
      match mediaType
      case TV => seriesName
      case MOVIE => movieName
    }
  }

  /** The file's extension, from the last '.' of its name; empty when the name has none. */
  function ExtOf(file: Path): (r: string)
    ensures r == "" || (r[0] == '.' && EndsWith(FileName(file), r))
    ensures r == "" <==> !Contains(FileName(file), ".")
  {
    FileExtensionIs(file);
    match FileExtension(file)
    case Some(e) => e
    case None => ""
  }
}
