/**
 * The advanced track search service: its configuration (whether lyrics are
 * loaded, how many objects the cache may serve) and the predicate that decides
 * whether a cached track is complete enough to be served from the cache.
 *
 * The search itself, the cache and the result parsing live in the generic search
 * service and the track search parser, which are not part of this model; the
 * search is a parameter of `PerformSearch`.
 */
module TrackSearch {
  import opened Outcomes
  import opened Entities

  /** Integer.MAX_VALUE, the largest 32-bit signed integer. */
  const IntMaxValue: int := 0x7fff_ffff

  /**
   * hasAllInformation: a cached track is complete when it has lyrics or, failing
   * that, when its disc type is known.
   */
  function HasAllInformation(track: Track): (r: bool)
    ensures !r <==> track.lyrics == [] && track.discType.None?
  {
    if track.lyrics != [] then true
    else if track.discType.Some? then true
    else false
  }

  /** A track with lyrics is complete. */
  lemma CompleteWithLyrics(track: Track)
    requires track.lyrics != []
    ensures HasAllInformation(track)
  {
  }

  /** A track with a known disc type is complete, even without lyrics. */
  lemma CompleteWithDiscType(track: Track)
    requires track.discType.Some?
    ensures HasAllInformation(track)
  {
  }

  /** Giving a track lyrics makes it complete, and never makes a complete one incomplete. */
  lemma LyricsMonotone(track: Track, lyrics: string)
    requires lyrics != []
    ensures HasAllInformation(track.(lyrics := lyrics))
    ensures HasAllInformation(track) ==> HasAllInformation(track.(lyrics := lyrics))
  {
  }

  /** Giving a track a disc type makes it complete, and never makes a complete one incomplete. */
  lemma DiscTypeMonotone(track: Track, discType: DiscType)
    ensures HasAllInformation(track.(discType := Some(discType)))
    ensures HasAllInformation(track) ==> HasAllInformation(track.(discType := Some(discType)))
  {
  }

  /** Completeness depends on the lyrics and the disc type only. */
  lemma CompletenessIgnoresIdentity(track: Track, id: int, name: string)
    ensures HasAllInformation(track.(id := id, name := name)) == HasAllInformation(track)
  {
  }

  /** The track search parser, as far as the service configures it. */
  class TrackSearchParser {
    /** Whether the parser downloads each track's lyrics. */
    var loadLyrics: bool

    /** A parser whose lyrics flag is whatever its own construction leaves it at. */
    constructor ()
    {
    }
  }

  /** The advanced track search service. */
  class TrackSearchService {
    /** Whether searches load lyrics. */
    var loadLyrics: bool
    /** How many objects the cache may serve; the generic search service reads it. */
    var objectToLoad: int
    /** The parser returned by getSearchParser, fixed for the service's lifetime. */
    const parser: TrackSearchParser

    /** The default service: no lyrics. */
    constructor ()
      ensures !loadLyrics && objectToLoad == IntMaxValue
      ensures fresh(parser)
    {
      loadLyrics := false;
      objectToLoad := IntMaxValue;
      parser := new TrackSearchParser();
    }

    /** A service with the given lyrics flag; the cache is enabled by the largest object count. */
    constructor WithLoadLyrics(loadLyrics: bool)
      ensures this.loadLyrics == loadLyrics && objectToLoad == IntMaxValue
      ensures fresh(parser)
    {
      this.loadLyrics := loadLyrics;
      objectToLoad := IntMaxValue;
      parser := new TrackSearchParser();
    }

    /** setLoadLyrics: only the flag changes. */
    method SetLoadLyrics(loadLyrics: bool)
      modifies this
      ensures this.loadLyrics == loadLyrics
      ensures objectToLoad == old(objectToLoad)
    {
      this.loadLyrics := loadLyrics;
    }

    /**
     * performSearch: hands the service's lyrics flag to the parser, then runs the
     * generic search, given here as `search`, a function of the parser's flag.
     */
    method PerformSearch(search: bool -> seq<Track>) returns (tracks: seq<Track>)
      modifies parser
      ensures parser.loadLyrics == loadLyrics
      ensures tracks == search(loadLyrics)
    {
      parser.loadLyrics := loadLyrics;
      tracks := search(parser.loadLyrics);
    }
  }
}
