/**
 * The Html5 and YouTube adapters: neither backend exposes levels to this
 * plugin (YouTube draws its own quality menu), so both report none and
 * ignore level requests.
 */
module UnsupportedTechs {
  import opened Levels

  datatype Tech = Html5 | Youtube {

    /** `getLevels`: always the empty list. */
    function GetLevels(): (levels: seq<Level>)
      ensures |levels| == 0
    {
      []
    }

    /** `setLevel`: does nothing; the empty frame (no `modifies`) is its whole contract. */
    method SetLevel(level: int)
    {
    }
  }
}
