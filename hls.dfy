/**
 * The videojs-contrib-hls adapter. Levels are read from the parsed master
 * playlist: one per EXT-X-STREAM-INF entry (section 4.3.4.2 of RFC 8216),
 * whose BANDWIDTH, NAME and RESOLUTION attributes have already been parsed
 * by the engine. Selection works by replacing the engine's `selectPlaylist`
 * with a wrapper that honours a forced level and otherwise defers to the
 * saved original.
 */
module HlsTech {
  import opened Wrappers
  import opened Levels

  datatype Resolution = Resolution(width: int, height: int)

  /** The parsed attributes of one variant stream that the adapter reads. */
  datatype Attributes = Attributes(
    bandwidth: Option<int>,
    name: Option<string>,
    resolution: Option<Resolution>)

  /** One entry of `playlists.master.playlists`. */
  datatype Variant = Variant(attributes: Attributes, uri: string)

  /** The level object built for master playlist entry `i`. */
  function LevelOf(v: Variant, i: int): Level {
    var res := v.attributes.resolution;
    Level(
      index := i,
      bitrate := v.attributes.bandwidth,
      name := v.attributes.name,
      width := if res.Some? then Some(res.value.width) else None,
      height := if res.Some? then Some(res.value.height) else None,
      url := Some(v.uri))
  }

  /**
   * The master playlist entry a level describes: the inverse of `LevelOf`,
   * showing that no attribute the adapter reads is lost.
   */
  function VariantOf(l: Level): Variant {
    var res := if l.width.Some? && l.height.Some? then Some(Resolution(l.width.value, l.height.value)) else None;
    Variant(Attributes(l.bitrate, l.name, res), l.url.GetOr(""))
  }

  /** `playlists[k]` in JavaScript: undefined (None) outside the list. */
  function PlaylistAt(playlists: seq<Variant>, k: int): (p: Option<Variant>)
    ensures p.Some? <==> 0 <= k < |playlists|
    ensures p.Some? ==> p.value == playlists[k]
  {
    if 0 <= k < |playlists| then Some(playlists[k]) else None
  }

  /** `forceLevel` is defined and not -1. */
  predicate Forced(forceLevel: Option<int>) {
    forceLevel.Some? && forceLevel.value != -1
  }

  class Hls {
    /** `playlists.master.playlists`, in manifest order. */
    var master: seq<Variant>
    /** `forceLevel`: undefined (None) until the first `setLevel`. */
    var forceLevel: Option<int>

    constructor (master: seq<Variant>)
      ensures this.master == master && forceLevel == None
    {
      this.master := master;
      forceLevel := None;
    }

    /**
     * `getLevels`: one level per master playlist entry, in manifest order,
     * built by a loop that pushes onto an initially empty list.
     */
    method GetLevels() returns (levels: seq<Level>)
      ensures |levels| == |master|
      ensures forall i :: 0 <= i < |master| ==>
        levels[i].index == i &&
        levels[i].bitrate == master[i].attributes.bandwidth &&
        levels[i].name == master[i].attributes.name &&
        levels[i].url == Some(master[i].uri)
      ensures forall i :: 0 <= i < |master| ==>
        (levels[i].width.Some? <==> master[i].attributes.resolution.Some?) &&
        (levels[i].height.Some? <==> master[i].attributes.resolution.Some?)
      ensures forall i :: 0 <= i < |master| && master[i].attributes.resolution.Some? ==>
        levels[i].width == Some(master[i].attributes.resolution.value.width) &&
        levels[i].height == Some(master[i].attributes.resolution.value.height)
      ensures forall i :: 0 <= i < |master| ==> VariantOf(levels[i]) == master[i]
    {
      levels := [];
      var i := 0;
      while i < |master|
        invariant 0 <= i <= |master|
        invariant |levels| == i
        invariant forall k :: 0 <= k < i ==> levels[k] == LevelOf(master[k], k)
      {
        var variant := master[i];
        levels := levels + [LevelOf(variant, i)];
        i := i + 1;
      }
    }

    /**
     * The replacement `selectPlaylist`. `saved` stands for the engine's own
     * selection (`_selectPlaylist`), whose answer depends on engine state
     * outside this model.
     */
    function SelectPlaylist(saved: () -> Option<Variant>): (p: Option<Variant>)
      reads this
      ensures Forced(forceLevel) ==> p == PlaylistAt(master, forceLevel.value)
      ensures !Forced(forceLevel) ==> p == saved()
    {
      if Forced(forceLevel) then PlaylistAt(master, forceLevel.value) else saved()
    }

    /**
     * `setLevel`: stores the forced level. From then on the replaced
     * `selectPlaylist` returns entry `level` whatever the saved selection
     * would say, or defers to the saved selection when `level` is -1.
     */
    method SetLevel(level: int)
      modifies this`forceLevel
      ensures forceLevel == Some(level) && master == old(master)
      ensures level != -1 ==> forall saved :: SelectPlaylist(saved) == PlaylistAt(master, level)
      ensures level == -1 ==> forall saved: () -> Option<Variant> :: SelectPlaylist(saved) == saved()
    {
      forceLevel := Some(level);
    }
  }
}
