/**
 * The Flash adapter: both operations go straight to properties of the
 * plugin element (`vjs_getProperty('levels')`, `vjs_setProperty('level', …)`).
 * The plugin itself is not modelled; its two properties are plain fields.
 */
module FlashTech {
  import opened Wrappers
  import opened Levels

  class Flash {
    /** What `vjs_getProperty('levels')` yields; None stands for any falsy value. */
    var levelsProperty: Option<seq<Level>>
    /** The plugin's `level` property as last written through this adapter. */
    var levelProperty: Option<int>

    constructor (levelsProperty: Option<seq<Level>>)
      ensures this.levelsProperty == levelsProperty && levelProperty == None
    {
      this.levelsProperty := levelsProperty;
      levelProperty := None;
    }

    /** `getLevels`: the plugin's list, or the empty list when the property is falsy. */
    function GetLevels(): (levels: seq<Level>)
      reads this
      ensures levelsProperty.None? ==> levels == []
      ensures levelsProperty.Some? ==> levels == levelsProperty.value
    {
      levelsProperty.GetOr([])
    }

    /** `setLevel`: writes the plugin's `level` property and nothing else. */
    method SetLevel(level: int)
      modifies this`levelProperty
      ensures levelProperty == Some(level)
    {
      levelProperty := Some(level);
    }
  }
}
