/**
 * The Level record every adapter hands to the menu, and the JavaScript
 * truthiness tests the menu applies to its optional fields.
 */
module Levels {
  import opened Wrappers

  /**
   * A selectable quality level. `index` is the position the adapter assigned
   * (0-based), or -1 for the synthetic Auto level; every other field is
   * optional because each backend fills in a different subset.
   */
  datatype Level = Level(
    index: int,
    bitrate: Option<int>,
    name: Option<string>,
    width: Option<int>,
    height: Option<int>,
    url: Option<string>)

  /** `if (level.name)`: defined and not the empty string. */
  predicate NameTruthy(name: Option<string>) {
    name.Some? && name.value != ""
  }

  /** `if (level.height)`: defined and not zero. */
  predicate HeightTruthy(height: Option<int>) {
    height.Some? && height.value != 0
  }
}
