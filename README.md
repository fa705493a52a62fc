# videojs-levels in Dafny

A model of `lib/videojs-levels.js`, the video.js plugin that adds a quality
("levels") menu to the player's control bar. The plugin gives every playback
backend ("tech") a `getLevels`/`setLevel` pair, builds a menu button from the
current tech's levels, and rebuilds that button on every `loadedmetadata` event.

Modules, one per part of the plugin:

- `Wrappers` (wrappers.dfy): `Option`, which stands for JavaScript's `undefined`.
- `Levels` (levels.dfy): the `Level` record the adapters hand to the menu, and
  the truthiness tests the menu applies to `name` and `height`.
- `UnsupportedTechs` (unsupported.dfy): the Html5 and YouTube adapters. They
  report no levels and ignore `setLevel`.
- `FlashTech` (flash.dfy): the Flash adapter. Its two plugin-element
  properties are plain fields.
- `HlsJsTech` (hlsjs.dfy): the hls.js adapter. The engine's level objects are
  heap objects (`EngineLevel`), so the model shows where the index stamp lands:
  on the engine's own objects, through the shallow copy. The copy is an array
  sorted in place by a stable insertion sort, proved sorted, stable and a
  permutation.
- `HlsTech` (hls.dfy): the videojs-contrib-hls adapter. It covers the level
  list built from the master playlist, `setLevel`, and the replacement
  `selectPlaylist`, which honours a forced level and otherwise defers to the
  saved original.
- `LevelsMenu` (menu.dfy): `createItems`. It covers the label rule, the Auto
  item, the initial selection, and the click handler of the menu button
  (a class whose items array is updated in place).
- `LevelsPlugin` (plugin.dfy): the `loadedmetadata` lifecycle. It also has
  end-to-end statements that connect each adapter with the menu. One says
  that clicking item `k` of an hls.js menu sets `nextLevel` to the engine
  position of the level that item shows, even though the menu is sorted.

## Model

| member | source | states |
|---|---|---|
| HlsJsTech.HlsJs.GetLevels | lib/videojs-levels.js:124-137 | Returns a fresh array holding exactly the engine's level objects (a permutation, each traced to its input position). The array is sorted ascending by bitrate, and equal bitrates keep engine order. Every engine object is stamped with its position, so each returned level's index leads back to that same object in `hls.levels`. With no repeated object, index is the position and equal bitrates appear in index order. |
| HlsJsTech.StampPositions | lib/videojs-levels.js:130-133 | The stamping loop leaves the array unchanged. Each object ends up carrying the last position at which it occurs, since later writes win. |
| HlsJsTech.SortByBitrate | lib/videojs-levels.js:125-135 | Sorting with the three-way bitrate comparator leaves the array a permutation of its old contents, ascending by bitrate. Equal bitrates keep their relative input order. |
| HlsJsTech.InsertNext | lib/videojs-levels.js:135 | One insertion step extends the stably sorted prefix by one element and keeps the array a permutation. |
| HlsJsTech.StampedDistinct | lib/videojs-levels.js:131-133 | When no level object is repeated, the stamped index of every engine level is its position. |
| HlsJsTech.StampedPointsBack | lib/videojs-levels.js:129-135 | After stamping and a stable sort, every sorted level's index names an engine position that holds that very object. With distinct objects, equal bitrates are in increasing index order. |
| HlsJsTech.LastPosition | lib/videojs-levels.js:131-133 | The position the stamping loop leaves on an object: its last occurrence below `n`, or -1 when it does not occur there. |
| HlsJsTech.HlsJs.SetLevel | lib/videojs-levels.js:139-141 | Writes `nextLevel` and nothing else. |
| HlsTech.Hls.GetLevels | lib/videojs-levels.js:148-164 | Builds one level per master playlist entry, in manifest order. Its index is the position, bitrate is BANDWIDTH, name is NAME and url is the URI. width and height are defined exactly when RESOLUTION is, and then equal its values. The entry can be rebuilt from its level (`VariantOf`), so nothing read is lost. |
| HlsTech.PlaylistAt | lib/videojs-levels.js:174 | Indexing the master list yields an entry exactly for an in-range index, and `undefined` otherwise. |
| HlsTech.Hls.SelectPlaylist | lib/videojs-levels.js:170-176 | A forced level (defined and not -1) returns that master entry, or `undefined` when it is out of range. Otherwise the answer is the saved original's. |
| HlsTech.Hls.SetLevel | lib/videojs-levels.js:166-176 | Stores the forced level. From then on, `selectPlaylist` returns that entry whatever the saved original would say, or defers to the original for -1. |
| FlashTech.Flash.GetLevels | lib/videojs-levels.js:84-86 | The plugin's `levels` property, or the empty list when the property is falsy. |
| FlashTech.Flash.SetLevel | lib/videojs-levels.js:88-90 | Writes the plugin's `level` property and nothing else. |
| UnsupportedTechs.Tech.GetLevels | lib/videojs-levels.js:96-118 | Html5 and YouTube report no levels. |
| LevelsMenu.RoundKbps | lib/videojs-levels.js:217 | `Math.round(bitrate / 1000)`: the integer within half a unit of bitrate/1000, halves rounding up. |
| LevelsMenu.RoundKbpsUnique | lib/videojs-levels.js:217 | No other integer meets that bound, so the rounding is determined by it. |
| LevelsMenu.LabelOf | lib/videojs-levels.js:210-218 | The label is the name exactly when the name is truthy. It is the height exactly when the name is not truthy and the height is. Otherwise it is the bitrate in Kbps rounded to nearest, or "NaN Kbps" exactly when there is no bitrate either. |
| LevelsMenu.CreateItems | lib/videojs-levels.js:190-224 | No levels give no items. Otherwise there is one item more than there are levels: a selected Auto item with value -1 first, then each level in order. Each level's item is valued by its index, labelled by the label rule, and selected exactly when its index is -1. |
| LevelsMenu.AutoPreselected | lib/videojs-levels.js:200-224 | When the real levels have non-negative indices, a new menu has exactly one selected item, Auto. |
| LevelsMenu.ClickedItems | lib/videojs-levels.js:227-231 | After a click on item `k`, exactly item `k` is selected, and every item keeps its label and value. |
| LevelsMenu.LevelsMenuButton.constructor | lib/videojs-levels.js:182-206 | A new button's items are `createItems` of the levels given. No level has been requested and the button is live. |
| LevelsMenu.LevelsMenuButton.Click | lib/videojs-levels.js:226-234 | Updates the items in place to the clicked state. The clicked item's value is passed to `setLevel` exactly once. |
| LevelsMenu.LevelsMenuButton.Dispose | lib/videojs-levels.js:250-252 | The button is disposed. |
| LevelsPlugin.Plugin.constructor | lib/videojs-levels.js:243-247 | A newly registered plugin has no button. |
| LevelsPlugin.Plugin.OnLoadedMetadata | lib/videojs-levels.js:249-255 | Disposes the previous button if there is one, leaving its items and requests as they were, and appends a fresh button built from the current levels to the control bar. The fresh button has requested no level, so the handler itself never calls `setLevel`. Afterwards that button is the only live one, and every earlier one is disposed. |
| LevelsPlugin.UnsupportedTechShowsNoItems | lib/videojs-levels.js:196-198 | Under Html5 or YouTube the menu has no items at all, not even Auto. |
| LevelsPlugin.FlashWithoutLevelsShowsNoItems | lib/videojs-levels.js:85 | The same holds under Flash while the plugin reports no levels. |
| LevelsPlugin.ChooseHlsMenuItem | lib/videojs-levels.js:166-176 | Under contrib-hls, building the menu, clicking item `k` and calling `setLevel` selects only item `k`. `selectPlaylist` then returns master entry `k - 1`, or defers to the saved original for Auto. |
| LevelsPlugin.ChooseHlsJsMenuItem | lib/videojs-levels.js:124-141 | Under hls.js, clicking item `k` of the bitrate-sorted menu sets `nextLevel` to an engine position that holds the very level item `k` shows, or to -1 for Auto. The item's label is that level's label. |

## Left out

- `getTech`, `getEl` and `getItems` find a member by scanning an object's properties. The model passes the tech, the plugin element's properties and the button's items directly.
- `Player.getLevels` and `Player.setLevel` only forward to the current tech. The end-to-end members in `LevelsPlugin` call the tech directly.
- The Flash plugin's `vjs_getProperty`/`vjs_setProperty` are foreign calls into the Flash object. They are modelled as two fields.
- The video.js widget framework is not modelled: components, DOM elements, event listeners, `MenuItem` rendering and `addChild` layout. The control bar is a list of buttons, and `dispose` only marks a button.
- `mergeOptions` and the empty `defaults`: the plugin's settings are not modelled.
- Label text is not rendered to strings; `Label` keeps the name, the height or the Kbps number.
- `LevelsMenu.RoundKbps`: bitrates are integers, so the floating-point division and `Math.round` are done exactly in integer arithmetic. Non-integer bitrates are not modelled.
- `HlsJsTech.HlsJs.GetLevels`: `hls.levels` is a constant of the model because the adapter never reassigns it. The engine replacing its level list is not modelled.
- `HlsJsTech.HlsJs.GetLevels`: the model assumes the engine already has a level array. When `hls.levels` is missing, the source's `.slice(0)` throws a TypeError instead of returning a list; that case is not modelled.
- `HlsTech.Hls.GetLevels`: the model assumes a master playlist has been loaded. When `playlists.master` is missing, reading `master.playlists` at lib/videojs-levels.js:150 throws a TypeError instead of returning a list; that case is not modelled.
- `HlsJsTech.EngineLevel` keeps only `index`, `bitrate`, `name` and `height`, the fields the adapter and the menu read. An undefined bitrate (where the comparator answers 0) is not modelled.
- `HlsJsTech.SortByBitrate`: stability is what ECMAScript 2019 requires of `Array.prototype.sort`. Engines that sort unstably would order equal bitrates differently.
- The engine's own playlist selection and stream switching are out of scope. The saved `selectPlaylist` is a parameter, and `nextLevel` is only stored.
- The Html5 and YouTube `setLevel` does nothing. Its model `UnsupportedTechs.Tech.SetLevel` states this only through its empty frame, so it has no row above.
- Behaviour that may be unexpected, which the model follows:
  - The `getLevels` copy of hls.js is shallow, so the index stamp is written onto the engine's own level objects. The model shows this rather than a copy that leaves engine state alone.
  - The `selectPlaylist` replacement has no guard against wrapping twice. It is installed once, when the script loads, so the model has the one replacement.
  - contrib-hls `setLevel` does take effect, through that replacement.
