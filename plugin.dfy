/**
 * The `levels` plugin: on every `loadedmetadata` event the previous menu
 * button is disposed and a fresh one is built and added to the control bar,
 * so that the menu always reflects the backend currently playing. The
 * lemmas and the method at the end connect the adapters with the menu.
 */
module LevelsPlugin {
  import opened Wrappers
  import opened Levels
  import opened LevelsMenu
  import UnsupportedTechs
  import FlashTech
  import HlsTech
  import HlsJsTech

  class Plugin {
    /** The closure variable `button`: the most recently created menu button, if any. */
    var button: LevelsMenuButton?
    /** The menu buttons added to the player's control bar, oldest first. */
    var controlBar: seq<LevelsMenuButton>

    /** Every button but the newest has been disposed; the newest is `button` and still live. */
    ghost predicate Valid()
      reads this, controlBar
    {
      (button == null <==> controlBar == []) &&
      (button != null ==> controlBar[|controlBar| - 1] == button && !button.disposed) &&
      forall i :: 0 <= i < |controlBar| - 1 ==> controlBar[i].disposed
    }

    /** The buttons on the control bar that have not been disposed. */
    ghost function LiveButtons(): set<LevelsMenuButton>
      reads this, controlBar
    {
      set b | b in controlBar && !b.disposed
    }

    /** Registering the plugin: no button yet. */
    constructor ()
      ensures Valid() && button == null && controlBar == []
    {
      button := null;
      controlBar := [];
    }

    /**
     * The `loadedmetadata` handler. `levels` is what `player.getLevels()`
     * answers at this moment, which the new button turns into its items.
     */
    method OnLoadedMetadata(levels: seq<Level>)
      requires Valid()
      modifies this, button
      ensures Valid()
      ensures button != null && fresh(button) && fresh(button.items)
      ensures button.items[..] == CreateItems(levels) && button.requested == []
      ensures controlBar == old(controlBar) + [button]
      ensures old(button) != null ==> old(button).disposed
      ensures old(button) != null ==> old(button).items == old(button.items) && old(button).requested == old(button.requested)
      ensures LiveButtons() == {button}
    {
      ghost var bar := controlBar;
      if button != null {
        button.Dispose();
      }
      assert forall i :: 0 <= i < |bar| ==> bar[i].disposed;
      button := new LevelsMenuButton(levels);
      controlBar := controlBar + [button];
      assert forall i :: 0 <= i < |controlBar| - 1 ==> controlBar[i].disposed;
      assert LiveButtons() == {button} by {
        forall b | b in controlBar && !b.disposed
          ensures b == button
        {
          var i :| 0 <= i < |controlBar| && controlBar[i] == b;
          assert i == |controlBar| - 1;
        }
      }
    }
  }

  /** A backend without levels never gets a visible menu: not even Auto is shown. */
  lemma UnsupportedTechShowsNoItems(tech: UnsupportedTechs.Tech)
    ensures CreateItems(tech.GetLevels()) == []
  {
  }

  /** Nor does the Flash backend while its plugin reports no levels. */
  lemma FlashWithoutLevelsShowsNoItems(flash: FlashTech.Flash)
    requires flash.levelsProperty.None?
    ensures CreateItems(flash.GetLevels()) == []
  {
  }

  /**
   * With the contrib-hls backend, building the menu from `getLevels`,
   * clicking item `k` and passing its value to `setLevel` makes the replaced
   * `selectPlaylist` answer master playlist entry `k - 1` (or defer to the
   * saved selection for Auto, item 0), whatever the saved selection says.
   */
  method ChooseHlsMenuItem(tech: HlsTech.Hls, k: int) returns (button: LevelsMenuButton)
    requires 0 <= k <= |tech.master| && |tech.master| > 0
    modifies tech
    ensures fresh(button) && OnlySelected(button.items[..], k)
    ensures tech.master == old(tech.master)
    ensures k == 0 ==> forall saved :: tech.SelectPlaylist(saved) == saved()
    ensures k > 0 ==> forall saved :: tech.SelectPlaylist(saved) == Some(tech.master[k - 1])
  {
    var levels := tech.GetLevels();
    button := new LevelsMenuButton(levels);
    button.Click(k);
    tech.SetLevel(button.requested[|button.requested| - 1]);
  }

  /**
   * With the hls.js backend the menu lists the engine's levels sorted by
   * bitrate, yet clicking item `k` sets `nextLevel` to the engine position of
   * the level that item shows (or -1 for Auto, item 0), because `getLevels`
   * stamped every level with its position before sorting.
   */
  method ChooseHlsJsMenuItem(tech: HlsJsTech.HlsJs, k: int) returns (button: LevelsMenuButton, sorted: seq<HlsJsTech.EngineLevel>)
    requires 0 <= k <= |tech.levels| && |tech.levels| > 0
    modifies tech, tech.levels
    ensures fresh(button) && OnlySelected(button.items[..], k)
    ensures |sorted| == |tech.levels| && HlsJsTech.SortedByBitrate(sorted)
    ensures button.items.Length == |sorted| + 1
    ensures k == 0 ==> tech.nextLevel == -1
    ensures k > 0 ==> 0 <= tech.nextLevel < |tech.levels| && tech.levels[tech.nextLevel] == sorted[k - 1]
    ensures k > 0 ==> button.items[k].caption == LabelOf(HlsJsTech.AsLevel(sorted[k - 1]))
  {
    var copy, origin := tech.GetLevels();
    sorted := copy[..];
    var levels := seq(|sorted|, i requires 0 <= i < |sorted| reads sorted => HlsJsTech.AsLevel(sorted[i]));
    ghost var chosen := if k == 0 then Auto else levels[k - 1];
    assert k > 0 ==> HlsJsTech.AsLevel(sorted[k - 1]) == chosen;
    assert k > 0 ==> 0 <= chosen.index < |tech.levels| && tech.levels[chosen.index] == sorted[k - 1];
    assert CreateItems(levels)[k].value == chosen.index;
    button := new LevelsMenuButton(levels);
    button.Click(k);
    assert button.requested[|button.requested| - 1] == chosen.index;
    tech.SetLevel(button.requested[|button.requested| - 1]);
    // the same fact, restated after the heap changes, as a hint that keeps the solver's cost steady across seeds
    assert k > 0 ==> HlsJsTech.AsLevel(sorted[k - 1]) == chosen;
  }
}
