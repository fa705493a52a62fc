/**
 * The level menu button: one item per level plus a leading Auto item, each
 * labelled from what the level carries, and a click handler that moves the
 * selection and asks the player for that level.
 */
module LevelsMenu {
  import opened Wrappers
  import opened Levels

  /**
   * A menu label; rendered by the host as the name, `height + 'p'`,
   * `kbps + ' Kbps'`, or "NaN Kbps" when the level has no bitrate either.
   */
  datatype Label = Named(name: string) | Height(height: int) | Kbps(kbps: int) | NaNKbps

  /** A menu item's options: its label (caption), the level index it stands for, and whether it is selected. */
  datatype MenuItem = MenuItem(caption: Label, value: int, selected: bool)

  /** The synthetic level `{name: 'Auto', index: -1}`. */
  const Auto: Level := Level(-1, None, Some("Auto"), None, None, None)

  /**
   * `Math.round(bitrate / 1000)`: the integer nearest to bitrate/1000, halves
   * rounded up. For an integer bitrate this is `floor((bitrate + 500) / 1000)`.
   */
  function RoundKbps(bitrate: int): (kbps: int)
    ensures 1000 * kbps - 500 <= bitrate < 1000 * kbps + 500
  {
    (bitrate + 500) / 1000
  }

  /** Only one integer lies within half a unit (rounded up) of bitrate/1000. */
  lemma RoundKbpsUnique(bitrate: int, k: int)
    requires 1000 * k - 500 <= bitrate < 1000 * k + 500
    ensures k == RoundKbps(bitrate)
  {
  }

  /**
   * The label rule: the name if truthy, else the height if truthy, else the
   * rounded bitrate in Kbps; `undefined / 1000` is NaN when there is no bitrate.
   */
  function LabelOf(l: Level): (shown: Label)
    ensures shown.Named? <==> NameTruthy(l.name)
    ensures shown.Named? ==> shown.name == l.name.value
    ensures shown.Height? <==> !NameTruthy(l.name) && HeightTruthy(l.height)
    ensures shown.Height? ==> shown.height == l.height.value
    ensures shown.Kbps? <==> !NameTruthy(l.name) && !HeightTruthy(l.height) && l.bitrate.Some?
    ensures shown.Kbps? ==> 1000 * shown.kbps - 500 <= l.bitrate.value < 1000 * shown.kbps + 500
  {
    if NameTruthy(l.name) then Named(l.name.value)
    else if HeightTruthy(l.height) then Height(l.height.value)
    else if l.bitrate.Some? then Kbps(RoundKbps(l.bitrate.value))
    else NaNKbps
  }

  /** The item built for one level; selected exactly when its index is -1. */
  function ItemOf(l: Level): MenuItem
  {
    MenuItem(LabelOf(l), l.index, l.index == -1)
  }

  /**
   * `createItems`: nothing for no levels; otherwise Auto followed by one item
   * per level, in order.
   */
  function CreateItems(levels: seq<Level>): (items: seq<MenuItem>)
    ensures |levels| == 0 ==> items == []
    ensures |levels| > 0 ==> |items| == |levels| + 1
    ensures |levels| > 0 ==> items[0] == MenuItem(Named("Auto"), -1, true)
    ensures |levels| > 0 ==> forall j :: 0 <= j < |levels| ==>
      items[j + 1].value == levels[j].index &&
      items[j + 1].caption == LabelOf(levels[j]) &&
      (items[j + 1].selected <==> levels[j].index == -1)
  {
    if |levels| == 0 then []
    else
      var all := [Auto] + levels;
      seq(|all|, i requires 0 <= i < |all| => ItemOf(all[i]))
  }

  /** Exactly item `k` is selected. */
  predicate OnlySelected(items: seq<MenuItem>, k: int) {
    forall i :: 0 <= i < |items| ==> (items[i].selected <==> i == k)
  }

  /**
   * When every real level has a non-negative index, a fresh menu has exactly
   * one selected item, Auto.
   */
  lemma {:induction false} AutoPreselected(levels: seq<Level>)
    requires forall l :: l in levels ==> l.index >= 0
    requires |levels| > 0
    ensures OnlySelected(CreateItems(levels), 0)
  {
    var items := CreateItems(levels);
    forall i | 0 < i < |items|
      ensures !items[i].selected
    {
      assert levels[i - 1] in levels;
    }
  }

  /** The items after a click on item `k`: only `k` selected, labels and values kept. */
  function ClickedItems(items: seq<MenuItem>, k: int): (r: seq<MenuItem>)
    ensures |r| == |items| && OnlySelected(r, k)
    ensures forall i :: 0 <= i < |items| ==> r[i].caption == items[i].caption && r[i].value == items[i].value
  {
    seq(|items|, i requires 0 <= i < |items| => items[i].(selected := i == k))
  }

  class LevelsMenuButton {
    /** The menu items, in display order. */
    var items: array<MenuItem>
    /** The values handed to `player.setLevel`, one per click, oldest first. */
    var requested: seq<int>
    var disposed: bool

    /** Building the button runs `createItems` on the player's levels. */
    constructor (levels: seq<Level>)
      ensures fresh(items) && items[..] == CreateItems(levels)
      ensures requested == [] && !disposed
    {
      var all := CreateItems(levels);
      items := new MenuItem[|all|](i requires 0 <= i < |all| => all[i]);
      requested := [];
      disposed := false;
    }

    /**
     * The click handler of item `k`: deselect every item, select item `k`,
     * then ask the player for item `k`'s level, exactly once.
     */
    method Click(k: int)
      requires 0 <= k < items.Length
      modifies items, this`requested
      ensures items[..] == ClickedItems(old(items[..]), k)
      ensures requested == old(requested) + [old(items[k]).value]
    {
      for i := 0 to items.Length
        invariant forall j :: 0 <= j < i ==> items[j] == old(items[j]).(selected := false)
        invariant forall j :: i <= j < items.Length ==> items[j] == old(items[j])
        invariant requested == old(requested)
      {
        items[i] := items[i].(selected := false);
      }
      items[k] := items[k].(selected := true);
      requested := requested + [items[k].value];
    }

    /** `dispose`: the button stops being live. */
    method Dispose()
      modifies this`disposed
      ensures disposed
    {
      disposed := true;
    }
  }
}
