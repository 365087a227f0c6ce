/**
 * The UI manager: the registry of named windows with their visibility, the
 * set of open window names kept by the opened/closed events, the crafting
 * material check, and the icon and colour lookups with their fallbacks.
 */
module UiManager {
  import opened Wrappers

  // ---------------------------------------------------------------- crafting materials

  datatype Material = Material(name: string, required: int)

  datatype InventoryItem = InventoryItem(name: string, quantity: int)

  /** A schematic whose `materials` field may be missing. */
  datatype Schematic = Schematic(materials: Option<seq<Material>>)

  predicate Covers(item: InventoryItem, m: Material)
  {
    item.name == m.name && item.quantity >= m.required
  }

  /** `inventoryItems.some(item => same name and enough quantity)`. */
  function Available(m: Material, items: seq<InventoryItem>): (b: bool)
    ensures b <==> exists k :: 0 <= k < |items| && Covers(items[k], m)
  {
    if items == [] then false
    else if Covers(items[0], m) then true
    else
      var rest := Available(m, items[1..]);
      assert rest <==> exists k :: 1 <= k < |items| && Covers(items[k], m) by {
        if rest {
          var k :| 0 <= k < |items[1..]| && Covers(items[1..][k], m);
          assert items[k + 1] == items[1..][k];
        }
        forall k | 1 <= k < |items| && Covers(items[k], m)
          ensures rest
        {
          assert items[1..][k - 1] == items[k];
        }
      }
      rest
  }

  /** The loop over the materials that returns false at the first one not available. */
  function AllAvailable(materials: seq<Material>, items: seq<InventoryItem>): (b: bool)
    ensures b <==> forall j :: 0 <= j < |materials| ==> Available(materials[j], items)
  {
    if materials == [] then true
    else if !Available(materials[0], items) then false
    else
      var rest := AllAvailable(materials[1..], items);
      assert rest <==> forall j :: 1 <= j < |materials| ==> Available(materials[j], items) by {
        if rest {
          forall j | 1 <= j < |materials|
            ensures Available(materials[j], items)
          {
            assert materials[1..][j - 1] == materials[j];
          }
        }
        if !rest {
          var j :| 0 <= j < |materials[1..]| && !Available(materials[1..][j], items);
          assert materials[j + 1] == materials[1..][j];
        }
      }
      rest
  }

  /** `validateCraftingMaterials(schematic, items)`. */
  function ValidateCraftingMaterials(schematic: Option<Schematic>, items: seq<InventoryItem>): (ok: bool)
    ensures schematic.None? || schematic.value.materials.None? ==> !ok
    ensures schematic.Some? && schematic.value.materials.Some? ==>
      (ok <==> forall j :: 0 <= j < |schematic.value.materials.value| ==>
        exists k :: 0 <= k < |items| && Covers(items[k], schematic.value.materials.value[j]))
  {
    match schematic
    case None => false
    case Some(s) =>
      match s.materials
      case None => false
      case Some(materials) => AllAvailable(materials, items)
  }

  /** An empty material list needs nothing. */
  lemma NoMaterialsNeedNothing(items: seq<InventoryItem>)
    ensures ValidateCraftingMaterials(Some(Schematic(Some([]))), items)
  {
  }

  /** Having more items never makes a schematic uncraftable. */
  lemma ValidateMonotone(schematic: Option<Schematic>, items: seq<InventoryItem>, more: seq<InventoryItem>)
    requires ValidateCraftingMaterials(schematic, items)
    ensures ValidateCraftingMaterials(schematic, items + more)
  {
    var materials := schematic.value.materials.value;
    forall j | 0 <= j < |materials|
      ensures exists k :: 0 <= k < |items + more| && Covers((items + more)[k], materials[j])
    {
      var k :| 0 <= k < |items| && Covers(items[k], materials[j]);
      assert (items + more)[k] == items[k];
    }
  }

  // ---------------------------------------------------------------- icons and colours

  const RESOURCE_ICONS: map<string, string> := map[
    "mineral" := "fas fa-gem", "chemical" := "fas fa-flask", "gas" := "fas fa-wind",
    "energy" := "fas fa-bolt", "flora" := "fas fa-leaf", "creature" := "fas fa-paw"]

  const NOTIFICATION_ICONS: map<string, string> := map[
    "success" := "check-circle", "error" := "exclamation-triangle", "warning" := "exclamation-circle",
    "info" := "info-circle", "discovery" := "search-location", "skill" := "star"]

  const NOTIFICATION_COLORS: map<string, string> := map[
    "success" := "#00ff88, #00cec9", "error" := "#ff4757, #ff3838", "warning" := "#ffda79, #f39c12",
    "info" := "#74b9ff, #0984e3", "discovery" := "#fd79a8, #e84393", "skill" := "#fdcb6e, #e17055"]

  /** `iconMap[type] || fallback`: every table value is a non-empty string, so only a missing key falls back. */
  function Lookup(table: map<string, string>, key: string, fallback: string): string
  {
    if key in table && table[key] != "" then table[key] else fallback
  }

  /** `getResourceIcon(type)`: the question mark, which no resource has, exactly for an unknown type. */
  function GetResourceIcon(resourceType: string): (icon: string)
    ensures icon == "fas fa-question" <==> resourceType !in RESOURCE_ICONS
    ensures resourceType in RESOURCE_ICONS ==> icon == RESOURCE_ICONS[resourceType]
  {
    Lookup(RESOURCE_ICONS, resourceType, "fas fa-question")
  }

  function GetNotificationIcon(kind: string): (icon: string)
    ensures icon in NOTIFICATION_ICONS.Values
  {
    assert NOTIFICATION_ICONS["info"] == "info-circle";
    Lookup(NOTIFICATION_ICONS, kind, "info-circle")
  }

  function GetNotificationColors(kind: string): (colors: string)
    ensures colors in NOTIFICATION_COLORS.Values
  {
    assert NOTIFICATION_COLORS["info"] == "#74b9ff, #0984e3";
    Lookup(NOTIFICATION_COLORS, kind, "#74b9ff, #0984e3")
  }

  /** An unknown notification type is drawn exactly as an `info` one. */
  lemma UnknownNotificationIsInfo(kind: string)
    requires kind !in NOTIFICATION_ICONS
    ensures GetNotificationIcon(kind) == GetNotificationIcon("info")
    ensures GetNotificationColors(kind) == GetNotificationColors("info")
  {
  }

  // ---------------------------------------------------------------- windows

  const SYSTEM_NAMES: set<string> := {"inventory", "worldMap", "crafting", "character", "resources"}

  /** `this.systems` (each window's `isVisible`) and `gameState.ui.openWindows`. */
  class Manager {
    var visible: map<string, bool>
    var openWindows: set<string>

    /** The five windows, all hidden, and no open window recorded. */
    constructor ()
      ensures visible.Keys == SYSTEM_NAMES && forall n :: n in visible ==> !visible[n]
      ensures openWindows == {}
    {
      visible := map n | n in SYSTEM_NAMES :: false;
      openWindows := {};
    }

    /** `toggleSystem(name)`: flips that window's visibility; an unknown name changes nothing. */
    method ToggleSystem(systemName: string)
      modifies this
      ensures systemName !in old(visible) ==> visible == old(visible)
      ensures systemName in old(visible) ==> visible == old(visible)[systemName := !old(visible)[systemName]]
      ensures openWindows == old(openWindows)
    {
      if systemName !in visible {
        return;
      }
      visible := visible[systemName := !visible[systemName]];
    }

    /** `closeAllSystems()`: hides every window and forgets every open window. */
    method CloseAllSystems()
      modifies this
      ensures visible.Keys == old(visible).Keys && forall n :: n in visible ==> !visible[n]
      ensures openWindows == {}
    {
      var todo := visible.Keys;
      while todo != {}
        invariant todo <= visible.Keys && visible.Keys == old(visible).Keys
        invariant forall n :: n in visible && n !in todo ==> !visible[n]
        decreases |todo|
      {
        var n :| n in todo;
        if visible[n] {
          visible := visible[n := false];
        }
        todo := todo - {n};
      }
      openWindows := {};
    }

    /** The `ui:system:opened` handler. */
    method SystemOpened(systemName: string)
      modifies this
      ensures openWindows == old(openWindows) + {systemName} && visible == old(visible)
    {
      openWindows := openWindows + {systemName};
    }

    /** The `ui:system:closed` handler. */
    method SystemClosed(systemName: string)
      modifies this
      ensures openWindows == old(openWindows) - {systemName} && visible == old(visible)
    {
      openWindows := openWindows - {systemName};
    }
  }
}
