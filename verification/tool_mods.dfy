/** Tool modifications and the tool-mod menu: the menu's size, which mod
    items may be placed in it, how its slots are filled from the installed
    mods, and how the installed mods are rebuilt from its contents. */
module ToolMods {
  import opened Common

  /** The Kotlin class of a modification, as consulted by incompatibility
      lists (`mod::class`). */
  datatype ModClass = AOEDModClass | VeinMinerModClass | OtherModClass(name: string)

  /** An application predicate; what it accepts is decided by `canApplyTo`,
      a parameter of the operations that use it. */
  datatype ApplicationPredicate = ClassPredicate(toolClass: string) | OtherPredicate(name: string)

  /** An item modification. Modifications are registry singletons, so
      object identity is modelled as value equality. `hasItem` says whether
      `modItem.get()` yields a modification item. */
  datatype Mod = Mod(
    cls: ModClass,
    identifier: string,
    incompatibleWith: set<ModClass>,
    predicates: seq<ApplicationPredicate>,
    hasItem: bool)

  /** What an inventory slot holds, as far as the menu can tell. */
  datatype StackItem = NotCustom | ModItem(mod: Mod) | OtherCustom(name: string)

  /** The tool being modified: its custom item class, installed mods and
      mod limit. */
  datatype Tool = Tool(customItem: string, mods: seq<Mod>, maxMods: int)

  /** `inventorySize`: `ceil((mods + 1) / 9.0) * 9`. */
  function InventorySize(installed: nat): (size: nat)
    ensures size % 9 == 0
    ensures installed + 1 <= size < installed + 1 + 9
  {
    (installed + 1 + 8) / 9 * 9
  }

  /** The menu is the smallest whole number of rows with room for one more
      mod than is installed. */
  lemma InventorySizeLeast(installed: nat, size: nat)
    requires size % 9 == 0 && installed + 1 <= size
    ensures InventorySize(installed) <= size
  {
  }

  /** `canAdd`: the item must be a modification item; one of the mod's
      application predicates must accept the tool; the tool must be under its
      mod limit; and no installed mod may be the same mod or list the new
      mod's class as incompatible. */
  function CanAdd(tool: Tool, item: StackItem, canApplyTo: (ApplicationPredicate, string) -> bool): (ok: bool)
    ensures ok <==>
      item.ModItem?
      && (exists i :: 0 <= i < |item.mod.predicates| && canApplyTo(item.mod.predicates[i], tool.customItem))
      && |tool.mods| < tool.maxMods
      && (forall j :: 0 <= j < |tool.mods| ==> tool.mods[j] != item.mod && item.mod.cls !in tool.mods[j].incompatibleWith)
  {
    if !item.ModItem? then false
    else
      var mod := item.mod;
      if !AnyApplies(mod.predicates, tool.customItem, canApplyTo) then false
      else if |tool.mods| >= tool.maxMods then false
      else NoneConflicts(tool.mods, mod)
  }

  function AnyApplies(ps: seq<ApplicationPredicate>, toolClass: string, canApplyTo: (ApplicationPredicate, string) -> bool): (r: bool)
    ensures r <==> exists i :: 0 <= i < |ps| && canApplyTo(ps[i], toolClass)
  {
    if |ps| == 0 then false
    else canApplyTo(ps[0], toolClass) || AnyApplies(ps[1..], toolClass, canApplyTo)
  }

  /** `none { existing -> incompatible || existing == mod }`. */
  function NoneConflicts(installed: seq<Mod>, mod: Mod): (r: bool)
    ensures r <==> forall j :: 0 <= j < |installed| ==> installed[j] != mod && mod.cls !in installed[j].incompatibleWith
  {
    if |installed| == 0 then true
    else
      var e := installed[0];
      if e == mod || mod.cls in e.incompatibleWith then false else NoneConflicts(installed[1..], mod)
  }

  /** Only the installed mods' incompatibility lists are consulted: the new
      mod's own list makes no difference unless it makes the new mod equal to
      an installed one. */
  lemma CanAddIgnoresOwnList(tool: Tool, mod: Mod, other: set<ModClass>, canApplyTo: (ApplicationPredicate, string) -> bool)
    requires mod !in tool.mods && mod.(incompatibleWith := other) !in tool.mods
    ensures CanAdd(tool, ModItem(mod), canApplyTo) == CanAdd(tool, ModItem(mod.(incompatibleWith := other)), canApplyTo)
  {
  }

  /** `populateMods`: the item-backed mods, in order, in consecutive slots
      from slot 0 of the fresh menu inventory; mods without an item are
      skipped and the remaining slots stay empty. */
  function PopulateMods(installed: seq<Mod>): (slots: seq<Option<StackItem>>)
    ensures |slots| == InventorySize(|installed|)
    ensures var backed := ItemBacked(installed);
      (forall i :: 0 <= i < |backed| ==> slots[i] == Some(ModItem(backed[i])))
      && (forall i :: |backed| <= i < |slots| ==> slots[i] == None)
  {
    var backed := ItemBacked(installed);
    var size := InventorySize(|installed|);
    seq(size, i requires 0 <= i < size => if i < |backed| then Some(ModItem(backed[i])) else None)
  }

  /** The installed mods that have a mod item, in order. */
  function ItemBacked(mods: seq<Mod>): (r: seq<Mod>)
    ensures |r| <= |mods|
    ensures forall m :: m in r <==> m in mods && m.hasItem
  {
    if |mods| == 0 then []
    else (if mods[0].hasItem then [mods[0]] else []) + ItemBacked(mods[1..])
  }

  /** The installed mods that have no mod item, in order. */
  function ItemLess(mods: seq<Mod>): (r: seq<Mod>)
    ensures forall m :: m in r <==> m in mods && !m.hasItem
  {
    if |mods| == 0 then []
    else (if !mods[0].hasItem then [mods[0]] else []) + ItemLess(mods[1..])
  }

  /** The mods of the modification items in `contents`, in slot order. */
  function ContentMods(contents: seq<Option<StackItem>>): (r: seq<Mod>)
    ensures forall m :: m in r <==> Some(ModItem(m)) in contents
  {
    if |contents| == 0 then []
    else
      (match contents[0] case Some(ModItem(m)) => [m] case _ => [])
        + ContentMods(contents[1..])
  }

  /** Appends the elements of `more` not yet present, keeping first
      occurrences, like adding to a `LinkedHashSet`. */
  function AddDistinct(acc: seq<Mod>, more: seq<Mod>): (r: seq<Mod>)
    requires Distinct(acc)
    ensures Distinct(r)
    ensures forall m :: m in r <==> m in acc || m in more
    ensures |acc| <= |r| && r[..|acc|] == acc
    decreases |more|
  {
    if |more| == 0 then acc
    else
      var next := if more[0] in acc then acc else acc + [more[0]];
      var r := AddDistinct(next, more[1..]);
      assert r[..|acc|] == r[..|next|][..|acc|];
      r
  }

  predicate Distinct(s: seq<Mod>)
  {
    NoDuplicates(s)
  }

  /** The elements of `s` that are not in `t`, in order (`removeAll`). */
  function Minus(s: seq<Mod>, t: seq<Mod>): (r: seq<Mod>)
    ensures forall m :: m in r <==> m in s && m !in t
    ensures |r| <= |s|
  {
    if |s| == 0 then []
    else (if s[0] in t then [] else [s[0]]) + Minus(s[1..], t)
  }

  lemma {:induction false} MinusAllIn(s: seq<Mod>, t: seq<Mod>)
    requires forall m :: m in s ==> m in t
    ensures Minus(s, t) == []
    decreases |s|
  {
    if |s| > 0 {
      assert s[0] in s;
      MinusAllIn(s[1..], t);
    }
  }

  datatype ModEvent = OnRemove(mod: Mod) | OnAdd(mod: Mod)

  /** `onRemove` for each removed mod, then `onAdd` for each added one. */
  function Events(removed: seq<Mod>, added: seq<Mod>): (r: seq<ModEvent>)
    ensures |r| == |removed| + |added|
    ensures forall m :: OnRemove(m) in r <==> m in removed
    ensures forall m :: OnAdd(m) in r <==> m in added
    ensures forall i, j :: 0 <= i < j < |r| && r[j].OnRemove? ==> r[i].OnRemove?
  {
    if |removed| > 0 then
      var rest := Events(removed[1..], added);
      assert forall m :: m in removed <==> m == removed[0] || m in removed[1..] by {
        assert removed == [removed[0]] + removed[1..];
      }
      [OnRemove(removed[0])] + rest
    else if |added| > 0 then
      var rest := Events(removed, added[1..]);
      assert forall m :: m in added <==> m == added[0] || m in added[1..] by {
        assert added == [added[0]] + added[1..];
      }
      [OnAdd(added[0])] + rest
    else []
  }

  /** The new mod list: distinct modifications found in the menu, in slot
      order, followed by the installed mods that have no item. */
  function RebuiltMods(installed: seq<Mod>, contents: seq<Option<StackItem>>): (mods: seq<Mod>)
    ensures Distinct(mods)
    ensures forall m :: m in mods <==> Some(ModItem(m)) in contents || (m in installed && !m.hasItem)
  {
    AddDistinct(AddDistinct([], ContentMods(contents)), ItemLess(installed))
  }

  /** `rebuildFromContents`: the mods are replaced by the rebuilt list;
      `onRemove` then fires for each previously installed mod that is gone,
      and `onAdd` for each new mod that was not installed. */
  function RebuildFromContents(installed: seq<Mod>, contents: seq<Option<StackItem>>): (r: (seq<Mod>, seq<ModEvent>))
    ensures r.0 == RebuiltMods(installed, contents)
    ensures |r.1| == |Minus(installed, r.0)| + |Minus(r.0, installed)|
    ensures forall m :: OnRemove(m) in r.1 <==> m in installed && m !in r.0
    ensures forall m :: OnAdd(m) in r.1 <==> m in r.0 && m !in installed
    ensures forall i, j :: 0 <= i < j < |r.1| && r.1[j].OnRemove? ==> r.1[i].OnRemove?
  {
    var mods := RebuiltMods(installed, contents);
    (mods, Events(Minus(installed, mods), Minus(mods, installed)))
  }

  /** `handleAddItem`: a refused item cancels the click; an accepted one is
      rebuilt into the mods together with the menu's contents, so the new
      mod is installed and its `onAdd` fires. */
  function HandleAddItem(tool: Tool, contents: seq<Option<StackItem>>, item: StackItem,
                         canApplyTo: (ApplicationPredicate, string) -> bool): (r: Option<(seq<Mod>, seq<ModEvent>)>)
    ensures r.None? <==> !CanAdd(tool, item, canApplyTo)
    ensures r.Some? ==> r.value == RebuildFromContents(tool.mods, contents + [Some(item)])
    ensures r.Some? ==> item.mod in r.value.0 && OnAdd(item.mod) in r.value.1 && OnRemove(item.mod) !in r.value.1
  {
    if !CanAdd(tool, item, canApplyTo) then None
    else
      assert Some(item) in contents + [Some(item)];
      Some(RebuildFromContents(tool.mods, contents + [Some(item)]))
  }

  /** `handleRemoveItem`: the menu's contents as a set, less the clicked
      stack; every slot holding an equal stack goes with it. */
  function HandleRemoveItem(installed: seq<Mod>, contents: seq<Option<StackItem>>, slot: nat): (r: (seq<Mod>, seq<ModEvent>))
    requires slot < |contents|
    ensures r == RebuildFromContents(installed, Without(contents, contents[slot]))
    ensures contents[slot].Some? && contents[slot].value.ModItem? && contents[slot].value.mod.hasItem ==>
      contents[slot].value.mod !in r.0
      && (contents[slot].value.mod in installed ==> OnRemove(contents[slot].value.mod) in r.1)
  {
    RebuildFromContents(installed, Without(contents, contents[slot]))
  }

  /** `subtract(setOf(x))`, keeping the order of what remains. */
  function Without(contents: seq<Option<StackItem>>, x: Option<StackItem>): (r: seq<Option<StackItem>>)
    ensures forall y :: y in r <==> y in contents && y != x
  {
    if |contents| == 0 then []
    else (if contents[0] == x then [] else [contents[0]]) + Without(contents[1..], x)
  }

  /** `handleSwapItem`: a refused item cancels the click; an accepted one
      replaces the clicked slot before the rebuild. */
  function HandleSwapItem(tool: Tool, contents: seq<Option<StackItem>>, slot: nat, item: StackItem,
                          canApplyTo: (ApplicationPredicate, string) -> bool): (r: Option<(seq<Mod>, seq<ModEvent>)>)
    requires slot < |contents|
    ensures r.None? <==> !CanAdd(tool, item, canApplyTo)
    ensures r.Some? ==> r.value == RebuildFromContents(tool.mods, contents[slot := Some(item)])
    ensures r.Some? ==> item.mod in r.value.0 && OnAdd(item.mod) in r.value.1
  {
    if !CanAdd(tool, item, canApplyTo) then None
    else
      assert contents[slot := Some(item)][slot] == Some(item);
      Some(RebuildFromContents(tool.mods, contents[slot := Some(item)]))
  }

  /** Closing the menu without changing it changes nothing: rebuilding from
      what `populateMods` put in the menu keeps exactly the installed mods
      (possibly reordered, item-backed ones first) and fires no event. */
  lemma PopulateThenRebuild(installed: seq<Mod>)
    requires Distinct(installed)
    ensures var r := RebuildFromContents(installed, PopulateMods(installed));
      (forall m :: m in r.0 <==> m in installed) && |r.0| == |installed| && r.1 == []
  {
    var slots := PopulateMods(installed);
    var backed := ItemBacked(installed);
    var r := RebuildFromContents(installed, slots);
    forall m ensures Some(ModItem(m)) in slots <==> m in backed {
      if Some(ModItem(m)) in slots {
        var k :| 0 <= k < |slots| && slots[k] == Some(ModItem(m));
        assert k < |backed|;
      }
      if m in backed {
        var k :| 0 <= k < |backed| && backed[k] == m;
        assert slots[k] == Some(ModItem(m));
      }
    }
    assert forall m :: m in r.0 <==> m in installed;
    DistinctSameSetsSameLength(r.0, installed);
    MinusAllIn(installed, r.0);
    MinusAllIn(r.0, installed);
  }

  /** Two duplicate-free sequences with the same elements have the same
      length. */
  lemma DistinctSameSetsSameLength(a: seq<Mod>, b: seq<Mod>)
    requires Distinct(a) && Distinct(b)
    requires forall m :: m in a <==> m in b
    ensures |a| == |b|
  {
    NoDuplicatesCardinality(a);
    NoDuplicatesCardinality(b);
    assert (set m | m in a) == (set m | m in b);
  }
}
