/** The carbon processor: turns concrete powder into concrete. The glass at
    (0, 0, 1) chooses the colour when it is stained; otherwise the powder's
    own colour is kept. */
module CarbonProcessors {
  import opened Common
  import opened Text
  import opened FurnaceMachines

  /** The power storage capacity of a carbon processor. */
  const CarbonPowerCapacity: int := 30_000

  /** The power one conversion costs. */
  const CarbonPowerPerItem: int := 100

  /** The sixteen dye colours of Minecraft's material names. */
  const Colours: set<string> := {"WHITE", "ORANGE", "MAGENTA", "LIGHT_BLUE", "YELLOW", "LIME", "PINK", "GRAY",
    "LIGHT_GRAY", "CYAN", "PURPLE", "BLUE", "BROWN", "GREEN", "RED", "BLACK"}

  /** `Material.isStainedGlass`: the sixteen stained glass blocks. */
  predicate IsStainedGlass(name: string)
  {
    exists c :: c in Colours && name == c + "_STAINED_GLASS"
  }

  /** `Material.isConcretePowder`: the sixteen concrete powders. */
  predicate IsConcretePowder(name: string)
  {
    exists c :: c in Colours && name == c + "_CONCRETE_POWDER"
  }

  /** `getOutput`: one block of the material named after the stained glass
      with "STAINED_GLASS" replaced by "CONCRETE", or, without stained glass,
      after the fuel with a trailing "_POWDER" removed. A name that is no
      material (`Material.getMaterial` gives null) throws; the message names
      the missing concrete in the glass case but the glass block in the
      powder case. */
  function CarbonOutput(glass: string, fuel: Stack, materials: set<string>): (r: Result<Stack>)
    ensures r.Ok? ==> r.value.amount == 1 && r.value.material in materials
    ensures IsStainedGlass(glass) ==> (r.Ok? <==> Replace(glass, "STAINED_GLASS", "CONCRETE") in materials)
    ensures !IsStainedGlass(glass) ==> (r.Ok? <==> RemoveSuffix(fuel.material, "_POWDER") in materials)
    ensures r.Fail? && IsStainedGlass(glass) ==> r.reason == "No material " + Replace(glass, "STAINED_GLASS", "CONCRETE")
    ensures r.Fail? && !IsStainedGlass(glass) ==> r.reason == "No material " + glass
  {
    if IsStainedGlass(glass) then
      var concrete := Replace(glass, "STAINED_GLASS", "CONCRETE");
      if concrete in materials then Ok(Stack(concrete, 1)) else Fail("No material " + concrete)
    else
      var name := RemoveSuffix(fuel.material, "_POWDER");
      if name in materials then Ok(Stack(name, 1)) else Fail("No material " + glass)
  }

  /** The concrete of a colour. */
  function Concrete(c: string): string { c + "_CONCRETE" }

  /** The rewrite on actual names: `C_STAINED_GLASS` gives `C_CONCRETE`,
      and, without stained glass, `C_CONCRETE_POWDER` gives `C_CONCRETE`. */
  lemma CarbonOutputNames(c: string, glass: string, powder: string, fuel: Stack, materials: set<string>)
    requires c in Colours && powder in Colours
    requires fuel.material == powder + "_CONCRETE_POWDER"
    ensures glass == c + "_STAINED_GLASS" && Concrete(c) in materials ==>
      CarbonOutput(glass, fuel, materials) == Ok(Stack(Concrete(c), 1))
    ensures !IsStainedGlass(glass) && Concrete(powder) in materials ==>
      CarbonOutput(glass, fuel, materials) == Ok(Stack(Concrete(powder), 1))
  {
    if glass == c + "_STAINED_GLASS" {
      ColoursLackS(c);
      StainedGlassToConcrete(c);
    }
    RemoveSuffixOfAppend(Concrete(powder), "_POWDER");
    assert Concrete(powder) + "_POWDER" == fuel.material;
  }

  lemma StainedGlassToConcrete(c: string)
    requires 'S' !in c
    ensures Replace(c + "_STAINED_GLASS", "STAINED_GLASS", "CONCRETE") == Concrete(c)
  {
    var p := c + "_";
    assert Replace(p + "STAINED_GLASS", "STAINED_GLASS", "CONCRETE")
        == p + Replace("STAINED_GLASS", "STAINED_GLASS", "CONCRETE") by {
      assert 'S' !in p;
      ReplaceSkipsPrefix(p, "STAINED_GLASS", "STAINED_GLASS", "CONCRETE");
    }
    assert Replace("STAINED_GLASS", "STAINED_GLASS", "CONCRETE") == "CONCRETE" by {
      ReplaceWhole("STAINED_GLASS", "CONCRETE");
    }
    assert c + "_STAINED_GLASS" == p + "STAINED_GLASS";
    assert Concrete(c) == p + "CONCRETE";
  }

  /** No colour name contains an 'S', so none can start a match of
      "STAINED_GLASS". */
  lemma ColoursLackS(c: string)
    requires c in Colours
    ensures 'S' !in c
  {
  }

  /** The materials of the game include every concrete. */
  predicate HasAllConcrete(materials: set<string>)
  {
    forall c :: c in Colours ==> Concrete(c) in materials
  }

  /** With every concrete known, a concrete-powder fuel never makes
      `getOutput` throw, whatever the glass. */
  lemma CarbonOutputNeverThrows(glass: string, fuel: Stack, materials: set<string>)
    ensures HasAllConcrete(materials) && IsConcretePowder(fuel.material) ==> CarbonOutput(glass, fuel, materials).Ok?
  {
    if !(HasAllConcrete(materials) && IsConcretePowder(fuel.material)) {
      return;
    }
    var powder :| powder in Colours && fuel.material == powder + "_CONCRETE_POWDER";
    if IsStainedGlass(glass) {
      var c :| c in Colours && glass == c + "_STAINED_GLASS";
      CarbonOutputNames(c, glass, powder, fuel, materials);
    } else {
      CarbonOutputNames(powder, glass, powder, fuel, materials);
    }
  }

  /** `CarbonProcessorEntity.tick`: with furnace and output present, at
      least 100 power, concrete powder as fuel and room for the output, one
      block of concrete is added, one powder used and 100 power taken;
      otherwise nothing changes. */
  function CarbonTick(m: Machine, glass: string, materials: set<string>, canFit: FitTest): (r: Result<Tick>)
    ensures r.Ok? && r.value.status != Working ==> r.value.machine == m
    ensures m.power < 100 || m.fuel.None? || !IsConcretePowder(m.fuel.value.material) ==>
      r.Ok? && r.value.machine == m
    ensures r.Ok? && r.value.status == Working ==>
      m.power >= 100 && m.fuel.Some? && IsConcretePowder(m.fuel.value.material)
      && r.value.machine.power == m.power - 100
      && r.value.machine.fuel == UseOne(m.fuel.value)
      && m.output.Some? && CarbonOutput(glass, m.fuel.value, materials).Ok?
      && r.value.machine.output == Some(m.output.value + [CarbonOutput(glass, m.fuel.value, materials).value])
      && CarbonOutput(glass, m.fuel.value, materials).value.amount == 1
    ensures HasAllConcrete(materials) ==> r.Ok?
  {
    assert m.fuel.Some? ==> (HasAllConcrete(materials) && IsConcretePowder(m.fuel.value.material) ==>
      CarbonOutput(glass, m.fuel.value, materials).Ok?) by {
      if m.fuel.Some? { CarbonOutputNeverThrows(glass, m.fuel.value, materials); }
    }
    FurnaceTick(m, CarbonPowerPerItem, IsConcretePowder, (fuel: Stack) => CarbonOutput(glass, fuel, materials), canFit)
  }
}
