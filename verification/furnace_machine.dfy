/** The tick shared by the furnace-based machines (printer, carbon
    processor): guards in a fixed order, then one product added, one fuel
    item used and a fixed amount of power taken. */
module FurnaceMachines {
  import opened Common

  /** An item stack: its material name and amount. */
  datatype Stack = Stack(material: string, amount: int)

  /** The machine as a tick sees it: whether the furnace is there, its fuel
      slot, the output inventory if there is one, and the stored power. */
  datatype Machine = Machine(hasFurnace: bool, fuel: Option<Stack>, output: Option<seq<Stack>>, power: int)

  /** The sign status a tick leaves. */
  datatype Status = NoFurnace | NoOutputInventory | NoPower | NoFuel | NoSpace | Working

  datatype Tick = Tick(machine: Machine, status: Status)

  /** `LegacyItemUtils.canFit(output, item)`. */
  type FitTest = (seq<Stack>, Stack) -> bool

  /** `fuel.amount--`: a stack whose amount reaches zero is gone. */
  function UseOne(fuel: Stack): (r: Option<Stack>)
    ensures r.Some? <==> fuel.amount > 1
    ensures r.Some? ==> r.value == Stack(fuel.material, fuel.amount - 1)
  {
    if fuel.amount - 1 <= 0 then None else Some(Stack(fuel.material, fuel.amount - 1))
  }

  /** All guards pass: furnace and output present, power covers the cost,
      the fuel qualifies and the product fits. */
  predicate CanWork(m: Machine, cost: int, isFuel: string -> bool, product: Stack, canFit: FitTest)
  {
    m.hasFurnace && m.output.Some? && m.power >= cost && m.fuel.Some? && isFuel(m.fuel.value.material)
    && canFit(m.output.value, product)
  }

  /** One tick, its guards in the source's order: furnace, output inventory,
      power, fuel, then (once the product is known) space. `produce` gives
      the product for the fuel and may throw. */
  function FurnaceTick(m: Machine, cost: int, isFuel: string -> bool, produce: Stack -> Result<Stack>, canFit: FitTest): (r: Result<Tick>)
    ensures !m.hasFurnace ==> r == Ok(Tick(m, NoFurnace))
    ensures m.hasFurnace && m.output.None? ==> r == Ok(Tick(m, NoOutputInventory))
    ensures m.hasFurnace && m.output.Some? && m.power < cost ==> r == Ok(Tick(m, NoPower))
    ensures m.hasFurnace && m.output.Some? && m.power >= cost && (m.fuel.None? || !isFuel(m.fuel.value.material))
      ==> r == Ok(Tick(m, NoFuel))
    ensures r.Fail? <==> (m.hasFurnace && m.output.Some? && m.power >= cost && m.fuel.Some?
      && isFuel(m.fuel.value.material) && produce(m.fuel.value).Fail?)
    ensures r.Ok? && r.value.status != Working ==> r.value.machine == m
    ensures (r.Ok? && r.value.status == Working) <==>
      (m.fuel.Some? && produce(m.fuel.value).Ok? && CanWork(m, cost, isFuel, produce(m.fuel.value).value, canFit))
    ensures r.Ok? && r.value.status == Working ==>
      r.value.machine == Machine(true, UseOne(m.fuel.value),
        Some(m.output.value + [produce(m.fuel.value).value]), m.power - cost)
  {
    if !m.hasFurnace then Ok(Tick(m, NoFurnace))
    else if m.output.None? then Ok(Tick(m, NoOutputInventory))
    else if m.power < cost then Ok(Tick(m, NoPower))
    else if m.fuel.None? || !isFuel(m.fuel.value.material) then Ok(Tick(m, NoFuel))
    else
      match produce(m.fuel.value)
      case Fail(e) => Fail(e)
      case Ok(product) =>
        if !canFit(m.output.value, product) then Ok(Tick(m, NoSpace))
        else Ok(Tick(Machine(true, UseOne(m.fuel.value), Some(m.output.value + [product]), m.power - cost), Working))
  }

  /** A tick never adds power and never takes more than the cost: with a
      non-negative cost, power stays within `[0, capacity]` once it is. */
  lemma TickKeepsPowerInRange(m: Machine, cost: int, isFuel: string -> bool, produce: Stack -> Result<Stack>, canFit: FitTest, capacity: int)
    requires cost >= 0 && 0 <= m.power <= capacity
    requires FurnaceTick(m, cost, isFuel, produce, canFit).Ok?
    ensures 0 <= FurnaceTick(m, cost, isFuel, produce, canFit).value.machine.power <= capacity
  {
  }
}
