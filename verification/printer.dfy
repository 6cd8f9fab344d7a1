/** The printer: while powered and fed cobblestone, each tick prints one
    unit of its product into the output inventory. What a given printer
    prints (`getOutput`) is defined by its subclasses, which are not part of
    this model; it is a parameter. */
module Printers {
  import opened Common
  import opened FurnaceMachines

  /** The power storage capacity of a printer. */
  const PrinterPowerCapacity: int := 50_000

  /** The power one print costs. */
  const PrinterPowerPerItem: int := 250

  predicate IsCobblestone(material: string) { material == "COBBLESTONE" }

  /** `getOutput(product)`: what the printer makes from the product block. */
  type OutputOf = string -> Stack

  /** `PrinterEntity.tick`: with furnace and output present, at least 250
      power, cobblestone as fuel and room for the product, one product is
      added, one cobblestone used and 250 power taken; otherwise nothing
      changes. It never throws. */
  function PrinterTick(m: Machine, product: string, getOutput: OutputOf, canFit: FitTest): (r: Tick)
    ensures r.status == Working <==>
      (m.hasFurnace && m.output.Some? && m.power >= 250 && m.fuel.Some? && m.fuel.value.material == "COBBLESTONE"
       && canFit(m.output.value, getOutput(product)))
    ensures r.status != Working ==> r.machine == m
    ensures r.status == Working ==>
      r.machine.output == Some(m.output.value + [getOutput(product)])
      && r.machine.fuel == UseOne(m.fuel.value)
      && r.machine.power == m.power - 250
    ensures m.power < 250 ==> r.machine == m
    ensures 0 <= m.power <= PrinterPowerCapacity ==> 0 <= r.machine.power <= PrinterPowerCapacity
  {
    var produce := (fuel: Stack) => Ok(getOutput(product));
    var t := FurnaceTick(m, PrinterPowerPerItem, IsCobblestone, produce, canFit);
    t.value
  }

  /** The guards are met in order: a tick that reports no power had its
      furnace and output inventory, and one that reports no fuel also had
      the power. */
  lemma PrinterGuardOrder(m: Machine, product: string, getOutput: OutputOf, canFit: FitTest)
    ensures PrinterTick(m, product, getOutput, canFit).status == NoPower ==> m.hasFurnace && m.output.Some? && m.power < 250
    ensures PrinterTick(m, product, getOutput, canFit).status == NoFuel ==>
      m.hasFurnace && m.output.Some? && m.power >= 250 && (m.fuel.None? || m.fuel.value.material != "COBBLESTONE")
    ensures PrinterTick(m, product, getOutput, canFit).status == NoSpace ==>
      m.power >= 250 && m.fuel.Some? && m.fuel.value.material == "COBBLESTONE" && !canFit(m.output.value, getOutput(product))
  {
    var produce := (fuel: Stack) => Ok(getOutput(product));
    assert PrinterTick(m, product, getOutput, canFit) == FurnaceTick(m, PrinterPowerPerItem, IsCobblestone, produce, canFit).value;
  }
}
