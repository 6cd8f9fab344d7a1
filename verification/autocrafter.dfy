/** The auto crafter's tick: the power cost of a recipe, the reservation of
    one input item per filled grid slot, the output-full stop and the power
    budget over a tick's crafting iterations.

    The recipe lookup, `LegacyItemUtils.canFit` and `isSimilar` beyond the
    item's kind are not part of this model; the first two are parameters. */
module AutoCrafter {
  import opened Common

  /** `POWER_USAGE_PER_INGREDIENT`. */
  const PowerPerIngredient: int := 15

  /** An item stack: its kind (everything `isSimilar` compares) and its
      amount. Two stacks are equal when both agree, as Bukkit's `equals`. */
  datatype ItemStack = ItemStack(kind: string, amount: int)

  predicate Similar(a: ItemStack, b: ItemStack) { a.kind == b.kind }

  /** An inventory slot, possibly empty. */
  type Slot = Option<ItemStack>

  /** The filled slots of `s`, in order: `filterNotNull()`. */
  function Filled(s: seq<Slot>): (r: seq<ItemStack>)
    ensures |r| <= |s|
    ensures forall x :: x in r <==> Some(x) in s
  {
    if |s| == 0 then []
    else (if s[0].Some? then [s[0].value] else []) + Filled(s[1..])
  }

  /** `distinct()`: the first occurrence of each element, in order. */
  function Distinct(s: seq<ItemStack>): (r: seq<ItemStack>)
    ensures NoDuplicates(r)
    ensures forall x :: x in r <==> x in s
    decreases |s|
  {
    if |s| == 0 then []
    else
      var init := Distinct(s[..|s| - 1]);
      var last := s[|s| - 1];
      assert forall x :: x in s <==> x in s[..|s| - 1] || x == last by {
        assert s == s[..|s| - 1] + [last];
      }
      if last in init then init else init + [last]
  }

  /** The power a single craft costs: fifteen per distinct filled grid
      stack, so it equals fifteen times the number of different stacks in
      the grid. */
  function PowerUsage(grid: seq<Slot>): (usage: int)
    ensures usage == PowerPerIngredient * |set x | x in Filled(grid)|
    ensures usage >= 0
  {
    var d := Distinct(Filled(grid));
    NoDuplicatesCardinality(d);
    assert (set x | x in d) == (set x | x in Filled(grid));
    PowerPerIngredient * |d|
  }

  /** The number of filled grid slots: one item is taken for each. */
  function FilledCount(grid: seq<Slot>): nat
  {
    |Filled(grid)|
  }

  /** Sum of a sequence of counts. */
  function Sum(cs: seq<nat>): nat
  {
    if |cs| == 0 then 0 else cs[0] + Sum(cs[1..])
  }

  lemma {:induction false} SumUpdate(cs: seq<nat>, j: nat, c: nat)
    requires j < |cs|
    ensures Sum(cs[j := c]) == Sum(cs) - cs[j] + c
  {
    if j > 0 {
      assert cs[j := c][1..] == cs[1..][j - 1 := c];
      SumUpdate(cs[1..], j - 1, c);
    } else {
      assert cs[j := c][1..] == cs[1..];
    }
  }

  lemma {:induction false} SumZeros(n: nat)
    ensures Sum(seq(n, _ => 0)) == 0
  {
    if n > 0 {
      assert seq(n, _ => 0)[1..] == seq(n - 1, _ => 0);
      SumZeros(n - 1);
    }
  }

  /** Counts per input slot are a valid reservation: only filled slots
      similar to some grid ingredient are reserved, never beyond their
      amount. */
  predicate ValidReservation(input: seq<Slot>, counts: seq<nat>, grid: seq<Slot>)
  {
    |counts| == |input|
    && forall j :: 0 <= j < |counts| && counts[j] > 0 ==>
         input[j].Some? && counts[j] <= input[j].value.amount
         && exists g :: g in Filled(grid) && Similar(input[j].value, g)
  }

  /** A slot that still has an item to spare for `ingredient`. */
  predicate Spare(input: seq<Slot>, counts: seq<nat>, ingredient: ItemStack, j: int)
    requires |counts| == |input|
  {
    0 <= j < |input| && input[j].Some? && Similar(input[j].value, ingredient)
    && input[j].value.amount >= counts[j] + 1
  }

  /** `contents.withIndex().firstOrNull { … }`: the first slot from `from`
      on with a similar item to spare. */
  function FirstSpare(input: seq<Slot>, counts: seq<nat>, ingredient: ItemStack, from: nat): (r: Option<nat>)
    requires |counts| == |input|
    ensures r.Some? ==> (from <= r.value && Spare(input, counts, ingredient, r.value)
      && forall j :: from <= j < r.value ==> !Spare(input, counts, ingredient, j))
    ensures r.None? ==> forall j :: from <= j < |input| ==> !Spare(input, counts, ingredient, j)
    decreases |input| - from
  {
    if from >= |input| then None
    else if Spare(input, counts, ingredient, from) then Some(from)
    else FirstSpare(input, counts, ingredient, from + 1)
  }

  /** The ingredient loop of `runCraftingIteration`: reserves, for each
      filled grid slot in turn, one item of the first input slot that still
      has a similar item to spare; `None` when some ingredient finds none. */
  function Reserve(rest: seq<Slot>, grid: seq<Slot>, input: seq<Slot>, counts: seq<nat>): (r: Option<seq<nat>>)
    requires ValidReservation(input, counts, grid)
    requires forall g :: g in Filled(rest) ==> g in Filled(grid)
    ensures r.Some? ==> (ValidReservation(input, r.value, grid)
      && Sum(r.value) == Sum(counts) + FilledCount(rest)
      && forall j :: 0 <= j < |counts| ==> counts[j] <= r.value[j])
    decreases |rest|
  {
    if |rest| == 0 then Some(counts)
    else
      assert forall g :: g in Filled(rest[1..]) ==> g in Filled(grid) by {
        assert forall g :: g in Filled(rest[1..]) ==> g in Filled(rest);
      }
      match rest[0]
      case None => Reserve(rest[1..], grid, input, counts)
      case Some(ingredient) =>
        match FirstSpare(input, counts, ingredient, 0)
        case None => None
        case Some(j) =>
          assert ingredient in Filled(grid);
          ReserveOne(input, counts, grid, ingredient, j);
          Reserve(rest[1..], grid, input, counts[j := counts[j] + 1])
  }

  /** Reserving one more item of a spare slot keeps the reservation valid. */
  lemma ReserveOne(input: seq<Slot>, counts: seq<nat>, grid: seq<Slot>, ingredient: ItemStack, j: int)
    requires ValidReservation(input, counts, grid)
    requires ingredient in Filled(grid) && Spare(input, counts, ingredient, j)
    ensures ValidReservation(input, counts[j := counts[j] + 1], grid)
    ensures Sum(counts[j := counts[j] + 1]) == Sum(counts) + 1
  {
    SumUpdate(counts, j, counts[j] + 1);
    var next := counts[j := counts[j] + 1];
    forall k | 0 <= k < |next| && next[k] > 0
      ensures input[k].Some? && next[k] <= input[k].value.amount
      ensures exists g :: g in Filled(grid) && Similar(input[k].value, g)
    {
      if k == j {
        assert Similar(input[k].value, ingredient);
      } else {
        assert next[k] == counts[k];
      }
    }
  }

  /** An ingredient no input slot holds anything similar to makes the
      reservation fail. */
  lemma {:induction false} ReserveFailsWithoutIngredient(rest: seq<Slot>, grid: seq<Slot>, input: seq<Slot>, counts: seq<nat>, g: ItemStack)
    requires ValidReservation(input, counts, grid)
    requires forall x :: x in Filled(rest) ==> x in Filled(grid)
    requires g in Filled(rest)
    requires forall j :: 0 <= j < |input| && input[j].Some? ==> !Similar(input[j].value, g)
    ensures Reserve(rest, grid, input, counts).None?
    decreases |rest|
  {
    assert forall x :: x in Filled(rest[1..]) ==> x in Filled(rest);
    if rest[0] == Some(g) {
      assert FirstSpare(input, counts, g, 0).None?;
    } else {
      assert g in Filled(rest[1..]);
      match rest[0]
      case None => ReserveFailsWithoutIngredient(rest[1..], grid, input, counts, g);
      case Some(ingredient) =>
        match FirstSpare(input, counts, ingredient, 0)
        case None =>
        case Some(j) =>
          ReserveFailsWithoutIngredient(rest[1..], grid, input, counts[j := counts[j] + 1], g);
    }
  }

  function TotalAmount(s: seq<Slot>): int
  {
    if |s| == 0 then 0 else (if s[0].Some? then s[0].value.amount else 0) + TotalAmount(s[1..])
  }

  /** Taking `c` items from a slot; a stack whose amount reaches 0 is
      removed. */
  function TakeFrom(slot: Slot, c: nat): (r: Slot)
    requires c > 0 ==> slot.Some? && c <= slot.value.amount
  {
    if c == 0 then slot
    else if slot.value.amount - c == 0 then None
    else Some(ItemStack(slot.value.kind, slot.value.amount - c))
  }

  /** The removal loop: each reserved slot loses its count. */
  function Consume(input: seq<Slot>, counts: seq<nat>): (r: seq<Slot>)
    requires |counts| == |input|
    requires forall j :: 0 <= j < |counts| && counts[j] > 0 ==> input[j].Some? && counts[j] <= input[j].value.amount
    ensures |r| == |input|
    ensures TotalAmount(r) == TotalAmount(input) - Sum(counts)
    ensures forall j :: 0 <= j < |r| && counts[j] == 0 ==> r[j] == input[j]
    ensures forall j :: 0 <= j < |r| && r[j].Some? ==> input[j].Some? && r[j].value.kind == input[j].value.kind
    decreases |input|
  {
    if |input| == 0 then []
    else [TakeFrom(input[0], counts[0])] + Consume(input[1..], counts[1..])
  }

  /** How many items of kind `k` the input holds (stacks with a positive
      amount). */
  function KindSupply(input: seq<Slot>, k: string): nat
  {
    if |input| == 0 then 0
    else
      var here := if input[0].Some? && input[0].value.kind == k && input[0].value.amount > 0 then input[0].value.amount else 0;
      here + KindSupply(input[1..], k)
  }

  /** How many filled grid slots hold kind `k`: the items of that kind one
      craft takes. */
  function KindDemand(grid: seq<Slot>, k: string): nat
  {
    if |grid| == 0 then 0
    else (if grid[0].Some? && grid[0].value.kind == k then 1 else 0) + KindDemand(grid[1..], k)
  }

  /** How many items of kind `k` a reservation takes. */
  function KindReserved(input: seq<Slot>, counts: seq<nat>, k: string): nat
    requires |counts| == |input|
  {
    if |input| == 0 then 0
    else
      var here := if input[0].Some? && input[0].value.kind == k then counts[0] else 0;
      here + KindReserved(input[1..], counts[1..], k)
  }

  /** Each reserved slot holds what is reserved of it. */
  predicate WithinAmounts(input: seq<Slot>, counts: seq<nat>)
  {
    |counts| == |input|
    && forall j :: 0 <= j < |counts| && counts[j] > 0 ==> input[j].Some? && counts[j] <= input[j].value.amount
  }

  lemma {:induction false} KindReservedUpdate(input: seq<Slot>, counts: seq<nat>, j: nat, k: string)
    requires |counts| == |input| && j < |input|
    ensures KindReserved(input, counts[j := counts[j] + 1], k)
      == KindReserved(input, counts, k) + (if input[j].Some? && input[j].value.kind == k then 1 else 0)
  {
    if j > 0 {
      assert counts[j := counts[j] + 1][1..] == counts[1..][j - 1 := counts[1..][j - 1] + 1];
      KindReservedUpdate(input[1..], counts[1..], j - 1, k);
    } else {
      assert counts[j := counts[j] + 1][1..] == counts[1..];
    }
  }

  /** A reservation never takes more of a kind than the input holds. */
  lemma {:induction false} ReservedWithinSupply(input: seq<Slot>, counts: seq<nat>, k: string)
    requires WithinAmounts(input, counts)
    ensures KindReserved(input, counts, k) <= KindSupply(input, k)
  {
    if |input| > 0 {
      ReservedWithinSupply(input[1..], counts[1..], k);
    }
  }

  /** While less of a kind is reserved than the input holds, some slot of
      that kind has an item to spare. */
  lemma {:induction false} SpareWhileShort(input: seq<Slot>, counts: seq<nat>, ingredient: ItemStack)
    requires WithinAmounts(input, counts)
    requires KindReserved(input, counts, ingredient.kind) < KindSupply(input, ingredient.kind)
    ensures exists j :: Spare(input, counts, ingredient, j)
  {
    var k := ingredient.kind;
    if Spare(input, counts, ingredient, 0) {
    } else if input[0].Some? && input[0].value.kind == k && input[0].value.amount > 0 {
      SpareWhileShort(input[1..], counts[1..], ingredient);
      var j :| Spare(input[1..], counts[1..], ingredient, j);
      assert Spare(input, counts, ingredient, j + 1);
    } else {
      SpareWhileShort(input[1..], counts[1..], ingredient);
      var j :| Spare(input[1..], counts[1..], ingredient, j);
      assert Spare(input, counts, ingredient, j + 1);
    }
  }

  /** An empty grid slot is skipped. */
  lemma ReserveSkip(rest: seq<Slot>, grid: seq<Slot>, input: seq<Slot>, counts: seq<nat>)
    requires ValidReservation(input, counts, grid)
    requires forall g :: g in Filled(rest) ==> g in Filled(grid)
    requires |rest| > 0 && rest[0].None?
    ensures forall g :: g in Filled(rest[1..]) ==> g in Filled(grid)
    ensures Reserve(rest, grid, input, counts) == Reserve(rest[1..], grid, input, counts)
  {
    assert forall g :: g in Filled(rest[1..]) ==> g in Filled(rest);
  }

  /** A found slot `j` has one more item reserved. */
  lemma ReserveFound(rest: seq<Slot>, grid: seq<Slot>, input: seq<Slot>, counts: seq<nat>, j: nat)
    requires ValidReservation(input, counts, grid)
    requires forall g :: g in Filled(rest) ==> g in Filled(grid)
    requires |rest| > 0 && rest[0].Some? && FirstSpare(input, counts, rest[0].value, 0) == Some(j)
    ensures j < |counts| && Spare(input, counts, rest[0].value, j)
    ensures forall g :: g in Filled(rest[1..]) ==> g in Filled(grid)
    ensures ValidReservation(input, counts[j := counts[j] + 1], grid)
  {
    var ingredient := rest[0].value;
    var next := counts[j := counts[j] + 1];
    assert forall g :: g in Filled(rest[1..]) ==> g in Filled(grid) by {
      assert forall g :: g in Filled(rest[1..]) ==> g in Filled(rest);
    }
    assert ValidReservation(input, next, grid) by {
      assert ingredient in Filled(grid);
      ReserveOne(input, counts, grid, ingredient, j);
    }
  }

  lemma ReserveFoundUnfold(rest: seq<Slot>, grid: seq<Slot>, input: seq<Slot>, counts: seq<nat>, j: nat)
    requires ValidReservation(input, counts, grid) && j < |counts|
    requires forall g :: g in Filled(rest) ==> g in Filled(grid)
    requires |rest| > 0 && rest[0].Some? && FirstSpare(input, counts, rest[0].value, 0) == Some(j)
    requires forall g :: g in Filled(rest[1..]) ==> g in Filled(grid)
    requires ValidReservation(input, counts[j := counts[j] + 1], grid)
    ensures Reserve(rest, grid, input, counts) == Reserve(rest[1..], grid, input, counts[j := counts[j] + 1])
  {
  }

  /** Per kind, the reservation adds one item for each ingredient of that
      kind among `rest`. */
  lemma {:induction false} ReservePerKind(rest: seq<Slot>, grid: seq<Slot>, input: seq<Slot>, counts: seq<nat>, k: string)
    requires ValidReservation(input, counts, grid)
    requires forall g :: g in Filled(rest) ==> g in Filled(grid)
    requires Reserve(rest, grid, input, counts).Some?
    ensures KindReserved(input, Reserve(rest, grid, input, counts).value, k) == KindReserved(input, counts, k) + KindDemand(rest, k)
    decreases |rest|
  {
    if |rest| > 0 {
      match rest[0]
      case None =>
        ReserveSkip(rest, grid, input, counts);
        ReservePerKind(rest[1..], grid, input, counts, k);
      case Some(ingredient) =>
        var j := FirstSpare(input, counts, ingredient, 0).value;
        ReserveFound(rest, grid, input, counts, j);
        ReserveFoundUnfold(rest, grid, input, counts, j);
        KindReservedUpdate(input, counts, j, k);
        ReservePerKind(rest[1..], grid, input, counts[j := counts[j] + 1], k);
    }
  }

  /** First-fit reservation cannot get stuck: when, for every kind, what is
      reserved plus what `rest` still asks for fits in the input, the
      reservation succeeds. */
  lemma {:induction false} ReserveSucceeds(rest: seq<Slot>, grid: seq<Slot>, input: seq<Slot>, counts: seq<nat>)
    requires ValidReservation(input, counts, grid)
    requires forall g :: g in Filled(rest) ==> g in Filled(grid)
    requires forall k :: KindReserved(input, counts, k) + KindDemand(rest, k) <= KindSupply(input, k)
    ensures Reserve(rest, grid, input, counts).Some?
    decreases |rest|
  {
    if |rest| > 0 {
      match rest[0]
      case None =>
        ReserveSkip(rest, grid, input, counts);
        forall k ensures KindReserved(input, counts, k) + KindDemand(rest[1..], k) <= KindSupply(input, k) {
          assert KindDemand(rest, k) == KindDemand(rest[1..], k);
        }
        ReserveSucceeds(rest[1..], grid, input, counts);
      case Some(ingredient) =>
        assert KindDemand(rest, ingredient.kind) == 1 + KindDemand(rest[1..], ingredient.kind);
        SpareWhileShort(input, counts, ingredient);
        var j := FirstSpare(input, counts, ingredient, 0).value;
        ReserveFound(rest, grid, input, counts, j);
        ReserveFoundUnfold(rest, grid, input, counts, j);
        var next := counts[j := counts[j] + 1];
        forall k ensures KindReserved(input, next, k) + KindDemand(rest[1..], k) <= KindSupply(input, k) {
          KindReservedUpdate(input, counts, j, k);
        }
        ReserveSucceeds(rest[1..], grid, input, next);
    }
  }

  /** Taking a reservation from the input lowers each kind's supply by what
      is reserved of it. */
  lemma {:induction false} ConsumePerKind(input: seq<Slot>, counts: seq<nat>, k: string)
    requires WithinAmounts(input, counts)
    ensures KindSupply(Consume(input, counts), k) == KindSupply(input, k) - KindReserved(input, counts, k)
  {
    if |input| > 0 {
      ConsumePerKind(input[1..], counts[1..], k);
      assert Consume(input, counts)[1..] == Consume(input[1..], counts[1..]);
    }
  }

  /** Some grid ingredient has nothing similar anywhere in the input. */
  predicate MissingIngredient(grid: seq<Slot>, input: seq<Slot>)
  {
    exists g :: g in Filled(grid) && forall j :: 0 <= j < |input| && input[j].Some? ==> !Similar(input[j].value, g)
  }

  function NoReservation(n: nat): (r: seq<nat>)
    ensures |r| == n && Sum(r) == 0
  {
    SumZeros(n);
    seq(n, _ => 0)
  }

  lemma MissingIngredientFails(grid: seq<Slot>, input: seq<Slot>)
    ensures MissingIngredient(grid, input) ==> Reserve(grid, grid, input, NoReservation(|input|)).None?
  {
    if MissingIngredient(grid, input) {
      var g :| g in Filled(grid) && forall j :: 0 <= j < |input| && input[j].Some? ==> !Similar(input[j].value, g);
      ReserveFailsWithoutIngredient(grid, grid, input, NoReservation(|input|), g);
    }
  }

  /** Some kind is asked for more often by the grid than the input holds. */
  ghost predicate ShortOf(grid: seq<Slot>, input: seq<Slot>)
  {
    exists k :: KindDemand(grid, k) > KindSupply(input, k)
  }

  lemma {:induction false} KindReservedNothing(input: seq<Slot>, k: string)
    ensures KindReserved(input, NoReservation(|input|), k) == 0
  {
    if |input| > 0 {
      assert NoReservation(|input|)[1..] == NoReservation(|input| - 1);
      KindReservedNothing(input[1..], k);
    }
  }

  /** The reservation of a whole grid fails exactly when some kind runs
      short, and when it succeeds it reserves, per kind, as many items as
      the grid has slots of that kind. */
  lemma ReservationOutcome(grid: seq<Slot>, input: seq<Slot>)
    ensures Reserve(grid, grid, input, NoReservation(|input|)).None? <==> ShortOf(grid, input)
    ensures Reserve(grid, grid, input, NoReservation(|input|)).Some? ==>
      forall k :: KindReserved(input, Reserve(grid, grid, input, NoReservation(|input|)).value, k) == KindDemand(grid, k)
  {
    var none := NoReservation(|input|);
    forall k ensures KindReserved(input, none, k) == 0 {
      KindReservedNothing(input, k);
    }
    var r := Reserve(grid, grid, input, none);
    if r.Some? {
      forall k ensures KindReserved(input, r.value, k) == KindDemand(grid, k) {
        ReservePerKind(grid, grid, input, none, k);
      }
      forall k ensures KindDemand(grid, k) <= KindSupply(input, k) {
        ReservedWithinSupply(input, r.value, k);
      }
    } else if !ShortOf(grid, input) {
      ReserveSucceeds(grid, grid, input, none);
    }
  }

  /** What one crafting iteration ended with. */
  datatype Outcome = Insufficient | OutputFull | Crafted

  datatype Iteration = Iteration(outcome: Outcome, consumed: int, input: seq<Slot>, output: seq<ItemStack>)

  /** `LegacyItemUtils.canFit(output, result)`. */
  type FitTest = (seq<ItemStack>, ItemStack) -> bool

  /** `runCraftingIteration`: 0 and nothing changed when the ingredients run
      short, -1 and nothing changed when the output is full, otherwise the
      result is added, one item per filled grid slot leaves the input, and
      the power usage is returned. */
  function RunCraftingIteration(powerUsage: int, grid: seq<Slot>, input: seq<Slot>, output: seq<ItemStack>,
                                result: ItemStack, canFit: FitTest): (it: Iteration)
    ensures it.outcome == Insufficient ==> it.consumed == 0 && it.input == input && it.output == output
    ensures it.outcome == OutputFull ==> (it.consumed == -1 && it.input == input && it.output == output
      && !canFit(output, result))
    ensures it.outcome == Crafted ==> (it.consumed == powerUsage && canFit(output, result)
      && it.output == output + [result]
      && |it.input| == |input|
      && TotalAmount(it.input) == TotalAmount(input) - FilledCount(grid))
    ensures MissingIngredient(grid, input) ==> it.outcome == Insufficient
    ensures it.outcome == Insufficient <==> ShortOf(grid, input)
    ensures it.outcome == Crafted ==> forall k :: KindSupply(it.input, k) == KindSupply(input, k) - KindDemand(grid, k)
  {
    MissingIngredientFails(grid, input);
    ReservationOutcome(grid, input);
    assert Reserve(grid, grid, input, NoReservation(|input|)).Some? ==>
      forall k :: KindSupply(Consume(input, Reserve(grid, grid, input, NoReservation(|input|)).value), k)
        == KindSupply(input, k) - KindDemand(grid, k) by {
      var r := Reserve(grid, grid, input, NoReservation(|input|));
      if r.Some? {
        forall k ensures KindSupply(Consume(input, r.value), k) == KindSupply(input, k) - KindDemand(grid, k) {
          ConsumePerKind(input, r.value, k);
        }
      }
    }
    match Reserve(grid, grid, input, NoReservation(|input|))
    case None => Iteration(Insufficient, 0, input, output)
    case Some(counts) =>
      if !canFit(output, result) then Iteration(OutputFull, -1, input, output)
      else Iteration(Crafted, powerUsage, Consume(input, counts), output + [result])
  }

  /** The status a tick leaves on the sign, as far as the guards go. */
  datatype Status = NotIntact | LowPower | InvalidRecipe | Ran

  /** An auto crafter's state: whether its three inventories are intact, the
      input, the recipe grid, the output, and its stored power. */
  datatype Crafter = Crafter(intact: bool, input: seq<Slot>, grid: seq<Slot>, output: seq<ItemStack>, power: int)

  /** The recipe cache: the result of crafting a grid, if it is a recipe. */
  type RecipeLookup = seq<Slot> -> Option<ItemStack>

  /** `n` copies of `x`. */
  function Copies(x: ItemStack, n: nat): (r: seq<ItemStack>)
    ensures |r| == n && forall i :: 0 <= i < n ==> r[i] == x
  {
    seq(n, _ => x)
  }

  lemma CraftArithmetic(prefix: seq<ItemStack>, x: ItemStack, n: nat, usage: int, filled: int)
    ensures prefix + Copies(x, n) + [x] == prefix + Copies(x, n + 1)
    ensures (n + 1) * usage == n * usage + usage
    ensures (n + 1) * filled == n * filled + filled
  {
    assert Copies(x, n) + [x] == Copies(x, n + 1);
  }

  /** One more craft takes each kind's demand once more from the supply. */
  lemma SupplyAfterCraft(input0: seq<Slot>, input: seq<Slot>, next: seq<Slot>, grid: seq<Slot>, crafts: nat)
    requires forall k :: KindSupply(input, k) == KindSupply(input0, k) - crafts * KindDemand(grid, k)
    requires forall k :: KindSupply(next, k) == KindSupply(input, k) - KindDemand(grid, k)
    ensures forall k :: KindSupply(next, k) == KindSupply(input0, k) - (crafts + 1) * KindDemand(grid, k)
  {
    forall k ensures KindSupply(next, k) == KindSupply(input0, k) - (crafts + 1) * KindDemand(grid, k) {
      assert (crafts + 1) * KindDemand(grid, k) == crafts * KindDemand(grid, k) + KindDemand(grid, k);
    }
  }

  /** `tick`: the guards (inventories present, at least fifteen power, a
      valid recipe), then up to `iterations` crafting iterations, stopping
      when the power no longer covers a craft or the output is full. Power
      is written back only if it changed. */
  method Tick(c: Crafter, iterations: int, recipe: RecipeLookup, canFit: FitTest)
    returns (next: Crafter, status: Status, crafts: nat, written: bool)
    ensures !c.intact ==> next == c && status == NotIntact && crafts == 0
    ensures c.intact && c.power < PowerPerIngredient ==> next == c && status == LowPower && crafts == 0
    ensures c.intact && c.power >= PowerPerIngredient && recipe(c.grid).None? ==>
      next == c && status == InvalidRecipe && crafts == 0
    ensures crafts <= (if iterations < 0 then 0 else iterations)
    ensures next.power == c.power - crafts * PowerUsage(c.grid)
    ensures c.power >= 0 ==> next.power >= 0
    ensures crafts > 0 ==> c.power >= crafts * PowerUsage(c.grid)
    ensures next.output == c.output + (if crafts == 0 then [] else Copies(recipe(c.grid).value, crafts))
    ensures TotalAmount(next.input) == TotalAmount(c.input) - crafts * FilledCount(c.grid)
    ensures next.grid == c.grid && next.intact == c.intact
    ensures written <==> next.power != c.power
    ensures c.intact && c.power >= PowerPerIngredient && recipe(c.grid).Some? ==> (status == Ran
      && forall k :: KindSupply(next.input, k) == KindSupply(c.input, k) - crafts * KindDemand(c.grid, k))
    ensures c.intact && c.power >= PowerPerIngredient && recipe(c.grid).Some? && crafts < iterations ==>
      next.power < PowerUsage(c.grid)
      || RunCraftingIteration(PowerUsage(c.grid), c.grid, next.input, next.output, recipe(c.grid).value, canFit).outcome != Crafted
  {
    next, status, crafts, written := c, NotIntact, 0, false;
    if !c.intact {
      return;
    }
    if c.power < PowerPerIngredient {
      status := LowPower;
      return;
    }
    var found := recipe(c.grid);
    if found.None? {
      status := InvalidRecipe;
      return;
    }
    var power, input, output;
    power, input, output, crafts := CraftingIterations(PowerUsage(c.grid), c.grid, c.input, c.output, c.power, iterations, found.value, canFit);
    status := Ran;
    next := Crafter(c.intact, input, c.grid, output, power);
    written := power != c.power;
  }

  /** The iteration loop of `tick`: at most `iterations` rounds, leaving
      when the power does not cover `usage` or the output is full. */
  method CraftingIterations(usage: int, grid: seq<Slot>, input0: seq<Slot>, output0: seq<ItemStack>, power0: int,
                            iterations: int, result: ItemStack, canFit: FitTest)
    returns (power: int, input: seq<Slot>, output: seq<ItemStack>, crafts: nat)
    requires usage >= 0 && power0 >= 0
    ensures crafts <= (if iterations < 0 then 0 else iterations)
    ensures power == power0 - crafts * usage && power >= 0
    ensures output == output0 + Copies(result, crafts)
    ensures TotalAmount(input) == TotalAmount(input0) - crafts * FilledCount(grid)
    ensures forall k :: KindSupply(input, k) == KindSupply(input0, k) - crafts * KindDemand(grid, k)
    ensures crafts < iterations ==>
      power < usage || RunCraftingIteration(usage, grid, input, output, result, canFit).outcome != Crafted
  {
    power, input, output, crafts := power0, input0, output0, 0;
    var iteration := 1;
    while iteration <= iterations
      invariant 1 <= iteration <= (if iterations < 1 then 1 else iterations + 1)
      invariant crafts <= iteration - 1
      invariant power == power0 - crafts * usage
      invariant power >= 0
      invariant output == output0 + Copies(result, crafts)
      invariant TotalAmount(input) == TotalAmount(input0) - crafts * FilledCount(grid)
      invariant forall k :: KindSupply(input, k) == KindSupply(input0, k) - crafts * KindDemand(grid, k)
      invariant crafts < iteration - 1 ==>
        RunCraftingIteration(usage, grid, input, output, result, canFit).outcome == Insufficient
    {
      if power < usage {
        break;
      }
      var it := RunCraftingIteration(usage, grid, input, output, result, canFit);
      if it.consumed == -1 {
        break;
      }
      power := power - it.consumed;
      if it.outcome == Crafted {
        CraftArithmetic(output0, result, crafts, usage, FilledCount(grid));
        SupplyAfterCraft(input0, input, it.input, grid, crafts);
        crafts := crafts + 1;
      }
      input := it.input;
      output := it.output;
      iteration := iteration + 1;
    }
  }
}
