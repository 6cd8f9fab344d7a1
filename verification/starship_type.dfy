/** Starship types: the table of classes with their block-count bounds,
    level requirement, override permission and world-flag requirements; who
    may use a type, where it may be piloted, and the list of types a player
    has unlocked. */
module StarshipTypes {
  import opened Common
  import opened Sorting

  /** The starship types, in declaration order. */
  datatype ShipType =
    Speeder
    | AiSpeeder
    | Starfighter
    | AiStarfighter
    | Gunship
    | AiGunship
    | Corvette
    | AiCorvette
    | AiCorvetteLogistic
    | Frigate
    | AiFrigate
    | Destroyer
    | AiDestroyer
    | Cruiser
    | AiCruiser
    | Battlecruiser
    | AiBattlecruiser
    | Battleship
    | AiBattleship
    | Dreadnought
    | AiDreadnought
    | Tank
    | Shuttle
    | AiShuttle
    | Transport
    | AiTransport
    | LightFreighter
    | AiLightFreighter
    | MediumFreighter
    | HeavyFreighter
    | AiHeavyFreighter
    | Barge
    | AiBarge
    | Platform
    | UnidentifiedShip
    | AiShip

  /** World flags. Only SPACE_WORLD is named by the table; every other flag
      is `OtherFlag`. */
  datatype WorldFlag = SpaceWorld | OtherFlag(name: string)

  /** The table fields the gating rules read. */
  datatype TypeInfo = TypeInfo(
    minSize: int,
    maxSize: int,
    minLevel: int,
    overridePermission: string,
    eventShip: bool,
    requiredWorldFlags: set<WorldFlag>,
    disallowedWorldFlags: set<WorldFlag>)

  function Info(t: ShipType): TypeInfo
  {
    match t
    case Speeder => TypeInfo(25, 100, 1, "ion.ships.override.1", false, {}, {})
    case AiSpeeder => TypeInfo(25, 100, 1000, "ion.ships.ai.speeder", false, {}, {})
    case Starfighter => TypeInfo(350, 500, 1, "ion.ships.override.1", false, {}, {})
    case AiStarfighter => TypeInfo(150, 500, 1000, "ion.ships.ai.starfighter", false, {}, {})
    case Gunship => TypeInfo(500, 2000, 10, "ion.ships.override.10", false, {}, {})
    case AiGunship => TypeInfo(500, 2000, 1000, "ion.ships.ai.gunship", false, {}, {})
    case Corvette => TypeInfo(2000, 4000, 20, "ion.ships.override.20", false, {}, {})
    case AiCorvette => TypeInfo(2000, 4000, 1000, "ion.ships.ai.corvette", false, {}, {})
    case AiCorvetteLogistic => TypeInfo(2000, 4000, 1000, "ion.ships.ai.corvette", false, {}, {})
    case Frigate => TypeInfo(4000, 8000, 40, "ion.ships.override.40", false, {}, {})
    case AiFrigate => TypeInfo(4000, 8000, 1000, "ion.ships.ai.frigate", false, {}, {})
    case Destroyer => TypeInfo(8000, 12000, 60, "ion.ships.override.60", false, {}, {})
    case AiDestroyer => TypeInfo(8000, 12000, 1000, "ion.ships.ai.destroyer", false, {}, {})
    case Cruiser => TypeInfo(12000, 16000, 70, "ion.ships.override.70", false, {}, {})
    case AiCruiser => TypeInfo(12000, 16000, 1000, "ion.ships.ai.cruiser", false, {}, {})
    case Battlecruiser => TypeInfo(16000, 20000, 80, "ion.ships.override.80", false, {SpaceWorld}, {})
    case AiBattlecruiser => TypeInfo(12000, 20000, 1000, "ion.ships.ai.battlecruiser", false, {}, {})
    case Battleship => TypeInfo(20000, 32000, 1000, "ion.ships.override.battleship", false, {}, {})
    case AiBattleship => TypeInfo(20000, 32000, 1000, "ion.ships.ai.battleship", false, {}, {})
    case Dreadnought => TypeInfo(32000, 48000, 1000, "ion.ships.override.dreadnought", false, {}, {})
    case AiDreadnought => TypeInfo(32000, 48000, 1000, "ion.ships.ai.dreadnought", false, {}, {})
    case Tank => TypeInfo(50, 500, 100, "ion.ships.tank", false, {}, {})
    case Shuttle => TypeInfo(100, 1000, 1, "ion.ships.override.1", false, {}, {})
    case AiShuttle => TypeInfo(100, 1000, 1000, "ion.ships.ai.shuttle", false, {}, {})
    case Transport => TypeInfo(1000, 2000, 10, "ion.ships.override.10", false, {}, {})
    case AiTransport => TypeInfo(1000, 2000, 1000, "ion.ships.ai.transport", false, {}, {})
    case LightFreighter => TypeInfo(2000, 4000, 20, "ion.ships.override.20", false, {}, {})
    case AiLightFreighter => TypeInfo(2000, 4000, 1000, "ion.ships.ai.light_freighter", false, {}, {})
    case MediumFreighter => TypeInfo(4000, 8000, 40, "ion.ships.ai.medium_freighter", false, {}, {})
    case HeavyFreighter => TypeInfo(8000, 12000, 60, "ion.ships.override.60", false, {}, {})
    case AiHeavyFreighter => TypeInfo(8000, 12000, 1000, "ion.ships.ai.heavy_freighter", false, {}, {})
    case Barge => TypeInfo(16000, 20000, 80, "ion.ships.override.80", false, {SpaceWorld}, {})
    case AiBarge => TypeInfo(16000, 20000, 1000, "ion.ships.ai.barge", false, {}, {})
    case Platform => TypeInfo(25, 2000000, 1, "ion.ships.platform", false, {}, {})
    case UnidentifiedShip => TypeInfo(25, 250000, 1000, "ion.ships.eventship", true, {}, {})
    case AiShip => TypeInfo(50, 48000, 1000, "ion.ships.aiship", false, {}, {})
  }

  const TypeCount: nat := 36

  /** `entries[i]`. */
  function EntryAt(i: nat): ShipType
    requires i < TypeCount
  {
    match i
    case 0 => Speeder
    case 1 => AiSpeeder
    case 2 => Starfighter
    case 3 => AiStarfighter
    case 4 => Gunship
    case 5 => AiGunship
    case 6 => Corvette
    case 7 => AiCorvette
    case 8 => AiCorvetteLogistic
    case 9 => Frigate
    case 10 => AiFrigate
    case 11 => Destroyer
    case 12 => AiDestroyer
    case 13 => Cruiser
    case 14 => AiCruiser
    case 15 => Battlecruiser
    case 16 => AiBattlecruiser
    case 17 => Battleship
    case 18 => AiBattleship
    case 19 => Dreadnought
    case 20 => AiDreadnought
    case 21 => Tank
    case 22 => Shuttle
    case 23 => AiShuttle
    case 24 => Transport
    case 25 => AiTransport
    case 26 => LightFreighter
    case 27 => AiLightFreighter
    case 28 => MediumFreighter
    case 29 => HeavyFreighter
    case 30 => AiHeavyFreighter
    case 31 => Barge
    case 32 => AiBarge
    case 33 => Platform
    case 34 => UnidentifiedShip
    case 35 => AiShip
  }

  /** `ordinal`. */
  function Ordinal(t: ShipType): (i: nat)
    ensures i < TypeCount
  {
    match t
    case Speeder => 0
    case AiSpeeder => 1
    case Starfighter => 2
    case AiStarfighter => 3
    case Gunship => 4
    case AiGunship => 5
    case Corvette => 6
    case AiCorvette => 7
    case AiCorvetteLogistic => 8
    case Frigate => 9
    case AiFrigate => 10
    case Destroyer => 11
    case AiDestroyer => 12
    case Cruiser => 13
    case AiCruiser => 14
    case Battlecruiser => 15
    case AiBattlecruiser => 16
    case Battleship => 17
    case AiBattleship => 18
    case Dreadnought => 19
    case AiDreadnought => 20
    case Tank => 21
    case Shuttle => 22
    case AiShuttle => 23
    case Transport => 24
    case AiTransport => 25
    case LightFreighter => 26
    case AiLightFreighter => 27
    case MediumFreighter => 28
    case HeavyFreighter => 29
    case AiHeavyFreighter => 30
    case Barge => 31
    case AiBarge => 32
    case Platform => 33
    case UnidentifiedShip => 34
    case AiShip => 35
  }

  /** The ordinal numbers the entries: each type sits at its ordinal and at
      no other index. */
  lemma OrdinalNumbersEntries(t: ShipType, i: nat)
    requires i < TypeCount
    ensures EntryAt(Ordinal(t)) == t
    ensures Ordinal(EntryAt(i)) == i
  {
    EntryAtOrdinal(t);
    OrdinalOfEntry(i);
  }

  lemma EntryAtOrdinal(t: ShipType)
    ensures EntryAt(Ordinal(t)) == t
  {
  }

  lemma OrdinalOfEntry(i: nat)
    requires i < TypeCount
    ensures Ordinal(EntryAt(i)) == i
  {
  }

  /** `entries`. */
  function Entries(): (r: seq<ShipType>)
    ensures |r| == TypeCount
    ensures forall i :: 0 <= i < TypeCount ==> r[i] == EntryAt(i)
  {
    seq(TypeCount, i requires 0 <= i < TypeCount => EntryAt(i))
  }

  /** Every type is an entry, and exactly once. */
  lemma EntriesListEveryTypeOnce(t: ShipType)
    ensures t in Entries()
    ensures NoDuplicates(Entries())
  {
    var e := Entries();
    OrdinalNumbersEntries(t, 0);
    assert e[Ordinal(t)] == t;
    forall i, j | 0 <= i < j < |e| ensures e[i] != e[j] {
      OrdinalNumbersEntries(e[i], i);
      OrdinalNumbersEntries(e[j], j);
    }
  }

  /** Every class admits some ship size: its minimum is below its maximum. */
  lemma SizesAreOrdered(t: ShipType)
    ensures 0 < Info(t).minSize < Info(t).maxSize
  {
    match t
    case Speeder =>
    case AiSpeeder =>
    case Starfighter =>
    case AiStarfighter =>
    case Gunship =>
    case AiGunship =>
    case Corvette =>
    case AiCorvette =>
    case AiCorvetteLogistic =>
    case Frigate =>
    case AiFrigate =>
    case Destroyer =>
    case AiDestroyer =>
    case Cruiser =>
    case AiCruiser =>
    case Battlecruiser =>
    case AiBattlecruiser =>
    case Battleship =>
    case AiBattleship =>
    case Dreadnought =>
    case AiDreadnought =>
    case Tank =>
    case Shuttle =>
    case AiShuttle =>
    case Transport =>
    case AiTransport =>
    case LightFreighter =>
    case AiLightFreighter =>
    case MediumFreighter =>
    case HeavyFreighter =>
    case AiHeavyFreighter =>
    case Barge =>
    case AiBarge =>
    case Platform =>
    case UnidentifiedShip =>
    case AiShip =>
  }

  /** UNIDENTIFIEDSHIP is the only event ship. */
  lemma OnlyEventShip(t: ShipType)
    ensures Info(t).eventShip <==> t == UnidentifiedShip
  {
    match t
    case Speeder =>
    case AiSpeeder =>
    case Starfighter =>
    case AiStarfighter =>
    case Gunship =>
    case AiGunship =>
    case Corvette =>
    case AiCorvette =>
    case AiCorvetteLogistic =>
    case Frigate =>
    case AiFrigate =>
    case Destroyer =>
    case AiDestroyer =>
    case Cruiser =>
    case AiCruiser =>
    case Battlecruiser =>
    case AiBattlecruiser =>
    case Battleship =>
    case AiBattleship =>
    case Dreadnought =>
    case AiDreadnought =>
    case Tank =>
    case Shuttle =>
    case AiShuttle =>
    case Transport =>
    case AiTransport =>
    case LightFreighter =>
    case AiLightFreighter =>
    case MediumFreighter =>
    case HeavyFreighter =>
    case AiHeavyFreighter =>
    case Barge =>
    case AiBarge =>
    case Platform =>
    case UnidentifiedShip =>
    case AiShip =>
  }

  /** A player, as the gating rules see one: permissions and level. */
  datatype Player = Player(permissions: set<string>, level: int)

  predicate HasPermission(p: Player, perm: string) { perm in p.permissions }

  /** `canUse`: any-ship permission, the type's override permission, or a
      high enough level. */
  function CanUse(t: ShipType, p: Player): (ok: bool)
    ensures ok <==> "starships.anyship" in p.permissions
                    || Info(t).overridePermission in p.permissions
                    || p.level >= Info(t).minLevel
  {
    HasPermission(p, "starships.anyship") || HasPermission(p, Info(t).overridePermission) || p.level >= Info(t).minLevel
  }

  /** `canPilotIn`: no required flag missing from the world, and none of
      the disallowed flags present. */
  function CanPilotIn(t: ShipType, flags: set<WorldFlag>): (ok: bool)
    ensures ok <==> (forall f :: f in Info(t).requiredWorldFlags ==> f in flags)
                    && (forall f :: f in Info(t).disallowedWorldFlags ==> f !in flags)
  {
    var info := Info(t);
    MissingFlags(info.requiredWorldFlags, flags);
    SharedFlags(info.disallowedWorldFlags, flags);
    if info.requiredWorldFlags - flags != {} then false
    else info.disallowedWorldFlags * flags == {}
  }

  /** `subtract(...).isNotEmpty()` is "some element is missing". */
  lemma MissingFlags(required: set<WorldFlag>, flags: set<WorldFlag>)
    ensures required - flags == {} <==> forall f :: f in required ==> f in flags
  {
    if required - flags != {} {
      var f :| f in required - flags;
    } else {
      forall f | f in required
        ensures f in flags
      {
        assert f !in flags ==> f in required - flags;
      }
    }
  }

  /** `none { flags.contains(it) }` is an empty intersection. */
  lemma SharedFlags(disallowed: set<WorldFlag>, flags: set<WorldFlag>)
    ensures disallowed * flags == {} <==> forall f :: f in disallowed ==> f !in flags
  {
    if disallowed * flags != {} {
      var f :| f in disallowed * flags;
    } else {
      forall f | f in disallowed
        ensures f !in flags
      {
        assert f in flags ==> f in disallowed * flags;
      }
    }
  }

  /** Battlecruisers and barges need a space world, and every other type
      can be piloted in any world. */
  lemma SpaceOnlyTypes(t: ShipType, flags: set<WorldFlag>)
    ensures SpaceWorld !in flags ==> !CanPilotIn(Battlecruiser, flags) && !CanPilotIn(Barge, flags)
    ensures t != Battlecruiser && t != Barge ==> CanPilotIn(t, flags)
    ensures CanPilotIn(t, flags) <==> (SpaceWorld in flags || (t != Battlecruiser && t != Barge))
  {
    WorldFlagsOfTable(t);
    WorldFlagsOfTable(Battlecruiser);
    WorldFlagsOfTable(Barge);
  }

  /** Only battlecruisers and barges require a world flag (a space world),
      and no type disallows any. */
  lemma WorldFlagsOfTable(t: ShipType)
    ensures Info(t).requiredWorldFlags == (if t == Battlecruiser || t == Barge then {SpaceWorld} else {})
    ensures Info(t).disallowedWorldFlags == {}
  {
    match t
    case Speeder =>
    case AiSpeeder =>
    case Starfighter =>
    case AiStarfighter =>
    case Gunship =>
    case AiGunship =>
    case Corvette =>
    case AiCorvette =>
    case AiCorvetteLogistic =>
    case Frigate =>
    case AiFrigate =>
    case Destroyer =>
    case AiDestroyer =>
    case Cruiser =>
    case AiCruiser =>
    case Battlecruiser =>
    case AiBattlecruiser =>
    case Battleship =>
    case AiBattleship =>
    case Dreadnought =>
    case AiDreadnought =>
    case Tank =>
    case Shuttle =>
    case AiShuttle =>
    case Transport =>
    case AiTransport =>
    case LightFreighter =>
    case AiLightFreighter =>
    case MediumFreighter =>
    case HeavyFreighter =>
    case AiHeavyFreighter =>
    case Barge =>
    case AiBarge =>
    case Platform =>
    case UnidentifiedShip =>
    case AiShip =>
  }

  /** The types that pass both filters of `getUnlockedTypes`. */
  predicate Unlocked(t: ShipType, p: Player)
  {
    CanUse(t, p) && !(Info(t).eventShip && !HasPermission(p, "ion.ships.eventship"))
  }

  function FilterUnlocked(s: seq<ShipType>, p: Player): (r: seq<ShipType>)
    ensures forall t :: t in r <==> t in s && Unlocked(t, p)
    ensures |r| <= |s|
  {
    if |s| == 0 then []
    else (if Unlocked(s[0], p) then [s[0]] else []) + FilterUnlocked(s[1..], p)
  }

  function MinLevel(t: ShipType): int { Info(t).minLevel }

  /** `getUnlockedTypes`: the usable types, without the event ship unless
      the player may fly event ships, by ascending level requirement. */
  function GetUnlockedTypes(p: Player): (r: seq<ShipType>)
    ensures forall t :: t in r <==> CanUse(t, p) && (Info(t).eventShip ==> "ion.ships.eventship" in p.permissions)
    ensures forall i, j :: 0 <= i < j < |r| ==> Info(r[i]).minLevel <= Info(r[j]).minLevel
    ensures multiset(r) == multiset(FilterUnlocked(Entries(), p))
  {
    var filtered := FilterUnlocked(Entries(), p);
    var r := SortBy(filtered, MinLevel);
    assert forall t :: t in r <==> t in filtered by {
      forall t ensures t in r <==> t in filtered {
        assert t in r <==> t in multiset(r);
        assert t in filtered <==> t in multiset(filtered);
      }
    }
    forall t ensures t in Entries() {
      EntriesListEveryTypeOnce(t);
    }
    assert Sorted(r, MinLevel);
    r
  }

  /** Types with the same level requirement stay in declaration order. */
  lemma UnlockedTiesKeepDeclarationOrder(p: Player, level: int)
    ensures WithKey(GetUnlockedTypes(p), MinLevel, level) == WithKey(FilterUnlocked(Entries(), p), MinLevel, level)
  {
    SortByStable(FilterUnlocked(Entries(), p), MinLevel, level);
  }

  /** A player with the any-ship permission but not the event-ship one
      unlocks every type except UNIDENTIFIEDSHIP. */
  lemma AnyShipUnlocksAllButEvent(p: Player, t: ShipType)
    requires "starships.anyship" in p.permissions && "ion.ships.eventship" !in p.permissions
    ensures t in GetUnlockedTypes(p) <==> t != UnidentifiedShip
  {
    OnlyEventShip(t);
  }
}
