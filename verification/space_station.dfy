/** Space station commands: name and radius validation, the creation
    cooldown, creation with its acknowledged cost, resizing, trusting and
    untrusting, the trust level and transfers between owner kinds.

    Ownership and permission lookups, settlement and nation membership,
    the station cost formula and the distance checks against planets, moons,
    stars, beacons and other stations are not part of this model; they are
    parameters. */
module SpaceStations {
  import opened Common
  import opened Text

  /** Who owns a station: a player, a settlement or a nation. */
  datatype StationKind = Personal | SettlementStation | NationStation

  datatype TrustLevel = Manual | NationTrust | Ally

  /** A cached space station. */
  datatype Station = Station(
    kind: StationKind,
    owner: string,
    name: string,
    world: string,
    x: int,
    z: int,
    radius: int,
    trustedPlayers: set<string>,
    trustedSettlements: set<string>,
    trustedNations: set<string>,
    trustLevel: TrustLevel)

  /** `validateName`: letters and digits only, 3 to 40 characters, and no
      nation station of the same name ignoring case. Player and settlement
      stations are not consulted. */
  function ValidateName(name: string, stations: seq<Station>): (r: Result<string>)
    ensures r.Ok? <==> (IsAlphanumeric(name) && 3 <= |name| <= 40
      && forall i :: 0 <= i < |stations| && stations[i].kind == NationStation ==> !EqualsIgnoreCase(stations[i].name, name))
    ensures r.Ok? ==> r.value == name
    ensures !IsAlphanumeric(name) ==> r == Fail("Name must be alphanumeric")
  {
    if !IsAlphanumeric(name) then Fail("Name must be alphanumeric")
    else if |name| < 3 then Fail("Name cannot be less than 3 characters")
    else if |name| > 40 then Fail("Name cannot be more than 40 characters")
    else if NationNameTaken(name, stations) then Fail("A space station named " + name + " already exists")
    else Ok(name)
  }

  /** `NationSpaceStation.all().any { it.name.equals(name, ignoreCase = true) }`. */
  function NationNameTaken(name: string, stations: seq<Station>): (taken: bool)
    ensures taken <==> exists i :: 0 <= i < |stations| && stations[i].kind == NationStation && EqualsIgnoreCase(stations[i].name, name)
  {
    if |stations| == 0 then false
    else
      var rest := NationNameTaken(name, stations[1..]);
      assert rest <==> exists i :: 1 <= i < |stations| && stations[i].kind == NationStation && EqualsIgnoreCase(stations[i].name, name) by {
        if rest {
          var i :| 0 <= i < |stations[1..]| && stations[1..][i].kind == NationStation && EqualsIgnoreCase(stations[1..][i].name, name);
          assert stations[i + 1] == stations[1..][i];
        }
        forall i | 1 <= i < |stations| && stations[i].kind == NationStation && EqualsIgnoreCase(stations[i].name, name)
          ensures rest
        {
          assert stations[1..][i - 1] == stations[i];
        }
      }
      (stations[0].kind == NationStation && EqualsIgnoreCase(stations[0].name, name)) || rest
  }

  /** A personal or settlement station never blocks a name, even one that
      differs only in case. */
  lemma OnlyNationStationsBlockNames(name: string, stations: seq<Station>, other: Station)
    requires other.kind != NationStation
    ensures ValidateName(name, stations + [other]) == ValidateName(name, stations)
  {
    var all := stations + [other];
    assert forall i :: 0 <= i < |stations| ==> all[i] == stations[i];
    assert NationNameTaken(name, all) == NationNameTaken(name, stations);
  }

  /** Two names that differ only in case clash when one is a nation
      station's. */
  lemma NameClashIgnoresCase(name: string, stations: seq<Station>, i: int)
    requires 0 <= i < |stations| && stations[i].kind == NationStation
    requires Lower(stations[i].name) == Lower(name)
    ensures ValidateName(name, stations).Fail?
  {
  }

  const MinRadius: int := 15
  const MaxRadius: int := 10_000

  /** The radius test of `checkDimensions`. */
  function CheckRadius(radius: int): (r: Result<int>)
    ensures r.Ok? <==> MinRadius <= radius <= MaxRadius
    ensures r.Ok? ==> r.value == radius
  {
    if radius < 15 || radius > 10_000 then Fail("Radius must be at least 15 and at most 10,000 blocks")
    else Ok(radius)
  }

  /** `STATION_FORMATION_COOLDOWN`, thirty minutes, in milliseconds. */
  const CooldownMs: int := 30 * 60 * 1000

  /** `checkStationCreationCooldown`: a time is recorded for the player and
      the clock has not yet passed it by thirty minutes. */
  predicate InCooldown(lastFormed: map<string, int>, player: string, now: int)
  {
    player in lastFormed && now < lastFormed[player] + CooldownMs
  }

  /** Recording a creation at time `t` blocks the player for exactly the
      thirty minutes that follow; abandoning a station records time 0, which
      lifts the block for any clock past the first thirty minutes. */
  lemma CooldownWindow(lastFormed: map<string, int>, player: string, other: string, t: int, now: int)
    requires other != player
    ensures InCooldown(lastFormed[player := t], player, now) <==> now < t + CooldownMs
    ensures InCooldown(lastFormed[player := t], other, now) == InCooldown(lastFormed, other, now)
    ensures now >= CooldownMs ==> !InCooldown(Abandon(lastFormed, player), player, now)
  {
  }

  /** `onAbandon`'s effect on the cooldown table. */
  function Abandon(lastFormed: map<string, int>, player: string): (r: map<string, int>)
    ensures player in r && r[player] == 0
    ensures forall p :: p in lastFormed && p != player ==> p in r && r[p] == lastFormed[p]
  {
    lastFormed[player := 0]
  }

  /** The player issuing a command, as far as the checks see them. */
  datatype Sender = Sender(id: string, permissions: set<string>, inCombat: bool, balance: int, world: string, x: int, z: int)

  /** `calculateCost(oldRadius, newRadius)`. */
  type CostFormula = (int, int) -> int

  /** The state the creation commands change besides the sender's balance:
      the stations and the cooldown table. */
  datatype Registry = Registry(stations: seq<Station>, lastFormed: map<string, int>)

  /** `create`: permission, world flag, combat, name, dimensions, money and
      the acknowledged cost, in that order; then the station is added with
      manual trust and nobody trusted, and the real cost withdrawn.
      `clear` stands for the distance checks of `checkDimensions`. */
  function Create(s: Sender, worldAllowsStations: bool, name: string, radius: int, cost: Option<int>,
                  owner: string, kind: StationKind, stations: seq<Station>, costOf: CostFormula, clear: bool): (r: Result<(seq<Station>, int)>)
    ensures r.Ok? ==> "nations.spacestation.create" in s.permissions && worldAllowsStations && !s.inCombat
    ensures r.Ok? ==> ValidateName(name, stations).Ok? && CheckRadius(radius).Ok?
    ensures r.Ok? ==> cost == Some(costOf(0, radius)) && s.balance >= costOf(0, radius)
    ensures cost != Some(costOf(0, radius)) ==> r.Fail?
    ensures r.Ok? ==> (r.value.0 == stations + [Station(kind, owner, name, s.world, s.x, s.z, radius, {}, {}, {}, Manual)]
      && r.value.1 == s.balance - costOf(0, radius))
    ensures r.Ok? <==> ("nations.spacestation.create" in s.permissions && worldAllowsStations && !s.inCombat
      && ValidateName(name, stations).Ok? && CheckRadius(radius).Ok? && clear
      && s.balance >= costOf(0, radius) && cost == Some(costOf(0, radius)))
  {
    if "nations.spacestation.create" !in s.permissions then Fail("You can't create space stations here!")
    else if !worldAllowsStations then Fail("You can't create space stations in this world!")
    else if s.inCombat then Fail("You are currently in combat!")
    else if ValidateName(name, stations).Fail? then Fail(ValidateName(name, stations).reason)
    else if CheckRadius(radius).Fail? then Fail(CheckRadius(radius).reason)
    else if !clear then Fail("This claim would be too close to another claim")
    else
      var realCost := costOf(0, radius);
      if s.balance < realCost then Fail("You don't have enough money to create a space station")
      else if cost != Some(realCost) then Fail("You must acknowledge the cost of creating a space station to create one.")
      else Ok((stations + [Station(kind, owner, name, s.world, s.x, s.z, radius, {}, {}, {}, Manual)], s.balance - realCost))
  }

  /** `createNation`, `createSettlement` and `createPersonal`: refused during
      the cooldown, then the settlement or nation membership and permission
      (`memberOk`), then `create`; a successful creation starts the
      cooldown at `now`. */
  function CreateCommand(reg: Registry, s: Sender, now: int, memberOk: bool, worldAllowsStations: bool, name: string,
                         radius: int, cost: Option<int>, owner: string, kind: StationKind, costOf: CostFormula, clear: bool): (r: Result<(Registry, int)>)
    ensures InCooldown(reg.lastFormed, s.id, now) ==> r.Fail?
    ensures r.Ok? ==> (r.value.0.lastFormed == reg.lastFormed[s.id := now]
      && InCooldown(r.value.0.lastFormed, s.id, now)
      && |r.value.0.stations| == |reg.stations| + 1
      && r.value.1 == s.balance - costOf(0, radius)
      && cost == Some(costOf(0, radius)))
    ensures r.Ok? <==> (!InCooldown(reg.lastFormed, s.id, now) && (kind == Personal || memberOk)
      && Create(s, worldAllowsStations, name, radius, cost, owner, kind, reg.stations, costOf, clear).Ok?)
  {
    if InCooldown(reg.lastFormed, s.id, now) then Fail("You must wait before you can claim another station")
    else if kind != Personal && !memberOk then Fail("You are not allowed to create a station for it")
    else
      match Create(s, worldAllowsStations, name, radius, cost, owner, kind, reg.stations, costOf, clear)
      case Fail(e) => Fail(e)
      case Ok(created) => Ok((Registry(created.0, reg.lastFormed[s.id := now]), created.1))
  }

  /** `onResize`: ownership and permission (`allowed`), dimensions, money
      and the acknowledged cost of going from the old radius to the new
      one. Shrinking is allowed and refunds nothing. */
  function Resize(st: Station, allowed: bool, newRadius: int, cost: Option<int>, balance: int, costOf: CostFormula, clear: bool): (r: Result<(Station, int)>)
    ensures r.Ok? <==> (allowed && CheckRadius(newRadius).Ok? && clear
      && balance >= costOf(st.radius, newRadius) && cost == Some(costOf(st.radius, newRadius)))
    ensures r.Ok? ==> r.value.0 == st.(radius := newRadius) && r.value.1 == balance - costOf(st.radius, newRadius)
  {
    if !allowed then Fail("You don't own this station")
    else if CheckRadius(newRadius).Fail? then Fail(CheckRadius(newRadius).reason)
    else if !clear then Fail("This claim would be too close to another claim")
    else
      var realCost := costOf(st.radius, newRadius);
      if balance < realCost then Fail("You don't have enough money")
      else if cost != Some(realCost) then Fail("You must acknowledge the cost of resizing a space station to resize one.")
      else Ok((st.(radius := newRadius), balance - realCost))
  }

  /** Resizing back to the old radius, at the acknowledged cost of that
      change, restores the station; two resizes in a row land on the second
      radius and charge both costs. */
  lemma ResizeBack(st: Station, newRadius: int, cost: Option<int>, balance: int, costOf: CostFormula, clear: bool)
    requires Resize(st, true, newRadius, cost, balance, costOf, clear).Ok?
    ensures var (resized, left) := Resize(st, true, newRadius, cost, balance, costOf, clear).value;
      CheckRadius(st.radius).Ok? && left >= costOf(newRadius, st.radius) ==>
        Resize(resized, true, st.radius, Some(costOf(newRadius, st.radius)), left, costOf, true)
          == Ok((st, balance - costOf(st.radius, newRadius) - costOf(newRadius, st.radius)))
    ensures forall r2: int :: var (resized, left) := Resize(st, true, newRadius, cost, balance, costOf, clear).value;
      Resize(resized, true, r2, Some(costOf(newRadius, r2)), left, costOf, true).Ok? ==>
        Resize(resized, true, r2, Some(costOf(newRadius, r2)), left, costOf, true).value
          == (st.(radius := r2), balance - costOf(st.radius, newRadius) - costOf(newRadius, r2))
  {
  }

  /** What can be trusted in a station. */
  datatype TrustTarget = TrustPlayer | TrustSettlement | TrustNation

  function TrustedOf(st: Station, t: TrustTarget): set<string>
  {
    match t
    case TrustPlayer => st.trustedPlayers
    case TrustSettlement => st.trustedSettlements
    case TrustNation => st.trustedNations
  }

  function WithTrusted(st: Station, t: TrustTarget, ids: set<string>): (r: Station)
    ensures TrustedOf(r, t) == ids
    ensures forall u :: u != t ==> TrustedOf(r, u) == TrustedOf(st, u)
    ensures r.kind == st.kind && r.name == st.name && r.radius == st.radius && r.trustLevel == st.trustLevel
  {
    match t
    case TrustPlayer => st.(trustedPlayers := ids)
    case TrustSettlement => st.(trustedSettlements := ids)
    case TrustNation => st.(trustedNations := ids)
  }

  /** The `trusted add` commands: ownership, the lookup of the named
      player, settlement or nation (`id`), the manage permission, then a
      refusal when it is already trusted. */
  function Trust(st: Station, owns: bool, id: Option<string>, permitted: bool, t: TrustTarget): (r: Result<Station>)
    ensures r.Ok? <==> owns && id.Some? && permitted && id.value !in TrustedOf(st, t)
    ensures r.Ok? ==> TrustedOf(r.value, t) == TrustedOf(st, t) + {id.value}
    ensures r.Ok? ==> forall u :: u != t ==> TrustedOf(r.value, u) == TrustedOf(st, u)
  {
    if !owns then Fail("Your station owner doesn't own " + st.name)
    else if id.None? then Fail("Not found")
    else if !permitted then Fail("You don't have permission MANAGE_STATION")
    else if id.value in TrustedOf(st, t) then Fail(id.value + " is already trusted in " + st.name)
    else Ok(WithTrusted(st, t, TrustedOf(st, t) + {id.value}))
  }

  /** The `trusted remove` commands, with the opposite refusal. */
  function Untrust(st: Station, owns: bool, id: Option<string>, permitted: bool, t: TrustTarget): (r: Result<Station>)
    ensures r.Ok? <==> owns && id.Some? && permitted && id.value in TrustedOf(st, t)
    ensures r.Ok? ==> TrustedOf(r.value, t) == TrustedOf(st, t) - {id.value}
    ensures r.Ok? ==> forall u :: u != t ==> TrustedOf(r.value, u) == TrustedOf(st, u)
  {
    if !owns then Fail("Your station owner doesn't own " + st.name)
    else if id.None? then Fail("Not found")
    else if !permitted then Fail("You don't have permission MANAGE_STATION")
    else if id.value !in TrustedOf(st, t) then Fail(id.value + " isn't trusted in " + st.name)
    else Ok(WithTrusted(st, t, TrustedOf(st, t) - {id.value}))
  }

  /** Trusting and then untrusting gives the station back, and so does the
      other order; doing either twice fails the second time. */
  lemma TrustUntrustRoundTrip(st: Station, id: string, t: TrustTarget)
    ensures id !in TrustedOf(st, t) ==>
      Trust(st, true, Some(id), true, t).Ok?
      && Untrust(Trust(st, true, Some(id), true, t).value, true, Some(id), true, t) == Ok(st)
      && Trust(Trust(st, true, Some(id), true, t).value, true, Some(id), true, t).Fail?
    ensures id in TrustedOf(st, t) ==>
      Untrust(st, true, Some(id), true, t).Ok?
      && Trust(Untrust(st, true, Some(id), true, t).value, true, Some(id), true, t) == Ok(st)
      && Untrust(Untrust(st, true, Some(id), true, t).value, true, Some(id), true, t).Fail?
  {
    if id !in TrustedOf(st, t) {
      assert TrustedOf(st, t) + {id} - {id} == TrustedOf(st, t);
    } else {
      assert TrustedOf(st, t) - {id} + {id} == TrustedOf(st, t);
    }
  }

  /** `onSetTrustLevel`: refused when the level would not change. */
  function SetTrustLevel(st: Station, owns: bool, level: TrustLevel): (r: Result<Station>)
    ensures r.Ok? <==> owns && level != st.trustLevel
    ensures r.Ok? ==> r.value == st.(trustLevel := level)
  {
    if !owns then Fail("Your station owner doesn't own " + st.name)
    else if st.trustLevel == level then Fail(st.name + "'s trust level is already set")
    else Ok(st.(trustLevel := level))
  }

  /** Setting the trust level back undoes a change, and setting the same
      level twice is refused the second time. */
  lemma SetTrustLevelRoundTrip(st: Station, level: TrustLevel)
    ensures level != st.trustLevel ==>
      SetTrustLevel(st, true, level).Ok?
      && SetTrustLevel(SetTrustLevel(st, true, level).value, true, st.trustLevel) == Ok(st)
      && SetTrustLevel(SetTrustLevel(st, true, level).value, true, level).Fail?
    ensures level == st.trustLevel ==> SetTrustLevel(st, true, level).Fail?
  {
  }

  /** The owner kind named by a transfer destination, ignoring case. */
  function DestinationKind(destination: string): (k: Option<StationKind>)
    ensures k == Some(Personal) <==> Lower(destination) == "personal"
    ensures k == Some(SettlementStation) <==> Lower(destination) == "settlement"
    ensures k == Some(NationStation) <==> Lower(destination) == "nation"
  {
    var d := Lower(destination);
    if d == "personal" then Some(Personal)
    else if d == "settlement" then Some(SettlementStation)
    else if d == "nation" then Some(NationStation)
    else None
  }

  /** `onTransfer`: ownership and delete permission (`allowed`), the
      literal "confirm", a known destination, a kind other than the current
      one, and membership and permission in the receiving settlement or
      nation (`newOwner`, absent when refused). The station keeps its name,
      place, radius, trusted sets and trust level. */
  function Transfer(st: Station, allowed: bool, destination: string, confirm: Option<string>,
                    sender: string, newOwner: StationKind -> Option<string>): (r: Result<Station>)
    ensures r.Ok? ==> allowed && confirm == Some("confirm")
    ensures r.Ok? ==> DestinationKind(destination) == Some(r.value.kind) && r.value.kind != st.kind
    ensures r.Ok? ==> r.value == st.(kind := r.value.kind, owner := r.value.owner)
    ensures r.Ok? && r.value.kind == Personal ==> r.value.owner == sender
    ensures allowed && confirm == Some("confirm") && DestinationKind(destination) == Some(Personal) && st.kind != Personal
      ==> r == Ok(st.(kind := Personal, owner := sender))
  {
    if !allowed then Fail("You don't own " + st.name)
    else if confirm != Some("confirm") then Fail("To transfer the station, confirm this choice.")
    else
      match DestinationKind(destination)
      case None => Fail("The destination must be personal, settlement, or nation!")
      case Some(kind) =>
        if kind == st.kind then Fail(st.name + " is already of that kind!")
        else if kind == Personal then Ok(st.(kind := Personal, owner := sender))
        else
          match newOwner(kind)
          case None => Fail("You can't transfer the station there")
          case Some(o) => Ok(st.(kind := kind, owner := o))
  }

  /** Transferring back to the original kind is refused only if nothing
      changed: a transfer always changes the kind, so an immediate second
      transfer to the same destination fails. */
  lemma TransferTwiceFails(st: Station, destination: string, sender: string, newOwner: StationKind -> Option<string>)
    requires Transfer(st, true, destination, Some("confirm"), sender, newOwner).Ok?
    ensures Transfer(Transfer(st, true, destination, Some("confirm"), sender, newOwner).value, true, destination, Some("confirm"), sender, newOwner).Fail?
  {
  }

  /** `onAbandon`: ownership and the delete permission (`allowed`), then
      the station is removed and the player's cooldown time reset to 0. */
  function AbandonCommand(reg: Registry, i: nat, allowed: bool, player: string): (r: Result<Registry>)
    requires i < |reg.stations|
    ensures r.Ok? <==> allowed
    ensures r.Ok? ==> r.value.stations == reg.stations[..i] + reg.stations[i + 1..]
    ensures r.Ok? ==> r.value.lastFormed == Abandon(reg.lastFormed, player)
  {
    if !allowed then Fail("You don't own " + reg.stations[i].name)
    else Ok(Registry(reg.stations[..i] + reg.stations[i + 1..], Abandon(reg.lastFormed, player)))
  }

  /** `onRename`: ownership, then the same name rules as creation. */
  function Rename(st: Station, owns: bool, newName: string, stations: seq<Station>): (r: Result<Station>)
    ensures r.Ok? <==> owns && ValidateName(newName, stations).Ok?
    ensures r.Ok? ==> r.value == st.(name := newName)
  {
    if !owns then Fail("Your station owner doesn't own " + st.name)
    else if ValidateName(newName, stations).Fail? then Fail(ValidateName(newName, stations).reason)
    else Ok(st.(name := newName))
  }

  /** No two nation stations share a name, ignoring case: what the name
      check of creation and renaming keeps. */
  predicate NationNamesDistinct(stations: seq<Station>)
  {
    forall i, j :: 0 <= i < j < |stations| && stations[i].kind == NationStation && stations[j].kind == NationStation
      ==> !EqualsIgnoreCase(stations[i].name, stations[j].name)
  }

  /** Creating a station keeps nation names distinct. */
  lemma CreateKeepsNationNamesDistinct(s: Sender, worldAllowsStations: bool, name: string, radius: int, cost: Option<int>,
                                       owner: string, kind: StationKind, stations: seq<Station>, costOf: CostFormula, clear: bool)
    requires NationNamesDistinct(stations)
    requires Create(s, worldAllowsStations, name, radius, cost, owner, kind, stations, costOf, clear).Ok?
    ensures NationNamesDistinct(Create(s, worldAllowsStations, name, radius, cost, owner, kind, stations, costOf, clear).value.0)
  {
    var all := Create(s, worldAllowsStations, name, radius, cost, owner, kind, stations, costOf, clear).value.0;
    forall i, j | 0 <= i < j < |all| && all[i].kind == NationStation && all[j].kind == NationStation
      ensures !EqualsIgnoreCase(all[i].name, all[j].name)
    {
      if j == |stations| {
        assert all[i] == stations[i];
        assert !EqualsIgnoreCase(stations[i].name, name);
      } else {
        assert all[i] == stations[i] && all[j] == stations[j];
      }
    }
  }

  /** Renaming a station keeps nation names distinct: the new name is
      checked against every nation station, the renamed one included. */
  lemma RenameKeepsNationNamesDistinct(stations: seq<Station>, k: int, newName: string)
    requires NationNamesDistinct(stations) && 0 <= k < |stations|
    requires Rename(stations[k], true, newName, stations).Ok?
    ensures NationNamesDistinct(stations[k := Rename(stations[k], true, newName, stations).value])
  {
    var all := stations[k := Rename(stations[k], true, newName, stations).value];
    forall i, j | 0 <= i < j < |all| && all[i].kind == NationStation && all[j].kind == NationStation
      ensures !EqualsIgnoreCase(all[i].name, all[j].name)
    {
      if i == k {
        assert !EqualsIgnoreCase(stations[j].name, newName);
        EqualsIgnoreCaseIsEquivalence(newName, stations[j].name, newName);
      } else if j == k {
        assert !EqualsIgnoreCase(stations[i].name, newName);
      } else {
        assert all[i] == stations[i] && all[j] == stations[j];
      }
    }
  }

  /** A transfer does not consult the name check: a personal station named
      like an existing nation station, up to case, becomes a second nation
      station of that name. */
  lemma TransferSkipsNameCheck()
    ensures NationNamesDistinct([AlphaNation, AlphaPersonal])
    ensures Transfer(AlphaPersonal, true, "Nation", Some("confirm"), "p", k => Some("n")) == Ok(AlphaPersonal.(kind := NationStation, owner := "n"))
    ensures !NationNamesDistinct([AlphaNation, AlphaPersonal.(kind := NationStation, owner := "n")])
  {
    var d := Lower("Nation");
    assert d[0] == 'n' && d[1] == 'a' && d[2] == 't' && d[3] == 'i' && d[4] == 'o' && d[5] == 'n';
    assert d == "nation";
    var a, b := Lower("Alpha"), Lower("ALPHA");
    assert forall k :: 0 <= k < 5 ==> a[k] == b[k];
    assert a == b;
    var moved := [AlphaNation, AlphaPersonal.(kind := NationStation, owner := "n")];
    assert moved[0].kind == NationStation && moved[1].kind == NationStation && EqualsIgnoreCase(moved[0].name, moved[1].name);
  }

  const AlphaNation: Station := Station(NationStation, "n", "Alpha", "space", 0, 0, 100, {}, {}, {}, Manual)
  const AlphaPersonal: Station := Station(Personal, "p", "ALPHA", "space", 500, 500, 100, {}, {}, {}, Manual)
}
