/** A character's garage as the game-server service reports it, and the
    order the site lists it in: favourites first, then by plate. */
module Vehicles {
  import opened Results
  import opened Text
  import opened Sorting
  import opened Http
  import opened DiscordRoles

  /** One owned vehicle. Fuel, condition and mileage are numbers the
      service reports; brand, model, category and dealership may be
      null. */
  datatype Vehicle = Vehicle(
    plate: string,
    fuel: real,
    engine: real,
    body: real,
    favourite: int,
    mileage: real,
    brand: Option<string>,
    model: Option<string>,
    category: Option<string>,
    dealership: Option<string>)

  /** The `data` part of the reply. */
  datatype Garage = Garage(citizenid: string, vehicleCount: int, vehicles: seq<Vehicle>)

  const RolesPath := "/discord/roles"
  const DefaultGameApi := "https://api.haven-rp.com/api"

  /** The game-server service's base URL: the configured roles URL with
      its first `/discord/roles` removed, or the default when the setting is
      unset or nothing is left. */
  function GameApiUrl(cfg: RolesConfig): (r: string)
    ensures r != ""
    ensures cfg.rolesUrl.None? ==> r == DefaultGameApi
  {
    match cfg.rolesUrl
    case None => DefaultGameApi
    case Some(u) =>
      var v := RemoveFirst(u, RolesPath);
      if v != "" then v else DefaultGameApi
  }

  /** With the roles service configured at `<base>/discord/roles`, the game
      service is found at `<base>`. */
  lemma GameApiBesideRoles(base: string, apiKey: string)
    requires base != "" && !Contains(base, RolesPath)
    ensures GameApiUrl(RolesConfig(Some(base + RolesPath), apiKey)) == base
  {
    var u := base + RolesPath;
    assert u[|base|..|base| + |RolesPath|] == RolesPath;
    forall k | 0 <= k < |base| ensures !OccursAt(u, RolesPath, k) {
      if k + |RolesPath| <= |base| {
        assert u[k..k + |RolesPath|] == base[k..k + |RolesPath|];
        assert !OccursAt(base, RolesPath, k);
      } else {
        // A window straddling the join would need the pattern to start
        // again at its own position d, which does not read "/d".
        var d := |base| - k;
        assert u[k + d] == '/' && u[k + d + 1] == 'd';
        assert RolesPath[d] != '/' || (d + 1 < |RolesPath| && RolesPath[d + 1] != 'd');
        assert u[k..k + |RolesPath|][d] == u[k + d];
      }
    }
    RemoveFirstAt(u, RolesPath, |base|);
    assert u[..|base|] == base && u[|base| + |RolesPath|..] == "";
  }

  /** `useFivemVehicles` before the request: the citizen id is checked
      first, then the key. */
  function GarageRequest(cfg: RolesConfig, citizenid: Option<string>): (r: Result<string, string>)
    ensures citizenid.None? || citizenid.value == "" ==> r == Err("No citizen ID provided")
    ensures citizenid.Some? && citizenid.value != "" && cfg.apiKey == "" ==> r == Err(MissingKey)
    ensures r.Ok? ==> r.value == GameApiUrl(cfg) + "/fivem/character/" + citizenid.value + "/vehicles"
  {
    match citizenid
    case None => Err("No citizen ID provided")
    case Some(id) =>
      if id == "" then Err("No citizen ID provided")
      else if cfg.apiKey == "" then Err(MissingKey)
      else Ok(GameApiUrl(cfg) + "/fivem/character/" + id + "/vehicles")
  }

  /** The hook's `enabled` flag. */
  predicate GarageEnabled(cfg: RolesConfig, citizenid: Option<string>) {
    citizenid.Some? && citizenid.value != "" && cfg.apiKey != ""
  }

  /** The query runs exactly when its request would pass both guards. */
  lemma GarageEnabledIffRequestable(cfg: RolesConfig, citizenid: Option<string>)
    ensures GarageEnabled(cfg, citizenid) <==> GarageRequest(cfg, citizenid).Ok?
  {
  }

  /** The garage comparator as a "may stay before" relation: the larger
      `favourite` first; on equal `favourite`, plates in `localeCompare`
      order, which `plateLe` stands for. */
  function GarageOrder(plateLe: (string, string) -> bool): (Vehicle, Vehicle) -> bool {
    (a: Vehicle, b: Vehicle) =>
      if a.favourite != b.favourite then b.favourite - a.favourite <= 0 else plateLe(a.plate, b.plate)
  }

  lemma GarageOrderPreorder(plateLe: (string, string) -> bool)
    requires TotalPreorder(plateLe)
    ensures TotalPreorder(GarageOrder(plateLe))
  {
    var le := GarageOrder(plateLe);
    forall a: Vehicle, b: Vehicle ensures le(a, b) || le(b, a) {
      if a.favourite == b.favourite {
        assert plateLe(a.plate, b.plate) || plateLe(b.plate, a.plate);
      }
    }
    forall a: Vehicle, b: Vehicle, c: Vehicle | le(a, b) && le(b, c) ensures le(a, c) {
      if a.favourite == b.favourite && b.favourite == c.favourite {
        assert plateLe(a.plate, b.plate) && plateLe(b.plate, c.plate);
      }
    }
  }

  /** The vehicles in listing order. */
  function SortGarage(plateLe: (string, string) -> bool, vs: seq<Vehicle>): (r: seq<Vehicle>)
    requires TotalPreorder(plateLe)
    ensures multiset(r) == multiset(vs)
    ensures forall i, j :: 0 <= i < j < |r| ==> r[i].favourite >= r[j].favourite
    ensures forall i, j :: 0 <= i < j < |r| && r[i].favourite == r[j].favourite ==> plateLe(r[i].plate, r[j].plate)
  {
    GarageOrderPreorder(plateLe);
    StableSortSorted(GarageOrder(plateLe), vs);
    var r := StableSort(GarageOrder(plateLe), vs);
    assert forall i, j :: 0 <= i < j < |r| ==> GarageOrder(plateLe)(r[i], r[j]);
    r
  }

  /** Vehicles that compare equal (same favourite flag, plates that
      `localeCompare` reports equal) keep the service's order. */
  lemma SortGarageStable(plateLe: (string, string) -> bool, vs: seq<Vehicle>)
    requires TotalPreorder(plateLe)
    ensures Stable(GarageOrder(plateLe), vs, SortGarage(plateLe, vs))
  {
    GarageOrderPreorder(plateLe);
    StableSortStable(GarageOrder(plateLe), vs);
  }

  /** Any listing that is ordered, stable and a rearrangement of the reply
      is the one the site shows: the order is fully determined. */
  lemma SortGarageUnique(plateLe: (string, string) -> bool, vs: seq<Vehicle>, out: seq<Vehicle>)
    requires TotalPreorder(plateLe)
    requires SortedBy(GarageOrder(plateLe), out) && multiset(out) == multiset(vs)
    requires Stable(GarageOrder(plateLe), vs, out)
    ensures out == SortGarage(plateLe, vs)
  {
    GarageOrderPreorder(plateLe);
    StableSortIsUnique(GarageOrder(plateLe), vs, out);
  }

  /** `useFivemVehicles` after the request: a failure carries status and
      status text; a success keeps the citizen id and count and lists the
      vehicles in garage order. */
  function ReadGarage(plateLe: (string, string) -> bool, response: Response<Garage>): (r: Result<Garage, string>)
    requires TotalPreorder(plateLe)
    ensures r.Err? <==> !IsOk(response.status)
    ensures r.Err? ==> r.error == "Failed to fetch vehicles: " + ShowInt(response.status) + " " + response.statusText
    ensures r.Ok? ==> && r.value.citizenid == response.body.citizenid
                      && r.value.vehicleCount == response.body.vehicleCount
                      && r.value.vehicles == SortGarage(plateLe, response.body.vehicles)
  {
    if !IsOk(response.status) then
      Err("Failed to fetch vehicles: " + ShowInt(response.status) + " " + response.statusText)
    else
      var g := response.body;
      Ok(g.(vehicles := SortGarage(plateLe, g.vehicles)))
  }
}
