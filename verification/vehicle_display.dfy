/** The vehicles dialog of a character: the colour of each category badge
    and condition figure, the favourite star, the names shown for a
    vehicle, and what the dialog body shows for each state of the
    query. */
module VehicleDisplay {
  import opened Results
  import opened Text
  import opened Sorting
  import opened DiscordRoles
  import opened Vehicles

  /** The badge colour of each known category, keyed in lower case. */
  const CategoryColors: map<string, string> := map[
    "super" := "text-accent",
    "sports" := "text-primary",
    "sportsclassics" := "text-secondary",
    "muscle" := "text-red-500",
    "sedans" := "text-blue-accent",
    "suvs" := "text-green-500",
    "offroad" := "text-yellow-500",
    "bikes" := "text-purple-500"
  ]

  const Muted := "text-muted-foreground"

  /** `getVehicleCategoryColor` on a category string: the colour of the
      category whatever its letter case, or the muted colour for a category
      not in the table. */
  function CategoryColor(category: string): (r: string)
    ensures Lower(category) in CategoryColors ==> r == CategoryColors[Lower(category)]
    ensures Lower(category) !in CategoryColors ==> r == Muted
    ensures r != ""
  {
    var key := Lower(category);
    if key in CategoryColors && CategoryColors[key] != "" then CategoryColors[key] else Muted
  }

  /** Letter case never changes a badge's colour. */
  lemma CategoryColorIgnoresCase(category: string)
    ensures CategoryColor(category) == CategoryColor(Lower(category))
  {
    LowerIdempotent(category);
  }

  /** The badge as the dialog renders it: the category is nullable, and
      lower-casing a null category throws, so the dialog fails to render
      (`None`). */
  function BadgeColorAsWritten(category: Option<string>): (r: Option<string>)
    ensures r.None? <==> category.None?
    ensures category.Some? ==> r == Some(CategoryColor(category.value))
  {
    match category
    case Some(c) => Some(CategoryColor(c))
    case None => None
  }

  /** The badge with a missing category treated like an unknown one. */
  function BadgeColor(category: Option<string>): (r: string)
    ensures category.None? ==> r == Muted
    ensures category.Some? ==> r == CategoryColor(category.value)
  {
    match category
    case Some(c) => CategoryColor(c)
    case None => Muted
  }

  /** A vehicle without a category breaks the dialog as written; with the
      missing category read as unknown it gets the muted badge, and every
      other vehicle is coloured exactly as before. */
  lemma NullCategoryBreaksDialog(category: Option<string>)
    ensures BadgeColorAsWritten(None).None?
    ensures BadgeColor(None) == Muted
    ensures BadgeColorAsWritten(category).Some? ==> BadgeColorAsWritten(category).value == BadgeColor(category)
  {
  }

  /** `getConditionColor`: the colour of an engine or body figure. */
  function ConditionColor(value: real): (r: string)
    ensures r in {"text-green-500", "text-yellow-500", "text-orange-500", "text-red-500"}
    ensures r == "text-green-500" <==> value >= 900.0
    ensures r == "text-yellow-500" <==> 700.0 <= value < 900.0
    ensures r == "text-orange-500" <==> 500.0 <= value < 700.0
    ensures r == "text-red-500" <==> value < 500.0
  {
    if value >= 900.0 then "text-green-500"
    else if value >= 700.0 then "text-yellow-500"
    else if value >= 500.0 then "text-orange-500"
    else "text-red-500"
  }

  /** How alarming a condition colour is, from 0 (green) to 3 (red). */
  function Severity(color: string): nat {
    if color == "text-green-500" then 0
    else if color == "text-yellow-500" then 1
    else if color == "text-orange-500" then 2
    else 3
  }

  /** A better figure never gets a more alarming colour, and each band
      starts exactly at its threshold. */
  lemma ConditionColorMonotone(v: real, w: real)
    requires v <= w
    ensures Severity(ConditionColor(w)) <= Severity(ConditionColor(v))
    ensures Severity(ConditionColor(v)) == 0 <==> v >= 900.0
    ensures Severity(ConditionColor(v)) == 3 <==> v < 500.0
    ensures Severity(ConditionColor(v)) == 1 <==> 700.0 <= v < 900.0
    ensures Severity(ConditionColor(v)) == 2 <==> 500.0 <= v < 700.0
  {
  }

  /** The star next to a favourite vehicle. */
  predicate FavouriteStar(v: Vehicle) {
    v.favourite == 1
  }

  /** In the listed garage no starred vehicle comes after a vehicle whose
      favourite flag is below 1. */
  lemma StarredListedFirst(plateLe: (string, string) -> bool, vs: seq<Vehicle>, i: nat, j: nat)
    requires TotalPreorder(plateLe)
    requires i < j < |SortGarage(plateLe, vs)|
    requires FavouriteStar(SortGarage(plateLe, vs)[j])
    ensures SortGarage(plateLe, vs)[i].favourite >= 1
  {
  }

  /** JSX renders a null brand or model as nothing. */
  function Shown(s: Option<string>): string {
    match s case Some(t) => t case None => ""
  }

  /** A template literal renders null as the text "null". */
  function Interpolated(s: Option<string>): (r: string)
    ensures s.None? ==> r == "null"
  {
    match s case Some(t) => t case None => "null"
  }

  /** The card heading, `{brand} {model}`. */
  function CardHeading(v: Vehicle): string {
    Shown(v.brand) + " " + Shown(v.model)
  }

  /** The vehicle name passed to the storage dialog, `${brand} ${model}`. */
  function StorageTitle(v: Vehicle): string {
    Interpolated(v.brand) + " " + Interpolated(v.model)
  }

  /** The two names agree whenever brand and model are known; a missing
      one shows as nothing on the card but as "null" in the storage
      dialog. */
  lemma NamesAgreeWhenKnown(v: Vehicle)
    ensures v.brand.Some? && v.model.Some? ==> CardHeading(v) == StorageTitle(v)
    ensures v.brand.None? ==> StorageTitle(v)[..5] == "null " && CardHeading(v)[0] == ' '
  {
  }

  /** The character id the dialog asks for: none while it is closed, so a
      closed dialog never fetches. */
  function GarageQueryId(open: bool, citizenid: string): (r: Option<string>)
    ensures !open ==> r.None?
    ensures open ==> r == Some(citizenid)
  {
    if open then Some(citizenid) else None
  }

  lemma ClosedDialogFetchesNothing(cfg: RolesConfig, citizenid: string)
    ensures !GarageEnabled(cfg, GarageQueryId(false, citizenid))
    ensures GarageRequest(cfg, GarageQueryId(false, citizenid)).Err?
  {
  }

  /** What the dialog body shows. */
  datatype GarageView = Loading | LoadFailed(message: string) | Listing(total: int, cards: seq<Vehicle>) | NoVehicles

  /** The dialog body: a spinner while loading, the error's message, the
      reported total and the cards when there is at least one vehicle, and
      "No vehicles found" otherwise. */
  function GarageViewOf(loading: bool, outcome: Option<Result<Garage, string>>): (r: GarageView)
    ensures loading <==> r.Loading?
    ensures r.LoadFailed? <==> !loading && outcome.Some? && outcome.value.Err?
    ensures r.LoadFailed? ==> r.message == outcome.value.error
    ensures r.Listing? <==> !loading && outcome.Some? && outcome.value.Ok? && |outcome.value.value.vehicles| > 0
    ensures r.Listing? ==> r.total == outcome.value.value.vehicleCount && r.cards == outcome.value.value.vehicles
  {
    if loading then Loading
    else match outcome
      case Some(Err(m)) => LoadFailed(m)
      case Some(Ok(g)) => if |g.vehicles| > 0 then Listing(g.vehicleCount, g.vehicles) else NoVehicles
      case None => NoVehicles
  }
}
