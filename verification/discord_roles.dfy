/** Guild roles as the roles service reports them: the guild-wide list the
    administrators see (normalised, de-duplicated by id, sorted by name)
    and the roles of one member. */
module DiscordRoles {
  import opened Results
  import opened Text
  import opened Sorting
  import opened Http

  datatype Role = Role(id: string, name: string, color: int)

  /** The reply for one member. `roles` is a JSON object keyed by role; the
      model keeps its values in property order, which is all any reader of
      it uses. */
  datatype RolesResponse = RolesResponse(success: bool, message: string, discordId: string, roles: seq<Role>)

  /** Where the roles service lives and the key it expects, as configured;
      an unset or empty setting is `None` or `""`. */
  datatype RolesConfig = RolesConfig(rolesUrl: Option<string>, apiKey: string)

  const DefaultRolesUrl := "https://api.haven-rp.com/api/discord/roles"

  /** The configured service URL, or the default when none is set. */
  function RolesUrl(cfg: RolesConfig): (r: string)
    ensures cfg.rolesUrl.Some? && cfg.rolesUrl.value != "" ==> r == cfg.rolesUrl.value
    ensures cfg.rolesUrl.None? || cfg.rolesUrl.value == "" ==> r == DefaultRolesUrl
  {
    match cfg.rolesUrl
    case Some(u) => if u != "" then u else DefaultRolesUrl
    case None => DefaultRolesUrl
  }

  const MissingKey := "HavenRP API key not configured"

  // ---------------------------------------------------------------------
  // The guild-wide list

  /** The `roles` field of the guild-wide reply: absent (or null), an array,
      or an object whose values are listed in property order. */
  datatype RolesField = Missing | ArrayOf(items: seq<Role>) | ObjectOf(values: seq<Role>)

  /** `Array.isArray(roles) ? roles : Object.values(roles || {})`. */
  function Normalise(f: RolesField): (r: seq<Role>)
    ensures f.Missing? ==> r == []
    ensures f.ArrayOf? ==> r == f.items
    ensures f.ObjectOf? ==> r == f.values
  {
    match f
    case Missing => []
    case ArrayOf(items) => items
    case ObjectOf(values) => values
  }

  /** The ids of a list of roles, position by position. */
  function Ids(s: seq<Role>): (r: seq<string>)
    ensures |r| == |s|
    ensures forall i :: 0 <= i < |s| ==> r[i] == s[i].id
  {
    seq(|s|, i requires 0 <= i < |s| => s[i].id)
  }

  predicate DistinctIds(s: seq<Role>) {
    forall i, j :: 0 <= i < j < |s| ==> s[i].id != s[j].id
  }

  /** The position of the role with this id, if any. */
  function IndexOfId(s: seq<Role>, id: string): (r: Option<nat>)
    ensures r.Some? ==> r.value < |s| && s[r.value].id == id
    ensures r.None? ==> id !in Ids(s)
  {
    if |s| == 0 then None
    else if s[|s| - 1].id == id then Some(|s| - 1)
    else match IndexOfId(s[..|s| - 1], id)
      case Some(i) => Some(i)
      case None =>
        assert Ids(s) == Ids(s[..|s| - 1]) + [s[|s| - 1].id];
        None
  }

  /** `map.set(r.id, r)` on a `Map` whose entries are `acc`: an existing
      entry keeps its position and takes the new value; a new id goes to
      the end. */
  function Upsert(acc: seq<Role>, r: Role): (out: seq<Role>)
    ensures r in out
  {
    match IndexOfId(acc, r.id)
    case Some(i) => assert acc[i := r][i] == r; acc[i := r]
    case None => assert (acc + [r])[|acc|] == r; acc + [r]
  }

  /** `Array.from(new Map(roles.map(r => [r.id, r])).values())`. */
  function Dedupe(rs: seq<Role>): (out: seq<Role>)
    ensures |out| <= |rs|
  {
    if |rs| == 0 then [] else Upsert(Dedupe(rs[..|rs| - 1]), rs[|rs| - 1])
  }

  /** The ids in order of first appearance: the reference the de-duplicated
      list is compared with. */
  function FirstIds(rs: seq<Role>): seq<string> {
    if |rs| == 0 then []
    else
      var prev := FirstIds(rs[..|rs| - 1]);
      if rs[|rs| - 1].id in prev then prev else prev + [rs[|rs| - 1].id]
  }

  /** The last role in `rs` with this id. */
  function LastWithId(rs: seq<Role>, id: string): (r: Role)
    requires id in Ids(rs)
    ensures r in rs && r.id == id
  {
    if rs[|rs| - 1].id == id then rs[|rs| - 1]
    else
      assert Ids(rs) == Ids(rs[..|rs| - 1]) + [rs[|rs| - 1].id];
      LastWithId(rs[..|rs| - 1], id)
  }

  lemma UpsertIds(acc: seq<Role>, r: Role)
    ensures Ids(Upsert(acc, r)) == if r.id in Ids(acc) then Ids(acc) else Ids(acc) + [r.id]
  {
    match IndexOfId(acc, r.id)
    case Some(i) =>
      assert Ids(acc[i := r]) == Ids(acc);
    case None =>
      assert Ids(acc + [r]) == Ids(acc) + [r.id];
  }

  /** The de-duplicated list holds each id once, in order of first
      appearance, so it has exactly the input's ids. */
  lemma {:induction false} DedupeIds(rs: seq<Role>)
    ensures Ids(Dedupe(rs)) == FirstIds(rs)
  {
    if |rs| > 0 {
      DedupeIds(rs[..|rs| - 1]);
      UpsertIds(Dedupe(rs[..|rs| - 1]), rs[|rs| - 1]);
    }
  }

  lemma {:induction false} FirstIdsDistinct(rs: seq<Role>)
    ensures forall i, j :: 0 <= i < j < |FirstIds(rs)| ==> FirstIds(rs)[i] != FirstIds(rs)[j]
    ensures forall id :: id in FirstIds(rs) <==> id in Ids(rs)
  {
    if |rs| > 0 {
      var init := rs[..|rs| - 1];
      var x := rs[|rs| - 1].id;
      var prev := FirstIds(init);
      FirstIdsDistinct(init);
      assert Ids(rs) == Ids(init) + [x];
      if x !in prev {
        var out := prev + [x];
        assert FirstIds(rs) == out;
        forall i, j | 0 <= i < j < |out| ensures out[i] != out[j] {
          if j == |prev| {
            assert out[i] == prev[i];
          } else {
            assert out[i] == prev[i] && out[j] == prev[j];
          }
        }
      }
    }
  }

  /** No id survives twice, and no id is lost or invented. */
  lemma DedupeDistinct(rs: seq<Role>)
    ensures DistinctIds(Dedupe(rs))
    ensures forall id :: id in Ids(Dedupe(rs)) <==> id in Ids(rs)
  {
    DedupeIds(rs);
    FirstIdsDistinct(rs);
    var out := Dedupe(rs);
    forall i, j | 0 <= i < j < |out| ensures out[i].id != out[j].id {
      assert Ids(out)[i] == out[i].id && Ids(out)[j] == out[j].id;
    }
  }

  /** Each surviving role is the last one the input gave for its id: a
      later duplicate overwrites an earlier one in place. */
  lemma {:induction false} DedupeKeepsLast(rs: seq<Role>)
    ensures forall i :: 0 <= i < |Dedupe(rs)| ==>
              Dedupe(rs)[i].id in Ids(rs) && Dedupe(rs)[i] == LastWithId(rs, Dedupe(rs)[i].id)
  {
    if |rs| > 0 {
      var init := rs[..|rs| - 1];
      var last := rs[|rs| - 1];
      var prev := Dedupe(init);
      DedupeKeepsLast(init);
      DedupeDistinct(init);
      assert Ids(rs) == Ids(init) + [last.id];
      var out := Dedupe(rs);
      forall i | 0 <= i < |out| ensures out[i].id in Ids(rs) && out[i] == LastWithId(rs, out[i].id) {
        match IndexOfId(prev, last.id)
        case Some(k) =>
          if i != k {
            assert out[i] == prev[i];
            assert prev[i].id != prev[k].id;
          }
        case None =>
          if i < |prev| {
            assert out[i] == prev[i];
            assert prev[i].id in Ids(prev);
          }
      }
    }
  }

  /** A name order for roles, from an order on names. */
  function ByName(nameLe: (string, string) -> bool): (Role, Role) -> bool {
    (a: Role, b: Role) => nameLe(a.name, b.name)
  }

  lemma ByNamePreorder(nameLe: (string, string) -> bool)
    requires TotalPreorder(nameLe)
    ensures TotalPreorder(ByName(nameLe))
  {
    var le := ByName(nameLe);
    forall a: Role, b: Role ensures le(a, b) || le(b, a) {
      assert nameLe(a.name, b.name) || nameLe(b.name, a.name);
    }
    forall a: Role, b: Role, c: Role | le(a, b) && le(b, c) ensures le(a, c) {
      assert nameLe(a.name, b.name) && nameLe(b.name, c.name);
    }
  }

  /** The guild-wide list from the reply's `roles` field: de-duplicated by
      id and sorted by name with `localeCompare`, which `nameLe` stands
      for. */
  function GuildRoles(nameLe: (string, string) -> bool, f: RolesField): (r: seq<Role>)
    requires TotalPreorder(nameLe)
    ensures SortedBy(ByName(nameLe), r)
    ensures DistinctIds(r)
    ensures forall id :: id in Ids(r) <==> id in Ids(Normalise(f))
    ensures forall x :: x in r ==> x.id in Ids(Normalise(f)) && x == LastWithId(Normalise(f), x.id)
  {
    var d := Dedupe(Normalise(f));
    DedupeDistinct(Normalise(f));
    DedupeKeepsLast(Normalise(f));
    ByNamePreorder(nameLe);
    StableSortSorted(ByName(nameLe), d);
    var r := StableSort(ByName(nameLe), d);
    SortKeepsRoles(ByName(nameLe), d, r);
    r
  }

  /** Sorting keeps the same roles, so distinct ids stay distinct and each
      id keeps its role. */
  lemma SortKeepsRoles(le: (Role, Role) -> bool, d: seq<Role>, r: seq<Role>)
    requires multiset(r) == multiset(d) && DistinctIds(d)
    ensures DistinctIds(r)
    ensures forall id :: id in Ids(r) <==> id in Ids(d)
    ensures forall x :: x in r <==> x in d
  {
    forall x ensures x in r <==> x in d {
      assert x in r <==> x in multiset(r);
      assert x in d <==> x in multiset(d);
    }
    forall i, j | 0 <= i < j < |r| ensures r[i].id != r[j].id {
      if r[i].id == r[j].id {
        assert r[i] in d && r[j] in d;
        var a :| 0 <= a < |d| && d[a] == r[i];
        var b :| 0 <= b < |d| && d[b] == r[j];
        assert a == b;
        DistinctCountOne(d, a);
        CountAtLeastTwo(r, i, j);
        assert false;
      }
    }
    forall id ensures id in Ids(r) <==> id in Ids(d) {
      if id in Ids(r) {
        var i :| 0 <= i < |r| && Ids(r)[i] == id;
        assert r[i] in d;
        var a :| 0 <= a < |d| && d[a] == r[i];
        assert Ids(d)[a] == id;
      }
      if id in Ids(d) {
        var a :| 0 <= a < |d| && Ids(d)[a] == id;
        assert d[a] in r;
        var i :| 0 <= i < |r| && r[i] == d[a];
        assert Ids(r)[i] == id;
      }
    }
  }

  /** A value at two positions occurs at least twice. */
  lemma CountAtLeastTwo<T>(r: seq<T>, i: nat, j: nat)
    requires i < j < |r| && r[i] == r[j]
    ensures multiset(r)[r[i]] >= 2
  {
    assert r == r[..i] + [r[i]] + r[i + 1..j] + [r[j]] + r[j + 1..];
  }

  /** In a list with distinct ids each role occurs once. */
  lemma {:induction false} DistinctCountOne(d: seq<Role>, a: nat)
    requires DistinctIds(d) && a < |d|
    ensures multiset(d)[d[a]] == 1
  {
    if |d| > 1 {
      var init := d[..|d| - 1];
      assert d == init + [d[|d| - 1]];
      assert DistinctIds(init);
      if a < |d| - 1 {
        DistinctCountOne(init, a);
        assert d[a] != d[|d| - 1];
      } else {
        assert d[a] !in init by {
          forall k | 0 <= k < |init| ensures init[k] != d[a] { assert d[k].id != d[a].id; }
        }
      }
    }
  }

  /** The `/roles$` test: `u` ends in `/roles`. */
  predicate EndsInRoles(u: string) {
    |u| >= 6 && u[|u| - 6..] == "/roles"
  }

  /** The guild-wide URL: the configured URL with a trailing `/roles`
      removed, then `/all`. */
  function AllRolesUrl(cfg: RolesConfig): (r: string)
    ensures |r| >= 4 && r[|r| - 4..] == "/all"
  {
    var u := RolesUrl(cfg);
    var base := if EndsInRoles(u) then u[..|u| - 6] else u;
    base + "/all"
  }

  /** A configured URL `base/roles` becomes `base/all`, whatever `base` is. */
  lemma AllRolesReplacesRoles(base: string, key: string)
    ensures AllRolesUrl(RolesConfig(Some(base + "/roles"), key)) == base + "/all"
  {
  }

  /** A service URL that does not end in `/roles` is kept whole and `/all`
      appended. */
  lemma AllRolesAppendsOtherwise(cfg: RolesConfig)
    requires !EndsInRoles(RolesUrl(cfg))
    ensures AllRolesUrl(cfg) == RolesUrl(cfg) + "/all"
  {
  }

  /** The URL ends in `/roles` exactly when the guild-wide URL is not the
      service URL plus `/all`. */
  lemma AllRolesUrlCases(cfg: RolesConfig)
    ensures EndsInRoles(RolesUrl(cfg)) <==> AllRolesUrl(cfg) != RolesUrl(cfg) + "/all"
    ensures EndsInRoles(RolesUrl(cfg)) ==> AllRolesUrl(cfg) == RolesUrl(cfg)[..|RolesUrl(cfg)| - 6] + "/all"
  {
  }

  /** The default URL's guild-wide form. */
  lemma DefaultAllRolesUrl()
    ensures AllRolesUrl(RolesConfig(None, "k")) == "https://api.haven-rp.com/api/discord/all"
  {
  }

  /** `useAllDiscordRoles` before the request: without an API key nothing
      is fetched; otherwise the guild-wide URL. */
  function AllRolesRequest(cfg: RolesConfig): (r: Result<string, string>)
    ensures r.Err? <==> cfg.apiKey == ""
    ensures r.Err? ==> r.error == MissingKey
    ensures r.Ok? ==> r.value == AllRolesUrl(cfg)
  {
    if cfg.apiKey == "" then Err(MissingKey) else Ok(AllRolesUrl(cfg))
  }

  /** `useAllDiscordRoles` after the request. */
  function ReadAllRoles(nameLe: (string, string) -> bool, response: Response<RolesField>): (r: Result<seq<Role>, string>)
    requires TotalPreorder(nameLe)
    ensures r.Err? <==> !IsOk(response.status)
    ensures r.Err? ==> r.error == "Failed to fetch all Discord roles: " + ShowInt(response.status)
    ensures r.Ok? ==> r.value == GuildRoles(nameLe, response.body)
  {
    if !IsOk(response.status) then Err("Failed to fetch all Discord roles: " + ShowInt(response.status))
    else Ok(GuildRoles(nameLe, response.body))
  }

  // ---------------------------------------------------------------------
  // One member's roles

  /** `useDiscordRoles` before the request: the member's id is checked
      first, then the key. */
  function MemberRolesRequest(cfg: RolesConfig, discordUserId: Option<string>): (r: Result<string, string>)
    ensures discordUserId.None? || discordUserId.value == "" ==> r == Err("No Discord user ID provided")
    ensures discordUserId.Some? && discordUserId.value != "" && cfg.apiKey == "" ==> r == Err(MissingKey)
    ensures r.Ok? ==> r.value == RolesUrl(cfg) + "/" + discordUserId.value
  {
    match discordUserId
    case None => Err("No Discord user ID provided")
    case Some(id) =>
      if id == "" then Err("No Discord user ID provided")
      else if cfg.apiKey == "" then Err(MissingKey)
      else Ok(RolesUrl(cfg) + "/" + id)
  }

  /** The hook's `enabled` flag. */
  predicate MemberRolesEnabled(cfg: RolesConfig, discordUserId: Option<string>) {
    discordUserId.Some? && discordUserId.value != "" && cfg.apiKey != ""
  }

  /** The query runs exactly when its request would pass both guards. */
  lemma EnabledIffRequestable(cfg: RolesConfig, discordUserId: Option<string>)
    ensures MemberRolesEnabled(cfg, discordUserId) <==> MemberRolesRequest(cfg, discordUserId).Ok?
  {
  }

  /** `useDiscordRoles` after the request. */
  function ReadMemberRoles(response: Response<RolesResponse>): (r: Result<RolesResponse, string>)
    ensures r.Err? <==> !IsOk(response.status)
    ensures r.Err? ==> r.error == "Failed to fetch Discord roles: " + ShowInt(response.status) + " " + response.statusText
    ensures r.Ok? ==> r.value == response.body
  {
    if !IsOk(response.status) then
      Err("Failed to fetch Discord roles: " + ShowInt(response.status) + " " + response.statusText)
    else Ok(response.body)
  }
}
