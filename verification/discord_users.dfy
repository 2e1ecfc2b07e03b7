/** The guild member list used by the nomination dialog: display names and
    the removal of bot accounts. */
module DiscordUsers {
  import opened Results
  import opened Text
  import opened Seqs
  import opened Http

  datatype DiscordUser = DiscordUser(
    id: string,
    username: string,
    discriminator: string,
    globalName: Option<string>,
    nickname: Option<string>,
    avatar: Option<string>,
    bot: bool)

  /** A nullable string that JavaScript treats as true: present and not
      empty. */
  predicate Truthy(s: Option<string>) {
    s.Some? && s.value != ""
  }

  /** `getDisplayName`: the guild nickname, else the global display name,
      else the account name. The result is always one of the three, and it
      is empty only when the account name is. */
  function DisplayName(u: DiscordUser): (r: string)
    ensures r == u.username || (u.nickname.Some? && r == u.nickname.value)
            || (u.globalName.Some? && r == u.globalName.value)
    ensures Truthy(u.nickname) ==> r == u.nickname.value
    ensures r == "" ==> u.username == ""
  {
    if Truthy(u.nickname) then u.nickname.value
    else if Truthy(u.globalName) then u.globalName.value
    else u.username
  }

  /** Without a usable nickname the global name wins; without either, the
      account name is shown. */
  lemma DisplayNameFallbacks(u: DiscordUser)
    ensures !Truthy(u.nickname) && Truthy(u.globalName) ==> DisplayName(u) == u.globalName.value
    ensures !Truthy(u.nickname) && !Truthy(u.globalName) ==> DisplayName(u) == u.username
  {
  }

  predicate IsHuman(u: DiscordUser) {
    !u.bot
  }

  /** `filterNonBots`. */
  function FilterNonBots(users: seq<DiscordUser>): (r: seq<DiscordUser>)
    ensures |r| <= |users|
    ensures forall u :: u in r ==> !u.bot && u in users
  {
    Filter(IsHuman, users)
  }

  /** `filterNonBots` keeps every non-bot user, as many times as it occurs
      and in the original order, and drops every bot. */
  lemma FilterNonBotsExact(users: seq<DiscordUser>)
    ensures IsSubsequence(FilterNonBots(users), users)
    ensures forall u :: multiset(FilterNonBots(users))[u] == if u.bot then 0 else multiset(users)[u]
  {
    FilterIsSubsequence(IsHuman, users);
    FilterCounts(IsHuman, users);
  }

  /** Filtering twice removes nothing more. */
  lemma FilterNonBotsIdempotent(users: seq<DiscordUser>)
    ensures FilterNonBots(FilterNonBots(users)) == FilterNonBots(users)
  {
    FilterIdempotent(IsHuman, users);
  }

  /** `useDiscordUsers`' query: a failed response is an error carrying the
      status; a successful one yields the member list without bots. */
  function FetchUsers(response: Response<seq<DiscordUser>>): (r: Result<seq<DiscordUser>, string>)
    ensures r.Err? <==> !IsOk(response.status)
    ensures r.Err? ==> r.error == "Failed to fetch Discord users: " + ShowInt(response.status)
    ensures r.Ok? ==> forall u :: u in r.value ==> !u.bot
    ensures r.Ok? ==> IsSubsequence(r.value, response.body)
    ensures r.Ok? ==> forall u :: multiset(r.value)[u] == if u.bot then 0 else multiset(response.body)[u]
  {
    if !IsOk(response.status) then
      Err("Failed to fetch Discord users: " + ShowInt(response.status))
    else
      FilterNonBotsExact(response.body);
      Ok(FilterNonBots(response.body))
  }
}
