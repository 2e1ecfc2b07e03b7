# Haven RP website — decision and formatting rules in Dafny

This project models the logic of the Haven RP community site that can be separated from its React screens and `fetch` calls. Every rule is stated as a pure function over immutable data, and the properties each rule promises are proved as contracts and lemmas.

The parts modelled:

- **Council campaigns.** This is the nomination and voting feature.
  - The four-phase campaign lifecycle and the administrator's phase buttons.
  - The create form: validation, payload and reset.
  - The senior-admin gate of the administrator page.
  - On the members' page: the automatic campaign selection, the nominate and vote controls, the results ranking with the winner's trophy, and the searchable user picker of the nomination dialog.
- **The council client** (`useCouncilCampaigns`).
  - Query-string construction, the id and token guards, and the requests.
  - Reading replies: "404 means no record", and the error-message fallbacks.
  - The React Query keys each mutation invalidates.
- **Discord helpers.**
  - Display-name priority and the bot filter.
  - The guild role list: normalised, de-duplicated by id (the last one wins) and sorted by name.
  - The member-roles request guards.
  - The dashboard's role badges and role-gated sections.
- **The game-server views.**
  - The garage order: favourites first, then by plate.
  - The vehicle dialog's colours, star and names.
  - The phone-number format and the copy marks of the character page.
  - The two item-name formatters and the item sections of the inventory and storage dialogs.

Conventions:

- JavaScript's `Array.prototype.sort` is stable. It is modelled as `Sorting.StableSort`, an insertion sort over a "may stay before" relation that must be a total preorder.
  - `Sorting.StableSortIsUnique` shows that any sorted, stable rearrangement equals it, so the choice of algorithm does not matter.
  - `localeCompare` is an abstract total preorder on strings, passed in as a parameter.
- HTTP replies are `Http.Response(status, statusText, body)` with the body already decoded.
- A session, a configuration value or a nullable field is an `Option`.
- Thrown errors are the `Err` side of a `Result`.

## Model

| member | source | states |
|---|---|---|
| `Campaigns.StatusNameRoundTrip` | src/hooks/useCouncilCampaigns.ts:12 | Each of the four phases has its own wire name, and that name reads back as the same phase. |
| `CampaignAdmin.NextStatusAction` | src/pages/CampaignAdmin.tsx:237-248 | Every phase except closed offers one forward action, and it moves exactly one stage forward: draft to nominations open, then voting open, then closed. The button is assumed to render; see "## Left out". |
| `CampaignAdmin.CanPause` | src/pages/CampaignAdmin.tsx:378-388 | "Pause" is offered exactly in the two open phases. |
| `CampaignAdmin.OfferedTargets` | src/pages/CampaignAdmin.tsx:237-248 | Draft is offered exactly when the phase is open, and a card never offers more than two targets. |
| `CampaignAdmin.OfferedIsLifecycle` | src/pages/CampaignAdmin.tsx:237-248 | The buttons offer exactly the lifecycle's transitions: the three forward steps and "pause an open phase back to draft". The forward button is assumed to render; see "## Left out". |
| `CampaignAdmin.ClosedIsAbsorbing` | src/pages/CampaignAdmin.tsx:245-246 | A closed campaign offers no forward action, no pause and no target at all. |
| `CampaignAdmin.Follow` | src/pages/CampaignAdmin.tsx:363-367 | Pressing the forward button n times, while it is shown, advances the stage by exactly n. |
| `CampaignAdmin.DraftClosesInThree` | src/pages/CampaignAdmin.tsx:237-248 | From draft, the forward button reaches closed after three presses, and after no other number. |
| `CampaignAdmin.ResetForm` | src/pages/CampaignAdmin.tsx:217-222 | `resetForm` restores the initial state ("", "", true, 1), in which the create button is disabled. |
| `CampaignAdmin.CreateDisabled` | src/pages/CampaignAdmin.tsx:497 | The create button is disabled exactly when the title is blank or a create request is pending. |
| `CampaignAdmin.CreateRequest` | src/pages/CampaignAdmin.tsx:136-151 | A blank title gives "Campaign title is required" and no payload. Otherwise the payload has the trimmed title (non-empty, with no blank at either end) and the trimmed description, left out exactly when the description is blank. Both settings pass through unchanged. |
| `CampaignAdmin.PayloadDescription` | src/pages/CampaignAdmin.tsx:148 | `description.trim() \|\| undefined`: the description is left out exactly when it is blank, and is otherwise sent trimmed. |
| `CampaignAdmin.FormAfterCreate` | src/pages/CampaignAdmin.tsx:153-166 | A successful create resets the form; a failed one leaves it as typed. |
| `CampaignAdmin.MaxNominationsInput` | src/pages/CampaignAdmin.tsx:479 | `parseInt(text) \|\| 1`: the result is never 0. Unparseable text gives 1, and any other parsed non-zero integer is kept, negative ones included. |
| `CampaignAdmin.MaxNominationsOfDecimal` | src/pages/CampaignAdmin.tsx:479 | Typing the decimal form of n sets n, or 1 when n is 0. |
| `CampaignAdmin.IsSeniorAdmin` | src/pages/Campaign.tsx:66-73 | A member is a senior admin exactly when the roles reply is present and lists a role whose id is the configured admin role id. |
| `CampaignAdmin.SeniorAdminByIds` | src/pages/Campaign.tsx:69-73 | The verdict depends only on which role ids are listed, not on their order or repetition. |
| `CampaignAdmin.AdminPageOf` | src/pages/CampaignAdmin.tsx:250-269 | The page shows a spinner exactly while roles or campaigns load. Once both have loaded, it shows the panel exactly for a senior admin and nothing for anyone else. |
| `CampaignAdmin.LeavesPage` | src/pages/CampaignAdmin.tsx:90-133 | The page's effects send the visitor to the campaigns page and nowhere else. They do so exactly when there is no session, or when a signed-in member without the role has finished loading roles. |
| `CampaignAdmin.PanelOnlyForSeniorAdmins` | src/pages/CampaignAdmin.tsx:90-133 | A signed-in senior admin is never sent away. A shown panel implies the admin role id is listed. An empty page is always left. A member without the role is sent away once roles load, even while campaigns still show the spinner. |
| `CampaignView.FirstActive` | src/pages/Campaign.tsx:126-130 | `find` gives the first index whose phase is open: every earlier campaign is not open, and None means none is open. |
| `CampaignView.AutoSelect` | src/pages/Campaign.tsx:124-133 | The selection is kept while one exists or the list is still loading. Otherwise the first open campaign is chosen, else the first campaign, and an empty list selects nothing. |
| `CampaignView.NominateButton` | src/pages/Campaign.tsx:332-343 | The nominate button is shown exactly to a signed-in member while nominations are open. It is enabled exactly without an own nomination and without a pending request. The caption is "Already Nominated" once one exists. |
| `CampaignView.VoteButton` | src/pages/Campaign.tsx:346-354 | The vote button is shown exactly to a signed-in member while voting is open. It is enabled exactly without an own vote and without a pending request. The caption is "Already Voted" once one exists. |
| `CampaignView.NomineeVoteButton` | src/pages/Campaign.tsx:439-451 | A nominee's "Vote" button is shown exactly to a signed-in member without a vote while voting is open, and is disabled while a vote is pending. |
| `CampaignView.SignInPrompt` | src/pages/Campaign.tsx:376-383 | The sign-in prompt appears only to signed-out visitors, and to them exactly when the campaign is not closed. |
| `CampaignView.NoActionOutsideOpenPhases` | src/pages/Campaign.tsx:332-354 | Outside the two open phases, no nominate or vote control is shown. |
| `CampaignView.NoSecondSubmission` | src/pages/Campaign.tsx:338-349 | With an own nomination or vote, no control can submit another one. |
| `CampaignView.MoreVotesFirstIsPreorder` | src/pages/Campaign.tsx:405 | The comparator `b.vote_count - a.vote_count` is a total preorder. Two nominees tie exactly when their counts are equal. |
| `CampaignView.RankNominees` | src/pages/Campaign.tsx:404-405 | The ranking is a rearrangement of the nominees in non-increasing vote order. |
| `CampaignView.RankKeepsTies` | src/pages/Campaign.tsx:405 | Nominees with equal counts keep their incoming order. |
| `CampaignView.ResultRows` | src/pages/Campaign.tsx:404-452 | One row per ranked nominee. The trophy is on row 0 exactly when the campaign is closed. Counts are shown exactly while voting is open or closed. Each row's vote button follows `NomineeVoteButton`. |
| `CampaignView.WinnerHasMostVotes` | src/pages/Campaign.tsx:410-415 | In a closed campaign, the trophy row's nominee has at least as many votes as every nominee. |
| `CampaignView.FilterUsers` | src/pages/Campaign.tsx:525-534 | No users gives []. Otherwise the result keeps the original order. It holds each user that matches the query as often as the input does, and no other. A blank query keeps everyone. |
| `CampaignView.EmptyNote` | src/pages/Campaign.tsx:569 | "Start typing to search..." for a blank query, "No users found" otherwise. |
| `CampaignView.CountLine` | src/pages/Campaign.tsx:582-586 | The count line appears exactly for a non-blank query. It reads "N user found" for one match and "N users found" otherwise. |
| `CampaignView.UserPicker` | src/pages/Campaign.tsx:517-586 | While the users load, only the spinner shows: nothing is listed, and there is no note and no count. Once they have loaded, at most 50 matches are listed, and they are the first 50. The overflow note appears exactly when more than 50 match, and the empty note exactly when nothing matches. The count line is `CountLine` of the number of matches, not of the number listed. |
| `CampaignView.MatchesQuery` | src/pages/Campaign.tsx:525-533 | A predicate with no contract of its own: a blank query matches everyone, and otherwise the trimmed, lower-cased query must occur in the lower-cased display name, the lower-cased username or the id. `CampaignView.FilterUsers` states the filter through it. |
| `CampaignView.FindUser` | src/pages/Campaign.tsx:139 | `find` by id. A found user is listed with that id, and "not found" means no listed user has it. The user found is the first one listed with that id. |
| `CampaignView.SelectionAfterTyping` | src/pages/Campaign.tsx:501-509 | The selection is cleared exactly when one exists, the new text is non-empty, the selected user is listed, and their display name differs from the text. Otherwise it is kept. |
| `CampaignView.PickedNameKeepsSelection` | src/pages/Campaign.tsx:501-509 | With unique ids, typing exactly the selected user's display name keeps the selection. |
| `CampaignView.NominateIntentFor` | src/pages/Campaign.tsx:137-151 | Nothing is sent without a selected campaign and a selected user. The display name is the found user's display name, and falls back to the raw id when the user is not found. |
| `CampaignView.ConfirmNominateEnabled` | src/pages/Campaign.tsx:622 | The confirm button is enabled exactly with a selected user and no pending request. |
| `CouncilClient.AuthToken` | src/hooks/useCouncilCampaigns.ts:45-51 | A token exists exactly when the session has a non-empty access token. Otherwise the error is "Not authenticated". |
| `CouncilClient.QueryParts` | src/hooks/useCouncilCampaigns.ts:55-57 | There is one parameter for a non-empty status, `status=` followed by its form encoding, and it comes first. There is one `include_closed=true` for the flag, and it comes last. No parameter is empty or holds `&`. |
| `CouncilClient.ListUrl` | src/hooks/useCouncilCampaigns.ts:54-60 | The URL is `/council/campaigns` under the API base. It gains `?status=<encoded>`, `?include_closed=true`, or both joined by `&` with the status first, according to which filters are given. With neither filter it has no `?`. |
| `CouncilClient.ListQueryShape` | src/hooks/useCouncilCampaigns.ts:55-59 | The joined query string is exactly the status pair, the `include_closed=true` pair, both joined by `&`, or empty. |
| `CouncilClient.ListQueryParses` | src/hooks/useCouncilCampaigns.ts:55-59 | Splitting the query string on `&` gives back exactly the parameters. |
| `CouncilClient.StatusFilterVerbatim` | src/hooks/useCouncilCampaigns.ts:56 | A phase name used as the status filter appears in the URL unencoded. |
| `CouncilClient.MethodOf` | src/hooks/useCouncilCampaigns.ts:212-213 | Public reads and the member's own nomination and vote use GET; every change uses another method. |
| `CouncilClient.BodyOf` | src/hooks/useCouncilCampaigns.ts:219 | Exactly create, update, nominate and vote carry a JSON body. |
| `CouncilClient.Prepare` | src/hooks/useCouncilCampaigns.ts:86-362 | The campaign-id guard comes first ("No campaign ID"), then the token ("Not authenticated"). These are the only failures. A prepared request carries the call's URL, the API key, the call's method and body, and a bearer token exactly for member calls. |
| `CouncilClient.UrlOf` | src/hooks/useCouncilCampaigns.ts:60-354 | The list call uses the list URL and create uses `/council/campaigns` bare. Every other call uses `/council/campaigns/<id>` followed by its endpoint: none, `/nominees`, `/my-nomination`, `/my-vote`, `/nominate` or `/vote`. |
| `CouncilClient.CampaignUrlIdentifies` | src/hooks/useCouncilCampaigns.ts:90-354 | Two campaign URLs are equal exactly when their ids and endpoints are, so the id in the path is the campaign the call was made for. |
| `CouncilClient.UrlIdentifiesCall` | src/hooks/useCouncilCampaigns.ts:90-354 | Two calls that name a campaign share method and URL exactly when they are the same kind of call on the same campaign. |
| `CouncilClient.QueryEnabled` | src/hooks/useCouncilCampaigns.ts:104-189 | The campaign list always runs. A per-campaign query runs exactly when its id is present and non-zero. |
| `CouncilClient.EnabledQueriesReachService` | src/hooks/useCouncilCampaigns.ts:84-191 | A disabled query could only fail with "No campaign ID". An enabled public read always reaches the service, and an enabled member read does so exactly when signed in. |
| `CouncilClient.PublicReadsIgnoreSession` | src/hooks/useCouncilCampaigns.ts:86-130 | Public reads never depend on the session. |
| `CouncilClient.MemberCallsCarryToken` | src/hooks/useCouncilCampaigns.ts:136-362 | A member call whose id is present is prepared exactly when signed in, and then carries the session's token. |
| `CouncilClient.ReadResponse` | src/hooks/useCouncilCampaigns.ts:72-74 | A 2xx reply gives its body. Any other status gives "Failed to fetch WHAT: STATUS". |
| `CouncilClient.ReadOwnRecord` | src/hooks/useCouncilCampaigns.ts:152-158 | 404 means no record, 2xx gives the record, and every other status is an error naming the status. |
| `CouncilClient.ChangeFailure` | src/hooks/useCouncilCampaigns.ts:224-234 | For one of the five changes: a non-empty `message` in a JSON error body is the error. An empty or missing one falls back to "Failed to …: STATUS". Non-JSON text is create's message; for the other changes it fails to parse. |
| `CouncilClient.SpellingsDistinct` | src/hooks/useCouncilCampaigns.ts:63-167 | The five query-key families have pairwise different spellings. |
| `CouncilClient.KeyOf` | src/hooks/useCouncilCampaigns.ts:63-167 | Every query key is a family name followed by one argument. |
| `CouncilClient.InvalidatedPrefixes` | src/hooks/useCouncilCampaigns.ts:238-374 | Exactly the five changes invalidate anything. Every prefix is a family name, optionally followed by the campaign id. The refresh lemmas below state each change's set. |
| `CouncilClient.CreateDeleteRefreshLists` | src/hooks/useCouncilCampaigns.ts:238-240 | Create and delete invalidate exactly the campaign lists. |
| `CouncilClient.UpdateRefreshes` | src/hooks/useCouncilCampaigns.ts:272-275 | Update invalidates exactly the lists and that campaign's details. |
| `CouncilClient.NominateRefreshes` | src/hooks/useCouncilCampaigns.ts:336-339 | Nominate invalidates exactly that campaign's nominees and the member's own nomination. |
| `CouncilClient.VoteRefreshes` | src/hooks/useCouncilCampaigns.ts:371-374 | Vote invalidates exactly that campaign's nominees and the member's own vote. |
| `Http.FormEncode` | src/hooks/useCouncilCampaigns.ts:55-59 | `URLSearchParams` encoding yields only unreserved characters, `%` and `+`, and never shortens the text. |
| `Http.FormEncodeUnreserved` | src/hooks/useCouncilCampaigns.ts:55-59 | Text made only of unreserved characters encodes to itself. |
| `DiscordUsers.DisplayName` | src/hooks/useDiscordUsers.ts:27-29 | A non-empty nickname wins. The result is the username or one of the two names, and is empty only when the username is. |
| `DiscordUsers.DisplayNameFallbacks` | src/hooks/useDiscordUsers.ts:28 | Without a usable nickname a non-empty global name wins. Without either, the result is the username. |
| `DiscordUsers.FilterNonBots` | src/hooks/useDiscordUsers.ts:34-36 | The result is no longer than the input and holds only non-bots from it. |
| `DiscordUsers.FilterNonBotsExact` | src/hooks/useDiscordUsers.ts:34-36 | The result is an order-preserving subsequence, holding each non-bot exactly as often as the input does and no bot. |
| `DiscordUsers.FilterNonBotsIdempotent` | src/hooks/useDiscordUsers.ts:34-36 | Filtering twice equals filtering once. |
| `DiscordUsers.FetchUsers` | src/hooks/useDiscordUsers.ts:52-59 | A non-2xx reply gives "Failed to fetch Discord users: STATUS". A fetched list keeps the reply's order, holds every non-bot user of the reply as often as the reply does, and holds no bot. |
| `DiscordRoles.RolesUrl` | src/hooks/useDiscordRoles.ts:3 | The configured roles URL when it is non-empty, else the default. |
| `DiscordRoles.Normalise` | src/hooks/useDiscordRoles.ts:48-50 | An array is used as it is, an object gives its values, and a missing field gives []. |
| `DiscordRoles.Dedupe` | src/hooks/useDiscordRoles.ts:52 | Its own contract is only that de-duplication never lengthens the list. `DiscordRoles.DedupeIds`, `DiscordRoles.DedupeDistinct` and `DiscordRoles.DedupeKeepsLast` state what it keeps. |
| `DiscordRoles.DedupeIds` | src/hooks/useDiscordRoles.ts:52 | The de-duplicated ids are the input's ids in order of first appearance. |
| `DiscordRoles.DedupeDistinct` | src/hooks/useDiscordRoles.ts:52 | The de-duplicated ids are pairwise distinct and are the same set as the input's. |
| `DiscordRoles.DedupeKeepsLast` | src/hooks/useDiscordRoles.ts:52 | For each id, the kept role is the last role in the input with that id. |
| `DiscordRoles.ByNamePreorder` | src/hooks/useDiscordRoles.ts:54 | Comparing by `name.localeCompare` is a total preorder on roles. |
| `DiscordRoles.GuildRoles` | src/hooks/useDiscordRoles.ts:46-55 | The guild list is sorted by name, its ids are distinct and are the same set as the reply's, and each role is the reply's last role with its id. |
| `DiscordRoles.SortKeepsRoles` | src/hooks/useDiscordRoles.ts:54 | A rearrangement of a list with distinct ids keeps the ids distinct, the same id set and the same roles. |
| `DiscordRoles.AllRolesUrl` | src/hooks/useDiscordRoles.ts:33 | The all-roles URL always ends in "/all". Its exact form is stated by the three lemmas below. |
| `DiscordRoles.AllRolesReplacesRoles` | src/hooks/useDiscordRoles.ts:33 | For every base and key, a configured URL base + "/roles" gives base + "/all". |
| `DiscordRoles.AllRolesAppendsOtherwise` | src/hooks/useDiscordRoles.ts:33 | A service URL that does not end in "/roles" is kept whole and "/all" is appended. |
| `DiscordRoles.AllRolesUrlCases` | src/hooks/useDiscordRoles.ts:33 | The service URL ends in "/roles" exactly when the all-roles URL differs from the service URL plus "/all". In that case it is the URL without its last six characters, plus "/all". |
| `DiscordRoles.DefaultAllRolesUrl` | src/hooks/useDiscordRoles.ts:3-33 | With the default roles URL, a trailing "/roles" is replaced by "/all". |
| `DiscordRoles.AllRolesRequest` | src/hooks/useDiscordRoles.ts:28-33 | A missing key gives "HavenRP API key not configured" before any request. |
| `DiscordRoles.ReadAllRoles` | src/hooks/useDiscordRoles.ts:42-55 | A non-2xx reply gives "Failed to fetch all Discord roles: STATUS". Otherwise the result is the guild list. |
| `DiscordRoles.MemberRolesRequest` | src/hooks/useDiscordRoles.ts:65-76 | A missing id fails with "No Discord user ID provided", then a missing key with the key message. The URL is the roles URL, "/", then the id. |
| `DiscordRoles.EnabledIffRequestable` | src/hooks/useDiscordRoles.ts:97 | The query is enabled exactly when its request passes both guards. |
| `DiscordRoles.ReadMemberRoles` | src/hooks/useDiscordRoles.ts:86-91 | A non-2xx reply gives "Failed to fetch Discord roles: STATUS TEXT". Otherwise the result is the reply. |
| `Dashboard.DiscordIdOf` | src/pages/Dashboard.tsx:40-42 | The first non-empty of provider id, subject and identity id is used; none gives no id. |
| `Dashboard.DiscordIdLine` | src/pages/Dashboard.tsx:249 | The id line shows the id, or "Not found" when there is none. |
| `Dashboard.UserRoles` | src/pages/Dashboard.tsx:25-27 | The role names are the reply's role names in order; no reply gives []. |
| `Dashboard.HasRole` | src/pages/Dashboard.tsx:75-77 | A predicate with no contract of its own: exact-name membership in the member's role names. `Dashboard.HasRoleIffListed` relates it to the reply. |
| `Dashboard.HasRoleIffListed` | src/pages/Dashboard.tsx:75-77 | `hasRole` holds exactly when the reply lists a role with exactly that name. |
| `Dashboard.VisibleSections` | src/pages/Dashboard.tsx:180-224 | Staff is visible with Staff or Admin, Admin with Admin, and VIP with VIP or Supporter. |
| `Dashboard.AdminSeesStaff` | src/pages/Dashboard.tsx:180-202 | The Admin section implies the Staff section. |
| `Dashboard.NoRolesNoSections` | src/pages/Dashboard.tsx:180-224 | Without roles no gated section shows. |
| `Dashboard.MoreRolesShowMore` | src/pages/Dashboard.tsx:180-224 | Holding more role names never hides a section. |
| `Dashboard.RoleBadgesOf` | src/pages/Dashboard.tsx:114-131 | The badge row shows a spinner while loading, then the error badge, then one badge per role name, else a single "Member" badge. |
| `Dashboard.RolesStatus` | src/pages/Dashboard.tsx:252 | "Loading...", then "Error fetching roles", else "N roles loaded". |
| `Dashboard.BadgesAgreeWithStatus` | src/pages/Dashboard.tsx:114-252 | The "Member" badge shows exactly when the status line reads "0 roles loaded". Otherwise the number of badges is the number the line reports. |
| `Vehicles.GameApiUrl` | src/hooks/useFivemVehicles.ts:3 | The game-service base is never empty, and is the default when the roles URL is unset. |
| `Vehicles.GameApiBesideRoles` | src/hooks/useFivemVehicles.ts:3 | With the roles service at BASE + "/discord/roles", the game service is at BASE. |
| `Vehicles.GarageRequest` | src/hooks/useFivemVehicles.ts:33-44 | A missing citizen id fails with "No citizen ID provided", then a missing key with the key message. The URL is BASE/fivem/character/ID/vehicles. |
| `Vehicles.GarageEnabledIffRequestable` | src/hooks/useFivemVehicles.ts:77 | The query is enabled exactly when its request passes both guards. |
| `Vehicles.GarageOrderPreorder` | src/hooks/useFivemVehicles.ts:61-66 | The favourites-then-plate comparator is a total preorder. |
| `Vehicles.SortGarage` | src/hooks/useFivemVehicles.ts:61-66 | The listing is a rearrangement of the reply. A larger favourite value comes first, and equal values list plates in ascending order. |
| `Vehicles.SortGarageStable` | src/hooks/useFivemVehicles.ts:61 | Vehicles that compare equal keep the reply's order. |
| `Vehicles.SortGarageUnique` | src/hooks/useFivemVehicles.ts:61-66 | Any ordered, stable rearrangement of the reply is exactly the listing. |
| `Vehicles.ReadGarage` | src/hooks/useFivemVehicles.ts:54-71 | A non-2xx reply gives "Failed to fetch vehicles: STATUS TEXT". Otherwise the citizen id and the reported count are kept, and the vehicles are listed in garage order. |
| `VehicleDisplay.CategoryColor` | src/components/CharacterVehiclesModal.tsx:29-41 | Each of the eight categories gets its colour whatever its case; any other category gets "text-muted-foreground". |
| `VehicleDisplay.CategoryColorIgnoresCase` | src/components/CharacterVehiclesModal.tsx:39-40 | "SUPER" and "super" get the same colour, and so does any other pair that differs only in case. |
| `VehicleDisplay.BadgeColorAsWritten` | src/components/CharacterVehiclesModal.tsx:103 | As written, the badge fails to render exactly when the category is null. |
| `VehicleDisplay.BadgeColor` | src/components/CharacterVehiclesModal.tsx:103 | A null category gets the muted colour; any other gets its category colour. |
| `VehicleDisplay.NullCategoryBreaksDialog` | src/components/CharacterVehiclesModal.tsx:103 | A null category breaks the dialog as written, and gets the muted badge when corrected. The two agree wherever the original renders. |
| `VehicleDisplay.ConditionColor` | src/components/CharacterVehiclesModal.tsx:43-48 | The colour is green exactly from 900, yellow exactly from 700 to below 900, orange exactly from 500 to below 700, and red exactly below 500. |
| `VehicleDisplay.ConditionColorMonotone` | src/components/CharacterVehiclesModal.tsx:43-48 | A better figure never gets a worse band, and each band's severity starts exactly at its threshold. |
| `VehicleDisplay.FavouriteStar` | src/components/CharacterVehiclesModal.tsx:93 | A predicate with no contract of its own: the star shows exactly for `favourite == 1`. `VehicleDisplay.StarredListedFirst` states where starred vehicles are listed. |
| `VehicleDisplay.CardHeading` | src/components/CharacterVehiclesModal.tsx:91 | A function with no contract of its own: brand and model, with a missing one shown as nothing. See `VehicleDisplay.NamesAgreeWhenKnown`. |
| `VehicleDisplay.StorageTitle` | src/components/CharacterVehiclesModal.tsx:146 | A function with no contract of its own: the template-literal name, with a missing part shown as "null". See `VehicleDisplay.NamesAgreeWhenKnown`. |
| `VehicleDisplay.StarredListedFirst` | src/components/CharacterVehiclesModal.tsx:93 | In the listing no starred vehicle follows one whose favourite value is below 1. |
| `VehicleDisplay.NamesAgreeWhenKnown` | src/components/CharacterVehiclesModal.tsx:91-148 | Card heading and storage title agree when brand and model are known. A missing brand shows as nothing on the card but as "null" in the title. |
| `VehicleDisplay.GarageQueryId` | src/components/CharacterVehiclesModal.tsx:23 | A closed dialog asks for no garage. |
| `VehicleDisplay.ClosedDialogFetchesNothing` | src/components/CharacterVehiclesModal.tsx:23 | The garage query is disabled and its request refused while the dialog is closed. |
| `VehicleDisplay.GarageViewOf` | src/components/CharacterVehiclesModal.tsx:63-77 | The body shows a spinner exactly while loading and the error's message exactly on failure. It shows the reported total with the cards exactly when vehicles exist. |
| `MyCharacters.FormatPhone` | src/pages/MyCharacters.tsx:32-45 | A missing or empty phone gives "No phone". Exactly ten digits give a 14-character "(ddd) ddd-dddd" holding those digits in order. Any other number is returned unchanged. |
| `MyCharacters.FormatPhoneIdempotent` | src/pages/MyCharacters.tsx:32-45 | Formatting the shown text again changes nothing, for a missing, empty, ten-digit or any other number. |
| `MyCharacters.CitizenKey` | src/pages/MyCharacters.tsx:168-171 | A function with no contract of its own: the mark key `cid-<id>`. `MyCharacters.CopyKeysDistinct` shows it names one character. |
| `MyCharacters.PhoneKey` | src/pages/MyCharacters.tsx:185-190 | A function with no contract of its own: the mark key `phone-<id>`. `MyCharacters.CopyKeysDistinct` shows it never equals a citizen-id key. |
| `MyCharacters.ShowsCheck` | src/pages/MyCharacters.tsx:171 | A predicate with no contract of its own: a key shows its check mark exactly while it maps to true. `MyCharacters.CopyThenExpire` and `MyCharacters.ExpiredMarkStaysOff` are stated through it. |
| `MyCharacters.CopyKeysDistinct` | src/pages/MyCharacters.tsx:168-190 | Citizen-id and phone marks never share a key, and different characters get different keys. |
| `MyCharacters.MarkCopied` | src/pages/MyCharacters.tsx:51 | The intended copy update: the key's mark turns on in the current marks, and every other mark is unchanged. |
| `MyCharacters.MarkCopiedAsWritten` | src/pages/MyCharacters.tsx:48-51 | The copy update as written: the key's mark turns on, and every other mark is taken from the render where the click happened, not from the current marks. |
| `MyCharacters.ClearCopied` | src/pages/MyCharacters.tsx:59-61 | Expiry clears that key's mark and leaves every other mark unchanged. |
| `MyCharacters.CopyThenExpire` | src/pages/MyCharacters.tsx:48-70 | With the intended update, a copy's mark is off once it expires, and every other mark is as before. |
| `MyCharacters.StaleMarkOutlivesExpiry` | src/pages/MyCharacters.tsx:48-61 | Suppose a second copy is clicked while the first mark shows, and completes after that mark expired. As written, the first check mark returns and outlives the second expiry. With the intended update it stays off. |
| `MyCharacters.ExpiredMarkStaysOff` | src/pages/MyCharacters.tsx:51-61 | With the intended update, an expired mark stays off through any later copies and expiries of other keys. |
| `MyCharacters.PhoneToCopy` | src/pages/MyCharacters.tsx:185-187 | The phone line copies exactly a present, non-empty number. |
| `ItemNames.StorageNameShape` | src/components/VehicleStorageModal.tsx:27-33 | A storage name has no underscore and the item name's length. Its space-separated words are the segments, empty ones included, each capitalised and lower-cased. |
| `ItemNames.InventoryNameAsWrittenShape` | src/components/CharacterInventoryModal.tsx:22-29 | As written, an inventory name has no underscore and the item name's length. Its words are the segments, each with the first character kept and the rest lower-cased. |
| `ItemNames.AsWrittenIsSpelled` | src/components/CharacterInventoryModal.tsx:22-29 | As written, the inventory formatter equals spelling each underscore-or-space segment of the raw name, as if the `WEAPON_` step were absent. |
| `ItemNames.InventoryNameNoUnderscore` | src/components/CharacterInventoryModal.tsx:24 | The corrected inventory name has no underscore either. |
| `ItemNames.StorageName` | src/components/VehicleStorageModal.tsx:27-33 | A function with no contract of its own. `ItemNames.StorageNameShape`, `ItemNames.StorageNameIdempotent` and `ItemNames.AmmoStoredExample` pin it down. |
| `ItemNames.InventoryNameAsWritten` | src/components/CharacterInventoryModal.tsx:22-29 | A function with no contract of its own: the name as written. `ItemNames.InventoryNameAsWrittenShape`, `ItemNames.InventoryNameAsWrittenIdempotent`, `ItemNames.WeaponPrefixKeptAsWritten` and `ItemNames.PistolExampleAsWritten` pin it down. |
| `ItemNames.InventoryName` | src/components/CharacterInventoryModal.tsx:22-29 | A function with no contract of its own: the corrected name. `ItemNames.InventoryNameNoUnderscore`, `ItemNames.WeaponPrefixStripped` and `ItemNames.PistolExample` pin it down. |
| `ItemNames.StorageNameIdempotent` | src/components/VehicleStorageModal.tsx:27-33 | Formatting a storage name twice equals formatting it once. |
| `ItemNames.InventoryNameAsWrittenIdempotent` | src/components/CharacterInventoryModal.tsx:22-29 | Formatting an inventory name twice equals formatting it once. |
| `ItemNames.EmptyNames` | src/components/VehicleStorageModal.tsx:31-32 | The empty item name is shown as the empty string by all three formatters. |
| `ItemNames.StorageIsCapitalisedInventory` | src/components/VehicleStorageModal.tsx:31 | The storage name is the as-written inventory name with each word's first letter upper-cased. |
| `ItemNames.WeaponRemovalIsDead` | src/components/CharacterInventoryModal.tsx:24-25 | After underscores become spaces, removing "WEAPON_" never changes anything. |
| `ItemNames.WeaponPrefixKeptAsWritten` | src/components/CharacterInventoryModal.tsx:24-25 | As written, "WEAPON_" + W is shown seven characters longer than the corrected name: the prefix stays. |
| `ItemNames.PistolExampleAsWritten` | src/components/CharacterInventoryModal.tsx:22-29 | As written, "WEAPON_PISTOL" is shown as "Weapon Pistol". |
| `ItemNames.WeaponPrefixStripped` | src/components/CharacterInventoryModal.tsx:25 | Corrected, "WEAPON_" + W is shown as W's own word. |
| `ItemNames.PistolExample` | src/components/CharacterInventoryModal.tsx:25 | Corrected, "WEAPON_PISTOL" is shown as "Pistol". |
| `ItemNames.AmmoExample` | src/components/CharacterInventoryModal.tsx:27 | "pistol_ammo" is "pistol ammo" in the inventory. |
| `ItemNames.AmmoStoredExample` | src/components/VehicleStorageModal.tsx:27-33 | "pistol_ammo" is "Pistol Ammo" in storage. |
| `ItemNames.TwoWordNames` | src/components/VehicleStorageModal.tsx:27-33 | Two words joined by an underscore are shown as the two formatted words joined by a space, in both dialogs. |
| `ItemNames.RenderSection` | src/components/VehicleStorageModal.tsx:35-70 | The header counts the items, "Empty" shows exactly when there are none, and otherwise there is one card per item in order, with the storage name and "x" + amount. |
| `ItemNames.StorageViewOf` | src/components/VehicleStorageModal.tsx:84-104 | A spinner; or the error, showing its message; or the Glovebox section followed by the Trunk section, each rendered from its own list and empty exactly when that list is. |
| `ItemNames.RenderInventory` | src/components/CharacterInventoryModal.tsx:93-120 | "Inventory Items (N)"; "No items in inventory" exactly when there are none. Otherwise one card per item in order, titled by the name as the source spells it, with "Slot N" and "x" + count. |
| `ItemNames.RenderInventoryCorrected` | src/components/CharacterInventoryModal.tsx:22-26 | The same list with each title spelled by the corrected name formatter. |
| `ItemNames.RenderingsDifferOnlyInTitles` | src/components/CharacterInventoryModal.tsx:22-26 | The two renderings share the header, the empty case, and each card's slot and count. A one-word weapon's title is seven characters longer as written. |
| `Sorting.StableSortIsUnique` | src/pages/Campaign.tsx:405 | Every sorted, stable rearrangement of a list is the stable sort of it, so the model's insertion sort is the platform's sort. |
| `JsParse.ParseInt` | src/pages/CampaignAdmin.tsx:479 | A function with no contract of its own: `parseInt` on decimal text. `JsParse.ParseUnsigned`, `JsParse.ParseNegative` and `JsParse.ParseShowInt` pin it down. |
| `JsParse.ParseShowInt` | src/pages/CampaignAdmin.tsx:479 | `parseInt` reads back the decimal form of every integer. |

## Left out

- The JSX layout, styling, icons, dialogs, toasts and navigation are not modelled. Only the visibility, enabled and content decisions are.
- React Query mechanics (stale times, retries, refetch scheduling, loading flags) belong to the library. The model keeps only the query keys, the `enabled` guards and the invalidation sets. Loading and error states are plain inputs.
- Network I/O, the Supabase session, clipboard access, `setTimeout` and `console` calls are left out.
  - A session is an input.
  - A reply is a decoded `Http.Response`.
  - The two-second expiry of a copy mark is the separate `MyCharacters.ClearCopied` step.
  - The administrator page's session check is reduced to whether a member is signed in. `CampaignAdmin.LeavesPage` treats its navigation and the role redirect as the one destination they share.
- The Tebex store code, the static pages and the site configuration are not part of this model.
- JSON parsing is not modelled.
  - A reply body is already decoded.
  - An error body is either JSON with an optional string `message` or non-JSON text. A non-string `message` is not represented. Neither is a JSON `null` error body, on which reading `error.message` throws a TypeError (useCouncilCampaigns.ts:229-232 and :266-267).
  - The platform's exact parse-error message is not modelled: it is the single `UnreadableErrorBody` outcome.
- The senior-admin role id is a parameter. The site configuration defines none, so as configured the check is always false.
  - The administrator page reads roles from a nested `data.roles` (src/pages/CampaignAdmin.tsx:75), while the reply carries `roles` at the top level (src/hooks/useDiscordRoles.ts:12-19).
  - `CampaignAdmin.IsSeniorAdmin` models the members' page variant (src/pages/Campaign.tsx:69-73) for both pages. The two variants are not reconciled.
- Server-owned rules (one vote per member, nomination limits, the self-nomination ban, phase gating) are enforced by the council service. They are not client invariants and are not modelled.
- Floating point is not modelled.
  - Fuel, condition and mileage are reals.
  - `toFixed`, `toLocaleString` and the inventory health percentage are left out.
  - `parseInt` of a value beyond double precision is not rounded.
- Case mapping covers ASCII only. `toLowerCase` and `toUpperCase` of other letters are left unchanged in the model.
- The category lookup does not model inherited `Object.prototype` keys: a category named like one of them behaves as unknown.
- The inventory card's metadata lines (src/components/CharacterInventoryModal.tsx:124-146) and the character money and health statistics are left out.
- `Array.prototype.sort` mutates the nominee array in place (src/pages/Campaign.tsx:405). The model returns a new sequence, so it does not model mutating the cached query data.
- Ids placed in URL paths are not percent-encoded by the source, and the model joins them the same way.
- The inventory and storage dialogs ask for data only while open, with the same rule as `VehicleDisplay.GarageQueryId`. Their query hooks are not part of this model.
- `CouncilClient.ChangeFailure`: a JSON error body whose `message` is present but not a string is not represented, and neither is a JSON `null` error body.
- `CampaignAdmin.NextStatusAction` and `CampaignAdmin.OfferedIsLifecycle` assume that `React` is in scope where the forward button draws its icon with `React.createElement` (src/pages/CampaignAdmin.tsx:371). That file imports only `useState` and `useEffect` from "react" (:1). Under the automatic JSX runtime with no global `React`, that expression would throw, and the forward button of every draft, nominations-open or voting-open card would fail to render. The build configuration that decides this is not part of this model, so no finding is claimed.

## Findings

| source | as written | input that shows it | evidently intended | confidence | as-written member | corrected member |
|---|---|---|---|---|---|---|
| src/components/CharacterInventoryModal.tsx:24-25 | Underscores are replaced by spaces before `WEAPON_` is removed, so the removal can never match. | "WEAPON_PISTOL" is shown as "Weapon Pistol". | Weapon items are shown without their prefix: "Pistol". | not executed | `ItemNames.InventoryNameAsWritten`, exhibited by `ItemNames.PistolExampleAsWritten` and `ItemNames.WeaponPrefixKeptAsWritten` | `ItemNames.InventoryName`, with `ItemNames.WeaponPrefixStripped` and `ItemNames.PistolExample`; `ItemNames.RenderInventoryCorrected` uses it, and `ItemNames.RenderingsDifferOnlyInTitles` relates the two renderings |
| src/components/CharacterVehiclesModal.tsx:103 | `getVehicleCategoryColor(vehicle.category)` lower-cases a category that the reply type allows to be null (src/hooks/useFivemVehicles.ts:15). | A vehicle whose category is null: the render throws. | An unknown or missing category gets the muted colour. | not executed | `VehicleDisplay.BadgeColorAsWritten`, exhibited by `VehicleDisplay.NullCategoryBreaksDialog` | `VehicleDisplay.BadgeColor`, with `VehicleDisplay.NullCategoryBreaksDialog` |
| src/pages/MyCharacters.tsx:51 | The copy mark is set by spreading `copiedItems` from the render of the click, after the clipboard write is awaited. The expiry uses a functional update. | Copy A. Click B while A shows its check. A's mark expires before B's write completes. B's update restores A's mark, and no timer clears it. | A copy mark turns off two seconds after its copy, whatever other copies happen. | not executed | `MyCharacters.MarkCopiedAsWritten`, exhibited by `MyCharacters.StaleMarkOutlivesExpiry` | `MyCharacters.MarkCopied`, with `MyCharacters.CopyThenExpire` and `MyCharacters.ExpiredMarkStaysOff` |
