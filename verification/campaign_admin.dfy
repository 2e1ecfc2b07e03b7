/** The administrator's campaign page: which phase changes each campaign
    card offers, and the create-campaign form with its validation, payload
    and reset. */
module CampaignAdmin {
  import opened Results
  import opened Text
  import opened Campaigns
  import opened DiscordRoles
  import JsParse

  /** The forward button on a campaign card. */
  datatype StatusAction = StatusAction(caption: string, target: Status)

  /** The forward action offered for a campaign in phase `s`: every phase
      but the last moves exactly one stage forward. */
  function NextStatusAction(s: Status): (r: Option<StatusAction>)
    ensures r.Some? <==> s != Closed
    ensures r.Some? ==> Stage(r.value.target) == Stage(s) + 1
  {
    match s
    case Draft => Some(StatusAction("Start Nominations", NominationsOpen))
    case NominationsOpen => Some(StatusAction("Start Voting", VotingOpen))
    case VotingOpen => Some(StatusAction("Close Campaign", Closed))
    case Closed => None
  }

  /** Whether the card shows the "Pause" button, which moves the campaign
      back to draft. */
  function CanPause(s: Status): (r: bool)
    ensures r <==> IsActive(s)
  {
    s != Draft && s != Closed
  }

  /** Every phase a card's buttons can request. */
  function OfferedTargets(s: Status): (r: set<Status>)
    ensures Draft in r <==> IsActive(s)
    ensures |r| <= 2
  {
    (match NextStatusAction(s) case Some(a) => {a.target} case None => {})
    + (if CanPause(s) then {Draft} else {})
  }

  /** The campaign lifecycle the feature is designed around: start
      nominations, start voting, close, and pause an open phase back to
      draft. */
  ghost predicate LifecycleStep(from: Status, to: Status) {
    || (from == Draft && to == NominationsOpen)
    || (from == NominationsOpen && to == VotingOpen)
    || (from == VotingOpen && to == Closed)
    || (IsActive(from) && to == Draft)
  }

  /** The buttons offer exactly the lifecycle's transitions, no more and no
      fewer. */
  lemma OfferedIsLifecycle(from: Status, to: Status)
    ensures to in OfferedTargets(from) <==> LifecycleStep(from, to)
  {
  }

  /** A closed campaign is final: its card offers no transition at all. */
  lemma ClosedIsAbsorbing()
    ensures NextStatusAction(Closed).None? && !CanPause(Closed)
    ensures forall t :: t !in OfferedTargets(Closed)
  {
  }

  /** The phase reached by pressing the forward button `n` times, or
      `None` if the button disappears on the way. */
  function Follow(s: Status, n: nat): (r: Option<Status>)
    ensures r.Some? ==> Stage(r.value) == Stage(s) + n
    decreases n
  {
    if n == 0 then Some(s)
    else match NextStatusAction(s)
      case None => None
      case Some(a) => Follow(a.target, n - 1)
  }

  /** From draft the forward button reaches closed after exactly three
      presses, and no other number of presses does. */
  lemma DraftClosesInThree(n: nat)
    ensures Follow(Draft, n) == Some(Closed) <==> n == 3
  {
    if n == 3 {
      assert Follow(Closed, 0) == Some(Closed);
    }
  }

  /** The create-campaign dialog's fields. */
  datatype CampaignForm = CampaignForm(
    title: string,
    description: string,
    allowSelfNomination: bool,
    maxNominations: int)

  /** The state the dialog starts in. */
  const InitialForm := CampaignForm("", "", true, 1)

  /** `resetForm`: after it the dialog is back in its initial state, which
      leaves the create button disabled. */
  function ResetForm(f: CampaignForm): (r: CampaignForm)
    ensures r == InitialForm
    ensures CreateDisabled(r, false)
  {
    InitialForm
  }

  /** The create button is disabled while the title is blank or a create
      request is pending. */
  function CreateDisabled(f: CampaignForm, pending: bool): (r: bool)
    ensures r <==> Blank(f.title) || pending
  {
    TrimEmptyIffBlank(f.title);
    Trim(f.title) == "" || pending
  }

  /** `handleCreateCampaign` up to the request: a blank title is refused
      with a validation message and nothing is sent; otherwise the payload
      carries the trimmed title, the trimmed description only when it is
      not blank, and the two settings as they are. */
  function CreateRequest(f: CampaignForm): (r: Result<CreatePayload, string>)
    ensures r.Err? <==> Blank(f.title)
    ensures r.Err? ==> r.error == "Campaign title is required"
    ensures r.Ok? ==> r.value.title == Trim(f.title) && r.value.title != "" && !IsSpace(r.value.title[0])
                      && !IsSpace(r.value.title[|r.value.title| - 1])
    ensures r.Ok? ==> (r.value.description.None? <==> Blank(f.description))
    ensures r.Ok? && r.value.description.Some? ==>
              r.value.description.value == Trim(f.description)
    ensures r.Ok? ==> r.value.allowSelfNomination == Some(f.allowSelfNomination)
                      && r.value.maxNominationsPerUser == Some(f.maxNominations)
  {
    var t := Trim(f.title);
    TrimEmptyIffBlank(f.title);
    if t == "" then Err("Campaign title is required")
    else Ok(CreatePayload(t, PayloadDescription(f.description),
                          Some(f.allowSelfNomination), Some(f.maxNominations)))
  }

  /** `description.trim() || undefined`. */
  function PayloadDescription(description: string): (r: Option<string>)
    ensures r.None? <==> Blank(description)
    ensures r.Some? ==> r.value == Trim(description)
  {
    TrimEmptyIffBlank(description);
    var d := Trim(description);
    if d == "" then None else Some(d)
  }

  /** The dialog after a create attempt: a created campaign resets the form,
      a refused or failed one leaves it as the user typed it. */
  function FormAfterCreate(f: CampaignForm, created: bool): (r: CampaignForm)
    ensures created ==> r == InitialForm
    ensures !created ==> r == f
  {
    if created then ResetForm(f) else f
  }

  /** The max-nominations field's `onChange`: `parseInt(text) || 1`. NaN
      and zero become 1; every other integer is kept, negative ones
      included. */
  function MaxNominationsInput(text: string): (r: int)
    ensures r != 0
    ensures JsParse.ParseInt(text).None? ==> r == 1
    ensures JsParse.ParseInt(text).Some? && JsParse.ParseInt(text).value != 0 ==>
              r == JsParse.ParseInt(text).value
  {
    match JsParse.ParseInt(text)
    case Some(n) => if n != 0 then n else 1
    case None => 1
  }

  /** Typing the decimal form of any non-zero integer sets exactly that
      integer; typing zero sets 1. */
  lemma MaxNominationsOfDecimal(n: int)
    ensures MaxNominationsInput(ShowInt(n)) == if n == 0 then 1 else n
  {
    JsParse.ParseShowInt(n);
  }

  // ---------------------------------------------------------------------
  // Who may use the page

  /** Whether the member-roles reply lists the senior-admin role. The role
      id is a parameter: the site configuration does not define it. */
  function IsSeniorAdmin(data: Option<RolesResponse>, adminRoleId: string): (r: bool)
    ensures r <==> data.Some? && exists i :: 0 <= i < |data.value.roles| && data.value.roles[i].id == adminRoleId
  {
    match data
    case None => false
    case Some(d) =>
      var ids := Ids(d.roles);
      if adminRoleId in ids then
        var i :| 0 <= i < |ids| && ids[i] == adminRoleId;
        assert d.roles[i].id == adminRoleId;
        true
      else
        false
  }

  /** Whether the role is held depends only on which ids are listed, not on
      their order or repetition. */
  lemma SeniorAdminByIds(a: RolesResponse, b: RolesResponse, adminRoleId: string)
    requires forall id :: id in Ids(a.roles) <==> id in Ids(b.roles)
    ensures IsSeniorAdmin(Some(a), adminRoleId) == IsSeniorAdmin(Some(b), adminRoleId)
  {
    if IsSeniorAdmin(Some(a), adminRoleId) {
      var i :| 0 <= i < |a.roles| && a.roles[i].id == adminRoleId;
      assert Ids(a.roles)[i] == adminRoleId;
    }
    if IsSeniorAdmin(Some(b), adminRoleId) {
      var i :| 0 <= i < |b.roles| && b.roles[i].id == adminRoleId;
      assert Ids(b.roles)[i] == adminRoleId;
    }
  }

  /** What the administrator's page renders. */
  datatype AdminPage = Spinner | Empty | Panel

  /** The page body: a spinner while roles or campaigns load, then the
      panel for a senior admin and nothing for anyone else. */
  function AdminPageOf(rolesLoading: bool, campaignsLoading: bool, seniorAdmin: bool): (r: AdminPage)
    ensures r.Spinner? <==> rolesLoading || campaignsLoading
    ensures r.Panel? <==> !rolesLoading && !campaignsLoading && seniorAdmin
    ensures r.Empty? <==> !rolesLoading && !campaignsLoading && !seniorAdmin
  {
    if rolesLoading || campaignsLoading then Spinner
    else if seniorAdmin then Panel
    else Empty
  }

  /** The role effect: it fires once roles have loaded, for a signed-in
      member without the role, and does not wait for the campaigns. */
  predicate Redirects(rolesLoading: bool, signedIn: bool, seniorAdmin: bool) {
    !rolesLoading && !seniorAdmin && signedIn
  }

  /** Where the page's effects send the visitor: the session effect sends
      a visitor without a session to the campaigns page, and the role
      effect sends a signed-in member without the role there too. */
  function LeavesPage(rolesLoading: bool, signedIn: bool, seniorAdmin: bool): (r: Option<string>)
    ensures r.Some? ==> r.value == "/campaigns"
    ensures r.Some? <==> !signedIn || Redirects(rolesLoading, signedIn, seniorAdmin)
  {
    if !signedIn || Redirects(rolesLoading, signedIn, seniorAdmin) then Some("/campaigns") else None
  }

  /** The page and its effects agree: a signed-in senior admin stays and
      is the only one who sees the panel; a blank page is always left; and
      a member without the role is sent away as soon as roles have loaded,
      even while the campaigns are still loading behind the spinner. */
  lemma PanelOnlyForSeniorAdmins(rolesLoading: bool, campaignsLoading: bool, signedIn: bool, data: Option<RolesResponse>, adminRoleId: string)
    ensures signedIn && IsSeniorAdmin(data, adminRoleId) ==> LeavesPage(rolesLoading, signedIn, IsSeniorAdmin(data, adminRoleId)).None?
    ensures AdminPageOf(rolesLoading, campaignsLoading, IsSeniorAdmin(data, adminRoleId)).Panel? ==>
              data.Some? && adminRoleId in Ids(data.value.roles)
    ensures AdminPageOf(rolesLoading, campaignsLoading, IsSeniorAdmin(data, adminRoleId)).Empty? ==>
              LeavesPage(rolesLoading, signedIn, IsSeniorAdmin(data, adminRoleId)).Some?
    ensures !rolesLoading && signedIn && !IsSeniorAdmin(data, adminRoleId) ==>
              LeavesPage(rolesLoading, signedIn, false) == Some("/campaigns")
  {
    if IsSeniorAdmin(data, adminRoleId) {
      var i :| 0 <= i < |data.value.roles| && data.value.roles[i].id == adminRoleId;
      assert Ids(data.value.roles)[i] == adminRoleId;
    }
  }
}
