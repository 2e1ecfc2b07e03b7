/** The member dashboard: which Discord id it asks about, the role names
    it reads from the member-roles reply, the role badges, and the
    sections it shows only to members holding certain roles. */
module Dashboard {
  import opened Results
  import opened Text
  import opened DiscordUsers
  import opened DiscordRoles

  /** The member's Discord id: the provider id, else the subject, else the
      first linked identity's id, each used only when non-empty. */
  function DiscordIdOf(providerId: Option<string>, sub: Option<string>, identityId: Option<string>): (r: Option<string>)
    ensures r.Some? ==> r.value != ""
    ensures r.None? <==> !Truthy(providerId) && !Truthy(sub) && !Truthy(identityId)
    ensures Truthy(providerId) ==> r == providerId
    ensures !Truthy(providerId) && Truthy(sub) ==> r == sub
    ensures !Truthy(providerId) && !Truthy(sub) && Truthy(identityId) ==> r == identityId
  {
    if Truthy(providerId) then providerId
    else if Truthy(sub) then sub
    else if Truthy(identityId) then identityId
    else None
  }

  /** The id line of the status card. */
  function DiscordIdLine(id: Option<string>): (r: string)
    ensures |r| > 0
    ensures Truthy(id) ==> r == id.value
    ensures !Truthy(id) ==> r == "Not found"
  {
    if Truthy(id) then id.value else "Not found"
  }

  /** `userRoles`: the names of the reply's roles in their order, or no
      names while there is no reply. */
  function UserRoles(data: Option<RolesResponse>): (r: seq<string>)
    ensures data.None? ==> r == []
    ensures data.Some? ==> |r| == |data.value.roles|
    ensures data.Some? ==> forall i :: 0 <= i < |r| ==> r[i] == data.value.roles[i].name
  {
    match data
    case None => []
    case Some(d) => seq(|d.roles|, i requires 0 <= i < |d.roles| => d.roles[i].name)
  }

  /** `hasRole`: exact name membership. */
  predicate HasRole(userRoles: seq<string>, name: string) {
    name in userRoles
  }

  /** A member has a role by name exactly when the reply lists a role of
      that name. */
  lemma HasRoleIffListed(data: Option<RolesResponse>, name: string)
    ensures HasRole(UserRoles(data), name) <==>
              data.Some? && exists i :: 0 <= i < |data.value.roles| && data.value.roles[i].name == name
  {
    if data.Some? && exists i :: 0 <= i < |data.value.roles| && data.value.roles[i].name == name {
      var i :| 0 <= i < |data.value.roles| && data.value.roles[i].name == name;
      assert UserRoles(data)[i] == name;
    }
  }

  /** The role-gated sections of the dashboard. */
  datatype Sections = Sections(staff: bool, admin: bool, vip: bool)

  function VisibleSections(userRoles: seq<string>): (r: Sections)
    ensures r.staff <==> HasRole(userRoles, "Staff") || HasRole(userRoles, "Admin")
    ensures r.admin <==> HasRole(userRoles, "Admin")
    ensures r.vip <==> HasRole(userRoles, "VIP") || HasRole(userRoles, "Supporter")
  {
    Sections(HasRole(userRoles, "Staff") || HasRole(userRoles, "Admin"),
             HasRole(userRoles, "Admin"),
             HasRole(userRoles, "VIP") || HasRole(userRoles, "Supporter"))
  }

  /** An admin sees the staff section too. */
  lemma AdminSeesStaff(userRoles: seq<string>)
    ensures VisibleSections(userRoles).admin ==> VisibleSections(userRoles).staff
  {
  }

  /** A member without roles sees no gated section. */
  lemma NoRolesNoSections()
    ensures VisibleSections([]) == Sections(false, false, false)
  {
  }

  /** Holding more roles never hides a section: visibility depends only on
      which names are held, and only grows with them. */
  lemma MoreRolesShowMore(fewer: seq<string>, more: seq<string>)
    requires forall n :: n in fewer ==> n in more
    ensures VisibleSections(fewer).staff ==> VisibleSections(more).staff
    ensures VisibleSections(fewer).admin ==> VisibleSections(more).admin
    ensures VisibleSections(fewer).vip ==> VisibleSections(more).vip
  {
  }

  /** The roles row next to the welcome line. */
  datatype RoleBadges = LoadingRoles | RolesError | Badges(names: seq<string>) | MemberBadge

  function RoleBadgesOf(loading: bool, failed: bool, userRoles: seq<string>): (r: RoleBadges)
    ensures r.LoadingRoles? <==> loading
    ensures r.RolesError? <==> !loading && failed
    ensures r.Badges? <==> !loading && !failed && |userRoles| > 0
    ensures r.Badges? ==> r.names == userRoles
    ensures r.MemberBadge? <==> !loading && !failed && |userRoles| == 0
  {
    if loading then LoadingRoles
    else if failed then RolesError
    else if |userRoles| > 0 then Badges(userRoles)
    else MemberBadge
  }

  /** The status line of the roles card. */
  function RolesStatus(loading: bool, failed: bool, userRoles: seq<string>): (r: string)
    ensures loading ==> r == "Loading..."
    ensures !loading && failed ==> r == "Error fetching roles"
    ensures !loading && !failed ==> r == ShowInt(|userRoles|) + " roles loaded"
  {
    if loading then "Loading..."
    else if failed then "Error fetching roles"
    else ShowInt(|userRoles|) + " roles loaded"
  }

  /** The badge row and the status line agree: a single "Member" badge is
      shown exactly when the status line reports zero roles loaded, and
      otherwise one badge per counted role. */
  lemma BadgesAgreeWithStatus(loading: bool, failed: bool, userRoles: seq<string>)
    ensures RoleBadgesOf(loading, failed, userRoles).MemberBadge? <==>
              RolesStatus(loading, failed, userRoles) == "0 roles loaded"
    ensures RoleBadgesOf(loading, failed, userRoles).Badges? ==>
              RolesStatus(loading, failed, userRoles) == ShowInt(|RoleBadgesOf(loading, failed, userRoles).names|) + " roles loaded"
  {
    var s := RolesStatus(loading, failed, userRoles);
    if !loading && !failed {
      var count := ShowInt(|userRoles|);
      assert s[0] == count[0];
      if |userRoles| > 0 {
        assert count[0] != '0';
      } else {
        assert count == "0";
      }
    }
    if loading {
      assert s[0] == 'L';
    }
    if !loading && failed {
      assert s[0] == 'E';
    }
  }
}
