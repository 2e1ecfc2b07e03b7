/** The members' campaign page: which campaign is selected on arrival, which
    nominate and vote controls a member sees, how nominees are ranked and
    the winner marked, and the searchable user picker of the nomination
    dialog. */
module CampaignView {
  import opened Results
  import opened Text
  import opened Seqs
  import opened Sorting
  import opened Campaigns
  import opened DiscordUsers

  // ---------------------------------------------------------------------
  // Selecting a campaign

  /** The index of the first campaign that is open for nominations or
      votes. */
  function FirstActive(cs: seq<Campaign>): (r: Option<nat>)
    ensures r.Some? ==> r.value < |cs| && IsActive(cs[r.value].status)
    ensures r.Some? ==> forall j :: 0 <= j < r.value ==> !IsActive(cs[j].status)
    ensures r.None? ==> forall j :: 0 <= j < |cs| ==> !IsActive(cs[j].status)
  {
    if |cs| == 0 then None
    else if IsActive(cs[0].status) then Some(0)
    else match FirstActive(cs[1..])
      case None => None
      case Some(k) => Some(k + 1)
  }

  /** The auto-select effect. While the list is loading, or once a campaign
      is selected, nothing changes. Otherwise the first open campaign in
      list order is chosen, else the first campaign, else (an empty list)
      none. */
  function AutoSelect(campaigns: Option<seq<Campaign>>, selected: Option<Campaign>): (r: Option<Campaign>)
    ensures selected.Some? || campaigns.None? ==> r == selected
    ensures selected.None? && campaigns.Some? ==>
              var cs := campaigns.value;
              && (r.None? <==> |cs| == 0)
              && (r.Some? ==> r.value in cs)
              && ((exists j :: 0 <= j < |cs| && IsActive(cs[j].status)) ==>
                    r.Some? && IsActive(r.value.status)
                    && exists i :: 0 <= i < |cs| && cs[i] == r.value
                                   && forall j :: 0 <= j < i ==> !IsActive(cs[j].status))
              && ((forall j :: 0 <= j < |cs| ==> !IsActive(cs[j].status)) && |cs| > 0 ==>
                    r == Some(cs[0]))
  {
    if selected.Some? || campaigns.None? then selected
    else
      var cs := campaigns.value;
      match FirstActive(cs)
      case Some(i) => Some(cs[i])
      case None => if |cs| > 0 then Some(cs[0]) else None
  }

  // ---------------------------------------------------------------------
  // Controls offered to a member

  /** A button that is either not rendered, or rendered with a caption and
      an enabled state. */
  datatype Button = Absent | Shown(caption: string, enabled: bool)

  /** A button the member can actually press. */
  predicate Pressable(b: Button) {
    b.Shown? && b.enabled
  }

  /** The "Nominate" button of the campaign card. */
  function NominateButton(status: Status, signedIn: bool, hasNomination: bool, pending: bool): (r: Button)
    ensures r.Shown? <==> signedIn && status == NominationsOpen
    ensures r.Shown? ==> (r.enabled <==> !hasNomination && !pending)
    ensures r.Shown? ==> r.caption == if hasNomination then "Already Nominated" else "Nominate"
  {
    if signedIn && status == NominationsOpen then
      Shown(if hasNomination then "Already Nominated" else "Nominate", !hasNomination && !pending)
    else Absent
  }

  /** The "Vote" button of the campaign card. */
  function VoteButton(status: Status, signedIn: bool, hasVote: bool, pending: bool): (r: Button)
    ensures r.Shown? <==> signedIn && status == VotingOpen
    ensures r.Shown? ==> (r.enabled <==> !hasVote && !pending)
    ensures r.Shown? ==> r.caption == if hasVote then "Already Voted" else "Vote"
  {
    if signedIn && status == VotingOpen then
      Shown(if hasVote then "Already Voted" else "Vote", !hasVote && !pending)
    else Absent
  }

  /** The "Vote" button beside each nominee: gone once the member has
      voted. */
  function NomineeVoteButton(status: Status, signedIn: bool, hasVote: bool, pending: bool): (r: Button)
    ensures r.Shown? <==> signedIn && status == VotingOpen && !hasVote
    ensures r.Shown? ==> r.caption == "Vote" && r.enabled == !pending
  {
    if signedIn && status == VotingOpen && !hasVote then Shown("Vote", !pending) else Absent
  }

  /** The "Sign in with Discord to participate" note. */
  function SignInPrompt(status: Status, signedIn: bool): (r: bool)
    ensures r ==> !signedIn
    ensures !signedIn ==> (r <==> status != Closed)
  {
    !signedIn && status != Closed
  }

  /** Whatever the member's state, a campaign in draft or closed offers no
      way to nominate or vote, and no campaign offers both at once. */
  lemma NoActionOutsideOpenPhases(status: Status, signedIn: bool, hasNomination: bool, hasVote: bool, pending: bool)
    ensures !IsActive(status) ==>
              && NominateButton(status, signedIn, hasNomination, pending).Absent?
              && VoteButton(status, signedIn, hasVote, pending).Absent?
              && NomineeVoteButton(status, signedIn, hasVote, pending).Absent?
    ensures NominateButton(status, signedIn, hasNomination, pending).Absent?
            || VoteButton(status, signedIn, hasVote, pending).Absent?
  {
  }

  /** Once the member's own record exists no control that could send a
      second nomination or vote is enabled. */
  lemma NoSecondSubmission(status: Status, signedIn: bool, pending: bool)
    ensures !Pressable(NominateButton(status, signedIn, true, pending))
    ensures !Pressable(VoteButton(status, signedIn, true, pending))
    ensures NomineeVoteButton(status, signedIn, true, pending).Absent?
  {
  }

  // ---------------------------------------------------------------------
  // Results

  /** The comparator `(a, b) => b.vote_count - a.vote_count` as a "may stay
      before" relation: more votes first. */
  predicate MoreVotesFirst(a: Nominee, b: Nominee) {
    b.voteCount - a.voteCount <= 0
  }

  /** The comparator orders nominees totally, and two nominees tie exactly
      when their vote counts are equal. */
  lemma MoreVotesFirstIsPreorder()
    ensures TotalPreorder(MoreVotesFirst)
    ensures forall a, b :: Equivalent(MoreVotesFirst, a, b) <==> a.voteCount == b.voteCount
  {
  }

  /** The nominees in display order. */
  function RankNominees(nominees: seq<Nominee>): (r: seq<Nominee>)
    ensures multiset(r) == multiset(nominees)
    ensures forall i, j :: 0 <= i < j < |r| ==> r[i].voteCount >= r[j].voteCount
  {
    MoreVotesFirstIsPreorder();
    StableSortSorted(MoreVotesFirst, nominees);
    StableSort(MoreVotesFirst, nominees)
  }

  /** Nominees with equal vote counts keep the order in which the service
      listed them. */
  lemma RankKeepsTies(nominees: seq<Nominee>, p: Nominee)
    ensures Ties(MoreVotesFirst, p, RankNominees(nominees)) == Ties(MoreVotesFirst, p, nominees)
  {
    MoreVotesFirstIsPreorder();
    StableSortStable(MoreVotesFirst, nominees);
  }

  /** What one line of the nominee list shows. */
  datatype NomineeRow = NomineeRow(nominee: Nominee, trophy: bool, votesShown: bool, voteButton: Button)

  /** The nominee list of the selected campaign. The trophy marks only the
      first line and only once the campaign is closed; vote counts are
      shown while voting is open and after it closes. */
  function ResultRows(status: Status, nominees: seq<Nominee>, signedIn: bool, hasVote: bool, pending: bool)
    : (rows: seq<NomineeRow>)
    ensures |rows| == |nominees|
    ensures forall i :: 0 <= i < |rows| ==> rows[i].nominee == RankNominees(nominees)[i]
    ensures forall i :: 0 <= i < |rows| ==> (rows[i].trophy <==> i == 0 && status == Closed)
    ensures forall i :: 0 <= i < |rows| ==>
              (rows[i].votesShown <==> status == VotingOpen || status == Closed)
    ensures forall i :: 0 <= i < |rows| ==>
              rows[i].voteButton == NomineeVoteButton(status, signedIn, hasVote, pending)
  {
    var ranked := RankNominees(nominees);
    seq(|ranked|, i requires 0 <= i < |ranked| =>
      NomineeRow(ranked[i], i == 0 && status == Closed,
                 status == VotingOpen || status == Closed,
                 NomineeVoteButton(status, signedIn, hasVote, pending)))
  }

  /** In a closed campaign the trophy goes to a nominee with no fewer votes
      than any other. */
  lemma WinnerHasMostVotes(nominees: seq<Nominee>, signedIn: bool, hasVote: bool, pending: bool)
    requires |nominees| > 0
    ensures var rows := ResultRows(Closed, nominees, signedIn, hasVote, pending);
            rows[0].trophy
            && forall n :: n in nominees ==> n.voteCount <= rows[0].nominee.voteCount
  {
    var ranked := RankNominees(nominees);
    forall n | n in nominees ensures n.voteCount <= ranked[0].voteCount {
      assert n in multiset(ranked);
      var k :| 0 <= k < |ranked| && ranked[k] == n;
      if k > 0 {
        assert ranked[0].voteCount >= ranked[k].voteCount;
      }
    }
  }

  // ---------------------------------------------------------------------
  // The nomination dialog

  /** Whether the user picker keeps `u` for the typed `query`: a blank
      query keeps everyone; otherwise the lower-cased, trimmed query must
      occur in the lower-cased display name, the lower-cased account name,
      or the user id. */
  predicate MatchesQuery(u: DiscordUser, query: string) {
    Trim(query) == ""
    || (var q := Trim(Lower(query));
        || Contains(Lower(DisplayName(u)), q)
        || Contains(Lower(u.username), q)
        || Contains(u.id, q))
  }

  function QueryFilter(query: string): DiscordUser -> bool {
    u => MatchesQuery(u, query)
  }

  /** The users matching the query, in list order; none while the member
      list has not arrived. */
  function FilterUsers(users: Option<seq<DiscordUser>>, query: string): (r: seq<DiscordUser>)
    ensures users.None? ==> r == []
    ensures users.Some? ==> IsSubsequence(r, users.value)
    ensures users.Some? ==> forall u :: multiset(r)[u] == if MatchesQuery(u, query) then multiset(users.value)[u] else 0
    ensures users.Some? && Blank(query) ==> r == users.value
  {
    match users
    case None => []
    case Some(us) =>
      FilterIsSubsequence(QueryFilter(query), us);
      FilterCounts(QueryFilter(query), us);
      TrimEmptyIffBlank(query);
      if Blank(query) then
        FilterKeepsAll(QueryFilter(query), us);
        Filter(QueryFilter(query), us)
      else Filter(QueryFilter(query), us)
  }

  /** How many matches the picker lists at most. */
  const PickerLimit := 50

  /** What the picker renders for a query. */
  datatype Picker = Picker(spinner: bool, listed: seq<DiscordUser>, emptyNote: Option<string>, overflowNote: bool, countLine: Option<string>)

  /** The note shown when nothing matches. */
  function EmptyNote(query: string): (r: string)
    ensures r == if Blank(query) then "Start typing to search..." else "No users found"
  {
    TrimEmptyIffBlank(query);
    if Trim(query) != "" then "No users found" else "Start typing to search..."
  }

  lemma UserNoun(plural: string)
    requires plural == "s" || plural == ""
    ensures " user" + plural + " found" == (if plural == "" then " user found" else " users found")
  {
  }

  /** "N user(s) found", shown under a non-blank query. */
  function CountLine(n: nat, query: string): (r: Option<string>)
    ensures r.Some? <==> !Blank(query)
    ensures r.Some? ==> r.value == ShowInt(n) + (if n == 1 then " user found" else " users found")
  {
    TrimEmptyIffBlank(query);
    if Trim(query) != "" then
      var plural := if n != 1 then "s" else "";
      UserNoun(plural);
      Some(ShowInt(n) + (" user" + plural + " found"))
    else None
  }

  /** The picker: the first fifty matches, a note when there are none, a
      note when more than fifty match, and a match count under a
      non-blank query. */
  function UserPicker(usersLoading: bool, users: Option<seq<DiscordUser>>, query: string): (r: Picker)
    ensures r.spinner <==> usersLoading
    ensures usersLoading ==> r.listed == [] && r.emptyNote.None? && !r.overflowNote && r.countLine.None?
    ensures !usersLoading ==>
              |r.listed| == (if |FilterUsers(users, query)| < PickerLimit then |FilterUsers(users, query)| else PickerLimit)
    ensures !usersLoading ==> r.listed == FilterUsers(users, query)[..|r.listed|]
    ensures !usersLoading ==> (r.overflowNote <==> |FilterUsers(users, query)| > PickerLimit)
    ensures !usersLoading ==> (r.emptyNote.Some? <==> |FilterUsers(users, query)| == 0)
    ensures !usersLoading ==> r.countLine == CountLine(|FilterUsers(users, query)|, query)
    ensures r.emptyNote.Some? ==>
              r.emptyNote.value == if Blank(query) then "Start typing to search..." else "No users found"
  {
    if usersLoading then Picker(true, [], None, false, None)
    else
      var found := FilterUsers(users, query);
      var n := |found|;
      Picker(
        false,
        if n < PickerLimit then found else found[..PickerLimit],
        if n > 0 then None else Some(EmptyNote(query)),
        n > PickerLimit,
        CountLine(n, query))
  }


  /** The first user in `us` with the given id. */
  function FindIn(us: seq<DiscordUser>, id: string): (r: Option<DiscordUser>)
    ensures r.Some? ==> r.value in us && r.value.id == id
    ensures r.None? ==> forall u :: u in us ==> u.id != id
    ensures forall i :: 0 <= i < |us| && us[i].id == id && (forall j :: 0 <= j < i ==> us[j].id != id) ==> r == Some(us[i])
  {
    if |us| == 0 then None
    else if us[0].id == id then Some(us[0])
    else FindIn(us[1..], id)
  }

  /** `discordUsers?.find(u => u.id === id)`: the first user with that id. */
  function FindUser(users: Option<seq<DiscordUser>>, id: string): (r: Option<DiscordUser>)
    ensures r.Some? ==> users.Some? && r.value in users.value && r.value.id == id
    ensures r.None? ==> users.None? || forall u :: u in users.value ==> u.id != id
    ensures users.Some? ==>
              forall i :: (0 <= i < |users.value| && users.value[i].id == id &&
                           forall j :: 0 <= j < i ==> users.value[j].id != id) ==> r == Some(users.value[i])
  {
    match users
    case None => None
    case Some(us) => FindIn(us, id)
  }

  /** The selected user id after the search box changes to `text`: the
      selection is cleared exactly when something is selected, the new text
      is not empty, the selected user is in the list, and the text differs
      from that user's display name. */
  function SelectionAfterTyping(selectedId: string, users: Option<seq<DiscordUser>>, text: string): (r: string)
    ensures r == selectedId || r == ""
    ensures r != selectedId <==>
              && selectedId != "" && text != ""
              && FindUser(users, selectedId).Some?
              && DisplayName(FindUser(users, selectedId).value) != text
  {
    if selectedId != "" && text != "" then
      match FindUser(users, selectedId)
      case Some(u) => if DisplayName(u) != text then "" else selectedId
      case None => selectedId
    else selectedId
  }

  /** Picking a user from the list fills the box with their display name;
      the selection then survives as long as the box holds that text. */
  lemma PickedNameKeepsSelection(users: seq<DiscordUser>, i: nat)
    requires i < |users|
    requires forall j :: 0 <= j < |users| && j != i ==> users[j].id != users[i].id
    ensures SelectionAfterTyping(users[i].id, Some(users), DisplayName(users[i])) == users[i].id
  {
    var found := FindUser(Some(users), users[i].id);
    assert found.Some?;
    assert found.value == users[i];
  }

  /** The nomination request `handleNominate` sends. */
  datatype NominateIntent = NominateIntent(campaignId: int, nomineeId: string, displayName: string)

  /** `handleNominate`: nothing happens without a selected campaign and a
      selected user; the confirmation names the user by display name, or by
      the raw id when the user is not in the list. */
  function NominateIntentFor(selected: Option<Campaign>, selectedUserId: string, users: Option<seq<DiscordUser>>)
    : (r: Option<NominateIntent>)
    ensures r.None? <==> selected.None? || selectedUserId == ""
    ensures r.Some? ==> r.value.campaignId == selected.value.id && r.value.nomineeId == selectedUserId
    ensures r.Some? && FindUser(users, selectedUserId).None? ==> r.value.displayName == selectedUserId
    ensures r.Some? && FindUser(users, selectedUserId).Some? ==>
              r.value.displayName == DisplayName(FindUser(users, selectedUserId).value)
  {
    if selected.None? || selectedUserId == "" then None
    else
      var name := match FindUser(users, selectedUserId)
        case Some(u) => DisplayName(u)
        case None => selectedUserId;
      Some(NominateIntent(selected.value.id, selectedUserId, name))
  }

  /** The dialog's confirm button is enabled only with a selected user and
      no nomination in flight. */
  function ConfirmNominateEnabled(selectedUserId: string, pending: bool): (r: bool)
    ensures r ==> selectedUserId != ""
    ensures r <==> selectedUserId != "" && !pending
  {
    !(selectedUserId == "" || pending)
  }
}
