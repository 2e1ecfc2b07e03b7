/** The records of the campaign (nomination and voting) feature as the
    remote council service delivers them, and the request payloads the
    client sends to it. */
module Campaigns {
  import opened Results

  /** The four phases of a campaign. */
  datatype Status = Draft | NominationsOpen | VotingOpen | Closed

  /** The status as it travels on the wire. */
  function StatusName(s: Status): (r: string)
    ensures |r| > 0
  {
    match s
    case Draft => "draft"
    case NominationsOpen => "nominations_open"
    case VotingOpen => "voting_open"
    case Closed => "closed"
  }

  /** Reading a status back from the wire; any other text is no status. */
  function ParseStatus(name: string): (r: Option<Status>)
    ensures r.Some? ==> StatusName(r.value) == name
  {
    if name == "draft" then Some(Draft)
    else if name == "nominations_open" then Some(NominationsOpen)
    else if name == "voting_open" then Some(VotingOpen)
    else if name == "closed" then Some(Closed)
    else None
  }

  /** The four wire names are distinct and read back as their status. */
  lemma StatusNameRoundTrip(s: Status)
    ensures ParseStatus(StatusName(s)) == Some(s)
  {
    match s
    case Draft =>
    case NominationsOpen =>
      assert "nominations_open"[0] != "draft"[0];
    case VotingOpen =>
      assert "voting_open"[0] != "draft"[0] && "voting_open"[0] != "nominations_open"[0];
    case Closed =>
      assert "closed"[0] != "draft"[0] && "closed"[0] != "nominations_open"[0] && "closed"[0] != "voting_open"[0];
  }

  /** The position of a phase in the lifecycle, from 0 (draft) to 3 (closed). */
  function Stage(s: Status): (r: nat)
    ensures r <= 3
  {
    match s
    case Draft => 0
    case NominationsOpen => 1
    case VotingOpen => 2
    case Closed => 3
  }

  /** The phases in which members can act (nominate or vote). */
  predicate IsActive(s: Status) {
    s == NominationsOpen || s == VotingOpen
  }

  datatype Campaign = Campaign(
    id: int,
    title: string,
    description: Option<string>,
    status: Status,
    allowSelfNomination: bool,
    maxNominationsPerUser: int,
    createdAt: string,
    updatedAt: Option<string>)

  /** One candidate's running tally within one campaign. */
  datatype Nominee = Nominee(
    campaignId: int,
    nomineeDiscordId: string,
    nomineeUsername: string,
    nominationCount: int,
    voteCount: int,
    firstNominatedAt: string)

  datatype Nomination = Nomination(
    id: int,
    campaignId: int,
    nomineeDiscordId: string,
    nomineeUsername: string,
    isSelfNomination: bool,
    createdAt: string)

  datatype Vote = Vote(
    id: int,
    campaignId: int,
    nomineeDiscordId: string,
    createdAt: string)

  /** The body of a create request; an absent field is left out of the
      JSON entirely. */
  datatype CreatePayload = CreatePayload(
    title: string,
    description: Option<string>,
    allowSelfNomination: Option<bool>,
    maxNominationsPerUser: Option<int>)

  /** The body of an update request: any subset of title, description and
      status. */
  datatype CampaignPatch = CampaignPatch(
    title: Option<string>,
    description: Option<string>,
    status: Option<Status>)
}
