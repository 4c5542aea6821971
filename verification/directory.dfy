/**
 * The organization and team objects the synchronizer talks to, kept in
 * memory: an organization lists its teams and its members and records every
 * create-team request; a team records every add-membership request.
 * `create_team_if_not_exists` of sync.py is the organization's
 * CreateTeamIfNotExists.
 */
module Directory {
  import opened Wrappers
  import opened UserFilter

  class Team {
    /** The team's name, compared case-sensitively. */
    const name: string
    /** The team's member listing. */
    var members: seq<Member>
    /** The logins passed to `add_membership`, in call order. */
    var added: seq<string>

    constructor (name: string, members: seq<Member>)
      ensures this.name == name && this.members == members && added == []
    {
      this.name := name;
      this.members := members;
      added := [];
    }

    /** `team.add_membership(login)`: the request is recorded; the listing is the service's business. */
    method AddMembership(login: string)
      modifies this`added
      ensures added == old(added) + [login]
    {
      added := added + [login];
    }
  }

  /** The position of the first team of `teams` whose name is exactly `teamName`, if any. */
  function FindTeam(teams: seq<Team>, teamName: string): (r: Option<nat>)
    ensures r.None? <==> forall j :: 0 <= j < |teams| ==> teams[j].name != teamName
    ensures r.Some? ==> r.value < |teams| && teams[r.value].name == teamName
    ensures r.Some? ==> forall j :: 0 <= j < r.value ==> teams[j].name != teamName
  {
    if |teams| == 0 then None
    else if teams[0].name == teamName then Some(0)
    else match FindTeam(teams[1..], teamName)
      case None => None
      case Some(i) => Some(i + 1)
  }

  class Organization {
    /** The teams `get_teams` lists, in listing order. */
    var teams: seq<Team>
    /** The accounts `get_members` lists, in listing order. */
    var members: seq<Member>
    /** The names passed to `create_team`, in call order. */
    var createCalls: seq<string>

    constructor (teams: seq<Team>, members: seq<Member>)
      ensures this.teams == teams && this.members == members && createCalls == []
    {
      this.teams := teams;
      this.members := members;
      createCalls := [];
    }

    /** `organization.create_team(teamName)`: a new, empty team is appended to the listing. */
    method CreateTeam(teamName: string) returns (team: Team)
      modifies this`teams, this`createCalls
      ensures fresh(team) && team.name == teamName && team.members == [] && team.added == []
      ensures teams == old(teams) + [team]
      ensures createCalls == old(createCalls) + [teamName]
    {
      team := new Team(teamName, []);
      teams := teams + [team];
      createCalls := createCalls + [teamName];
    }

    /**
     * `create_team_if_not_exists`: return the first listed team whose name
     * equals `teamName`, making no request; when there is none, make exactly
     * one create-team request for `teamName` and return the new team.
     */
    method CreateTeamIfNotExists(teamName: string) returns (team: Team)
      modifies this`teams, this`createCalls
      ensures FindTeam(old(teams), teamName).Some? ==>
        && team == old(teams)[FindTeam(old(teams), teamName).value]
        && teams == old(teams) && createCalls == old(createCalls)
      ensures FindTeam(old(teams), teamName).None? ==>
        && fresh(team) && team.name == teamName && team.members == [] && team.added == []
        && teams == old(teams) + [team] && createCalls == old(createCalls) + [teamName]
      ensures team.name == teamName && team in teams
    {
      for i := 0 to |teams|
        invariant forall j :: 0 <= j < i ==> teams[j].name != teamName
      {
        if teams[i].name == teamName {
          return teams[i];
        }
      }
      team := CreateTeam(teamName);
    }
  }

  /**
   * Resolving the same name twice returns the same team and makes at most
   * one create-team request: once a team of that name exists it is reused.
   */
  method ResolveTwice(org: Organization, teamName: string) returns (first: Team, second: Team)
    modifies org`teams, org`createCalls
    ensures first == second
    ensures FindTeam(old(org.teams), teamName).Some? ==> org.createCalls == old(org.createCalls)
    ensures FindTeam(old(org.teams), teamName).None? ==> org.createCalls == old(org.createCalls) + [teamName]
  {
    first := org.CreateTeamIfNotExists(teamName);
    second := org.CreateTeamIfNotExists(teamName);
  }
}
