/**
 * One run of `main` in sync.py, after the configuration has been read and
 * the organization looked up: resolve or create the team, snapshot the
 * organization's and the team's members (both through the user filter), and
 * run the comparison loop.
 */
module SyncRun {
  import opened UserFilter
  import opened Snapshots
  import opened Directory
  import opened Reconciliation

  /**
   * The part of `main` after the team is resolved, as written: both
   * snapshots, then the loop. It ends in Done exactly when every allowed
   * organization login is an allowed team login, and otherwise aborts at one
   * that is not; either way the team gets no add-membership request.
   */
  method CompareAsWritten(team: Team, orgMembers: seq<Member>, search: Search, filters: Filters, dryRun: string)
    returns (outcome: RunOutcome)
    modifies team`added
    ensures team.added == old(team.added)
    ensures outcome.Done? <==>
      forall l :: l in SnapshotOf(search, filters, orgMembers).present ==>
        l in SnapshotOf(search, filters, team.members).present
    ensures outcome.Abort? ==>
      && outcome.missingKey in SnapshotOf(search, filters, orgMembers).present
      && outcome.missingKey !in SnapshotOf(search, filters, team.members).present
  {
    var orgSnap := GetGroupLogins(search, filters, orgMembers);
    var teamSnap := GetGroupLogins(search, filters, team.members);
    AsWrittenNeverAdds(orgSnap.order, teamSnap.present, dryRun);
    outcome := ReconcileAsWritten(team, orgSnap, teamSnap, dryRun);
  }

  /**
   * `main` as written. No team ends up with an add-membership request: an
   * existing team keeps its log, and a team created by the run has none.
   */
  method SyncAsWritten(org: Organization, teamName: string, search: Search, filters: Filters, dryRun: string)
    returns (team: Team, outcome: RunOutcome)
    modifies org`teams, org`createCalls, org.teams
    ensures team.name == teamName && team in org.teams
    ensures FindTeam(old(org.teams), teamName).Some? ==>
      && team == old(org.teams)[FindTeam(old(org.teams), teamName).value]
      && org.teams == old(org.teams) && org.createCalls == old(org.createCalls)
    ensures FindTeam(old(org.teams), teamName).None? ==>
      && team.members == []
      && org.teams == old(org.teams) + [team] && org.createCalls == old(org.createCalls) + [teamName]
    ensures forall t :: t in old(org.teams) ==> t.members == old(t.members)
    ensures FindTeam(old(org.teams), teamName).None? <==> fresh(team)
    ensures org.members == old(org.members)
    ensures outcome.Done? <==>
      forall l :: l in SnapshotOf(search, filters, org.members).present ==>
        l in SnapshotOf(search, filters, team.members).present
    ensures outcome.Abort? ==>
      && outcome.missingKey in SnapshotOf(search, filters, org.members).present
      && outcome.missingKey !in SnapshotOf(search, filters, team.members).present
    ensures forall t :: t in old(org.teams) ==> t.added == old(t.added)
    ensures fresh(team) ==> team.added == []
  {
    team := org.CreateTeamIfNotExists(teamName);
    outcome := CompareAsWritten(team, org.members, search, filters, dryRun);
  }

  /**
   * The part of `main` after the team is resolved, as evidently intended:
   * the additions are the allowed organization logins the team lacks, each
   * once, requested only when the dry run is off.
   */
  method Compare(team: Team, orgMembers: seq<Member>, search: Search, filters: Filters, dryRun: string)
    returns (toAdd: seq<string>)
    modifies team`added
    ensures forall l :: l in toAdd <==>
      l in SnapshotOf(search, filters, orgMembers).present &&
      l !in SnapshotOf(search, filters, team.members).present
    ensures Distinct(toAdd)
    ensures team.added == old(team.added) + (if IsDryRun(dryRun) then [] else toAdd)
  {
    var orgSnap := GetGroupLogins(search, filters, orgMembers);
    var teamSnap := GetGroupLogins(search, filters, team.members);
    MissingIsDifference(orgSnap, teamSnap);
    MissingHasNoDuplicates(orgSnap.order, teamSnap.present);
    toAdd := Reconcile(team, orgSnap, teamSnap, dryRun);
  }

  /**
   * `main` as evidently intended: only the resolved team gets requests, and
   * none during a dry run; nothing is ever removed.
   */
  method Sync(org: Organization, teamName: string, search: Search, filters: Filters, dryRun: string)
    returns (team: Team, toAdd: seq<string>)
    modifies org`teams, org`createCalls, org.teams
    ensures team.name == teamName && team in org.teams
    ensures FindTeam(old(org.teams), teamName).None? <==> fresh(team)
    ensures FindTeam(old(org.teams), teamName).Some? ==>
      && team == old(org.teams)[FindTeam(old(org.teams), teamName).value]
      && org.teams == old(org.teams) && org.createCalls == old(org.createCalls)
    ensures FindTeam(old(org.teams), teamName).None? ==>
      && team.members == []
      && org.teams == old(org.teams) + [team] && org.createCalls == old(org.createCalls) + [teamName]
    ensures forall t :: t in old(org.teams) ==> t.members == old(t.members)
    ensures org.members == old(org.members)
    ensures forall l :: l in toAdd <==>
      l in SnapshotOf(search, filters, org.members).present &&
      l !in SnapshotOf(search, filters, team.members).present
    ensures Distinct(toAdd)
    ensures forall t :: t in old(org.teams) && t != team ==> t.added == old(t.added)
    ensures IsDryRun(dryRun) ==> forall t :: t in old(org.teams) ==> t.added == old(t.added)
    ensures !IsDryRun(dryRun) && !fresh(team) ==> team.added == old(team.added) + toAdd
    ensures fresh(team) ==> team.added == (if IsDryRun(dryRun) then [] else toAdd)
  {
    team := org.CreateTeamIfNotExists(teamName);
    toAdd := Compare(team, org.members, search, filters, dryRun);
  }
}
