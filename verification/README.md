# sync_github_org_team — a Dafny model of the membership synchronizer

`sync.py` is meant to keep a GitHub team (for example
`@my-organization/everyone`) in step with its organization's membership. It
resolves the team by name and creates it when it is missing. It then builds two
login dictionaries, one for the organization and one for the team, through a
configurable user filter, and walks the organization's logins meaning to add
the ones the team lacks. As written it adds nobody: the walk stops at the first
missing login (see "## Findings"). This project models that decision logic,
both as written and as evidently intended. The GitHub client is replaced by
in-memory objects.

- `UserFilter` (`user_filter.dfy`) models `matches_regexes` and `allow_user`.
  The filter configuration (USER_FILTERS) is an ordered sequence of field rules.
  Each rule has an optional `reject` list and an optional `allow` list. The
  regular-expression engine is the parameter `search`, which stands for the
  case-insensitive `re.search`. `allow_user` is a method whose loop updates one
  flag. It is proved equal to `Verdict`, a fold over the per-field results.
  Lemmas then characterise that fold: allowed exactly when no field rejects, or
  when the last rejecting field also allows back.
- `Snapshots` (`snapshot.dfy`) models `get_group_logins`. A Python dictionary
  is a map plus its key insertion order, because the loop in `main` iterates
  that order.
- `Directory` (`directory.dfy`) holds the `Team` and `Organization` classes.
  The organization lists its teams and members and records its create-team
  requests. A team records its add-membership requests. `create_team_if_not_exists`
  is `Organization.CreateTeamIfNotExists`.
- `Reconciliation` (`reconcile.dfy`) models the comparison loop of `main`
  exactly as written (`ReconcileAsWritten`) and as evidently intended
  (`Reconcile`). See "## Findings".
- `SyncRun` (`sync_run.dfy`) models one run of `main` in both versions.

Both snapshots go through the filter: `get_group_logins(team)` at sync.py:254
calls `allow_user` at sync.py:97. A team member the filter refuses is
therefore absent from the team dictionary.

## Model

| member | source | states |
|---|---|---|
| UserFilter.FindField | sync.py:225-226 | `field in USER_FILTERS` / `USER_FILTERS[field]`: None exactly when no rule has that field name, otherwise the position of the first rule with that name |
| UserFilter.AnyMatch | sync.py:227-232 | the pattern loop returns True exactly when some pattern of the list matches the value |
| UserFilter.MatchesRegexes | sync.py:225-234 | False when the field is not configured or its rule has no list under the key; otherwise True exactly when some pattern of that list matches the member's value for the field |
| UserFilter.OwnRule | sync.py:225-230 | with distinct field names, examining the i-th field uses exactly the i-th rule's own lists |
| UserFilter.AllowUser | sync.py:173-186 | the flag loop returns the verdict of the per-field state machine; with no filters configured every member is allowed |
| UserFilter.FieldStep | sync.py:178-182 | a field whose reject list does not match leaves the verdict unchanged; reject and allow both matching gives True; reject alone gives False |
| UserFilter.FoldIsLastRejection | sync.py:173-186 | the folded flag is True exactly when no field rejects, or the last rejecting field also allows back (no permanent allow) |
| UserFilter.VerdictIsLastRejection | sync.py:175-186 | `allow_user` returns True exactly when no configured field's reject list matches, or the last one that matches has a matching allow list |
| UserFilter.AllowIgnoredWithoutRejection | sync.py:178-182 | when a field's reject list does not match, its allow list is never consulted: replacing it changes nothing |
| UserFilter.FoldIgnoresUnrejectedAllow | sync.py:178-182 | the allow result of a field that does not reject has no effect on the flag |
| UserFilter.WesAllowed | sync.py:132-151 | "wes" matches `^w.*` and `s$` and is allowed |
| UserFilter.WandaRejected | sync.py:153-156 | "wanda" matches only `^w.*` and is refused |
| UserFilter.JessAllowed | sync.py:158-161 | "jess" does not match `^w.*` and is allowed, whatever the allow list says |
| Snapshots.Snapshot.Insert | sync.py:98 | `member_logins[member.login] = True`: the login becomes a key mapped to True and no other entry changes; a new key goes after the existing ones, an existing key keeps its place; a dictionary whose order lists each key once stays so |
| Snapshots.GetGroupLogins | sync.py:92-100 | the dictionary built by the loop is the one that inserts, in listing order, each member's login that `allow_user` accepts; every value is True and the insertion order lists each key exactly once |
| Snapshots.SnapshotKeys | sync.py:92-100 | a login is a key exactly when some listed member with that login passes the filter; refused members are absent, not mapped to False |
| Snapshots.BuildKeys | sync.py:95-99 | inserting logins that pass a per-login test gives exactly the keys of the logins that passed |
| Snapshots.BuildShape | sync.py:95-99 | inserting with value True leaves every value True and each key once in the insertion order |
| Snapshots.NoFiltersKeepsEveryone | sync.py:92-100 | with no filters every listed login is a key |
| Directory.FindTeam | sync.py:61-69 | the position of the first listed team whose name is exactly the requested one, or None when no team has it |
| Directory.Organization.CreateTeam | sync.py:71-72 | a create-team request appends one fresh, empty team with the requested name and records one create call |
| Directory.Organization.CreateTeamIfNotExists | sync.py:60-72 | returns the first team with exactly that name and makes no create call; when none exists, makes exactly one create call for that name and returns the new team |
| Directory.ResolveTwice | sync.py:42-72 | resolving a name twice yields the same team and at most one create call |
| Directory.Team.AddMembership | sync.py:260 | an add-membership request is recorded after the earlier ones |
| Reconciliation.AddGuardAsWritten | sync.py:259 | the guard comparing the bound method `DRY_RUN.lower` with "false" always holds |
| Reconciliation.FirstAbsent | sync.py:256-257 | the position of the first organization login that is not a key of the team dictionary, where `d[login]` raises KeyError |
| Reconciliation.ReconcileAsWritten | sync.py:256-264 | the loop as written ends in Abort at the first organization login missing from the team, or in Done; the add requests it makes are exactly AddsAsWritten |
| Reconciliation.AsWrittenNeverAdds | sync.py:256-264 | when every team entry is True, as `get_group_logins` makes it, the loop as written makes no add request |
| Reconciliation.AsWrittenAbortsOnMissingLogin | sync.py:256-257 | organization {alice, bob} against team {alice}: the loop raises at "bob" and adds nobody, although "bob" is the one missing login |
| Reconciliation.GuardIgnoresDryRun | sync.py:259 | with the default flag "True", which asks for a dry run, the guard still holds |
| Reconciliation.Lower | sync.py:259 | lower-casing keeps the length and lower-cases each ASCII letter |
| Reconciliation.DryRunReadings | sync.py:37 | the dry run is on for "True", "true" and "", and off for "false", "False" and "FALSE" |
| Reconciliation.MissingMembers | sync.py:256-258 | a login is an addition exactly when it is an organization login that is not a team key |
| Reconciliation.MissingIsDifference | sync.py:256-260 | the additions are the filtered organization logins minus the team's: never a team member, and every organization login outside the team |
| Reconciliation.MissingHasNoDuplicates | sync.py:256-260 | each addition is requested once |
| Reconciliation.NothingMissing | sync.py:256-258 | when every organization login is a team key there is nothing to add |
| Reconciliation.SecondRunAddsNothing | sync.py:256-260 | once the additions are in the team, a second run has nothing to add |
| Reconciliation.ExampleAdditions | sync.py:256-260 | organization {alice, bob, wanda} against team {alice} gives additions [bob, wanda] |
| Reconciliation.Reconcile | sync.py:256-264 | the corrected loop returns exactly the missing logins and requests them, in order, only when the dry run is off |
| SyncRun.CompareAsWritten | sync.py:253-264 | comparing the two filtered snapshots as written makes no add request; it ends in Done exactly when every allowed organization login is an allowed team login |
| SyncRun.SyncAsWritten | sync.py:251-264 | a run of `main` as written reuses the first team of that name, or creates exactly one when none has it, and changes no team's listing; it leaves every team's add-membership log unchanged; it ends in Done exactly when every allowed organization login is an allowed team login, and otherwise aborts at one that is not |
| SyncRun.Compare | sync.py:253-264 | the corrected comparison returns exactly the allowed organization logins that are not allowed team logins, each once, and requests them only when the dry run is off |
| SyncRun.Sync | sync.py:251-264 | a corrected run reuses the first team of that name, or creates exactly one when none has it, and changes no team's listing; it adds exactly the allowed organization logins missing from the team, each once, to that team only, and adds nothing during a dry run |

## Left out

- Configuration loading: `load_dotenv`, the environment variables and the JSON parsing of USER_FILTERS (sync.py:26-39). The filters, team name and dry-run flag are parameters.
- A USER_FILTERS value that is a non-empty JSON list rather than an object. That is a Python type error, not designed behaviour.
- All logging, including the token slicing at sync.py:243. It is output only.
- Building the GitHub client and looking up the organization (sync.py:247-249), and the paging behind `get_teams` and `get_members`. These are in-memory sequences.
- The regular-expression engine (`re.search` with `re.IGNORECASE`, sync.py:230). It is the `search` parameter.
- Errors raised by the service (authorization, transport, unknown organization). Every list, create and add request is taken to succeed.
- A USER_FILTERS sequence that repeats a field name. A JSON object has distinct keys, so `json.loads` never yields one. On such a sequence the model looks up the first rule of that name each time, whereas Python would keep only the last.
- UserFilter.FieldValue: models `getattr(member, field)` (sync.py:229). A field other than `login` is a total lookup in the member's profile. An absent attribute (AttributeError) and a None value (TypeError in `re.search`) are not modelled.
- Directory.Organization.CreateTeam: a created team is taken to list no members. The service may list the creating account as a maintainer; sync.py does not rely on either.
- Directory.Team.AddMembership: records the request only. The team's member listing after the service handles it is not modelled.
- Reconciliation.Lower: lower-cases ASCII letters only. Python's `str.lower` also maps other Unicode letters. It only matters for the corrected dry-run flag.

## Findings

| source | as written | input that shows it | evidently intended | confidence | as-written member | corrected member |
|---|---|---|---|---|---|---|
| sync.py:257 | `current_team_members[member]` raises KeyError for an organization login missing from the team. Present logins always map to True, so the add branch is never reached | organization {alice, bob}, team {alice}, no filters: the run raises at "bob" and adds nobody | add every allowed organization login that is not a key of the team dictionary | not executed; high | Reconciliation.AsWrittenAbortsOnMissingLogin | Reconciliation.Reconcile |
| sync.py:259 | `DRY_RUN.lower == "false"` compares a bound method with a string. The guard is always true, so the dry-run flag is ignored. Adding the missing call alone would not help: the `not` is inverted too, so `not DRY_RUN.lower() == "false"` would add exactly during a dry run, while the else branch logs "dry run" when the flag reads "false" | DRY_RUN = "True" (the default): the guard holds | request additions only when DRY_RUN reads "false" in any letter case | not executed; medium | Reconciliation.GuardIgnoresDryRun | Reconciliation.DryRunReadings |
