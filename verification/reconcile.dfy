/**
 * The comparison loop at the end of `main` in sync.py, as it is written, and
 * the reconciliation it evidently means.
 *
 * As written, the loop looks each organization login up in the team
 * dictionary with `d[login]`, which raises KeyError for an absent login, and
 * guards the add with a comparison of the bound method `DRY_RUN.lower` (never
 * called) against the string "false", which is never equal.
 */
module Reconciliation {
  import opened Wrappers
  import opened Snapshots
  import opened Directory

  /** How a run of the loop ends: it finishes, or the lookup of `missingKey` raises KeyError. */
  datatype RunOutcome = Done | Abort(missingKey: string)

  /** The two kinds of Python value the guard compares: a string, and a method bound to its receiver. */
  datatype PyValue = Str(s: string) | BoundMethod(receiver: string, methodName: string)

  /**
   * `not DRY_RUN.lower == "false"`: a bound method never equals a string, so
   * the guard holds whatever the flag says.
   */
  function AddGuardAsWritten(dryRun: string): (r: bool)
    ensures r
  {
    !(BoundMethod(dryRun, "lower") == Str("false"))
  }

  /** The position of the first login of `order` that is not a key of `present`, if any. */
  function FirstAbsent(order: seq<string>, present: map<string, bool>): (r: Option<nat>)
    ensures r.None? <==> forall j :: 0 <= j < |order| ==> order[j] in present
    ensures r.Some? ==> r.value < |order| && order[r.value] !in present
    ensures r.Some? ==> forall j :: 0 <= j < r.value ==> order[j] in present
  {
    if |order| == 0 then None
    else if order[0] !in present then Some(0)
    else match FirstAbsent(order[1..], present)
      case None => None
      case Some(i) => Some(i + 1)
  }

  /**
   * The add-membership requests the loop as written makes: it walks `order`
   * until the first login absent from `present` (where it raises), and asks
   * to add each login it meets whose entry is False, whenever the guard holds.
   */
  function AddsAsWritten(order: seq<string>, present: map<string, bool>, dryRun: string): seq<string>
  {
    if |order| == 0 || order[0] !in present then []
    else
      (if !present[order[0]] && AddGuardAsWritten(dryRun) then [order[0]] else [])
      + AddsAsWritten(order[1..], present, dryRun)
  }

  /** The outcome of the loop as written: Abort at the first organization login missing from the team. */
  function OutcomeAsWritten(order: seq<string>, present: map<string, bool>): RunOutcome
  {
    match FirstAbsent(order, present)
    case None => Done
    case Some(i) => Abort(order[i])
  }

  /** The loop of `main` as written. */
  method ReconcileAsWritten(team: Team, orgSnap: Snapshot, teamSnap: Snapshot, dryRun: string)
    returns (outcome: RunOutcome)
    modifies team`added
    ensures outcome == OutcomeAsWritten(orgSnap.order, teamSnap.present)
    ensures team.added == old(team.added) + AddsAsWritten(orgSnap.order, teamSnap.present, dryRun)
  {
    var order, present := orgSnap.order, teamSnap.present;
    for i := 0 to |order|
      invariant forall j :: 0 <= j < i ==> order[j] in present
      invariant old(team.added) + AddsAsWritten(order, present, dryRun)
             == team.added + AddsAsWritten(order[i..], present, dryRun)
    {
      var login := order[i];
      assert order[i..][1..] == order[i + 1..];
      if login !in present {
        return Abort(login);
      }
      if !present[login] {
        if AddGuardAsWritten(dryRun) {
          team.AddMembership(login);
        }
      }
    }
    return Done;
  }

  /**
   * When every entry of the team dictionary is True, as `get_group_logins`
   * always makes it, the loop as written asks to add nobody: present logins
   * take the "already in the team" branch and an absent one raises.
   */
  lemma {:induction false} AsWrittenNeverAdds(order: seq<string>, present: map<string, bool>, dryRun: string)
    requires forall l :: l in present ==> present[l]
    ensures AddsAsWritten(order, present, dryRun) == []
  {
    if |order| > 0 && order[0] in present {
      AsWrittenNeverAdds(order[1..], present, dryRun);
    }
  }

  /**
   * The loop as written on an organization {alice, bob} and a team {alice}:
   * it raises at "bob", the one login a reconciliation should add.
   */
  lemma AsWrittenAbortsOnMissingLogin()
    ensures OutcomeAsWritten(["alice", "bob"], map["alice" := true]) == Abort("bob")
    ensures AddsAsWritten(["alice", "bob"], map["alice" := true], "false") == []
    ensures Missing(["alice", "bob"], map["alice" := true]) == ["bob"]
  {
    assert FirstAbsent(["alice", "bob"], map["alice" := true]) == Some(1) by {
      assert ["alice", "bob"][1..] == ["bob"];
    }
    assert ["alice", "bob"][1..] == ["bob"];
    assert ["alice", "bob"][..1] == ["alice"];
    assert ["alice"][..0] == [];
  }

  /** The guard as written ignores a flag that asks for a dry run. */
  lemma GuardIgnoresDryRun()
    ensures IsDryRun("True") && AddGuardAsWritten("True")
  {
  }

  /** ASCII lower-casing of one character. */
  function LowerChar(c: char): char
  {
    if 'A' <= c <= 'Z' then (c as int - 'A' as int + 'a' as int) as char else c
  }

  /** `s.lower()`, on ASCII letters. */
  function Lower(s: string): (r: string)
    ensures |r| == |s|
    ensures forall i :: 0 <= i < |s| ==> r[i] == LowerChar(s[i])
  {
    if |s| == 0 then "" else [LowerChar(s[0])] + Lower(s[1..])
  }

  /** The dry-run flag is on unless it reads "false" in any letter case (its default is "True"). */
  function IsDryRun(dryRun: string): bool
  {
    Lower(dryRun) != "false"
  }

  /** How the flag reads: "False" in any case turns the dry run off, anything else keeps it on. */
  lemma DryRunReadings()
    ensures IsDryRun("True") && IsDryRun("true") && IsDryRun("")
    ensures !IsDryRun("false") && !IsDryRun("False") && !IsDryRun("FALSE")
  {
    assert Lower("false") == "false";
    assert Lower("False") == "false";
    assert Lower("FALSE") == "false";
  }

  /** The logins of `order`, in order, that are not keys of `present`. */
  function Missing(order: seq<string>, present: map<string, bool>): seq<string>
  {
    if |order| == 0 then []
    else
      var last := order[|order| - 1];
      Missing(order[..|order| - 1], present) + (if last in present then [] else [last])
  }

  /** The additions are exactly the logins of `order` that are not team keys. */
  lemma {:induction false} MissingMembers(order: seq<string>, present: map<string, bool>)
    ensures forall l :: l in Missing(order, present) <==> l in order && l !in present
  {
    if |order| > 0 {
      var pre := order[..|order| - 1];
      MissingMembers(pre, present);
      assert order == pre + [order[|order| - 1]];
    }
  }

  /**
   * The additions are the filtered organization logins minus the team's:
   * they never include a team member, and every organization login outside
   * the team is among them.
   */
  lemma MissingIsDifference(orgSnap: Snapshot, teamSnap: Snapshot)
    requires orgSnap.Valid()
    ensures forall l :: l in Missing(orgSnap.order, teamSnap.present) <==>
      l in orgSnap.present && l !in teamSnap.present
  {
    MissingMembers(orgSnap.order, teamSnap.present);
  }

  /** Each addition is requested once when the organization's keys are distinct. */
  lemma {:induction false} MissingHasNoDuplicates(order: seq<string>, present: map<string, bool>)
    requires Distinct(order)
    ensures Distinct(Missing(order, present))
  {
    if |order| > 0 {
      var n := |order| - 1;
      var pre := order[..n];
      assert Distinct(pre);
      MissingHasNoDuplicates(pre, present);
      MissingMembers(pre, present);
      var front := Missing(pre, present);
      if order[n] !in present {
        assert order[n] !in pre;
        assert order[n] !in front;
        var r := front + [order[n]];
        assert Missing(order, present) == r;
        assert forall i :: 0 <= i < |front| ==> r[i] == front[i] && r[i] in front;
      }
    }
  }

  /** The team dictionary once the logins `adds` have been added to it. */
  function WithAdded(present: map<string, bool>, adds: seq<string>): (r: map<string, bool>)
    ensures forall l :: l in r <==> l in present || l in adds
  {
    present + map l | l in adds :: true
  }

  /** Nothing is missing when every login of `order` is already a team key. */
  lemma {:induction false} NothingMissing(order: seq<string>, present: map<string, bool>)
    requires forall i :: 0 <= i < |order| ==> order[i] in present
    ensures Missing(order, present) == []
  {
    if |order| > 0 {
      NothingMissing(order[..|order| - 1], present);
    }
  }

  /** A second run against a team that now holds the additions has nothing left to add. */
  lemma SecondRunAddsNothing(order: seq<string>, present: map<string, bool>)
    ensures Missing(order, WithAdded(present, Missing(order, present))) == []
  {
    MissingMembers(order, present);
    NothingMissing(order, WithAdded(present, Missing(order, present)));
  }

  /** The worked example: organization {alice, bob, wanda}, team {alice}, no filters. */
  lemma ExampleAdditions()
    ensures Missing(["alice", "bob", "wanda"], map["alice" := true]) == ["bob", "wanda"]
  {
    assert ["alice", "bob", "wanda"][..2] == ["alice", "bob"];
    assert ["alice", "bob"][..1] == ["alice"];
    assert ["alice"][..0] == [];
  }

  /**
   * The loop of `main` as evidently intended: every organization login that
   * is not a key of the team dictionary is an addition, and the request is
   * made only when the dry run is off.
   */
  method Reconcile(team: Team, orgSnap: Snapshot, teamSnap: Snapshot, dryRun: string)
    returns (toAdd: seq<string>)
    modifies team`added
    ensures toAdd == Missing(orgSnap.order, teamSnap.present)
    ensures team.added == old(team.added) + (if IsDryRun(dryRun) then [] else toAdd)
  {
    var order, present := orgSnap.order, teamSnap.present;
    var dry := IsDryRun(dryRun);
    toAdd := [];
    for i := 0 to |order|
      invariant toAdd == Missing(order[..i], present)
      invariant dry ==> team.added == old(team.added)
      invariant !dry ==> team.added == old(team.added) + toAdd
    {
      var login := order[i];
      assert order[..i + 1][..i] == order[..i];
      if login !in present {
        toAdd := toAdd + [login];
        if !dry {
          team.AddMembership(login);
        }
      }
    }
    assert order[..|order|] == order;
  }
}
