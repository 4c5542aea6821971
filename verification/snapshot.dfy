/**
 * `get_group_logins` of sync.py: the login -> True dictionary built from a
 * group's member listing, keeping only the members the user filter allows.
 * Both the organization's and the team's listing go through it.
 */
module Snapshots {
  import opened UserFilter

  /** No login occurs twice. */
  ghost predicate Distinct(logins: seq<string>)
  {
    forall i, j :: 0 <= i < j < |logins| ==> logins[i] != logins[j]
  }

  /**
   * A Python dictionary from login to bool: `present` holds the entries and
   * `order` the keys in insertion order, the order in which a loop over the
   * dictionary visits them.
   */
  datatype Snapshot = Snapshot(order: seq<string>, present: map<string, bool>)
  {
    /** Each key appears once in the iteration order, and the order lists exactly the keys. */
    ghost predicate Valid()
    {
      && Distinct(order)
      && (forall l :: l in present <==> l in order)
    }

    /** Every entry maps to True: absence, not False, marks a non-member. */
    ghost predicate AllTrue()
    {
      forall l :: l in present ==> present[l]
    }

    /** `d[login] = True`: a new key goes to the end of the order, an existing key keeps its place. */
    function Insert(login: string): (r: Snapshot)
      ensures login in r.present && r.present[login]
      ensures forall l :: l != login ==> (l in r.present <==> l in present)
      ensures forall l :: l != login && l in present ==> r.present[l] == present[l]
      ensures |order| <= |r.order| <= |order| + 1 && r.order[..|order|] == order
      ensures login in present ==> r.order == order
      ensures login !in present ==> r.order == order + [login]
      ensures Valid() ==> r.Valid()
    {
      Snapshot(if login in present then order else order + [login], present[login := true])
    }
  }

  function Empty(): Snapshot
  {
    Snapshot([], map[])
  }

  /** The dictionary built by visiting `logins` in order and recording each one whose `keep` flag is set. */
  function Build(logins: seq<string>, keep: seq<bool>): Snapshot
    requires |keep| == |logins|
  {
    if |logins| == 0 then Empty()
    else
      var n := |logins| - 1;
      var s := Build(logins[..n], keep[..n]);
      if keep[n] then s.Insert(logins[n]) else s
  }

  /** The keys of the built dictionary are exactly the logins whose flag is set. */
  lemma {:induction false} BuildKeys(logins: seq<string>, keep: seq<bool>)
    requires |keep| == |logins|
    ensures forall login :: login in Build(logins, keep).present <==>
      exists i :: 0 <= i < |logins| && logins[i] == login && keep[i]
  {
    if |logins| > 0 {
      var n := |logins| - 1;
      var pre, preKeep := logins[..n], keep[..n];
      BuildKeys(pre, preKeep);
      var s := Build(pre, preKeep);
      var t := Build(logins, keep);
      forall login
        ensures login in t.present <==> exists i :: 0 <= i < |logins| && logins[i] == login && keep[i]
      {
        if login in t.present && login in s.present {
          var i :| 0 <= i < n && pre[i] == login && preKeep[i];
          assert logins[i] == login && keep[i];
        }
        if exists i :: 0 <= i < |logins| && logins[i] == login && keep[i] {
          var i :| 0 <= i < |logins| && logins[i] == login && keep[i];
          if i < n {
            assert pre[i] == login && preKeep[i];
          }
        }
      }
    }
  }

  /** Every value of the built dictionary is True, and its order lists each key exactly once. */
  lemma {:induction false} BuildShape(logins: seq<string>, keep: seq<bool>)
    requires |keep| == |logins|
    ensures Build(logins, keep).AllTrue()
    ensures Build(logins, keep).Valid()
  {
    if |logins| > 0 {
      var n := |logins| - 1;
      BuildShape(logins[..n], keep[..n]);
      var s := Build(logins[..n], keep[..n]);
      if logins[n] !in s.present {
        assert forall i :: 0 <= i < |s.order| ==> s.Insert(logins[n]).order[i] == s.order[i];
      }
    }
  }

  /** The logins of a member listing. */
  function Logins(members: seq<Member>): (r: seq<string>)
    ensures |r| == |members|
    ensures forall i :: 0 <= i < |members| ==> r[i] == members[i].login
  {
    seq(|members|, i requires 0 <= i < |members| => members[i].login)
  }

  /** What `allow_user` says of each member of a listing. */
  function Verdicts(search: Search, filters: Filters, members: seq<Member>): (r: seq<bool>)
    ensures |r| == |members|
    ensures forall i :: 0 <= i < |members| ==> r[i] == Verdict(search, filters, members[i])
  {
    seq(|members|, i requires 0 <= i < |members| => Verdict(search, filters, members[i]))
  }

  /** The dictionary `get_group_logins` builds from a member listing. */
  function SnapshotOf(search: Search, filters: Filters, members: seq<Member>): Snapshot
  {
    Build(Logins(members), Verdicts(search, filters, members))
  }

  /**
   * The keys of the snapshot are exactly the logins of listed members the
   * filter allows; a refused member is absent, not mapped to False.
   */
  lemma SnapshotKeys(search: Search, filters: Filters, members: seq<Member>)
    ensures forall login :: login in SnapshotOf(search, filters, members).present <==>
      exists i :: 0 <= i < |members| && members[i].login == login && Verdict(search, filters, members[i])
  {
    var logins, keep := Logins(members), Verdicts(search, filters, members);
    BuildKeys(logins, keep);
    forall login | login in SnapshotOf(search, filters, members).present
      ensures exists i :: 0 <= i < |members| && members[i].login == login && Verdict(search, filters, members[i])
    {
      var i :| 0 <= i < |logins| && logins[i] == login && keep[i];
      assert members[i].login == login && Verdict(search, filters, members[i]);
    }
    forall login | exists i :: 0 <= i < |members| && members[i].login == login && Verdict(search, filters, members[i])
      ensures login in SnapshotOf(search, filters, members).present
    {
      var i :| 0 <= i < |members| && members[i].login == login && Verdict(search, filters, members[i]);
      assert logins[i] == login && keep[i];
    }
  }

  /**
   * `get_group_logins`: visit the members in listing order and record
   * `login -> True` for each one `allow_user` accepts.
   */
  method GetGroupLogins(search: Search, filters: Filters, members: seq<Member>) returns (snap: Snapshot)
    ensures snap == SnapshotOf(search, filters, members)
    ensures snap.AllTrue()
    ensures snap.Valid()
  {
    ghost var logins, keep := Logins(members), Verdicts(search, filters, members);
    snap := Empty();
    for k := 0 to |members|
      invariant snap == Build(logins[..k], keep[..k])
    {
      var member := members[k];
      var allowed := AllowUser(search, filters, member);
      assert logins[..k + 1][..k] == logins[..k] && keep[..k + 1][..k] == keep[..k];
      if allowed {
        snap := snap.Insert(member.login);
      }
    }
    assert logins[..|members|] == logins && keep[..|members|] == keep;
    BuildShape(logins, keep);
  }

  /** With no filters configured, every listed login is kept. */
  lemma NoFiltersKeepsEveryone(search: Search, members: seq<Member>)
    ensures forall i :: 0 <= i < |members| ==> members[i].login in SnapshotOf(search, [], members).present
  {
    SnapshotKeys(search, [], members);
    forall i | 0 <= i < |members|
      ensures members[i].login in SnapshotOf(search, [], members).present
    {
      assert Verdict(search, [], members[i]);
    }
  }
}
