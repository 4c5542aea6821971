/**
 * The user filter of sync.py: `matches_regexes` (a pure search) and
 * `allow_user` (a loop over the configured fields that updates one flag).
 *
 * The configured filters are the parsed USER_FILTERS object, kept as an
 * ordered sequence of field rules (a JSON object iterates its keys in the
 * order they were written). The regular-expression engine is not modelled:
 * every member takes it as the parameter `search`, which stands for the
 * case-insensitive `re.search(pattern, value)`.
 */
module UserFilter {
  import opened Wrappers

  type Pattern = string

  /** `search(p, v)` holds when the case-insensitive search for `p` finds a match somewhere in `v`. */
  type Search = (Pattern, string) -> bool

  /** An account: its login, and the rest of its profile looked up by attribute name. */
  datatype Member = Member(login: string, profile: string -> string)

  /**
   * The value `getattr(member, field)` yields: the `login` attribute is the
   * account's login, whatever its profile holds; any other attribute is read
   * from the profile.
   */
  function FieldValue(m: Member, field: string): string
  {
    if field == "login" then m.login else m.profile(field)
  }

  /** The two pattern lists a field rule may carry. */
  datatype Key = Reject | Allow

  /** One entry of USER_FILTERS: a field name and its optional `reject` and `allow` lists. */
  datatype FieldRule = FieldRule(field: string, reject: Option<seq<Pattern>>, allow: Option<seq<Pattern>>)
  {
    function Patterns(key: Key): Option<seq<Pattern>>
    {
      match key
      case Reject => reject
      case Allow => allow
    }
  }

  type Filters = seq<FieldRule>

  /** The keys of a JSON object are distinct. */
  predicate DistinctFields(filters: Filters)
  {
    forall i, j :: 0 <= i < j < |filters| ==> filters[i].field != filters[j].field
  }

  /** `field in USER_FILTERS` and `USER_FILTERS[field]`: the position of the rule for `field`, if any. */
  function FindField(filters: Filters, field: string): (r: Option<nat>)
    ensures r.None? <==> forall j :: 0 <= j < |filters| ==> filters[j].field != field
    ensures r.Some? ==> r.value < |filters| && filters[r.value].field == field
    ensures r.Some? ==> forall j :: 0 <= j < r.value ==> filters[j].field != field
  {
    if |filters| == 0 then None
    else if filters[0].field == field then Some(0)
    else match FindField(filters[1..], field)
      case None => None
      case Some(i) => Some(i + 1)
  }

  /** Some pattern of `patterns` matches `value`. */
  function AnyMatch(search: Search, patterns: seq<Pattern>, value: string): (r: bool)
    ensures r <==> exists k :: 0 <= k < |patterns| && search(patterns[k], value)
  {
    if |patterns| == 0 then false
    else search(patterns[0], value) || AnyMatch(search, patterns[1..], value)
  }

  /**
   * `matches_regexes(member, field, key)`: false when `field` is not configured
   * or its rule has no `key` list; otherwise whether some pattern of that list
   * matches the member's value for `field`.
   */
  function MatchesRegexes(search: Search, filters: Filters, member: Member, field: string, key: Key): (r: bool)
    ensures FindField(filters, field).None? ==> !r
    ensures FindField(filters, field).Some? && filters[FindField(filters, field).value].Patterns(key).None? ==> !r
    ensures r <==>
      match FindField(filters, field)
      case None => false
      case Some(i) =>
        match filters[i].Patterns(key)
        case None => false
        case Some(ps) => exists k :: 0 <= k < |ps| && search(ps[k], FieldValue(member, field))
  {
    match FindField(filters, field)
    case None => false
    case Some(i) =>
      match filters[i].Patterns(key)
      case None => false
      case Some(ps) => AnyMatch(search, ps, FieldValue(member, field))
  }

  /** What the `i`-th configured field says about a member: does its `reject` list match, does its `allow` list match. */
  datatype FieldHit = FieldHit(rejected: bool, allowedBack: bool)

  function Hit(search: Search, filters: Filters, member: Member, i: nat): FieldHit
    requires i < |filters|
  {
    FieldHit(MatchesRegexes(search, filters, member, filters[i].field, Reject),
             MatchesRegexes(search, filters, member, filters[i].field, Allow))
  }

  function Hits(search: Search, filters: Filters, member: Member): (r: seq<FieldHit>)
    ensures |r| == |filters|
    ensures forall i :: 0 <= i < |filters| ==> r[i] == Hit(search, filters, member, i)
  {
    seq(|filters|, i requires 0 <= i < |filters| => Hit(search, filters, member, i))
  }

  /**
   * The flag of `allow_user` after the first `k` fields, whose hits are
   * `hits`: it starts True, a rejecting field sets it to its `allow` result,
   * any other field leaves it alone.
   */
  function Fold(hits: seq<FieldHit>, k: nat): bool
    requires k <= |hits|
  {
    if k == 0 then true
    else if hits[k - 1].rejected then hits[k - 1].allowedBack
    else Fold(hits, k - 1)
  }

  /** The verdict of `allow_user` once every configured field has been examined. */
  function Verdict(search: Search, filters: Filters, member: Member): bool
  {
    Fold(Hits(search, filters, member), |filters|)
  }

  /**
   * `allow_user`: starts from True; a field whose `reject` list matches sets
   * the flag to False, and only then is its `allow` list consulted, whose
   * match sets the flag back to True.
   */
  method AllowUser(search: Search, filters: Filters, member: Member) returns (allowed: bool)
    ensures allowed == Verdict(search, filters, member)
    ensures filters == [] ==> allowed
  {
    ghost var hits := Hits(search, filters, member);
    allowed := true;
    for k := 0 to |filters|
      invariant allowed == Fold(hits, k)
    {
      var field := filters[k].field;
      FieldStep(hits, k);
      var rejected := MatchesRegexes(search, filters, member, field, Reject);
      assert rejected == hits[k].rejected;
      if rejected {
        allowed := false;
        var allowedBack := MatchesRegexes(search, filters, member, field, Allow);
        assert allowedBack == hits[k].allowedBack;
        if allowedBack {
          allowed := true;
        }
      }
    }
  }

  /** What one more field does to the running verdict. */
  lemma FieldStep(hits: seq<FieldHit>, k: nat)
    requires k < |hits|
    ensures !hits[k].rejected ==> Fold(hits, k + 1) == Fold(hits, k)
    ensures hits[k].rejected && hits[k].allowedBack ==> Fold(hits, k + 1)
    ensures hits[k].rejected && !hits[k].allowedBack ==> !Fold(hits, k + 1)
  {
  }

  /**
   * The flag after `k` fields holds exactly when none of them rejects the
   * member, or the last one that rejects it also allows it back: there is no
   * permanent allow, a later field can reject again.
   */
  lemma {:induction false} FoldIsLastRejection(hits: seq<FieldHit>, k: nat)
    requires k <= |hits|
    ensures Fold(hits, k) <==>
      (forall i :: 0 <= i < k ==> !hits[i].rejected) ||
      (exists i :: 0 <= i < k && hits[i].rejected && hits[i].allowedBack &&
         forall j :: i < j < k ==> !hits[j].rejected)
  {
    if k > 0 {
      FoldIsLastRejection(hits, k - 1);
      if !hits[k - 1].rejected && Fold(hits, k) && !forall i :: 0 <= i < k - 1 ==> !hits[i].rejected {
        var i :| 0 <= i < k - 1 && hits[i].rejected && hits[i].allowedBack &&
          forall j :: i < j < k - 1 ==> !hits[j].rejected;
        assert forall j :: i < j < k ==> !hits[j].rejected;
      }
    }
  }

  /**
   * The final verdict of `allow_user`, in terms of the configured fields:
   * allowed exactly when no field's `reject` list matches, or the last field
   * whose `reject` list matches also has a matching `allow` list.
   */
  lemma VerdictIsLastRejection(search: Search, filters: Filters, member: Member)
    ensures Verdict(search, filters, member) <==>
      (forall i :: 0 <= i < |filters| ==> !Hit(search, filters, member, i).rejected) ||
      (exists i :: 0 <= i < |filters| && Hit(search, filters, member, i).rejected &&
         Hit(search, filters, member, i).allowedBack &&
         forall j :: i < j < |filters| ==> !Hit(search, filters, member, j).rejected)
  {
    FoldIsLastRejection(Hits(search, filters, member), |filters|);
  }

  /** With distinct field names, the rule examined for the `i`-th field is that field's own rule. */
  lemma OwnRule(search: Search, filters: Filters, member: Member, i: nat, key: Key)
    requires DistinctFields(filters) && i < |filters|
    ensures FindField(filters, filters[i].field) == Some(i)
    ensures MatchesRegexes(search, filters, member, filters[i].field, key) <==>
      filters[i].Patterns(key).Some? &&
      exists k :: 0 <= k < |filters[i].Patterns(key).value| &&
        search(filters[i].Patterns(key).value[k], FieldValue(member, filters[i].field))
  {
  }

  /**
   * A field whose `reject` list does not match never consults its `allow`
   * list: replacing that list by any other leaves the verdict unchanged.
   */
  lemma AllowIgnoredWithoutRejection(search: Search, filters: Filters, member: Member, i: nat,
                                     newAllow: Option<seq<Pattern>>)
    requires DistinctFields(filters) && i < |filters|
    requires !Hit(search, filters, member, i).rejected
    ensures Verdict(search, filters[i := filters[i].(allow := newAllow)], member)
         == Verdict(search, filters, member)
  {
    var changed := filters[i := filters[i].(allow := newAllow)];
    assert DistinctFields(changed) by {
      assert forall j :: 0 <= j < |filters| ==> changed[j].field == filters[j].field;
    }
    var before, after := Hits(search, filters, member), Hits(search, changed, member);
    forall j | 0 <= j < |filters|
      ensures after[j] == before[j] || (j == i && !after[j].rejected && !before[j].rejected)
    {
      OwnRule(search, filters, member, j, Reject);
      OwnRule(search, changed, member, j, Reject);
      OwnRule(search, filters, member, j, Allow);
      OwnRule(search, changed, member, j, Allow);
    }
    FoldIgnoresUnrejectedAllow(before, after, |filters|);
  }

  /** Two hit sequences that differ only in the `allow` result of fields that do not reject fold alike. */
  lemma {:induction false} FoldIgnoresUnrejectedAllow(a: seq<FieldHit>, b: seq<FieldHit>, k: nat)
    requires k <= |a| == |b|
    requires forall j :: 0 <= j < |a| ==> a[j] == b[j] || (!a[j].rejected && !b[j].rejected)
    ensures Fold(a, k) == Fold(b, k)
  {
    if k > 0 {
      FoldIgnoresUnrejectedAllow(a, b, k - 1);
    }
  }

  /** The filter of the worked example: reject logins starting with "w", allow back those ending in "s". */
  function ExampleFilters(): Filters
  {
    [FieldRule("login", Some(["^w.*"]), Some(["s$"]))]
  }

  /** "wes" matches both lists and is allowed. */
  lemma WesAllowed(search: Search, profile: string -> string)
    requires search("^w.*", "wes") && search("s$", "wes")
    ensures Verdict(search, ExampleFilters(), Member("wes", profile))
  {
    assert FindField(ExampleFilters(), "login") == Some(0);
  }

  /** "wanda" matches only the reject list and is refused. */
  lemma WandaRejected(search: Search, profile: string -> string)
    requires search("^w.*", "wanda") && !search("s$", "wanda")
    ensures !Verdict(search, ExampleFilters(), Member("wanda", profile))
  {
    assert FindField(ExampleFilters(), "login") == Some(0);
  }

  /** "jess" is not rejected, so it is allowed whatever the allow list says. */
  lemma JessAllowed(search: Search, profile: string -> string)
    requires !search("^w.*", "jess")
    ensures Verdict(search, ExampleFilters(), Member("jess", profile))
  {
    assert FindField(ExampleFilters(), "login") == Some(0);
  }
}
