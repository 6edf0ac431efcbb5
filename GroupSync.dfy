/**
 * Group reconciliation: the `diff` helper (library.js:361-363) and `syncUserGroups`
 * (library.js:394-469). The mapping rules (the output of getAllGroupMappings) and
 * the user's groups are inputs; the join and leave lists are the result. The
 * fire-and-forget Groups.join / Groups.leave calls are represented by the group
 * names the lists resolve to.
 */
module GroupSync {
  import opened Profile
  import opened Registry

  /** A group of the user as Groups.getUserGroupsFromSet returns it. */
  datatype Group = Group(name: string, slug: string)

  /** The join and leave lists, as group slugs. */
  datatype Plan = Plan(join: seq<string>, leave: seq<string>)

  const ADMINISTRATORS := "administrators"
  const REGISTERED_USERS := "registered-users"

  /** x is y with some elements left out, the others in their order. */
  predicate Subsequence(x: seq<string>, y: seq<string>) {
    if y == [] then x == []
    else (x != [] && x[0] == y[0] && Subsequence(x[1..], y[1..])) || Subsequence(x, y[1..])
  }

  /** `a.diff(b)`: the elements of a not in b, in order, duplicates kept. */
  function Diff(a: seq<string>, b: seq<string>): (r: seq<string>)
    ensures forall x :: x in r <==> x in a && x !in b
    ensures |r| <= |a|
    ensures Subsequence(r, a)
  {
    if a == [] then []
    else if a[0] in b then Diff(a[1..], b)
    else
      var r := [a[0]] + Diff(a[1..], b);
      assert r[1..] == Diff(a[1..], b);
      r
  }

  /** Diff is a filter: each element keeps its multiplicity or disappears. */
  lemma {:induction false} DiffCounts(a: seq<string>, b: seq<string>, x: string)
    ensures multiset(Diff(a, b))[x] == if x in b then 0 else multiset(a)[x]
  {
    if a != [] {
      DiffCounts(a[1..], b, x);
      assert a == [a[0]] + a[1..];
    }
  }

  /** Diff distributes over concatenation of its first argument. */
  lemma {:induction false} DiffAppend(a: seq<string>, c: seq<string>, b: seq<string>)
    ensures Diff(a + c, b) == Diff(a, b) + Diff(c, b)
  {
    if a == [] {
      assert a + c == c;
    } else {
      assert (a + c)[1..] == a[1..] + c;
      DiffAppend(a[1..], c, b);
    }
  }

  lemma DiffEmpty(a: seq<string>, b: seq<string>)
    requires forall x :: x in a ==> x in b
    ensures Diff(a, b) == []
  {
    if Diff(a, b) != [] {
      assert Diff(a, b)[0] in Diff(a, b);
    }
  }

  /** `indexOf(x)` for an x that occurs: the position of its first occurrence. */
  function IndexOf(s: seq<string>, x: string): (i: nat)
    requires x in s
    ensures i < |s| && s[i] == x && x !in s[..i]
  {
    if s[0] == x then 0
    else
      var i := IndexOf(s[1..], x) + 1;
      assert s[..i] == [s[0]] + s[1..][..i - 1];
      i
  }

  /** `splice(indexOf(x), 1)` when `indexOf(x) > -1`: the first occurrence of x removed. */
  function RemoveFirst(s: seq<string>, x: string): (r: seq<string>)
    ensures multiset(r) == multiset(s) - multiset{x}
    ensures x !in s ==> r == s
    ensures x in s ==> |r| == |s| - 1
    ensures x in s ==> exists i :: 0 <= i < |s| && s[i] == x && x !in s[..i] && r == s[..i] + s[i + 1..]
  {
    if x in s then
      var i := IndexOf(s, x);
      assert s == s[..i] + [s[i]] + s[i + 1..];
      s[..i] + s[i + 1..]
    else s
  }

  lemma {:induction false} SubsequenceOfItself(s: seq<string>)
    ensures Subsequence(s, s)
  {
    if s != [] {
      SubsequenceOfItself(s[1..]);
    }
  }

  /** Cutting out one element keeps the others in their order. */
  lemma {:induction false} SpliceKeepsOrder(s: seq<string>, i: nat)
    requires i < |s|
    ensures Subsequence(s[..i] + s[i + 1..], s)
  {
    var r := s[..i] + s[i + 1..];
    if i == 0 {
      assert r == s[1..];
      SubsequenceOfItself(s[1..]);
    } else {
      SpliceKeepsOrder(s[1..], i - 1);
      assert r[0] == s[0];
      assert r[1..] == s[1..][..i - 1] + s[1..][i..];
    }
  }

  /** The splice keeps the remaining slugs in their order. */
  lemma RemoveFirstKeepsOrder(s: seq<string>, x: string)
    ensures Subsequence(RemoveFirst(s, x), s)
  {
    if x in s {
      SpliceKeepsOrder(s, IndexOf(s, x));
    } else {
      SubsequenceOfItself(s);
    }
  }

  /** The slugs of the rules that match one title, in rule order (library.js:409-413). */
  function TitleMatches(corporationName: string, title: Title, rules: seq<Rule>): seq<string> {
    if rules == [] then []
    else
      var r := rules[|rules| - 1];
      TitleMatches(corporationName, title, rules[..|rules| - 1])
        + (if r.corporationName == corporationName && r.title == title.name then [r.groupSlug] else [])
  }

  /** The slugs matched title by title (library.js:408-414). */
  function TitledSlugs(corporationName: string, titles: seq<Title>, rules: seq<Rule>): seq<string> {
    if titles == [] then []
    else TitledSlugs(corporationName, titles[..|titles| - 1], rules)
           + TitleMatches(corporationName, titles[|titles| - 1], rules)
  }

  /** The slugs of the corporation-wide rules, title '' (library.js:417-421). */
  function WildcardSlugs(corporationName: string, rules: seq<Rule>): seq<string> {
    if rules == [] then []
    else
      var r := rules[|rules| - 1];
      WildcardSlugs(corporationName, rules[..|rules| - 1])
        + (if r.corporationName == corporationName && r.title == "" then [r.groupSlug] else [])
  }

  /** mappedGroupSlugs: title matches first, then the corporation-wide ones. */
  function MappedSlugs(corporationName: string, titles: seq<Title>, rules: seq<Rule>): seq<string> {
    TitledSlugs(corporationName, titles, rules) + WildcardSlugs(corporationName, rules)
  }

  /** A group the engine manages: not a privilege group and not 'registered-users'. */
  predicate Managed(g: Group, privileged: set<string>) {
    g.name !in privileged && g.name != REGISTERED_USERS
  }

  /** currentGroupSlugs (library.js:424-428). */
  function CurrentSlugs(groups: seq<Group>, privileged: set<string>): seq<string> {
    if groups == [] then []
    else
      var g := groups[|groups| - 1];
      CurrentSlugs(groups[..|groups| - 1], privileged) + (if Managed(g, privileged) then [g.slug] else [])
  }

  /** The join and leave lists for given mapped and current slugs (library.js:431-438). */
  function PlanFor(mapped: seq<string>, current: seq<string>): Plan {
    Plan(Diff(mapped, current), RemoveFirst(Diff(current, mapped), ADMINISTRATORS))
  }

  function Reconcile(
    corporationName: string, titles: seq<Title>, rules: seq<Rule>,
    groups: seq<Group>, privileged: set<string>): Plan
  {
    PlanFor(MappedSlugs(corporationName, titles, rules), CurrentSlugs(groups, privileged))
  }

  /** The group names the slugs resolve to; a slug with no (or an empty) name is skipped. */
  function Resolved(slugs: seq<string>, names: map<string, string>): (r: seq<string>)
    ensures forall s :: s in slugs && s in names && names[s] != "" ==> names[s] in r
    ensures forall n :: n in r ==> exists s :: s in slugs && s in names && names[s] == n && n != ""
  {
    if slugs == [] then []
    else
      var s := slugs[|slugs| - 1];
      Resolved(slugs[..|slugs| - 1], names) + (if s in names && names[s] != "" then [names[s]] else [])
  }

  // ---------------------------------------------------------------------------
  // What the mapped and current lists contain
  // ---------------------------------------------------------------------------

  /** The rule a title selects. */
  predicate MatchesTitle(r: Rule, corporationName: string, titles: seq<Title>) {
    r.corporationName == corporationName && exists t :: t in titles && t.name == r.title
  }

  lemma {:induction false} TitleMatchesMembers(corporationName: string, title: Title, rules: seq<Rule>, x: string)
    ensures x in TitleMatches(corporationName, title, rules) <==>
      exists r :: r in rules && r.corporationName == corporationName && r.title == title.name && r.groupSlug == x
  {
    if rules != [] {
      var init := rules[..|rules| - 1];
      TitleMatchesMembers(corporationName, title, init, x);
      assert rules == init + [rules[|rules| - 1]];
    }
  }

  lemma {:induction false} TitledSlugsMembers(corporationName: string, titles: seq<Title>, rules: seq<Rule>, x: string)
    ensures x in TitledSlugs(corporationName, titles, rules) <==>
      exists r :: r in rules && MatchesTitle(r, corporationName, titles) && r.groupSlug == x
  {
    if titles != [] {
      var init, last := titles[..|titles| - 1], titles[|titles| - 1];
      TitledSlugsMembers(corporationName, init, rules, x);
      TitleMatchesMembers(corporationName, last, rules, x);
      assert titles == init + [last];
      forall r | r in rules && MatchesTitle(r, corporationName, titles) && r.groupSlug == x
        ensures MatchesTitle(r, corporationName, init) || r.title == last.name
      {
        var t :| t in titles && t.name == r.title;
        if t != last {
          assert t in init;
        }
      }
    }
  }

  lemma {:induction false} WildcardSlugsMembers(corporationName: string, rules: seq<Rule>, x: string)
    ensures x in WildcardSlugs(corporationName, rules) <==>
      exists r :: r in rules && r.corporationName == corporationName && r.title == "" && r.groupSlug == x
  {
    if rules != [] {
      var init := rules[..|rules| - 1];
      WildcardSlugsMembers(corporationName, init, x);
      assert rules == init + [rules[|rules| - 1]];
    }
  }

  /**
   * A slug is mapped exactly when some rule of the user's corporation names it and
   * either has title '' or a title the character holds.
   */
  lemma MappedSlugsMembers(corporationName: string, titles: seq<Title>, rules: seq<Rule>, x: string)
    ensures x in MappedSlugs(corporationName, titles, rules) <==>
      exists r :: r in rules && r.groupSlug == x && r.corporationName == corporationName
        && (r.title == "" || MatchesTitle(r, corporationName, titles))
  {
    TitledSlugsMembers(corporationName, titles, rules, x);
    WildcardSlugsMembers(corporationName, rules, x);
  }

  /** A slug is current exactly when some managed group of the user has it. */
  lemma {:induction false} CurrentSlugsMembers(groups: seq<Group>, privileged: set<string>, x: string)
    ensures x in CurrentSlugs(groups, privileged) <==>
      exists g :: g in groups && Managed(g, privileged) && g.slug == x
  {
    if groups != [] {
      var init := groups[..|groups| - 1];
      CurrentSlugsMembers(init, privileged, x);
      assert groups == init + [groups[|groups| - 1]];
    }
  }

  /** Distinct slugs among the user's groups give distinct current slugs. */
  lemma {:induction false} CurrentSlugsOnce(groups: seq<Group>, privileged: set<string>, x: string)
    requires forall i, j :: 0 <= i < j < |groups| ==> groups[i].slug != groups[j].slug
    ensures multiset(CurrentSlugs(groups, privileged))[x] <= 1
  {
    if groups != [] {
      var init, g := groups[..|groups| - 1], groups[|groups| - 1];
      CurrentSlugsOnce(init, privileged, x);
      if Managed(g, privileged) && g.slug == x {
        CurrentSlugsMembers(init, privileged, x);
        assert x !in CurrentSlugs(init, privileged);
      }
    }
  }

  // ---------------------------------------------------------------------------
  // Properties of the join and leave lists
  // ---------------------------------------------------------------------------

  /**
   * A slug is joined exactly when it is mapped and not current; it is left exactly
   * when it is current, not mapped, and it is not the one 'administrators' entry
   * that is spliced out. So no slug is both joined and left.
   */
  lemma PlanMembers(mapped: seq<string>, current: seq<string>, x: string)
    ensures var p := PlanFor(mapped, current);
      && (x in p.join <==> x in mapped && x !in current)
      && (x in p.leave ==> x in current && x !in mapped)
      && (x in current && x !in mapped && x != ADMINISTRATORS ==> x in p.leave)
      && !(x in p.join && x in p.leave)
  {
    var d := Diff(current, mapped);
    var l := RemoveFirst(d, ADMINISTRATORS);
    if x in l {
      assert multiset(l)[x] > 0;
      assert multiset(d)[x] > 0;
    }
    if x in d && x != ADMINISTRATORS {
      assert multiset(l)[x] == multiset(d)[x] > 0;
    }
  }

  /** While 'administrators' appears at most once among the current slugs, it is never left. */
  lemma AdministratorsNeverLeft(mapped: seq<string>, current: seq<string>)
    requires multiset(current)[ADMINISTRATORS] <= 1
    ensures ADMINISTRATORS !in PlanFor(mapped, current).leave
  {
    var d := Diff(current, mapped);
    DiffCounts(current, mapped, ADMINISTRATORS);
    assert multiset(d)[ADMINISTRATORS] <= 1;
    assert multiset(RemoveFirst(d, ADMINISTRATORS))[ADMINISTRATORS] == 0;
  }

  /** The same for a whole sync: a user's groups have distinct slugs. */
  lemma SyncNeverLeavesAdministrators(
    corporationName: string, titles: seq<Title>, rules: seq<Rule>,
    groups: seq<Group>, privileged: set<string>)
    requires forall i, j :: 0 <= i < j < |groups| ==> groups[i].slug != groups[j].slug
    ensures ADMINISTRATORS !in Reconcile(corporationName, titles, rules, groups, privileged).leave
  {
    CurrentSlugsOnce(groups, privileged, ADMINISTRATORS);
    AdministratorsNeverLeft(MappedSlugs(corporationName, titles, rules), CurrentSlugs(groups, privileged));
  }

  /** The current slugs once every leave and join of a plan has taken effect. */
  function Applied(current: seq<string>, p: Plan): seq<string> {
    Diff(current, p.leave) + p.join
  }

  /** After the plan took effect every mapped slug is current. */
  lemma AppliedCoversMapped(mapped: seq<string>, current: seq<string>)
    ensures Diff(mapped, Applied(current, PlanFor(mapped, current))) == []
  {
    var p := PlanFor(mapped, current);
    var c2 := Applied(current, p);
    forall x | x in mapped
      ensures x in c2
    {
      PlanMembers(mapped, current, x);
    }
    DiffEmpty(mapped, c2);
  }

  /** After the plan took effect at most the one 'administrators' entry is unmapped. */
  lemma AppliedUnmapped(mapped: seq<string>, current: seq<string>)
    requires multiset(current)[ADMINISTRATORS] <= 1
    ensures var d := Diff(Applied(current, PlanFor(mapped, current)), mapped);
      (forall x :: x in d ==> x == ADMINISTRATORS) && multiset(d)[ADMINISTRATORS] <= 1
  {
    var p := PlanFor(mapped, current);
    var kept := Diff(current, p.leave);
    DiffAppend(kept, p.join, mapped);
    DiffEmpty(p.join, mapped);
    assert Diff(Applied(current, p), mapped) == Diff(kept, mapped) + [];
    forall x | x in Diff(kept, mapped)
      ensures x == ADMINISTRATORS
    {
      PlanMembers(mapped, current, x);
    }
    DiffCounts(kept, mapped, ADMINISTRATORS);
    DiffCounts(current, p.leave, ADMINISTRATORS);
  }

  lemma {:induction false} AllEqualCount(d: seq<string>, x: string)
    requires forall y :: y in d ==> y == x
    ensures multiset(d)[x] == |d|
  {
    if d != [] {
      assert d[0] in d;
      assert d == [d[0]] + d[1..];
      forall y | y in d[1..]
        ensures y == x
      {
        assert y in d;
      }
      AllEqualCount(d[1..], x);
    }
  }

  /** A list holding 'administrators' at most once and nothing else is emptied by the splice. */
  lemma SpliceOnlyAdministrators(d: seq<string>)
    requires forall x :: x in d ==> x == ADMINISTRATORS
    requires multiset(d)[ADMINISTRATORS] <= 1
    ensures RemoveFirst(d, ADMINISTRATORS) == []
  {
    AllEqualCount(d, ADMINISTRATORS);
    if |d| == 1 {
      assert d[0] in d;
    }
  }

  /** Reconciling again after the plan took effect asks for nothing more. */
  lemma ReconcileIdempotent(mapped: seq<string>, current: seq<string>)
    requires multiset(current)[ADMINISTRATORS] <= 1
    ensures var again := PlanFor(mapped, Applied(current, PlanFor(mapped, current)));
      again.join == [] && again.leave == []
  {
    var c2 := Applied(current, PlanFor(mapped, current));
    AppliedCoversMapped(mapped, current);
    AppliedUnmapped(mapped, current);
    SpliceOnlyAdministrators(Diff(c2, mapped));
  }

  /** Officer of Acme Corp already in 'members' joins 'officers' and leaves nothing. */
  lemma ScenarioOfficerJoins()
    ensures Reconcile("Acme Corp", [Title("Officer")],
                      [Rule(1, "Acme Corp", "Officer", "officers"), Rule(2, "Acme Corp", "", "members")],
                      [Group("Members", "members")], {})
      == Plan(["officers"], [])
  {
    var rules := [Rule(1, "Acme Corp", "Officer", "officers"), Rule(2, "Acme Corp", "", "members")];
    var titles := [Title("Officer")];
    assert rules[..1] == [rules[0]];
    assert TitleMatches("Acme Corp", titles[0], rules[..1]) == ["officers"];
    assert TitleMatches("Acme Corp", titles[0], rules) == ["officers"];
    assert titles[..0] == [];
    assert TitledSlugs("Acme Corp", titles, rules) == ["officers"];
    assert WildcardSlugs("Acme Corp", rules[..1]) == [];
    assert WildcardSlugs("Acme Corp", rules) == ["members"];
    var groups := [Group("Members", "members")];
    assert groups[..0] == [];
    assert CurrentSlugs(groups, {}) == ["members"];
    var mapped := ["officers", "members"];
    assert MappedSlugs("Acme Corp", titles, rules) == mapped;
    assert Diff(mapped, ["members"]) == ["officers"];
    assert Diff(["members"], mapped) == [];
  }

  /** A member without titles keeps 'members' and leaves the unmapped 'guests'. */
  lemma ScenarioGuestsLeft()
    ensures Reconcile("Acme Corp", [],
                      [Rule(1, "Acme Corp", "", "members")],
                      [Group("Members", "members"), Group("Guests", "guests")], {})
      == Plan([], ["guests"])
  {
    var rules := [Rule(1, "Acme Corp", "", "members")];
    var groups := [Group("Members", "members"), Group("Guests", "guests")];
    assert rules[..0] == [];
    assert WildcardSlugs("Acme Corp", rules) == ["members"];
    assert MappedSlugs("Acme Corp", [], rules) == ["members"];
    assert groups[..1] == [groups[0]];
    assert groups[..1][..0] == [];
    assert CurrentSlugs(groups[..1], {}) == ["members"];
    assert CurrentSlugs(groups, {}) == ["members", "guests"];
    assert Diff(["members"], ["members", "guests"]) == [];
    assert Diff(["members", "guests"], ["members"]) == ["guests"];
  }

  // ---------------------------------------------------------------------------
  // syncUserGroups, loop by loop
  // ---------------------------------------------------------------------------

  /**
   * Builds mappedGroupSlugs and currentGroupSlugs with the source's nested loops,
   * diffs them, splices out 'administrators', and resolves the slugs to the group
   * names that Groups.leave and Groups.join are called with.
   */
  method SyncUserGroups(
    corporationName: string, titles: seq<Title>, rules: seq<Rule>,
    userGroups: seq<Group>, privileged: set<string>, names: map<string, string>)
    returns (plan: Plan, leaveNames: seq<string>, joinNames: seq<string>)
    ensures plan == Reconcile(corporationName, titles, rules, userGroups, privileged)
    ensures forall x :: x in plan.join ==> x !in plan.leave
    ensures leaveNames == Resolved(plan.leave, names) && joinNames == Resolved(plan.join, names)
  {
    var mapped: seq<string> := [];
    for i := 0 to |titles|
      invariant mapped == TitledSlugs(corporationName, titles[..i], rules)
    {
      assert titles[..i + 1][..i] == titles[..i];
      for j := 0 to |rules|
        invariant mapped == TitledSlugs(corporationName, titles[..i], rules)
                            + TitleMatches(corporationName, titles[i], rules[..j])
      {
        assert rules[..j + 1][..j] == rules[..j];
        var r := rules[j];
        if r.corporationName == corporationName && r.title == titles[i].name {
          mapped := mapped + [r.groupSlug];
        }
      }
      assert rules[..|rules|] == rules;
    }
    assert titles[..|titles|] == titles;
    ghost var titled := mapped;
    for j := 0 to |rules|
      invariant mapped == titled + WildcardSlugs(corporationName, rules[..j])
    {
      assert rules[..j + 1][..j] == rules[..j];
      var r := rules[j];
      if r.corporationName == corporationName && r.title == "" {
        mapped := mapped + [r.groupSlug];
      }
    }
    assert rules[..|rules|] == rules;

    var current: seq<string> := [];
    for k := 0 to |userGroups|
      invariant current == CurrentSlugs(userGroups[..k], privileged)
    {
      assert userGroups[..k + 1][..k] == userGroups[..k];
      var g := userGroups[k];
      if g.name !in privileged && g.name != REGISTERED_USERS {
        current := current + [g.slug];
      }
    }
    assert userGroups[..|userGroups|] == userGroups;

    var toLeave := Diff(current, mapped);
    var toJoin := Diff(mapped, current);
    toLeave := RemoveFirst(toLeave, ADMINISTRATORS);
    plan := Plan(toJoin, toLeave);
    forall x | x in plan.join
      ensures x !in plan.leave
    {
      PlanMembers(mapped, current, x);
    }
    leaveNames := Resolved(plan.leave, names);
    joinNames := Resolved(plan.join, names);
  }
}
