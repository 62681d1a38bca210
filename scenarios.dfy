/** Three concrete situations, checked against the model. */
module Scenarios {
  import opened Collections
  import opened Strings
  import opened MainScreen

  const A := AppInfo("com.app.a", 0)
  const B := AppInfo("com.app.b", 0)
  const C := AppInfo("com.app.c", 0)

  /** With `com.app.a` archived, Home shows b and c and Archive shows a. */
  lemma HomeAndArchiveScenario(usage: map<string, int>)
    ensures AppsToDisplay(Home, [A, B, C], usage, {"com.app.a"}) == [B, C]
    ensures AppsToDisplay(Archive, [A, B, C], usage, {"com.app.a"}) == [A]
  {
    var archived: set<string> := {"com.app.a"};
    assert [A, B, C][1..] == [B, C];
    SubsequenceReflexive([B, C]);
    var notArchived := (a: AppInfo) => a.packageName !in archived;
    FilterUnique(HomeApps([A, B, C], archived), [A, B, C], notArchived);
    FilterUnique([B, C], [A, B, C], notArchived);
    var isArchived := (a: AppInfo) => a.packageName in archived;
    FilterUnique(ArchiveApps([A, B, C], archived), [A, B, C], isArchived);
    FilterUnique([A], [A, B, C], isArchived);
  }

  /** The usage data of the Recent scenario: a last used at 100, b at 200, c never. */
  const ScenarioUsage := map["com.app.a" := 100, "com.app.b" := 200]

  lemma UsedFilterScenario()
    ensures Filter([A, B, C], (a: AppInfo) => a.packageName in ScenarioUsage) == [A, B]
  {
    var s := [A, B, C];
    var used := (a: AppInfo) => a.packageName in ScenarioUsage;
    assert s[1..] == [B, C] && [B, C][1..] == [C];
    assert IsSubsequence([A, B], s);
    FilterUnique([A, B], s, used);
  }

  /** The Recent candidates of the scenario are a and b, in source order. */
  lemma RecentScenarioCandidates()
    ensures RecentCandidates([A, B, C], ScenarioUsage, {}) == [A, B]
  {
    var s := [A, B, C];
    var used := (a: AppInfo) => a.packageName in ScenarioUsage;
    FilterUnique(RecentCandidates(s, ScenarioUsage, {}), s, used);
    UsedFilterScenario();
  }

  /** b then a is newest first, and has the time classes of a then b. */
  lemma ScenarioOrder()
    ensures NewestFirst([B, A], ScenarioUsage)
    ensures forall t :: UsedAt([A, B], ScenarioUsage, t) == UsedAt([B, A], ScenarioUsage, t)
  {
    assert [A, B][1..] == [B] && [B, A][1..] == [A];
  }

  /** Usage a:100, b:200 and nothing archived: Recent shows b then a, and c (unused) not at all. */
  lemma RecentScenario()
    ensures AppsToDisplay(Recent, [A, B, C], ScenarioUsage, {}) == [B, A]
  {
    RecentScenarioCandidates();
    ScenarioOrder();
    NewestFirstUnique(RecentApps([A, B, C], ScenarioUsage, {}), [B, A], ScenarioUsage);
  }

  /** Searching for `com.app.b` among a and b keeps b alone. */
  lemma SearchScenario()
    ensures FilteredApps([A, B], "com.app.b") == [B]
  {
    var q := "com.app.b";
    forall i
      ensures !OccursAt(A.packageName, q, i)
    {
      if 0 <= i && i + |q| <= |A.packageName| {
        assert A.packageName[i..i + |q|][8] != q[8];
      }
    }
    assert OccursAt(B.packageName, q, 0);
    assert [A, B][1..] == [B];
    SubsequenceReflexive([B]);
    var matches := (a: AppInfo) => IsSubstring(q, a.packageName);
    FilterUnique(FilteredApps([A, B], q), [A, B], matches);
    FilterUnique([B], [A, B], matches);
  }
}
