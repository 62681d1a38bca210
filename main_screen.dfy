/**
 * The display-list derivation of the main screen: which installed apps are
 * shown for the selected bottom tab, the search filter and its header
 * count, the highlighted package name of a list row, and which archive
 * store mutation the trailing icon of a row dispatches.
 *
 * The package manager, the usage-stats service and the preference store's
 * reactive stream are inputs here: the installed apps are a sequence, the
 * usage data a map from package name to last-used time, and the archive a
 * set of package names.
 */
module MainScreen {
  import opened Wrappers
  import opened Collections
  import opened Strings
  import opened ArchiveStore

  /** `ApplicationInfo.FLAG_SYSTEM`. */
  const FLAG_SYSTEM: bv32 := 1

  /** The two fields of `ApplicationInfo` the derivation reads. */
  datatype AppInfo = AppInfo(packageName: string, flags: bv32)

  /** The bottom navigation tabs, in the order of the bottom bar. */
  datatype BottomItem = Home | Recent | Archive

  /** Kotlin's `Int.compareTo`: -1, 0 or 1. */
  function CompareTo(a: int, b: int): (c: int)
    ensures c == -1 <==> a < b
    ensures c == 0 <==> a == b
    ensures c == 1 <==> a > b
  {
    if a < b then -1 else if a == b then 0 else 1
  }

  /**
   * `flags.and(FLAG_SYSTEM).compareTo(0) == 1`. The masked value is 0 or 1,
   * so reading the 32 bits as signed or unsigned makes no difference.
   */
  predicate IsSystemApp(app: AppInfo)
    ensures IsSystemApp(app) <==> app.flags & FLAG_SYSTEM != 0
  {
    CompareTo((app.flags & FLAG_SYSTEM) as int, 0) == 1
  }

  // ---------------------------------------------------------------------
  // Source list
  // ---------------------------------------------------------------------

  /** `nonSystemApps`: the installed apps whose system flag is clear, in their original order. */
  function NonSystemApps(allApps: seq<AppInfo>): (r: seq<AppInfo>)
    ensures forall a :: a in r <==> a in allApps && a.flags & FLAG_SYSTEM == 0
    ensures forall a :: multiset(r)[a] == if a.flags & FLAG_SYSTEM == 0 then multiset(allApps)[a] else 0
    ensures IsSubsequence(r, allApps)
  {
    FilterNot(allApps, IsSystemApp)
  }

  /** `sourceApps`: all installed apps, or only the non-system ones when that toggle is on. */
  function SourceApps(allApps: seq<AppInfo>, filterOnlyNonSystemApps: bool): (r: seq<AppInfo>)
    ensures forall a :: multiset(r)[a] ==
                        if filterOnlyNonSystemApps && IsSystemApp(a) then 0 else multiset(allApps)[a]
    ensures IsSubsequence(r, allApps)
  {
    SubsequenceReflexive(allApps);
    if filterOnlyNonSystemApps then NonSystemApps(allApps) else allApps
  }

  // ---------------------------------------------------------------------
  // Tabs
  // ---------------------------------------------------------------------

  /** Home tab: the source apps that are not archived, in source order. */
  function HomeApps(source: seq<AppInfo>, archived: set<string>): (r: seq<AppInfo>)
    ensures forall a :: a in r <==> a in source && a.packageName !in archived
    ensures forall a :: multiset(r)[a] == if a.packageName in archived then 0 else multiset(source)[a]
    ensures IsSubsequence(r, source)
  {
    FilterNot(source, (a: AppInfo) => a.packageName in archived)
  }

  /** Archive tab: the source apps that are archived, in source order. */
  function ArchiveApps(source: seq<AppInfo>, archived: set<string>): (r: seq<AppInfo>)
    ensures forall a :: a in r <==> a in source && a.packageName in archived
    ensures forall a :: multiset(r)[a] == if a.packageName in archived then multiset(source)[a] else 0
    ensures IsSubsequence(r, source)
  {
    Filter(source, (a: AppInfo) => a.packageName in archived)
  }

  /** Recent tab before sorting: the source apps with usage data that are not archived, in source order. */
  function RecentCandidates(source: seq<AppInfo>, usage: map<string, int>, archived: set<string>): (r: seq<AppInfo>)
    ensures forall a :: a in r <==> a in source && a.packageName in usage && a.packageName !in archived
    ensures forall a :: multiset(r)[a] ==
                        if a.packageName in usage && a.packageName !in archived then multiset(source)[a] else 0
    ensures IsSubsequence(r, source)
  {
    var used := Filter(source, (a: AppInfo) => a.packageName in usage);
    var r := FilterNot(used, (a: AppInfo) => a.packageName in archived);
    SubsequenceTransitive(r, used, source);
    r
  }

  // ---------------------------------------------------------------------
  // Recent ordering: `sortedBy { -lastTimeUsed }`, a stable sort
  // ---------------------------------------------------------------------

  /** Every app of `s` has usage data (what `usageStatsMap.getValue` needs). */
  ghost predicate AllUsed(s: seq<AppInfo>, usage: map<string, int>)
  {
    forall a :: a in s ==> a.packageName in usage
  }

  /** The apps of `s` are in non-increasing order of last-used time. */
  ghost predicate NewestFirst(s: seq<AppInfo>, usage: map<string, int>)
  {
    AllUsed(s, usage) &&
    forall i, j :: 0 <= i < j < |s| ==> usage[s[i].packageName] >= usage[s[j].packageName]
  }

  /** `app` has usage data and was last used at time `t`. */
  ghost predicate LastUsedAt(usage: map<string, int>, t: int, app: AppInfo)
  {
    app.packageName in usage && usage[app.packageName] == t
  }

  /** The apps of `s` last used at time `t`, in their order in `s`: the time class of `t`. */
  ghost function UsedAt(s: seq<AppInfo>, usage: map<string, int>, t: int): (r: seq<AppInfo>)
    decreases |s|
  {
    if s == [] then []
    else (if LastUsedAt(usage, t, s[0]) then [s[0]] else []) + UsedAt(s[1..], usage, t)
  }

  /** A time class is the filter of its sequence by last-used time. */
  lemma {:induction false} UsedAtIsFilter(s: seq<AppInfo>, usage: map<string, int>, t: int)
    ensures UsedAt(s, usage, t) == Filter(s, a => LastUsedAt(usage, t, a))
    decreases |s|
  {
    if s != [] {
      UsedAtIsFilter(s[1..], usage, t);
    }
  }

  /** One step of `UsedAt` on a sequence with a known head. */
  lemma UsedAtCons(x: AppInfo, s: seq<AppInfo>, usage: map<string, int>, t: int)
    ensures UsedAt([x] + s, usage, t) == (if LastUsedAt(usage, t, x) then [x] else []) + UsedAt(s, usage, t)
  {
    assert ([x] + s)[1..] == s;
  }

  /** The members of a time class. */
  lemma {:induction false} UsedAtMembers(s: seq<AppInfo>, usage: map<string, int>, t: int)
    ensures forall a :: a in UsedAt(s, usage, t) <==> a in s && LastUsedAt(usage, t, a)
  {
    UsedAtIsFilter(s, usage, t);
  }

  /**
   * Inserts `app` in front of the first app last used no later than it.
   * Placing it before apps with an equal time keeps the sort stable, since
   * `app` comes first in the input.
   */
  function InsertByLastUsed(app: AppInfo, s: seq<AppInfo>, usage: map<string, int>): (r: seq<AppInfo>)
    requires app.packageName in usage && AllUsed(s, usage)
    ensures multiset(r) == multiset(s) + multiset{app}
    ensures forall a :: a in r <==> a in s || a == app
    decreases |s|
  {
    if s == [] || usage[s[0].packageName] <= usage[app.packageName] then [app] + s
    else
      assert s == [s[0]] + s[1..];
      [s[0]] + InsertByLastUsed(app, s[1..], usage)
  }

  /** The Recent tab's order: newest first, ties in input order. */
  function SortedByLastUsed(s: seq<AppInfo>, usage: map<string, int>): (r: seq<AppInfo>)
    requires AllUsed(s, usage)
    ensures multiset(r) == multiset(s)
    ensures forall a :: a in r <==> a in s
    decreases |s|
  {
    if s == [] then []
    else
      var rest := SortedByLastUsed(s[1..], usage);
      assert s == [s[0]] + s[1..];
      InsertByLastUsed(s[0], rest, usage)
  }

  /** An app last used no earlier than every app of a newest-first sequence can go in front of it. */
  lemma ConsNewestFirst(h: AppInfo, s: seq<AppInfo>, usage: map<string, int>)
    requires h.packageName in usage && NewestFirst(s, usage)
    requires forall a :: a in s ==> usage[a.packageName] <= usage[h.packageName]
    ensures NewestFirst([h] + s, usage)
  {
    var r := [h] + s;
    forall i, j | 0 <= i < j < |r|
      ensures usage[r[i].packageName] >= usage[r[j].packageName]
    {
      assert r[j] == s[j - 1];
      if i > 0 {
        assert r[i] == s[i - 1];
      }
    }
  }

  lemma {:induction false} InsertNewestFirst(app: AppInfo, s: seq<AppInfo>, usage: map<string, int>)
    requires app.packageName in usage && NewestFirst(s, usage)
    ensures NewestFirst(InsertByLastUsed(app, s, usage), usage)
    decreases |s|
  {
    if s == [] || usage[s[0].packageName] <= usage[app.packageName] {
      forall a | a in s
        ensures usage[a.packageName] <= usage[app.packageName]
      {
        var k :| 0 <= k < |s| && s[k] == a;
        assert usage[s[0].packageName] >= usage[s[k].packageName];
      }
      ConsNewestFirst(app, s, usage);
    } else {
      var tail := InsertByLastUsed(app, s[1..], usage);
      InsertNewestFirst(app, s[1..], usage);
      forall a | a in tail
        ensures usage[a.packageName] <= usage[s[0].packageName]
      {
        assert a in multiset(s[1..]) + multiset{app};
        if a != app {
          var k :| 0 <= k < |s[1..]| && s[1..][k] == a;
          assert usage[s[0].packageName] >= usage[s[k + 1].packageName];
        }
      }
      ConsNewestFirst(s[0], tail, usage);
    }
  }

  lemma {:induction false} SortedNewestFirst(s: seq<AppInfo>, usage: map<string, int>)
    requires AllUsed(s, usage)
    ensures NewestFirst(SortedByLastUsed(s, usage), usage)
    decreases |s|
  {
    if s != [] {
      SortedNewestFirst(s[1..], usage);
      InsertNewestFirst(s[0], SortedByLastUsed(s[1..], usage), usage);
    }
  }

  /** When one of `hs` and `ha` is empty, prepending them to `rest` commutes. */
  lemma SwapDisjointHeads(hs: seq<AppInfo>, ha: seq<AppInfo>, rest: seq<AppInfo>)
    requires hs == [] || ha == []
    ensures hs + (ha + rest) == ha + (hs + rest)
  {
  }

  lemma {:induction false} InsertStable(app: AppInfo, s: seq<AppInfo>, usage: map<string, int>, t: int)
    requires app.packageName in usage && AllUsed(s, usage)
    ensures UsedAt(InsertByLastUsed(app, s, usage), usage, t) == UsedAt([app] + s, usage, t)
    decreases |s|
  {
    if s != [] && usage[s[0].packageName] > usage[app.packageName] {
      var ins := InsertByLastUsed(app, s[1..], usage);
      var hs := if LastUsedAt(usage, t, s[0]) then [s[0]] else [];
      var ha := if LastUsedAt(usage, t, app) then [app] else [];
      calc {
        UsedAt(InsertByLastUsed(app, s, usage), usage, t);
        UsedAt([s[0]] + ins, usage, t);
        { UsedAtCons(s[0], ins, usage, t); }
        hs + UsedAt(ins, usage, t);
        { InsertStable(app, s[1..], usage, t); }
        hs + UsedAt([app] + s[1..], usage, t);
        { UsedAtCons(app, s[1..], usage, t); }
        hs + (ha + UsedAt(s[1..], usage, t));
        { SwapDisjointHeads(hs, ha, UsedAt(s[1..], usage, t)); }
        ha + (hs + UsedAt(s[1..], usage, t));
        { UsedAtCons(s[0], s[1..], usage, t); assert [s[0]] + s[1..] == s; }
        ha + UsedAt(s, usage, t);
        { UsedAtCons(app, s, usage, t); }
        UsedAt([app] + s, usage, t);
      }
    }
  }

  lemma {:induction false} SortedStable(s: seq<AppInfo>, usage: map<string, int>, t: int)
    requires AllUsed(s, usage)
    ensures UsedAt(SortedByLastUsed(s, usage), usage, t) == UsedAt(s, usage, t)
    decreases |s|
  {
    if s != [] {
      var rest := SortedByLastUsed(s[1..], usage);
      var head := if LastUsedAt(usage, t, s[0]) then [s[0]] else [];
      calc {
        UsedAt(SortedByLastUsed(s, usage), usage, t);
        UsedAt(InsertByLastUsed(s[0], rest, usage), usage, t);
        { InsertStable(s[0], rest, usage, t); }
        UsedAt([s[0]] + rest, usage, t);
        { UsedAtCons(s[0], rest, usage, t); }
        head + UsedAt(rest, usage, t);
        { SortedStable(s[1..], usage, t); }
        head + UsedAt(s[1..], usage, t);
        { UsedAtCons(s[0], s[1..], usage, t); assert [s[0]] + s[1..] == s; }
        UsedAt(s, usage, t);
      }
    }
  }

  /** Splitting off the newest app: its time class starts with it, every other class ignores it. */
  lemma UsedAtHead(s: seq<AppInfo>, usage: map<string, int>)
    requires s != [] && AllUsed(s, usage)
    ensures UsedAt(s, usage, usage[s[0].packageName]) == [s[0]] + UsedAt(s[1..], usage, usage[s[0].packageName])
    ensures forall t :: t != usage[s[0].packageName] ==> UsedAt(s, usage, t) == UsedAt(s[1..], usage, t)
  {
  }

  /** The first app of a newest-first sequence was used no earlier than any of its apps. */
  lemma HeadIsNewest(s: seq<AppInfo>, usage: map<string, int>, x: AppInfo)
    requires NewestFirst(s, usage) && x in s
    ensures usage[x.packageName] <= usage[s[0].packageName]
  {
    var k :| 0 <= k < |s| && s[k] == x;
    if k > 0 {
      assert usage[s[0].packageName] >= usage[s[k].packageName];
    }
  }

  lemma NewestFirstTail(s: seq<AppInfo>, usage: map<string, int>)
    requires NewestFirst(s, usage) && s != []
    ensures NewestFirst(s[1..], usage)
  {
    forall i, j | 0 <= i < j < |s[1..]|
      ensures usage[s[1..][i].packageName] >= usage[s[1..][j].packageName]
    {
      assert s[1..][i] == s[i + 1] && s[1..][j] == s[j + 1];
    }
  }

  /** Two newest-first sequences with the same time classes start with the same time. */
  lemma SameNewestTime(a: seq<AppInfo>, b: seq<AppInfo>, usage: map<string, int>)
    requires NewestFirst(a, usage) && NewestFirst(b, usage) && a != [] && b != []
    requires forall t :: UsedAt(a, usage, t) == UsedAt(b, usage, t)
    ensures usage[a[0].packageName] == usage[b[0].packageName]
  {
    var ka, kb := usage[a[0].packageName], usage[b[0].packageName];
    UsedAtHead(a, usage);
    UsedAtHead(b, usage);
    assert kb <= ka by {
      assert b[0] in UsedAt(a, usage, kb);
      UsedAtMembers(a, usage, kb);
      HeadIsNewest(a, usage, b[0]);
    }
    assert ka <= kb by {
      assert a[0] in UsedAt(b, usage, ka);
      UsedAtMembers(b, usage, ka);
      HeadIsNewest(b, usage, a[0]);
    }
  }

  /** Two newest-first sequences with the same time classes have the same head and tails with the same time classes. */
  lemma SameHead(a: seq<AppInfo>, b: seq<AppInfo>, usage: map<string, int>)
    requires NewestFirst(a, usage) && NewestFirst(b, usage) && a != [] && b != []
    requires forall t :: UsedAt(a, usage, t) == UsedAt(b, usage, t)
    ensures a[0] == b[0]
    ensures forall t :: UsedAt(a[1..], usage, t) == UsedAt(b[1..], usage, t)
  {
    var k := usage[a[0].packageName];
    SameNewestTime(a, b, usage);
    assert UsedAt(a, usage, k)[0] == a[0];
    assert UsedAt(b, usage, k)[0] == b[0];
    forall t
      ensures UsedAt(a[1..], usage, t) == UsedAt(b[1..], usage, t)
    {
      var ua, ub := UsedAt(a[1..], usage, t), UsedAt(b[1..], usage, t);
      assert UsedAt(a, usage, t) == UsedAt(b, usage, t);
      if t == k {
        assert UsedAt(a, usage, t)[1..] == ua;
        assert UsedAt(b, usage, t)[1..] == ub;
      } else {
        assert UsedAt(a, usage, t) == ua;
        assert UsedAt(b, usage, t) == ub;
      }
    }
  }

  /**
   * Newest-first order together with the order inside each time class
   * determines a sequence: two such sequences with the same time classes
   * are equal.
   */
  lemma {:induction false} NewestFirstUnique(a: seq<AppInfo>, b: seq<AppInfo>, usage: map<string, int>)
    requires NewestFirst(a, usage) && NewestFirst(b, usage)
    requires forall t :: UsedAt(a, usage, t) == UsedAt(b, usage, t)
    ensures a == b
    decreases |a| + |b|
  {
    if a == [] && b == [] {
    } else if a == [] {
      UsedAtHead(b, usage);
      assert false;
    } else if b == [] {
      UsedAtHead(a, usage);
      assert false;
    } else {
      SameHead(a, b, usage);
      NewestFirstTail(a, usage);
      NewestFirstTail(b, usage);
      NewestFirstUnique(a[1..], b[1..], usage);
      assert a == [a[0]] + a[1..];
      assert b == [b[0]] + b[1..];
    }
  }

  /**
   * Any stable newest-first ordering of `s` (such as the one Kotlin's
   * `sortedBy` produces) is `SortedByLastUsed(s, usage)`.
   */
  lemma StableSortIsDetermined(r: seq<AppInfo>, s: seq<AppInfo>, usage: map<string, int>)
    requires AllUsed(s, usage)
    requires NewestFirst(r, usage)
    requires forall t :: UsedAt(r, usage, t) == UsedAt(s, usage, t)
    ensures r == SortedByLastUsed(s, usage)
  {
    SortedNewestFirst(s, usage);
    forall t
      ensures UsedAt(SortedByLastUsed(s, usage), usage, t) == UsedAt(r, usage, t)
    {
      SortedStable(s, usage, t);
    }
    NewestFirstUnique(r, SortedByLastUsed(s, usage), usage);
  }

  /**
   * Recent tab: the source apps with usage data that are not archived,
   * newest first, apps with the same last-used time in source order.
   */
  function RecentApps(source: seq<AppInfo>, usage: map<string, int>, archived: set<string>): (r: seq<AppInfo>)
    ensures forall a :: a in r <==> a in source && a.packageName in usage && a.packageName !in archived
    ensures multiset(r) == multiset(RecentCandidates(source, usage, archived))
    ensures NewestFirst(r, usage)
    ensures forall t :: UsedAt(r, usage, t) == UsedAt(RecentCandidates(source, usage, archived), usage, t)
  {
    var candidates := RecentCandidates(source, usage, archived);
    var r := SortedByLastUsed(candidates, usage);
    SortedNewestFirst(candidates, usage);
    assert forall t :: UsedAt(r, usage, t) == UsedAt(candidates, usage, t) by {
      forall t
        ensures UsedAt(r, usage, t) == UsedAt(candidates, usage, t)
      {
        SortedStable(candidates, usage, t);
      }
    }
    assert forall a :: a in r <==> a in multiset(candidates);
    r
  }

  /** `appsToDisplay`: the list the selected tab shows. */
  function AppsToDisplay(tab: BottomItem, source: seq<AppInfo>, usage: map<string, int>, archived: set<string>): (r: seq<AppInfo>)
    ensures tab == Home ==> forall a :: a in r <==> a in source && a.packageName !in archived
    ensures tab == Recent ==> forall a :: a in r <==> a in source && a.packageName in usage && a.packageName !in archived
    ensures tab == Archive ==> forall a :: a in r <==> a in source && a.packageName in archived
    ensures tab != Recent ==> IsSubsequence(r, source)
    ensures tab == Recent ==> NewestFirst(r, usage)
  {
    match tab
    case Home => HomeApps(source, archived)
    case Recent => RecentApps(source, usage, archived)
    case Archive => ArchiveApps(source, archived)
  }

  /** The Archive tab does not look at usage data. */
  lemma ArchiveIgnoresUsage(source: seq<AppInfo>, usage1: map<string, int>, usage2: map<string, int>, archived: set<string>)
    ensures AppsToDisplay(Archive, source, usage1, archived) == AppsToDisplay(Archive, source, usage2, archived)
  {
  }

  // ---------------------------------------------------------------------
  // Search filter and header
  // ---------------------------------------------------------------------

  /** `filteredApps`: the displayed apps whose package name contains the query (case-sensitive), in order. */
  function FilteredApps(appsToDisplay: seq<AppInfo>, textInput: string): (r: seq<AppInfo>)
    ensures forall a :: a in r <==> a in appsToDisplay && IsSubstring(textInput, a.packageName)
    ensures forall a :: multiset(r)[a] ==
                        if IsSubstring(textInput, a.packageName) then multiset(appsToDisplay)[a] else 0
    ensures IsSubsequence(r, appsToDisplay)
    ensures |r| <= |appsToDisplay|
    ensures textInput == [] ==> r == appsToDisplay
  {
    var p := (a: AppInfo) => Contains(a.packageName, textInput);
    if textInput == [] then FilterKeepsAll(appsToDisplay, p); Filter(appsToDisplay, p)
    else Filter(appsToDisplay, p)
  }

  /** The numbers in the header above the list. */
  datatype HeaderCount = Ratio(filtered: nat, total: nat) | Total(total: nat)

  const AppsSuffix: string := " apps"

  /** The header text of a count: "F/T apps" or "T apps". */
  function RenderHeader(h: HeaderCount): (s: string)
  {
    match h
    case Ratio(f, t) => DecimalString(f) + "/" + DecimalString(t) + AppsSuffix
    case Total(t) => DecimalString(t) + AppsSuffix
  }

  /** Reads a header text back into its count; `None` for text no count renders to. */
  function ParseHeader(s: string): (h: Option<HeaderCount>)
  {
    if |s| < |AppsSuffix| || s[|s| - |AppsSuffix|..] != AppsSuffix then None
    else
      var body := s[..|s| - |AppsSuffix|];
      var k := IndexOf(body, "/");
      if k == -1 then
        if IsNumeral(body) then Some(Total(DecimalValue(body))) else None
      else
        var f, t := body[..k], body[k + 1..];
        if IsNumeral(f) && IsNumeral(t)
        then Some(Ratio(DecimalValue(f), DecimalValue(t)))
        else None
  }

  lemma NoSlashInDigits(d: string)
    requires AllDigits(d)
    ensures forall i :: !OccursAt(d, "/", i)
  {
    forall i | 0 <= i < |d|
      ensures !OccursAt(d, "/", i)
    {
      assert d[i..i + 1][0] == d[i];
    }
  }

  /** Distinct counts render to distinct header texts: the text reads back as the count. */
  lemma HeaderRoundTrip(h: HeaderCount)
    ensures ParseHeader(RenderHeader(h)) == Some(h)
  {
    var s := RenderHeader(h);
    match h
    case Total(t) =>
      var body := DecimalString(t);
      assert s == body + AppsSuffix;
      assert s[..|s| - |AppsSuffix|] == body;
      NoSlashInDigits(body);
      DecimalRoundTrip(t);
    case Ratio(f, t) =>
      var df, dt := DecimalString(f), DecimalString(t);
      var body := df + "/" + dt;
      assert s == body + AppsSuffix;
      assert s[..|s| - |AppsSuffix|] == body;
      assert body[|df|..|df| + 1] == "/";
      forall j | 0 <= j < |df|
        ensures !OccursAt(body, "/", j)
      {
        assert body[j..j + 1][0] == df[j];
      }
      IndexOfIsFirstOccurrence(body, "/", |df|);
      assert body[..|df|] == df;
      assert body[|df| + 1..] == dt;
      DecimalRoundTrip(f);
      DecimalRoundTrip(t);
  }

  /** The only text that reads back as a count is that count's rendering. */
  lemma ParseIsRendered(s: string)
    ensures ParseHeader(s).Some? ==> RenderHeader(ParseHeader(s).value) == s
  {
    if ParseHeader(s).Some? {
      var body := s[..|s| - |AppsSuffix|];
      assert s == body + AppsSuffix;
      var k := IndexOf(body, "/");
      if k == -1 {
        NumeralRoundTrip(body);
      } else {
        var f, t := body[..k], body[k + 1..];
        NumeralRoundTrip(f);
        NumeralRoundTrip(t);
        assert body[k..k + 1] == "/";
        assert body == f + "/" + t;
      }
    }
  }

  /** Every text that parses as `h` is the rendering of `h`. */
  lemma ParsedOnlyFromRendering(h: HeaderCount)
    ensures forall s :: ParseHeader(s) == Some(h) ==> s == RenderHeader(h)
  {
    forall s | ParseHeader(s) == Some(h)
      ensures s == RenderHeader(h)
    {
      ParseIsRendered(s);
    }
  }

  /** The header's count: filtered over total while searching, otherwise the total alone. */
  function Header(showTextField: bool, textInput: string, appsToDisplay: seq<AppInfo>): (h: HeaderCount)
    ensures showTextField || textInput != [] ==>
      h == Ratio(|FilteredApps(appsToDisplay, textInput)|, |appsToDisplay|) && h.filtered <= h.total
    ensures !showTextField && textInput == [] ==> h == Total(|appsToDisplay|)
  {
    if showTextField || |textInput| > 0
    then Ratio(|FilteredApps(appsToDisplay, textInput)|, |appsToDisplay|)
    else Total(|appsToDisplay|)
  }

  /** `headerText`. */
  function HeaderText(showTextField: bool, textInput: string, appsToDisplay: seq<AppInfo>): (s: string)
    ensures ParseHeader(s) == Some(Header(showTextField, textInput, appsToDisplay))
    ensures forall t :: ParseHeader(t) == Some(Header(showTextField, textInput, appsToDisplay)) ==> t == s
  {
    HeaderRoundTrip(Header(showTextField, textInput, appsToDisplay));
    ParsedOnlyFromRendering(Header(showTextField, textInput, appsToDisplay));
    RenderHeader(Header(showTextField, textInput, appsToDisplay))
  }

  // ---------------------------------------------------------------------
  // Highlighted package name of a list row
  // ---------------------------------------------------------------------

  /** The package name as a row shows it: whole, or split around the highlighted match. */
  datatype PackageNameText =
    | Plain(text: string)
    | Highlighted(prefix: string, highlight: string, suffix: string)

  /** The characters a row shows, whatever is highlighted. */
  function Shown(t: PackageNameText): (s: string)
  {
    match t
    case Plain(text) => text
    case Highlighted(prefix, highlight, suffix) => prefix + highlight + suffix
  }

  /** `annotatedText`: highlight the first occurrence of the query, or show the name unsplit. */
  function HighlightPackageName(packageName: string, textInput: string): (t: PackageNameText)
    ensures Shown(t) == packageName
    ensures t.Plain? <==> !IsSubstring(textInput, packageName)
    ensures t.Highlighted? ==>
      t.highlight == textInput &&
      OccursAt(packageName, textInput, |t.prefix|) &&
      forall j :: 0 <= j < |t.prefix| ==> !OccursAt(packageName, textInput, j)
  {
    var index := IndexOf(packageName, textInput);
    if index == -1 then Plain(packageName)
    else
      var t := Highlighted(packageName[..index], packageName[index..index + |textInput|],
                           packageName[index + |textInput|..]);
      assert Shown(t) == packageName;
      t
  }

  /** Every row the search filter keeps shows a highlighted match. */
  lemma FilteredAppsAreHighlighted(appsToDisplay: seq<AppInfo>, textInput: string, app: AppInfo)
    requires app in FilteredApps(appsToDisplay, textInput)
    ensures HighlightPackageName(app.packageName, textInput).Highlighted?
  {
  }

  // ---------------------------------------------------------------------
  // Trailing icon of a row
  // ---------------------------------------------------------------------

  /** The archive store mutation a trailing-icon tap launches. */
  datatype StoreMutation = Save | Remove

  /** The trailing icon a row shows. */
  datatype TrailIcon = ArchiveIcon | RemoveIcon

  /** `onTrailIconClicks`: the Archive tab removes the package, every other tab saves it. */
  function TrailIconMutation(tab: BottomItem): (m: StoreMutation)
    ensures m == Remove <==> tab == Archive
  {
    match tab
    case Archive => Remove
    case _ => Save
  }

  /** `actionIcon`: a remove icon in the Archive tab, an archive icon elsewhere. */
  function ActionIcon(tab: BottomItem): (i: TrailIcon)
    ensures i == RemoveIcon <==> tab == Archive
  {
    match tab
    case Archive => RemoveIcon
    case _ => ArchiveIcon
  }

  /** The icon a row shows announces the mutation its tap performs. */
  lemma IconAnnouncesMutation(tab: BottomItem)
    ensures ActionIcon(tab) == RemoveIcon <==> TrailIconMutation(tab) == Remove
    ensures ActionIcon(tab) == ArchiveIcon <==> TrailIconMutation(tab) == Save
  {
  }

  /** The archive entry after a trailing-icon tap on a row with package name `p`. */
  function AfterTap(tab: BottomItem, stored: Option<set<string>>, p: string): (r: Option<set<string>>)
    ensures tab == Archive ==> ValueOf(r) == ValueOf(stored) - {p}
    ensures tab != Archive ==> ValueOf(r) == ValueOf(stored) + {p}
  {
    match TrailIconMutation(tab)
    case Save => Saved(stored, p)
    case Remove => Removed(stored, p)
  }

  /** The effect of `onTrailIconClicks` on the store, once the launched coroutine has run. */
  method OnTrailIconClick(store: ArchiveDataStore, tab: BottomItem, app: AppInfo)
    modifies store
    ensures store.stored == AfterTap(tab, old(store.stored), app.packageName)
    ensures tab == Archive ==> store.GetValue() == old(store.GetValue()) - {app.packageName}
    ensures tab != Archive ==> store.GetValue() == old(store.GetValue()) + {app.packageName}
  {
    match TrailIconMutation(tab)
    case Remove =>
      store.RemoveValue(app.packageName);
    case Save =>
      store.SaveValue(app.packageName);
  }

  /** The `LaunchedEffect` that archives the app's own package when the screen is first shown. */
  method SeedOwnPackage(store: ArchiveDataStore, ownPackageName: string)
    modifies store
    ensures store.stored == Saved(old(store.stored), ownPackageName)
    ensures ownPackageName in store.GetValue()
  {
    store.SaveValue(ownPackageName);
  }

  /**
   * After a trailing-icon tap, the tapped package leaves the current tab:
   * archived out of Home and Recent, unarchived out of Archive.
   */
  lemma TapHidesPackage(tab: BottomItem, source: seq<AppInfo>, usage: map<string, int>,
                        stored: Option<set<string>>, p: string)
    ensures forall a :: a in AppsToDisplay(tab, source, usage, ValueOf(AfterTap(tab, stored, p))) ==>
      a.packageName != p
  {
  }

  /**
   * A tap in Home moves the row's app into the Archive tab, and a tap in
   * Archive moves it back to Home.
   */
  lemma TapMovesApp(tab: BottomItem, source: seq<AppInfo>, usage: map<string, int>,
                    stored: Option<set<string>>, app: AppInfo)
    requires app in source
    ensures tab == Home ==>
      app in AppsToDisplay(Archive, source, usage, ValueOf(AfterTap(tab, stored, app.packageName)))
    ensures tab == Archive ==>
      app in AppsToDisplay(Home, source, usage, ValueOf(AfterTap(tab, stored, app.packageName)))
  {
  }

  // ---------------------------------------------------------------------
  // The whole derivation
  // ---------------------------------------------------------------------

  /** The selected tab's own condition on an app, before the search. */
  ghost predicate TabAdmits(tab: BottomItem, usage: map<string, int>, archived: set<string>, app: AppInfo)
  {
    match tab
    case Home => app.packageName !in archived
    case Recent => app.packageName in usage && app.packageName !in archived
    case Archive => app.packageName in archived
  }

  /** The rows of the main screen, from the installed apps, usage data, archive and view state. */
  function DisplayedApps(allApps: seq<AppInfo>, usage: map<string, int>, archived: set<string>,
                         tab: BottomItem, filterOnlyNonSystemApps: bool, textInput: string): (r: seq<AppInfo>)
    ensures forall a :: a in r <==>
      && a in allApps
      && !(filterOnlyNonSystemApps && IsSystemApp(a))
      && TabAdmits(tab, usage, archived, a)
      && IsSubstring(textInput, a.packageName)
  {
    var source := SourceApps(allApps, filterOnlyNonSystemApps);
    assert forall a :: a in source <==> a in allApps && !(filterOnlyNonSystemApps && IsSystemApp(a)) by {
      forall a
        ensures a in source <==> a in allApps && !(filterOnlyNonSystemApps && IsSystemApp(a))
      {
        assert a in source <==> a in multiset(source);
        assert a in allApps <==> a in multiset(allApps);
      }
    }
    FilteredApps(AppsToDisplay(tab, source, usage, archived), textInput)
  }
}
