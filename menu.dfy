/** `print_menu`: the lines the plugin prints for BitBar, a header with the
    total number of updates, then one section per adapter. Printing is
    modelled as returning the sequence of lines. */
module Menu {
  import opened Text
  import opened BitBar
  import opened Managers

  /** What the menu needs of one adapter after its sync. */
  datatype ManagerState = ManagerState(kind: Kind, updates: seq<Update>)

  /** The attributes that make BitBar run a clicked command in the
      background and refresh the plugin afterwards. */
  const RunAttributes: string := " terminal=false refresh=true"

  /** `↑N | dropdown=false`: the menu-bar title. */
  function Header(total: nat): string {
    "\U{2191}" + NatToString(total) + " | dropdown=false"
  }

  /** `<count> <Name> package`, with an `s` only for more than one. */
  function Summary(k: Kind, n: nat): string {
    NatToString(n) + " " + Name(k) + " package" + (if n > 1 then "s" else "")
  }

  /** The `Upgrade all` line, present when `update_all_cli()` is non-empty
      and there is something to upgrade. */
  function UpgradeAllLines(k: Kind, updates: seq<Update>): seq<string> {
    match UpdateAllCli(k)
    case None => []
    case Some(cli) => if cli != [] && updates != [] then ["Upgrade all | " + cli + RunAttributes] else []
  }

  /** `<name> <installed> → <latest> | <upgrade command> terminal=false refresh=true` */
  function PackageLine(k: Kind, u: Update): string {
    u.name + " " + u.installedVersion + " \U{2192} " + u.latestVersion + " | " + UpdateCli(k, u.name) + RunAttributes
  }

  function PackageLineFor(k: Kind): Update -> string {
    u => PackageLine(k, u)
  }

  lemma PackageLineForApplies(k: Kind, u: Update)
    ensures PackageLineFor(k)(u) == PackageLine(k, u)
  {
  }

  /** One line per record, in the records' order. */
  function MapLines(us: seq<Update>, line: Update -> string): (r: seq<string>)
    ensures |r| == |us|
  {
    if us == [] then [] else MapLines(us[..|us| - 1], line) + [line(us[|us| - 1])]
  }

  /** The package lines of an adapter of kind `k`. */
  function PackageLines(k: Kind, us: seq<Update>): seq<string> {
    MapLines(us, PackageLineFor(k))
  }

  /** The section of one adapter: separator, summary, optional `Upgrade
      all`, the packages. */
  function SectionLines(s: ManagerState): seq<string> {
    ["---", Summary(s.kind, |s.updates|)] + UpgradeAllLines(s.kind, s.updates) + PackageLines(s.kind, s.updates)
  }

  /** `sum([len(m.updates) for m in managers])` */
  function TotalUpdates(ms: seq<ManagerState>): nat {
    if ms == [] then 0 else TotalUpdates(ms[..|ms| - 1]) + |ms[|ms| - 1].updates|
  }

  /** The sections of all adapters, in order. */
  function Sections(ms: seq<ManagerState>): seq<string> {
    if ms == [] then [] else Sections(ms[..|ms| - 1]) + SectionLines(ms[|ms| - 1])
  }

  /** Everything `print_menu` prints once the adapters have synced. */
  function Menu(ms: seq<ManagerState>): seq<string> {
    [Header(TotalUpdates(ms))] + Sections(ms)
  }

  /** The adapters' kinds and update lists as they stand. */
  function Snapshot(managers: seq<Manager>): (r: seq<ManagerState>)
    reads managers
    ensures |r| == |managers|
    ensures forall i :: 0 <= i < |managers| ==> r[i] == ManagerState(managers[i].kind, managers[i].updates)
  {
    if managers == [] then []
    else
      var init := managers[..|managers| - 1];
      assert forall i :: 0 <= i < |init| ==> init[i] == managers[i];
      Snapshot(init) + [ManagerState(managers[|managers| - 1].kind, managers[|managers| - 1].updates)]
  }

  // ---------------------------------------------------------------------------
  // Rendering
  // ---------------------------------------------------------------------------

  /** The rendering half of `print_menu`: the header, then for each adapter
      a separator, its summary, its `Upgrade all` line when it has one and
      one line per update record. */
  method PrintMenu(managers: seq<Manager>) returns (lines: seq<string>)
    ensures lines == Menu(Snapshot(managers))
  {
    var ms := Snapshot(managers);
    lines := [Header(TotalUpdates(ms))];
    for i := 0 to |managers|
      invariant lines == [Header(TotalUpdates(ms))] + Sections(ms[..i])
    {
      var k, us := managers[i].kind, managers[i].updates;
      assert ms[i] == ManagerState(k, us);
      var upgradeAll: seq<string> := [];
      var all := UpdateAllCli(k);
      if all.Some? && all.value != [] && us != [] {
        upgradeAll := ["Upgrade all | " + all.value + RunAttributes];
      }
      UpgradeAllIs(k, us, upgradeAll);
      var packages := RenderPackages(k, us);
      var section := ["---", Summary(k, |us|)] + upgradeAll + packages;
      SectionsStep(ms, i);
      AppendSection([Header(TotalUpdates(ms))], Sections(ms[..i]), section);
      lines := lines + section;
    }
    assert ms[..|managers|] == ms;
  }

  /** One line per update record. */
  method RenderPackages(k: Kind, us: seq<Update>) returns (lines: seq<string>)
    ensures lines == PackageLines(k, us)
  {
    lines := [];
    for j := 0 to |us|
      invariant lines == PackageLines(k, us[..j])
    {
      PackageLinesStep(k, us, j);
      lines := lines + [PackageLine(k, us[j])];
    }
    assert us[..|us|] == us;
  }

  lemma UpgradeAllIs(k: Kind, us: seq<Update>, upgradeAll: seq<string>)
    requires var all := UpdateAllCli(k);
      upgradeAll == if all.Some? && all.value != [] && us != [] then ["Upgrade all | " + all.value + RunAttributes] else []
    ensures upgradeAll == UpgradeAllLines(k, us)
  {
  }

  lemma SectionsStep(ms: seq<ManagerState>, i: nat)
    requires i < |ms|
    ensures Sections(ms[..i + 1]) == Sections(ms[..i]) + SectionLines(ms[i])
  {
    assert ms[..i + 1][..i] == ms[..i];
  }

  /** Regrouping the menu built so far around a new section; proved apart
      from `PrintMenu`, whose loop body it would otherwise overwhelm. */
  lemma AppendSection(h: seq<string>, s: seq<string>, t: seq<string>)
    ensures h + s + t == h + (s + t)
  {
  }

  lemma PackageLinesStep(k: Kind, us: seq<Update>, j: nat)
    requires j < |us|
    ensures PackageLines(k, us[..j + 1]) == PackageLines(k, us[..j]) + [PackageLine(k, us[j])]
  {
    MapLinesStep(us, PackageLineFor(k), j);
    PackageLineForApplies(k, us[j]);
  }

  lemma MapLinesStep(us: seq<Update>, line: Update -> string, j: nat)
    requires j < |us|
    ensures MapLines(us[..j + 1], line) == MapLines(us[..j], line) + [line(us[j])]
  {
    assert us[..j + 1][..j] == us[..j];
  }

  // ---------------------------------------------------------------------------
  // What the menu shows
  // ---------------------------------------------------------------------------

  /** The package lines are the records, one each, in order. */
  lemma PackageLinesInOrder(k: Kind, us: seq<Update>)
    ensures forall j :: 0 <= j < |us| ==> PackageLines(k, us)[j] == PackageLine(k, us[j])
  {
    forall j | 0 <= j < |us| ensures PackageLines(k, us)[j] == PackageLine(k, us[j]) {
      MapLinesAt(us, PackageLineFor(k), j);
      PackageLineForApplies(k, us[j]);
    }
  }

  lemma {:induction false} MapLinesAt(us: seq<Update>, line: Update -> string, j: nat)
    requires j < |us|
    ensures MapLines(us, line)[j] == line(us[j])
  {
    var init := us[..|us| - 1];
    if j < |init| {
      MapLinesAt(init, line, j);
      assert init[j] == us[j];
    }
  }

  /** Every package line ends with the run attributes. */
  lemma PackageLineEnds(k: Kind, u: Update)
    ensures var line := PackageLine(k, u);
      |line| >= |RunAttributes| && line[|line| - |RunAttributes|..] == RunAttributes
  {
  }

  /** The summary's first word is the number of records and its second the
      adapter's name. */
  lemma SummaryWords(k: Kind, n: nat)
    ensures var words := Split(Summary(k, n), ' ');
      |words| == 3 && words[0] == NatToString(n) && ParseDecimal(words[0]) == n && words[1] == Name(k)
  {
    var last := "package" + (if n > 1 then "s" else "");
    NameWords(k, last);
    NatToStringNoSpace(n);
    PackageWord(NatToString(n) + " " + Name(k), if n > 1 then "s" else "");
    ThreeWords(NatToString(n), Name(k), last);
    ParseNatToString(n);
  }

  /** `package` takes an `s` exactly when the count exceeds one. */
  lemma SummaryPlural(k: Kind, n: nat)
    ensures var s := Summary(k, n); |s| > 0 && (s[|s| - 1] == 's' <==> n > 1)
  {
    var x := NatToString(n) + " " + Name(k);
    PackageWord(x, if n > 1 then "s" else "");
    PackageWordEnds(x);
    assert x + " package" + "" == x + " package";
  }

  lemma PackageWord(x: string, suffix: string)
    ensures x + " package" + suffix == x + " " + ("package" + suffix)
  {
  }

  lemma PackageWordEnds(x: string)
    ensures var s := x + " package"; s[|s| - 1] == 'e' && (s + "s")[|s|] == 's'
  {
  }

  lemma NameWords(k: Kind, last: string)
    requires last == "package" || last == "packages"
    ensures ' ' !in Name(k) && ' ' !in last
  {
  }

  lemma ThreeWords(a: string, b: string, c: string)
    requires ' ' !in a && ' ' !in b && ' ' !in c
    ensures Split(a + " " + b + " " + c, ' ') == [a, b, c]
  {
    assert a + " " + b + " " + c == a + [' '] + (b + [' '] + c);
    SplitCons(a, ' ', b + [' '] + c);
    SplitCons(b, ' ', c);
    SplitNoSep(c, ' ');
  }

  /** Only a Homebrew section with at least one record has an `Upgrade all`
      line, and it runs `brew upgrade --cleanup`. */
  lemma UpgradeAllOnlyHomebrew(k: Kind, us: seq<Update>)
    ensures UpgradeAllLines(k, us) != [] <==> k == Homebrew && us != []
    ensures k == Homebrew && us != [] ==>
      UpgradeAllLines(k, us) == ["Upgrade all | " + HomebrewUpdateCli(None) + RunAttributes]
  {
    UpdateAllCliOnlyHomebrew(k);
  }

  /** A section is a separator, the summary, the `Upgrade all` line when
      there is one, and then exactly the package lines. */
  lemma SectionLayout(s: ManagerState)
    ensures var lines := SectionLines(s);
      var extra := |UpgradeAllLines(s.kind, s.updates)|;
      && extra <= 1
      && |lines| == 2 + extra + |s.updates|
      && lines[0] == "---" && lines[1] == Summary(s.kind, |s.updates|)
      && lines[2..2 + extra] == UpgradeAllLines(s.kind, s.updates)
      && forall j :: 0 <= j < |s.updates| ==> lines[2 + extra + j] == PackageLine(s.kind, s.updates[j])
  {
    var head, all, packages := ["---", Summary(s.kind, |s.updates|)], UpgradeAllLines(s.kind, s.updates), PackageLines(s.kind, s.updates);
    PackageLinesInOrder(s.kind, s.updates);
    assert SectionLines(s) == head + all + packages;
    assert SectionLines(s)[2..2 + |all|] == all;
  }

  /** Number of adapters that show an `Upgrade all` line. */
  function UpgradeAllCount(ms: seq<ManagerState>): nat {
    if ms == [] then 0
    else UpgradeAllCount(ms[..|ms| - 1]) + |UpgradeAllLines(ms[|ms| - 1].kind, ms[|ms| - 1].updates)|
  }

  /** The menu has the header, two lines per adapter, one line per record
      and the `Upgrade all` lines: the count in the header is the number of
      package lines. */
  lemma {:induction false} MenuLength(ms: seq<ManagerState>)
    ensures |Sections(ms)| == 2 * |ms| + TotalUpdates(ms) + UpgradeAllCount(ms)
    ensures |Menu(ms)| == 1 + 2 * |ms| + TotalUpdates(ms) + UpgradeAllCount(ms)
  {
    if ms != [] {
      MenuLength(ms[..|ms| - 1]);
    }
  }

  /** With no active adapter the menu is the title `↑0` alone. */
  lemma MenuNoManagers()
    ensures Menu([]) == ["\U{2191}0 | dropdown=false"]
  {
    assert NatToString(0) == "0";
    assert TotalUpdates([]) == 0 && Sections([]) == [];
    assert "\U{2191}" + "0" + " | dropdown=false" == "\U{2191}0 | dropdown=false";
  }

  // ---------------------------------------------------------------------------
  // The whole run
  // ---------------------------------------------------------------------------

  /** The outcome of each adapter's sync on the given tool outputs. */
  function SyncOf(out: ToolOutputs): Kind -> Outcome {
    k => SyncOutcome(k, out)
  }

  lemma SyncOfApplies(out: ToolOutputs, k: Kind)
    ensures SyncOf(out)(k) == SyncOutcome(k, out)
  {
  }

  /** The adapters of the given kinds after a sync that did not raise. */
  function Synced(kinds: seq<Kind>, sync: Kind -> Outcome): (r: seq<ManagerState>)
    ensures |r| == |kinds|
    ensures forall i :: 0 <= i < |kinds| ==> r[i] == ManagerState(kinds[i], sync(kinds[i]).records)
  {
    if kinds == [] then []
    else
      var init := kinds[..|kinds| - 1];
      assert forall i :: 0 <= i < |init| ==> init[i] == kinds[i];
      Synced(init, sync) + [ManagerState(kinds[|kinds| - 1], sync(kinds[|kinds| - 1]).records)]
  }

  /** Some adapter's sync raises. */
  predicate SomeSyncRaises(kinds: seq<Kind>, sync: Kind -> Outcome) {
    exists i :: 0 <= i < |kinds| && sync(kinds[i]).aborted
  }

  /** What a run of the plugin prints: nothing when a sync raises (the
      exception escapes before the first line), the menu otherwise. */
  function RunMenu(kinds: seq<Kind>, out: ToolOutputs): Option<seq<string>> {
    var sync := SyncOf(out);
    if SomeSyncRaises(kinds, sync) then None else Some(Menu(Synced(kinds, sync)))
  }

  /** `print_menu()` for the active adapters `kinds`: create and sync each
      adapter, then render the menu. */
  method Run(kinds: seq<Kind>, out: ToolOutputs) returns (menu: Option<seq<string>>)
    ensures menu == RunMenu(kinds, out)
  {
    var managers, ok := SyncAll(kinds, out);
    if !ok {
      return None;
    }
    var lines := PrintMenu(managers);
    return Some(lines);
  }

  /** `managers = [k() for k in kinds]` and `map(methodcaller('sync'),
      managers)`: stops at the first sync that raises. */
  method SyncAll(kinds: seq<Kind>, out: ToolOutputs) returns (managers: seq<Manager>, ok: bool)
    ensures ok == !SomeSyncRaises(kinds, SyncOf(out))
    ensures ok ==> Snapshot(managers) == Synced(kinds, SyncOf(out))
  {
    managers := [];
    for i := 0 to |kinds|
      invariant Snapshot(managers) == Synced(kinds[..i], SyncOf(out))
      invariant !SomeSyncRaises(kinds[..i], SyncOf(out))
    {
      var m, synced := NewSynced(kinds[i], out);
      if !synced {
        RunRaises(kinds, SyncOf(out), i);
        return managers, false;
      }
      RunStep(kinds, SyncOf(out), i);
      SnapshotSnoc(managers, m);
      managers := managers + [m];
    }
    assert kinds[..|kinds|] == kinds;
    return managers, true;
  }

  /** `k()` followed by its `sync()`. */
  method NewSynced(k: Kind, out: ToolOutputs) returns (m: Manager, ok: bool)
    ensures fresh(m) && m.kind == k && m.updates == SyncOf(out)(k).records
    ensures ok == !SyncOf(out)(k).aborted
  {
    m := new Manager(k);
    ok := m.Sync(out);
    SyncOfApplies(out, k);
  }

  lemma RunRaises(kinds: seq<Kind>, sync: Kind -> Outcome, i: nat)
    requires i < |kinds| && sync(kinds[i]).aborted
    ensures SomeSyncRaises(kinds, sync)
  {
  }

  /** One more adapter that synced without raising. */
  lemma RunStep(kinds: seq<Kind>, sync: Kind -> Outcome, i: nat)
    requires i < |kinds| && !SomeSyncRaises(kinds[..i], sync) && !sync(kinds[i]).aborted
    ensures !SomeSyncRaises(kinds[..i + 1], sync)
    ensures Synced(kinds[..i + 1], sync) == Synced(kinds[..i], sync) + [ManagerState(kinds[i], sync(kinds[i]).records)]
  {
    assert kinds[..i + 1][..i] == kinds[..i];
  }

  lemma SnapshotSnoc(managers: seq<Manager>, m: Manager)
    ensures Snapshot(managers + [m]) == Snapshot(managers) + [ManagerState(m.kind, m.updates)]
  {
    assert (managers + [m])[..|managers|] == managers;
  }

  /** With Cask active and nothing installed through it, the run prints
      nothing: Cask's sync raises on the empty listing. */
  lemma EmptyCaskListingPrintsNothing(kinds: seq<Kind>, out: ToolOutputs)
    requires Cask in kinds && Strip(out.caskListing) == []
    ensures RunMenu(kinds, out) == None
  {
    var i :| 0 <= i < |kinds| && kinds[i] == Cask;
    CaskEmptyListingAborts(out.caskListing, out.caskInfo);
    SyncOfApplies(out, Cask);
    RunRaises(kinds, SyncOf(out), i);
  }
}
