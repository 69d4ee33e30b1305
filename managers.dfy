/** The package-manager adapters: `PackageManager` and its subclasses
    `Homebrew`, `Cask` and `Pip`. Each adapter owns a list of update records
    that its `sync` fills from the output of its command-line tool; here those
    outputs are parameters. A `sync` that hits output it cannot parse raises
    in the source and ends the run; here it reports `aborted`. */
module Managers {
  import opened Text
  import opened Ordering
  import opened BitBar

  /** The concrete adapters, in the order the menu lists them. */
  datatype Kind = Homebrew | Cask | Pip

  /** `PackageManager.name`: the adapter's class name. */
  function Name(k: Kind): string {
    match k
    case Homebrew => "Homebrew"
    case Cask => "Cask"
    case Pip => "Pip"
  }

  /** `Homebrew.cli`, which Cask inherits, and `Pip.cli`. */
  const BrewCli: string := "/usr/local/bin/brew"
  const PipCli: string := "/usr/local/bin/pip"

  /** One outdated package. */
  datatype Update = Update(name: string, installedVersion: string, latestVersion: string)

  // ---------------------------------------------------------------------------
  // Upgrade commands (`update_cli`, `update_all_cli`)
  // ---------------------------------------------------------------------------

  /** The command line `Homebrew.update_cli(package_name=None)` formats:
      `brew upgrade --cleanup`, followed by the package name when one is
      given and is not empty. */
  function HomebrewCommand(packageName: Option<string>): string {
    var cmd := BrewCli + " upgrade --cleanup";
    if packageName.Some? && packageName.value != [] then cmd + " " + packageName.value else cmd
  }

  /** `Homebrew.update_cli(package_name=None)` */
  function HomebrewUpdateCli(packageName: Option<string>): string {
    FormattableWhen(HomebrewCommand(packageName), 19);
    Schema(HomebrewCommand(packageName))
  }

  /** `Cask.update_cli(package_name)`: `brew cask install <name>`. */
  function CaskUpdateCli(packageName: string): string {
    var full := BrewCli + " cask install" + " " + packageName;
    FormattableWhen(full, 19);
    Schema(full)
  }

  /** `Pip.update_cli(package_name)`: `pip install --upgrade <name>`. */
  function PipUpdateCli(packageName: string): string {
    var full := PipCli + " install --upgrade" + " " + packageName;
    FormattableWhen(full, 18);
    Schema(full)
  }

  /** The per-package upgrade command of each adapter. */
  function UpdateCli(k: Kind, packageName: string): string {
    match k
    case Homebrew => HomebrewUpdateCli(Some(packageName))
    case Cask => CaskUpdateCli(packageName)
    case Pip => PipUpdateCli(packageName)
  }

  /** `update_all_cli()`: Homebrew upgrades everything with its per-package
      command minus the name; Cask and Pip return `None`. */
  function UpdateAllCli(k: Kind): Option<string> {
    match k
    case Homebrew => Some(HomebrewUpdateCli(None))
    case Cask => None
    case Pip => None
  }

  /** Only Homebrew offers a non-empty upgrade-all command. */
  lemma UpdateAllCliOnlyHomebrew(k: Kind)
    ensures UpdateAllCli(k).Some? && UpdateAllCli(k).value != [] <==> k == Homebrew
  {
    if k == Homebrew {
      UpgradeWords();
      FormattableWhen(HomebrewCommand(None), 19);
      SchemaNonEmpty(HomebrewCommand(None));
    }
  }

  /** The upgrade-all command is `brew upgrade --cleanup` with no further
      argument, and an empty package name counts as no name. */
  lemma HomebrewUpdateAllIsBareUpgrade()
    ensures UpdateAllCli(Homebrew) == Some(HomebrewUpdateCli(None))
    ensures HomebrewUpdateCli(Some("")) == HomebrewUpdateCli(None)
    ensures HomebrewUpdateCli(None)
         == "bash=" + BrewCli + " " + ParamAttribute(1, "upgrade") + " " + ParamAttribute(2, "--cleanup")
  {
    UpgradeWords();
    assert HomebrewCommand(Some("")) == HomebrewCommand(None);
    BareCommand(HomebrewCommand(None), BrewCli, "upgrade", "--cleanup");
  }

  /** The fixed words of the three upgrade commands. */
  lemma UpgradeWords()
    ensures BrewCli != [] && NoSpace(BrewCli) && NoSpace("upgrade") && NoSpace("--cleanup")
    ensures BrewCli + " upgrade --cleanup" == BrewCli + " " + "upgrade" + " " + "--cleanup"
  {
  }

  lemma CaskWords()
    ensures BrewCli != [] && NoSpace(BrewCli) && NoSpace("cask") && NoSpace("install")
    ensures BrewCli + " cask install" == BrewCli + " " + "cask" + " " + "install"
  {
  }

  lemma PipWords()
    ensures PipCli != [] && NoSpace(PipCli) && NoSpace("install") && NoSpace("--upgrade")
    ensures PipCli + " install --upgrade" == PipCli + " " + "install" + " " + "--upgrade"
  {
  }

  /** A stripped `<program> <a> <b>` of whitespace-free words formats to
      `bash=<program> param1=<a> param2=<b>`. */
  lemma BareCommand(c: string, program: string, a: string, b: string)
    requires c == program + " " + a + " " + b
    requires program != [] && a != [] && b != [] && NoSpace(program) && NoSpace(a) && NoSpace(b)
    ensures Formattable(c) && Strip(c) == c
    ensures Program(c) == program && Arguments(c) == [a, b]
    ensures Schema(c) == "bash=" + program + " " + ParamAttribute(1, a) + " " + ParamAttribute(2, b)
  {
    BareStripped(c, program, a, b);
    BareSplit(c, program, a, b);
    ArgumentsTwo(c, a, b);
  }

  lemma BareStripped(c: string, program: string, a: string, b: string)
    requires c == program + " " + a + " " + b
    requires program != [] && b != [] && NoSpace(program) && NoSpace(b)
    ensures Strip(c) == c && Formattable(c)
  {
    assert c[0] == program[0] && c[|c| - 1] == b[|b| - 1];
    StripNoop(c);
    assert c[|program|] == ' ';
  }

  lemma BareSplit(c: string, program: string, a: string, b: string)
    requires c == program + " " + a + " " + b
    requires NoSpace(program) && NoSpace(a) && NoSpace(b)
    ensures SplitOnce(c, ' ') == Some((program, a + " " + b))
    ensures Split(a + " " + b, ' ') == [a, b]
  {
    NoSpaceNoBlank(program);
    NoSpaceNoBlank(a);
    NoSpaceNoBlank(b);
    assert c == program + [' '] + (a + " " + b);
    assert a + " " + b == a + [' '] + b;
    SplitOnceAt(program, ' ', a + " " + b);
    SplitCons(a, ' ', b);
    SplitNoSep(b, ' ');
  }

  lemma ArgumentsTwo(c: string, a: string, b: string)
    requires Formattable(c) && Arguments(c) == [a, b]
    ensures Schema(c) == "bash=" + Program(c) + " " + ParamAttribute(1, a) + " " + ParamAttribute(2, b)
  {
    ParamAttributesTwo("bash=" + Program(c), a, b);
  }

  lemma NoSpaceNoBlank(s: string)
    requires NoSpace(s)
    ensures ' ' !in s
  {
    assert forall k :: 0 <= k < |s| ==> s[k] != ' ';
  }

  /** A whitespace-free package name becomes one extra, third argument of
      Homebrew's upgrade command. */
  lemma HomebrewUpdateCliAppendsName(p: string)
    requires p != [] && NoSpace(p)
    ensures HomebrewUpdateCli(Some(p)) == HomebrewUpdateCli(None) + " " + ParamAttribute(3, p)
  {
    UpgradeWords();
    assert HomebrewCommand(Some(p)) == HomebrewCommand(None) + " " + p;
    CommandWithName(HomebrewCommand(None), BrewCli, "upgrade", "--cleanup", p);
  }

  /** `<program> <a> <b>` followed by a whitespace-free name formats to the
      attributes of the first three words and one more. */
  lemma CommandWithName(c: string, program: string, a: string, b: string, p: string)
    requires c == program + " " + a + " " + b
    requires program != [] && a != [] && b != [] && NoSpace(program) && NoSpace(a) && NoSpace(b)
    requires p != [] && NoSpace(p)
    ensures Formattable(c) && Formattable(c + " " + p)
    ensures Schema(c) == "bash=" + program + " " + ParamAttribute(1, a) + " " + ParamAttribute(2, b)
    ensures Schema(c + " " + p) == Schema(c) + " " + ParamAttribute(3, p)
  {
    BareCommand(c, program, a, b);
    AppendArgument(c, p);
  }

  /** Cask's upgrade command for a whitespace-free name. */
  lemma CaskUpdateCliShape(p: string)
    requires p != [] && NoSpace(p)
    ensures CaskUpdateCli(p) == Schema(BrewCli + " cask install") + " " + ParamAttribute(3, p)
    ensures Schema(BrewCli + " cask install")
         == "bash=" + BrewCli + " " + ParamAttribute(1, "cask") + " " + ParamAttribute(2, "install")
  {
    CaskWords();
    CommandWithName(BrewCli + " cask install", BrewCli, "cask", "install", p);
  }

  /** Pip's upgrade command for a whitespace-free name. */
  lemma PipUpdateCliShape(p: string)
    requires p != [] && NoSpace(p)
    ensures PipUpdateCli(p) == Schema(PipCli + " install --upgrade") + " " + ParamAttribute(3, p)
    ensures Schema(PipCli + " install --upgrade")
         == "bash=" + PipCli + " " + ParamAttribute(1, "install") + " " + ParamAttribute(2, "--upgrade")
  {
    PipWords();
    CommandWithName(PipCli + " install --upgrade", PipCli, "install", "--upgrade", p);
  }

  /** A Pip record's name carries its install location after a space (see
      `PipRecord`), and the upgrade command is built from that name, so the
      location becomes a fourth positional argument of `pip install`. */
  lemma PipUpdateCliWithLocation(p: string, location: string)
    requires p != [] && NoSpace(p) && location != [] && NoSpace(location)
    ensures PipUpdateCli(p + " " + location) == PipUpdateCli(p) + " " + ParamAttribute(4, location)
  {
    PipWords();
    CommandWithTwoWords(PipCli + " install --upgrade", PipCli, "install", "--upgrade", p, location);
  }

  lemma CommandWithTwoWords(c: string, program: string, a: string, b: string, p: string, q: string)
    requires c == program + " " + a + " " + b
    requires program != [] && a != [] && b != [] && NoSpace(program) && NoSpace(a) && NoSpace(b)
    requires p != [] && NoSpace(p) && q != [] && NoSpace(q)
    ensures Formattable(c + " " + p) && Formattable(c + " " + (p + " " + q))
    ensures Schema(c + " " + (p + " " + q)) == Schema(c + " " + p) + " " + ParamAttribute(4, q)
  {
    BareCommand(c, program, a, b);
    AppendTwoArguments(c, p, q);
  }

  /** Appending two words to a stripped command line adds two attributes. */
  lemma AppendTwoArguments(c: string, p: string, q: string)
    requires Formattable(c) && Strip(c) == c
    requires p != [] && NoSpace(p) && q != [] && NoSpace(q)
    ensures Formattable(c + " " + p) && Formattable(c + " " + (p + " " + q))
    ensures Schema(c + " " + (p + " " + q)) == Schema(c + " " + p) + " " + ParamAttribute(|Arguments(c)| + 2, q)
  {
    assert c + " " + (p + " " + q) == c + " " + p + " " + q;
    AppendOneArgument(c, p);
    AppendArgument(c + " " + p, q);
  }

  lemma AppendOneArgument(c: string, p: string)
    requires Formattable(c) && Strip(c) == c
    requires p != [] && NoSpace(p)
    ensures Formattable(c + " " + p) && Strip(c + " " + p) == c + " " + p
    ensures |Arguments(c + " " + p)| == |Arguments(c)| + 1
  {
    AppendArgument(c, p);
    AppendKeepsStripped(c, p);
  }

  // ---------------------------------------------------------------------------
  // Collecting records from tool output
  // ---------------------------------------------------------------------------

  /** What one entry of a tool's output contributes: a record, nothing, or
      an exception that ends the run. */
  datatype LineResult = Keep(record: Update) | Skip | Abort

  /** The records a `sync` appends, in order, and whether it stopped on an
      exception (the records before it were appended already). */
  datatype Outcome = Outcome(records: seq<Update>, aborted: bool)

  /** Runs `f` over the entries in order, stopping at the first `Abort`. */
  function Collect<T>(xs: seq<T>, f: T -> LineResult): (o: Outcome)
    ensures |o.records| <= |xs|
  {
    if xs == [] then Outcome([], false)
    else
      var o := Collect(xs[..|xs| - 1], f);
      if o.aborted then o
      else
        match f(xs[|xs| - 1])
        case Keep(u) => Outcome(o.records + [u], false)
        case Skip => o
        case Abort => Outcome(o.records, true)
  }

  lemma CollectStep<T>(xs: seq<T>, f: T -> LineResult, i: nat)
    requires i < |xs|
    ensures var o := Collect(xs[..i], f);
      Collect(xs[..i + 1], f) ==
        if o.aborted then o
        else match f(xs[i])
          case Keep(u) => Outcome(o.records + [u], false)
          case Skip => o
          case Abort => Outcome(o.records, true)
  {
    assert xs[..i + 1][..i] == xs[..i];
  }

  /** One more entry, whose result is `r`, in a run that has not aborted:
      an abort ends the whole run, a record is appended, a skip changes
      nothing. */
  lemma CollectNext<T>(xs: seq<T>, f: T -> LineResult, i: nat, r: LineResult)
    requires i < |xs| && !Collect(xs[..i], f).aborted && f(xs[i]) == r
    ensures r.Abort? ==> Collect(xs, f) == Outcome(Collect(xs[..i], f).records, true)
    ensures r.Skip? ==> Collect(xs[..i + 1], f) == Collect(xs[..i], f)
    ensures r.Keep? ==> Collect(xs[..i + 1], f) == Outcome(Collect(xs[..i], f).records + [r.record], false)
  {
    CollectStep(xs, f, i);
    if r.Abort? {
      CollectStaysAborted(xs, f, i + 1);
    }
  }

  /** Once aborted, later entries change nothing. */
  lemma {:induction false} CollectStaysAborted<T>(xs: seq<T>, f: T -> LineResult, i: nat)
    requires i <= |xs| && Collect(xs[..i], f).aborted
    ensures Collect(xs, f) == Collect(xs[..i], f)
    decreases |xs| - i
  {
    if i < |xs| {
      CollectStep(xs, f, i);
      CollectStaysAborted(xs, f, i + 1);
    } else {
      assert xs[..i] == xs;
    }
  }

  /** The run aborts exactly when some entry raises. */
  lemma {:induction false} CollectAborts<T>(xs: seq<T>, f: T -> LineResult)
    ensures Collect(xs, f).aborted <==> exists i :: 0 <= i < |xs| && f(xs[i]) == Abort
  {
    if xs != [] {
      var init := xs[..|xs| - 1];
      CollectAborts(init, f);
      assert forall i :: 0 <= i < |init| ==> init[i] == xs[i];
      if exists i :: 0 <= i < |init| && f(init[i]) == Abort {
        var i :| 0 <= i < |init| && f(init[i]) == Abort;
        assert f(xs[i]) == Abort;
      }
      if exists i :: 0 <= i < |xs| && f(xs[i]) == Abort {
        var i :| 0 <= i < |xs| && f(xs[i]) == Abort;
        if i < |init| {
          assert f(init[i]) == Abort;
        }
      }
    }
  }

  /** Records are only ever appended: the records collected from a prefix of
      the entries are a prefix of the records collected from all of them. */
  lemma {:induction false} CollectAppendsOnly<T>(xs: seq<T>, f: T -> LineResult, i: nat)
    requires i <= |xs|
    ensures Collect(xs[..i], f).records <= Collect(xs, f).records
    decreases |xs| - i
  {
    if i < |xs| {
      CollectStep(xs, f, i);
      CollectAppendsOnly(xs, f, i + 1);
    } else {
      assert xs[..i] == xs;
    }
  }

  /** When every entry yields a record, there is one record per entry, in
      the entries' order. */
  lemma {:induction false} CollectOnePerEntry<T>(xs: seq<T>, f: T -> LineResult)
    requires forall i :: 0 <= i < |xs| ==> f(xs[i]).Keep?
    ensures !Collect(xs, f).aborted
    ensures |Collect(xs, f).records| == |xs|
    ensures forall i :: 0 <= i < |xs| ==> Collect(xs, f).records[i] == f(xs[i]).record
  {
    if xs != [] {
      var init := xs[..|xs| - 1];
      assert forall i :: 0 <= i < |init| ==> init[i] == xs[i];
      CollectOnePerEntry(init, f);
    }
  }

  /** Without an abort, the records are exactly the kept entries' records. */
  lemma {:induction false} CollectMembers<T>(xs: seq<T>, f: T -> LineResult, u: Update)
    requires !Collect(xs, f).aborted
    ensures u in Collect(xs, f).records <==> exists i :: 0 <= i < |xs| && f(xs[i]) == Keep(u)
  {
    if xs != [] {
      var init := xs[..|xs| - 1];
      assert forall i :: 0 <= i < |init| ==> init[i] == xs[i];
      CollectMembers(init, f, u);
      if exists i :: 0 <= i < |xs| && f(xs[i]) == Keep(u) {
        var i :| 0 <= i < |xs| && f(xs[i]) == Keep(u);
        if i < |init| {
          assert f(init[i]) == Keep(u);
        }
      }
    }
  }

  // ---------------------------------------------------------------------------
  // Homebrew.sync
  // ---------------------------------------------------------------------------

  /** One entry of `brew outdated --json=v1`, already decoded. */
  datatype Formula = Formula(name: string, installedVersions: seq<string>, currentVersion: string)

  /** The record for one formula: its highest installed version; `max()` of
      an empty list raises ValueError. */
  function HomebrewEntry(f: Formula): LineResult {
    if f.installedVersions == [] then Abort
    else Keep(Update(f.name, MaxString(f.installedVersions), f.currentVersion))
  }

  function HomebrewOutcome(outdated: seq<Formula>): Outcome {
    Collect(outdated, HomebrewEntry)
  }

  /** Homebrew's sync yields one record per outdated formula, in order, with
      the highest installed version and the current version; it fails exactly
      when some formula lists no installed version. */
  lemma HomebrewRecords(outdated: seq<Formula>)
    ensures HomebrewOutcome(outdated).aborted
        <==> exists i :: 0 <= i < |outdated| && outdated[i].installedVersions == []
    ensures !HomebrewOutcome(outdated).aborted ==>
      var rs := HomebrewOutcome(outdated).records;
      && |rs| == |outdated|
      && forall i :: 0 <= i < |outdated| ==>
           && rs[i].name == outdated[i].name
           && rs[i].latestVersion == outdated[i].currentVersion
           && rs[i].installedVersion in outdated[i].installedVersions
           && forall v :: v in outdated[i].installedVersions ==> StrLe(v, rs[i].installedVersion)
  {
    CollectAborts(outdated, HomebrewEntry);
    if !HomebrewOutcome(outdated).aborted {
      assert forall i :: 0 <= i < |outdated| ==> HomebrewEntry(outdated[i]).Keep?;
      CollectOnePerEntry(outdated, HomebrewEntry);
    }
  }

  /** The example of installed versions 1.0, 1.2 and 1.1. */
  lemma HomebrewHighestInstalled()
    ensures HomebrewEntry(Formula("git", ["1.0", "1.2", "1.1"], "2.0")) == Keep(Update("git", "1.2", "2.0"))
  {
    var vs := ["1.0", "1.2", "1.1"];
    var m := MaxString(vs);
    assert StrLe("1.2", m);
    assert !StrLe("1.2", "1.0") && !StrLe("1.2", "1.1");
  }

  // ---------------------------------------------------------------------------
  // Cask.sync
  // ---------------------------------------------------------------------------

  /** `[v.strip() for v in vs if v.strip()]` */
  function StripNonBlank(vs: seq<string>): (r: seq<string>)
    ensures forall i :: 0 <= i < |r| ==> r[i] != []
  {
    if vs == [] then []
    else (if Strip(vs[0]) != [] then [Strip(vs[0])] else []) + StripNonBlank(vs[1..])
  }

  /** The kept entries are exactly the non-blank stripped ones. */
  lemma StripNonBlankMembers(vs: seq<string>, v: string)
    ensures v in StripNonBlank(vs) <==> v != [] && exists i :: 0 <= i < |vs| && Strip(vs[i]) == v
  {
    if v in StripNonBlank(vs) {
      StripNonBlankSound(vs, v);
    }
    if v != [] && exists i :: 0 <= i < |vs| && Strip(vs[i]) == v {
      var i :| 0 <= i < |vs| && Strip(vs[i]) == v;
      StripNonBlankComplete(vs, i);
    }
  }

  lemma {:induction false} StripNonBlankSound(vs: seq<string>, v: string)
    requires v in StripNonBlank(vs)
    ensures v != [] && exists i :: 0 <= i < |vs| && Strip(vs[i]) == v
  {
    var first := Strip(vs[0]);
    var rest := vs[1..];
    assert vs == [vs[0]] + rest;
    StripNonBlankCons(vs[0], rest);
    if first != [] && v == first {
      assert Strip(vs[0]) == v;
    } else {
      assert v in StripNonBlank(rest);
      StripNonBlankSound(rest, v);
      var i :| 0 <= i < |rest| && Strip(rest[i]) == v;
      assert vs[i + 1] == rest[i];
    }
  }

  lemma {:induction false} StripNonBlankComplete(vs: seq<string>, i: nat)
    requires i < |vs| && Strip(vs[i]) != []
    ensures Strip(vs[i]) in StripNonBlank(vs)
  {
    var rest := vs[1..];
    assert vs == [vs[0]] + rest;
    StripNonBlankCons(vs[0], rest);
    if i > 0 {
      assert rest[i - 1] == vs[i];
      StripNonBlankComplete(rest, i - 1);
    }
  }


  /** The indices `m <= i < n` that satisfy `p`. */
  function IndicesFrom(p: nat -> bool, m: nat, n: nat): set<nat> {
    set i: nat | m <= i < n && p(i)
  }

  lemma IndicesFromStep(p: nat -> bool, m: nat, n: nat)
    requires m < n
    ensures |IndicesFrom(p, m, n)| == |IndicesFrom(p, m + 1, n)| + (if p(m) then 1 else 0)
  {
    var a := IndicesFrom(p, m + 1, n);
    assert m !in a;
    if p(m) {
      assert IndicesFrom(p, m, n) == a + {m};
    } else {
      assert IndicesFrom(p, m, n) == a;
    }
  }

  /** Index `i` of `vs` is an entry that strips to `v`. */
  function StripsTo(vs: seq<string>, v: string): nat -> bool {
    (i: nat) => i < |vs| && Strip(vs[i]) == v
  }

  /** A non-blank `v` is kept once for every entry that strips to it. */
  lemma StripNonBlankCount(vs: seq<string>, v: string)
    requires v != []
    ensures multiset(StripNonBlank(vs))[v] == |set i: nat | i < |vs| && Strip(vs[i]) == v|
  {
    StripNonBlankCountFrom(vs, v, 0);
    assert vs[0..] == vs;
    IndicesOfStripsTo(vs, v);
  }

  lemma IndicesOfStripsTo(vs: seq<string>, v: string)
    ensures IndicesFrom(StripsTo(vs, v), 0, |vs|) == set i: nat | i < |vs| && Strip(vs[i]) == v
  {
  }

  lemma {:induction false} StripNonBlankCountFrom(vs: seq<string>, v: string, m: nat)
    requires v != [] && m <= |vs|
    ensures multiset(StripNonBlank(vs[m..]))[v] == |IndicesFrom(StripsTo(vs, v), m, |vs|)|
    decreases |vs| - m
  {
    if m == |vs| {
      assert IndicesFrom(StripsTo(vs, v), m, |vs|) == {};
    } else {
      StripNonBlankCountFrom(vs, v, m + 1);
      KeptStep(vs, v, m);
      IndicesFromStep(StripsTo(vs, v), m, |vs|);
    }
  }

  /** Entry `m` adds one to the count of `v` exactly when it strips to `v`. */
  lemma KeptStep(vs: seq<string>, v: string, m: nat)
    requires v != [] && m < |vs|
    ensures multiset(StripNonBlank(vs[m..]))[v]
         == multiset(StripNonBlank(vs[m + 1..]))[v] + (if StripsTo(vs, v)(m) then 1 else 0)
  {
    assert vs[m..] == [vs[m]] + vs[m + 1..];
    StripNonBlankCons(vs[m], vs[m + 1..]);
    KeptCount(StripNonBlank(vs[m + 1..]), vs[m], v);
  }

  lemma KeptCount(a: seq<string>, x: string, v: string)
    requires v != []
    ensures multiset(KeptOf(x) + a)[v] == multiset(a)[v] + (if Strip(x) == v then 1 else 0)
  {
  }

  /** What the comprehension keeps of one entry. */
  function KeptOf(x: string): seq<string> {
    if Strip(x) != [] then [Strip(x)] else []
  }

  /** The version entries of a `cask list --versions` line (after the name). */
  function CaskEntries(versions: string): seq<string> {
    Split(versions, ',')
  }

  /** The entries, stripped, without the blank ones. */
  function InstalledVersions(versions: string): seq<string> {
    StripNonBlank(CaskEntries(versions))
  }

  /** The first steps of `Cask.sync`'s installed-version heuristic on the
      non-blank entries: sort them, and remove one `latest` when more than
      one entry remains. */
  function Remaining(installed: seq<string>): seq<string> {
    var sorted := SortStrings(installed);
    if |sorted| > 1 && "latest" in sorted then RemoveFirst(sorted, "latest") else sorted
  }

  /** The last step: the greatest remaining entry, `?` when none remains. */
  function PickVersion(installed: seq<string>): string {
    var remaining := Remaining(installed);
    if remaining == [] then "?" else remaining[|remaining| - 1]
  }

  /** The version `Cask.sync` records for the version field of a listing line. */
  function CaskVersion(versions: string): string {
    PickVersion(InstalledVersions(versions))
  }

  /** The entries the heuristic chooses among: all of them, less one
      `latest` when there is more than one entry. */
  function Pool(installed: seq<string>): multiset<string> {
    if |installed| > 1 && "latest" in installed then multiset(installed) - multiset{"latest"}
    else multiset(installed)
  }

  /** Sorting keeps the length and the membership of `latest`. */
  lemma SortKeeps(installed: seq<string>)
    ensures |SortStrings(installed)| == |installed|
    ensures ("latest" in SortStrings(installed)) == ("latest" in installed)
  {
    var sorted := SortStrings(installed);
    assert |multiset(sorted)| == |multiset(installed)|;
    assert ("latest" in multiset(sorted)) == ("latest" in multiset(installed));
  }

  /** The remaining entries are sorted, hold exactly the pool, and are empty
      only when there was no entry. */
  lemma RemainingIsPool(installed: seq<string>)
    ensures Sorted(Remaining(installed))
    ensures multiset(Remaining(installed)) == Pool(installed)
    ensures Remaining(installed) == [] <==> installed == []
  {
    SortKeeps(installed);
  }

  /** `?` for no entries. */
  lemma PickVersionEmpty()
    ensures PickVersion([]) == "?"
  {
    RemainingIsPool([]);
  }

  /** Otherwise the greatest entry of the pool. */
  lemma PickVersionChoice(installed: seq<string>)
    requires installed != []
    ensures PickVersion(installed) in Pool(installed)
    ensures forall v :: v in Pool(installed) ==> StrLe(v, PickVersion(installed))
  {
    RemainingIsPool(installed);
    LastInPool(Remaining(installed), Pool(installed));
  }

  lemma LastInPool(remaining: seq<string>, pool: multiset<string>)
    requires remaining != [] && Sorted(remaining) && multiset(remaining) == pool
    ensures remaining[|remaining| - 1] in pool
    ensures forall v :: v in pool ==> StrLe(v, remaining[|remaining| - 1])
  {
    assert remaining[|remaining| - 1] in multiset(remaining);
    forall v | v in pool ensures StrLe(v, remaining[|remaining| - 1]) {
      assert v in multiset(remaining);
      LastIsGreatest(remaining, v);
    }
  }

  lemma PoolWithin(installed: seq<string>, r: string)
    requires r in Pool(installed)
    ensures r in installed
  {
    assert r in multiset(installed);
  }

  /** The result is `?` when all entries are blank, and, when no entry is
      literally `?`, only then. */
  lemma CaskVersionUnknown(versions: string)
    ensures (forall i :: 0 <= i < |CaskEntries(versions)| ==> Strip(CaskEntries(versions)[i]) == [])
        ==> CaskVersion(versions) == "?"
    ensures (forall i :: 0 <= i < |CaskEntries(versions)| ==> Strip(CaskEntries(versions)[i]) != "?")
        ==> (CaskVersion(versions) == "?"
             <==> forall i :: 0 <= i < |CaskEntries(versions)| ==> Strip(CaskEntries(versions)[i]) == [])
  {
    var es := CaskEntries(versions);
    var nb := InstalledVersions(versions);
    if nb == [] {
      PickVersionEmpty();
      forall i | 0 <= i < |es| ensures Strip(es[i]) == [] {
        StripNonBlankMembers(es, Strip(es[i]));
      }
    } else {
      PickVersionChoice(nb);
      StripNonBlankMembers(es, nb[0]);
      if CaskVersion(versions) == "?" {
        PoolWithin(nb, "?");
        StripNonBlankMembers(es, "?");
      }
    }
  }

  /** On a raw version field: with no entry `latest`, the version is the
      greatest stripped entry. */
  lemma CaskFieldGreatest(field: string, j: nat)
    requires j < |CaskEntries(field)| && Strip(CaskEntries(field)[j]) != []
    requires forall i :: 0 <= i < |CaskEntries(field)| ==> Strip(CaskEntries(field)[i]) != "latest"
    ensures exists i :: 0 <= i < |CaskEntries(field)| && Strip(CaskEntries(field)[i]) == CaskVersion(field)
    ensures forall i :: 0 <= i < |CaskEntries(field)| ==> StrLe(Strip(CaskEntries(field)[i]), CaskVersion(field))
  {
    var es, nb := CaskEntries(field), InstalledVersions(field);
    StripNonBlankMembers(es, Strip(es[j]));
    StripNonBlankMembers(es, "latest");
    assert Pool(nb) == multiset(nb);
    PickVersionChoice(nb);
    var r := CaskVersion(field);
    StripNonBlankMembers(es, r);
    forall i | 0 <= i < |es| ensures StrLe(Strip(es[i]), r) {
      KeptBelowChoice(es, nb, i, r);
    }
  }

  /** An entry whose strip is blank, or is kept by the comprehension, is below
      a bound of everything kept. */
  lemma KeptBelowChoice(es: seq<string>, nb: seq<string>, i: nat, r: string)
    requires nb == StripNonBlank(es) && i < |es|
    requires forall v :: v in multiset(nb) ==> StrLe(v, r)
    ensures StrLe(Strip(es[i]), r)
  {
    if Strip(es[i]) != [] {
      StripNonBlankMembers(es, Strip(es[i]));
      assert Strip(es[i]) in multiset(nb);
    }
  }

  /** On a raw version field: an entry `latest` listed once, beside another
      non-blank entry, is never chosen; the greatest other stripped entry is. */
  lemma CaskFieldDropsLatest(field: string, j: nat)
    requires j < |CaskEntries(field)|
    requires Strip(CaskEntries(field)[j]) != [] && Strip(CaskEntries(field)[j]) != "latest"
    requires |set i: nat | i < |CaskEntries(field)| && Strip(CaskEntries(field)[i]) == "latest"| == 1
    ensures CaskVersion(field) != "latest"
    ensures exists i :: 0 <= i < |CaskEntries(field)| && Strip(CaskEntries(field)[i]) == CaskVersion(field)
    ensures forall i :: 0 <= i < |CaskEntries(field)| && Strip(CaskEntries(field)[i]) != "latest" ==>
      StrLe(Strip(CaskEntries(field)[i]), CaskVersion(field))
  {
    var es, nb := CaskEntries(field), InstalledVersions(field);
    StripNonBlankCount(es, "latest");
    TwoKept(es, nb, j);
    PickVersionDropsLatest(nb);
    var r := CaskVersion(field);
    StripNonBlankMembers(es, r);
    forall i | 0 <= i < |es| && Strip(es[i]) != "latest" ensures StrLe(Strip(es[i]), r) {
      KeptOtherBelow(es, nb, i, r);
    }
  }

  lemma TwoKept(es: seq<string>, nb: seq<string>, j: nat)
    requires nb == StripNonBlank(es) && j < |es|
    requires Strip(es[j]) != [] && Strip(es[j]) != "latest"
    requires multiset(nb)["latest"] == 1
    ensures |nb| > 1
  {
    var v := Strip(es[j]);
    StripNonBlankMembers(es, v);
    assert "latest" in multiset(nb);
    TwoMembers(nb, v, "latest");
  }

  /** A sequence holding two different values has at least two elements. */
  lemma TwoMembers<T>(xs: seq<T>, x: T, y: T)
    requires x in xs && y in xs && x != y
    ensures |xs| > 1
  {
    var a :| 0 <= a < |xs| && xs[a] == x;
    var b :| 0 <= b < |xs| && xs[b] == y;
    assert a != b;
  }

  lemma KeptOtherBelow(es: seq<string>, nb: seq<string>, i: nat, r: string)
    requires nb == StripNonBlank(es) && i < |es| && Strip(es[i]) != "latest"
    requires forall v :: v in nb && v != "latest" ==> StrLe(v, r)
    ensures StrLe(Strip(es[i]), r)
  {
    if Strip(es[i]) != [] {
      StripNonBlankMembers(es, Strip(es[i]));
    }
  }

  /** On a raw version field: when `latest` is the only non-blank entry,
      however often it is listed, it is kept. */
  lemma CaskFieldLoneLatest(field: string)
    requires exists i :: 0 <= i < |CaskEntries(field)| && Strip(CaskEntries(field)[i]) == "latest"
    requires forall i :: 0 <= i < |CaskEntries(field)| ==>
      Strip(CaskEntries(field)[i]) == [] || Strip(CaskEntries(field)[i]) == "latest"
    ensures CaskVersion(field) == "latest"
  {
    var es, nb := CaskEntries(field), InstalledVersions(field);
    StripNonBlankMembers(es, "latest");
    forall v | v in nb ensures v == "latest" {
      StripNonBlankMembers(es, v);
    }
    PickVersionLoneLatest(nb);
  }

  /** A `latest` that is alone (however often it is listed) is kept. */
  lemma PickVersionLoneLatest(installed: seq<string>)
    requires installed != []
    requires forall v :: v in installed ==> v == "latest"
    ensures PickVersion(installed) == "latest"
  {
    PickVersionChoice(installed);
    PoolWithin(installed, PickVersion(installed));
  }

  /** A single `latest` beside other entries is dropped, and the result is
      the greatest of the others. */
  lemma PickVersionDropsLatest(installed: seq<string>)
    requires |installed| > 1 && multiset(installed)["latest"] == 1
    ensures PickVersion(installed) != "latest"
    ensures PickVersion(installed) in installed
    ensures forall v :: v in installed && v != "latest" ==> StrLe(v, PickVersion(installed))
  {
    PickVersionChoice(installed);
    PoolWithoutLatest(installed);
    PoolWithin(installed, PickVersion(installed));
  }

  lemma PoolWithoutLatest(installed: seq<string>)
    requires |installed| > 1 && multiset(installed)["latest"] == 1
    ensures "latest" !in Pool(installed)
    ensures forall v :: v in installed && v != "latest" ==> v in Pool(installed)
  {
    assert "latest" in multiset(installed);
    assert Pool(installed) == multiset(installed) - multiset{"latest"};
    forall v | v in installed && v != "latest" ensures v in Pool(installed) {
      assert v in multiset(installed);
    }
  }

  /** As written, `remove` drops only the first `latest`: when `latest` is
      listed twice, it stays in the pool, so it wins over every entry that
      sorts below it. */
  lemma PickVersionTwiceLatest(installed: seq<string>)
    requires |installed| > 1 && multiset(installed)["latest"] >= 2
    requires forall v :: v in installed ==> StrLe(v, "latest")
    ensures PickVersion(installed) == "latest"
  {
    PickVersionChoice(installed);
    PoolKeepsLatest(installed);
    PoolWithin(installed, PickVersion(installed));
    StrLeAntisym(PickVersion(installed), "latest");
  }

  lemma PoolKeepsLatest(installed: seq<string>)
    requires multiset(installed)["latest"] >= 2
    ensures "latest" in Pool(installed)
  {
    assert "latest" in multiset(installed);
    assert |installed| > 1 by {
      assert |multiset(installed)| == |installed|;
      assert multiset{"latest", "latest"} <= multiset(installed);
    }
  }

  /** `1.0, latest, latest` reports `latest`. */
  lemma CaskVersionTwiceLatest()
    ensures CaskVersion("1.0, latest, latest") == "latest"
  {
    assert "1.0, latest, latest" == "1.0" + ", " + "latest" + ", " + "latest";
    assert NoSpace("1.0") && ',' !in "1.0" && NoSpace("latest") && ',' !in "latest";
    ThreeWordVersions("1.0", "latest", "latest");
    PickTwiceLatestExample();
  }

  lemma PickTwiceLatestExample()
    ensures PickVersion(["1.0", "latest", "latest"]) == "latest"
  {
    var nb := ["1.0", "latest", "latest"];
    assert multiset(nb)["latest"] == 2;
    assert StrLe("1.0", "latest");
    StrLeRefl("latest");
    PickVersionTwiceLatest(nb);
  }

  /** `1.2, latest` reports `1.2`. */
  lemma CaskVersionNamedBeatsLatest()
    ensures CaskVersion("1.2, latest") == "1.2"
  {
    assert "1.2, latest" == "1.2" + ", " + "latest";
    assert NoSpace("1.2") && ',' !in "1.2" && NoSpace("latest") && ',' !in "latest";
    TwoWordVersions("1.2", "latest");
    PickDropsLatestExample();
  }

  /** `latest` alone reports `latest`. */
  lemma CaskVersionOnlyLatest()
    ensures CaskVersion("latest") == "latest"
  {
    assert NoSpace("latest") && ',' !in "latest";
    OneWordVersions("latest");
    PickVersionLoneLatest(["latest"]);
  }

  /** An empty version field reports `?`. */
  lemma CaskVersionEmptyField()
    ensures CaskVersion("") == "?"
  {
    EmptyFieldVersions();
    PickVersionEmpty();
  }

  lemma PickDropsLatestExample()
    ensures PickVersion(["1.2", "latest"]) == "1.2"
  {
    var nb := ["1.2", "latest"];
    assert multiset(nb)["latest"] == 1;
    PickVersionDropsLatest(nb);
    assert PickVersion(nb) in nb;
  }

  lemma EmptyFieldVersions()
    ensures InstalledVersions("") == []
  {
    assert CaskEntries("") == [""];
    assert StripNonBlank([""]) == [];
  }

  /** A field of one, two or three words separated by `, ` lists those
      words. */
  lemma OneWordVersions(x: string)
    requires x != [] && NoSpace(x) && ',' !in x
    ensures InstalledVersions(x) == [x]
  {
    CommaList(x, x, x);
    StripWord(x);
    NonBlankOne(x, x);
  }

  lemma TwoWordVersions(x: string, y: string)
    requires x != [] && NoSpace(x) && ',' !in x
    requires y != [] && NoSpace(y) && ',' !in y
    ensures InstalledVersions(x + ", " + y) == [x, y]
  {
    CommaList(x, y, y);
    StripWord(x);
    StripWord(y);
    NonBlankTwo(x, " " + y, x, y);
  }

  lemma ThreeWordVersions(x: string, y: string, z: string)
    requires x != [] && NoSpace(x) && ',' !in x
    requires y != [] && NoSpace(y) && ',' !in y
    requires z != [] && NoSpace(z) && ',' !in z
    ensures InstalledVersions(x + ", " + y + ", " + z) == [x, y, z]
  {
    CommaList(x, y, z);
    StripWord(x);
    StripWord(y);
    StripWord(z);
    NonBlankThree(x, " " + y, " " + z, x, y, z);
  }

  /** Stripping a word, or a word after one space, gives the word. */
  lemma StripWord(w: string)
    requires w != [] && NoSpace(w)
    ensures Strip(w) == w && Strip(" " + w) == w
  {
    StripNoop(w);
    LeadingSpaceStripped(w);
  }

  /** `x`, `x, y` and `x, y, z` split on commas. */
  lemma CommaList(x: string, y: string, z: string)
    requires ',' !in x && ',' !in y && ',' !in z
    ensures CaskEntries(x) == [x]
    ensures CaskEntries(x + ", " + y) == [x, " " + y]
    ensures CaskEntries(x + ", " + y + ", " + z) == [x, " " + y, " " + z]
  {
    SplitNoSep(x, ',');
    assert x + ", " + y == x + [','] + (" " + y);
    CommaPair(x, " " + y);
    CommaPair(" " + y, " " + z);
    assert x + ", " + y + ", " + z == x + [','] + ((" " + y) + [','] + (" " + z));
    SplitCons(x, ',', (" " + y) + [','] + (" " + z));
  }

  lemma CommaPair(x: string, y: string)
    requires ',' !in x && ',' !in y
    ensures Split(x + [','] + y, ',') == [x, y]
  {
    SplitNoSep(y, ',');
    SplitCons(x, ',', y);
  }

  lemma StripNonBlankCons(v: string, vs: seq<string>)
    ensures StripNonBlank([v] + vs) == KeptOf(v) + StripNonBlank(vs)
  {
    assert ([v] + vs)[1..] == vs;
  }

  lemma NonBlankOne(a: string, a': string)
    requires Strip(a) == a' && a' != []
    ensures StripNonBlank([a]) == [a']
  {
    StripNonBlankCons(a, []);
    assert [a] + [] == [a];
  }

  lemma NonBlankTwo(a: string, b: string, a': string, b': string)
    requires Strip(a) == a' && a' != [] && Strip(b) == b' && b' != []
    ensures StripNonBlank([a, b]) == [a', b']
  {
    NonBlankOne(b, b');
    StripNonBlankCons(a, [b]);
    assert [a] + [b] == [a, b];
  }

  lemma NonBlankThree(a: string, b: string, c: string, a': string, b': string, c': string)
    requires Strip(a) == a' && a' != [] && Strip(b) == b' && b' != [] && Strip(c) == c' && c' != []
    ensures StripNonBlank([a, b, c]) == [a', b', c']
  {
    NonBlankTwo(b, c, b', c');
    StripNonBlankCons(a, [b, c]);
    assert [a] + [b, c] == [a, b, c];
  }

  /** `output.split('\n')[0].split(' ')[1]`; `None` where Python raises
      IndexError because the first line has no space. */
  function InfoLatestVersion(infoOutput: string): (r: Option<string>)
    ensures r.Some? <==> ' ' in Split(infoOutput, '\n')[0]
  {
    var fields := Split(Split(infoOutput, '\n')[0], ' ');
    if |fields| < 2 then
      SplitNoSepIff(Split(infoOutput, '\n')[0]);
      None
    else
      SplitNoSepIff(Split(infoOutput, '\n')[0]);
      Some(fields[1])
  }

  lemma SplitNoSepIff(s: string)
    ensures ' ' in s <==> |Split(s, ' ')| >= 2
  {
    if ' ' in s {
      SplitOnceSplit(s, ' ');
    } else {
      SplitNoSep(s, ' ');
    }
  }

  /** One line `name v1, v2, ...` of `cask list --versions`, where `info`
      gives the output of `cask info <name>`. A line without a space raises
      ValueError; a package whose info output does not contain
      `Not installed` anywhere is skipped as up to date. */
  function CaskEntry(line: string, info: string -> string): LineResult {
    match SplitOnce(line, ' ')
    case None => Abort
    case Some((name, versions)) =>
      var infoOutput := info(name);
      if !Contains(infoOutput, "Not installed") then Skip
      else
        match InfoLatestVersion(infoOutput)
        case None => Abort
        case Some(latest) => Keep(Update(name, CaskVersion(versions), latest))
  }

  function CaskEntryFor(info: string -> string): string -> LineResult {
    line => CaskEntry(line, info)
  }

  lemma CaskEntryForApplies(info: string -> string, line: string)
    ensures CaskEntryFor(info)(line) == CaskEntry(line, info)
  {
  }

  /** The outcome of the first `i` listing lines. */
  function CaskPrefix(lines: seq<string>, info: string -> string, i: nat): Outcome
    requires i <= |lines|
  {
    Collect(lines[..i], CaskEntryFor(info))
  }

  lemma CaskPrefixNext(lines: seq<string>, info: string -> string, i: nat, r: LineResult)
    requires i < |lines| && !CaskPrefix(lines, info, i).aborted && r == CaskEntry(lines[i], info)
    ensures r.Abort? ==> Collect(lines, CaskEntryFor(info)) == Outcome(CaskPrefix(lines, info, i).records, true)
    ensures r.Skip? ==> CaskPrefix(lines, info, i + 1) == CaskPrefix(lines, info, i)
    ensures r.Keep? ==> CaskPrefix(lines, info, i + 1) == Outcome(CaskPrefix(lines, info, i).records + [r.record], false)
  {
    CaskEntryForApplies(info, lines[i]);
    CollectNext(lines, CaskEntryFor(info), i, r);
  }

  lemma CaskPrefixWhole(lines: seq<string>, info: string -> string)
    ensures CaskPrefix(lines, info, |lines|) == Collect(lines, CaskEntryFor(info))
  {
    assert lines[..|lines|] == lines;
  }

  function CaskLines(listing: string): seq<string> {
    Split(Strip(listing), '\n')
  }

  function CaskOutcome(listing: string, info: string -> string): Outcome {
    Collect(CaskLines(listing), CaskEntryFor(info))
  }

  /** Without an abort, the Cask records are exactly the listed packages whose
      info output contains `Not installed`: each records the installed version
      the heuristic picks and the second word of the info output's first
      line. */
  lemma CaskRecords(listing: string, info: string -> string, u: Update)
    requires !CaskOutcome(listing, info).aborted
    ensures u in CaskOutcome(listing, info).records <==>
      exists i :: 0 <= i < |CaskLines(listing)| &&
        var line := CaskLines(listing)[i];
        && SplitOnce(line, ' ').Some?
        && u.name == SplitOnce(line, ' ').value.0
        && Contains(info(u.name), "Not installed")
        && InfoLatestVersion(info(u.name)) == Some(u.latestVersion)
        && u.installedVersion == CaskVersion(SplitOnce(line, ' ').value.1)
  {
    var lines := CaskLines(listing);
    CollectMembers(lines, CaskEntryFor(info), u);
    assert forall i :: 0 <= i < |lines| ==> CaskEntryFor(info)(lines[i]) == CaskEntry(lines[i], info);
  }

  /** An empty listing makes `''.split(' ', 1)` fail to unpack, so Cask's
      sync raises when no cask is installed. */
  lemma CaskEmptyListingAborts(listing: string, info: string -> string)
    requires Strip(listing) == []
    ensures CaskOutcome(listing, info) == Outcome([], true)
  {
    assert CaskLines(listing) == [""];
    assert CaskLines(listing)[..0] == [];
  }

  // ---------------------------------------------------------------------------
  // Pip.sync
  // ---------------------------------------------------------------------------

  const LatestMarker: string := ") - Latest: "

  /** The three groups of `(\S+) \((.*)\) - Latest: (\S+)`. */
  datatype PipFields = PipFields(name: string, info: string, latest: string)

  /** `) - Latest: ` followed by a non-space starts at `j` of `body`, and
      `.*` can reach `j` (it does not cross a newline). */
  predicate MarkerAt(body: string, j: int) {
    && 0 <= j && j + |LatestMarker| < |body|
    && body[j..j + |LatestMarker|] == LatestMarker
    && !IsSpace(body[j + |LatestMarker|])
    && '\n' !in body[..j]
  }

  /** The greatest `j < n` with `MarkerAt(body, j)`: where the greedy `(.*)`
      stops after backtracking. */
  function LastMarkerBelow(body: string, n: nat): (r: Option<nat>)
    ensures r.Some? ==> r.value < n && MarkerAt(body, r.value)
    ensures r.Some? ==> forall k :: r.value < k < n ==> !MarkerAt(body, k)
    ensures r.None? ==> forall k :: 0 <= k < n ==> !MarkerAt(body, k)
  {
    if n == 0 then None
    else if MarkerAt(body, n - 1) then Some(n - 1)
    else LastMarkerBelow(body, n - 1)
  }

  /** `re.match(r'(\S+) \((.*)\) - Latest: (\S+)', line)`, written out: the
      name is the leading run of non-spaces and must be followed by ` (`; the
      installed info runs to the last `) - Latest: ` that a non-space follows;
      the latest version is the run of non-spaces after it. `None` where the
      source's `.groups()` is called on a failed match. */
  function ParsePipLine(line: string): Option<PipFields> {
    var n := NonSpaceRun(line);
    if n == 0 || n + 2 > |line| || line[n..n + 2] != " (" then None
    else ParsePipBody(line[..n], line[n + 2..])
  }

  /** The part of the match after `name (`. */
  function ParsePipBody(name: string, body: string): Option<PipFields> {
    match LastMarkerBelow(body, |body|)
    case None => None
    case Some(j) =>
      var rest := body[j + |LatestMarker|..];
      Some(PipFields(name, body[..j], rest[..NonSpaceRun(rest)]))
  }

  /** No marker starts after position `j` of `body`. */
  predicate NoMarkerAfter(body: string, j: nat) {
    forall k :: j < k < |body| ==> !MarkerAt(body, k)
  }

  /** The fields of a parsed line: name and version are non-empty runs of
      non-spaces, the info holds no newline, and no marker follows the one
      that ends the info. */
  lemma ParsePipLineFields(line: string, f: PipFields)
    requires ParsePipLine(line) == Some(f)
    ensures f.name != [] && NoSpace(f.name)
    ensures f.latest != [] && NoSpace(f.latest)
    ensures '\n' !in f.info
    ensures NoMarkerAfter(line[|f.name| + 2..], |f.info|)
  {
    var n := NonSpaceRun(line);
    ParsePipLineSplits(line);
    ParsePipBodyFields(line[..n], line[n + 2..]);
  }

  /** A parsed line is the name, ` (`, the info, `) - Latest: ` and the
      latest version, followed by nothing or by whitespace. */
  lemma ParsePipLineShape(line: string, f: PipFields)
    requires ParsePipLine(line) == Some(f)
    ensures var head := f.name + " (" + f.info + LatestMarker + f.latest;
      && |head| <= |line| && line[..|head|] == head
      && (|head| == |line| || IsSpace(line[|head|]))
  {
    var n := NonSpaceRun(line);
    ParsePipLineSplits(line);
    ParsePipBodyShape(line[..n], line[n + 2..], f);
    var tail :| PipBodyOf(line[n + 2..], f, tail);
    LineLayout(line, n, f, tail);
  }

  /** `body` is the info, the marker, the latest version and a tail that is
      empty or opens with whitespace. */
  predicate PipBodyOf(body: string, f: PipFields, tail: string) {
    body == f.info + (LatestMarker + (f.latest + tail)) && (tail == [] || IsSpace(tail[0]))
  }

  lemma LineLayout(line: string, n: nat, f: PipFields, tail: string)
    requires n + 2 <= |line| && line[..n] == f.name && line[n..n + 2] == " ("
    requires PipBodyOf(line[n + 2..], f, tail)
    ensures var head := f.name + " (" + f.info + LatestMarker + f.latest;
      && |head| <= |line| && line[..|head|] == head
      && (|head| == |line| || IsSpace(line[|head|]))
  {
    assert line == line[..n] + (line[n..n + 2] + line[n + 2..]);
    ShapeAssemble(line, line[n + 2..], f.name, f.info, f.latest, tail);
  }

  /** A matched line is its name, ` (` and a body that matches the rest. */
  lemma ParsePipLineSplits(line: string)
    requires ParsePipLine(line).Some?
    ensures var n := NonSpaceRun(line);
      && 0 < n && n + 2 <= |line| && line[n..n + 2] == " ("
      && ParsePipLine(line) == ParsePipBody(line[..n], line[n + 2..])
  {
  }

  lemma ParsePipBodyFields(name: string, body: string)
    requires ParsePipBody(name, body).Some?
    ensures var f := ParsePipBody(name, body).value;
      && f.name == name && f.latest != [] && NoSpace(f.latest) && '\n' !in f.info
      && NoMarkerAfter(body, |f.info|)
  {
    var j := LastMarkerBelow(body, |body|).value;
    MarkerSplit(body, j);
  }

  lemma ParsePipBodyShape(name: string, body: string, f: PipFields)
    requires ParsePipBody(name, body) == Some(f)
    ensures f.name == name
    ensures exists tail :: PipBodyOf(body, f, tail)
  {
    var j := LastMarkerBelow(body, |body|).value;
    var rest := body[j + |LatestMarker|..];
    var m := NonSpaceRun(rest);
    assert f == PipFields(name, body[..j], rest[..m]);
    ParsedBody(body, j);
    assert PipBodyOf(body, f, rest[m..]);
  }

  /** The body after ` (` splits at the last marker into the info, the
      marker, a non-empty run of non-spaces and a tail that is empty or
      opens with whitespace. */
  lemma ParsedBody(body: string, j: nat)
    requires LastMarkerBelow(body, |body|) == Some(j)
    ensures var rest := body[j + |LatestMarker|..];
      var m := NonSpaceRun(rest);
      && m > 0 && (m == |rest| || IsSpace(rest[m]))
      && body == body[..j] + (LatestMarker + (rest[..m] + rest[m..]))
      && '\n' !in body[..j]
      && NoMarkerAfter(body, j)
  {
    MarkerSplit(body, j);
    RunSplit(body[j + |LatestMarker|..]);
  }

  /** A marker at `j` splits the body into the text before it, the marker
      and a rest that opens with a non-space. */
  lemma MarkerSplit(body: string, j: nat)
    requires MarkerAt(body, j)
    ensures var rest := body[j + |LatestMarker|..];
      && body == body[..j] + (LatestMarker + rest)
      && rest != [] && !IsSpace(rest[0])
  {
    assert body[j + |LatestMarker|..][0] == body[j + |LatestMarker|];
    assert body == body[..j] + body[j..j + |LatestMarker|] + body[j + |LatestMarker|..];
  }

  lemma RunSplit(rest: string)
    requires rest != [] && !IsSpace(rest[0])
    ensures var m := NonSpaceRun(rest);
      m > 0 && (m == |rest| || IsSpace(rest[m])) && rest == rest[..m] + rest[m..]
  {
    assert rest == rest[..NonSpaceRun(rest)] + rest[NonSpaceRun(rest)..];
  }

  lemma ShapeAssemble(line: string, body: string, a: string, b: string, c: string, d: string)
    requires line == a + (" (" + body) && body == b + (LatestMarker + (c + d))
    ensures var head := a + " (" + b + LatestMarker + c;
      |head| <= |line| && line[..|head|] == head && line[|head|..] == d
  {
  }

  /** The inverse direction: a line assembled from a name, an info text, a
      version and a tail as pip prints them parses back into those three
      parts. The tail may hold e.g. ` [wheel]`, but no `:`. */
  lemma PipLineRoundTrip(name: string, info: string, latest: string, tail: string)
    requires name != [] && NoSpace(name)
    requires '\n' !in info
    requires latest != [] && NoSpace(latest)
    requires tail == [] || IsSpace(tail[0])
    requires ':' !in tail
    ensures ParsePipLine(name + " (" + info + LatestMarker + latest + tail)
         == Some(PipFields(name, info, latest))
  {
    var body := info + LatestMarker + latest + tail;
    assert name + " (" + info + LatestMarker + latest + tail == name + (" (" + body);
    PipNameSplit(name, body);
    PipBodySplit(body, info, latest, tail);
  }

  /** The name is the run of non-spaces before ` (`. */
  lemma PipNameSplit(name: string, body: string)
    requires name != [] && NoSpace(name)
    ensures var line := name + (" (" + body);
      && NonSpaceRun(line) == |name| && line[..|name|] == name
      && line[|name|..|name| + 2] == " (" && line[|name| + 2..] == body
  {
    NonSpaceRunConcat(name, " (" + body);
  }

  /** The info ends at the only marker, and the version is the run of
      non-spaces after it. */
  lemma PipBodySplit(body: string, info: string, latest: string, tail: string)
    requires body == info + LatestMarker + latest + tail
    requires '\n' !in info && latest != [] && NoSpace(latest)
    requires tail == [] || IsSpace(tail[0])
    requires ':' !in tail
    ensures LastMarkerBelow(body, |body|) == Some(|info|)
    ensures body[..|info|] == info
    ensures var rest := body[|info| + |LatestMarker|..]; rest[..NonSpaceRun(rest)] == latest
  {
    OnlyMarker(body, info, latest, tail);
    LastMarkerIs(body, |info|, |body|);
    BodyParts(body, info, latest, tail);
    NonSpaceRunConcat(latest, tail);
  }

  lemma BodyParts(body: string, info: string, latest: string, tail: string)
    requires body == info + LatestMarker + latest + tail
    ensures body[..|info|] == info && body[|info| + |LatestMarker|..] == latest + tail
  {
    assert body == info + (LatestMarker + (latest + tail));
  }

  /** In such a body, the marker after the info is the last one. */
  lemma OnlyMarker(body: string, info: string, latest: string, tail: string)
    requires body == info + LatestMarker + latest + tail
    requires '\n' !in info && latest != [] && NoSpace(latest)
    requires ':' !in tail
    ensures MarkerAt(body, |info|)
    ensures forall k :: |info| < k < |body| ==> !MarkerAt(body, k)
  {
    var j0 := |info|;
    var w := |LatestMarker|;
    assert body[j0..j0 + w] == LatestMarker;
    assert body[j0 + w] == latest[0];
    assert body[..j0] == info;
    forall k | j0 < k < |body| ensures !MarkerAt(body, k) {
      if k < j0 + w {
        assert body[k] == LatestMarker[k - j0];
        MismatchNoMarker(body, k, 0);
      } else if k + 1 < j0 + w + |latest| {
        assert body[k + 1] == latest[k + 1 - j0 - w];
        MismatchNoMarker(body, k, 1);
      } else {
        if k + 10 < |body| {
          assert body[k + 10] == tail[k + 10 - j0 - w - |latest|];
        }
        MismatchNoMarker(body, k, 10);
      }
    }
  }

  /** A marker cannot start at `k` when the character `d` places further on
      differs from the marker's `d`-th character. */
  lemma MismatchNoMarker(body: string, k: int, d: nat)
    requires d < |LatestMarker|
    requires 0 <= k + d < |body| ==> body[k + d] != LatestMarker[d]
    ensures !MarkerAt(body, k)
  {
    if 0 <= k && k + |LatestMarker| < |body| {
      assert body[k..k + |LatestMarker|][d] == body[k + d];
    }
  }

  lemma {:induction false} LastMarkerIs(body: string, j: nat, n: nat)
    requires j < n && MarkerAt(body, j)
    requires forall k :: j < k < n ==> !MarkerAt(body, k)
    ensures LastMarkerBelow(body, n) == Some(j)
  {
    if n - 1 != j {
      LastMarkerIs(body, j, n - 1);
    }
  }

  /** `installed_info.split(',', 1)`: the installed version is the text
      before the first comma; a location after it is appended to the name
      as ` (<location, stripped>)`. */
  function PipRecord(f: PipFields): Update {
    match SplitOnce(f.info, ',')
    case None => Update(f.name, f.info, f.latest)
    case Some((version, location)) => Update(f.name + " (" + Strip(location) + ")", version, f.latest)
  }

  /** The record keeps the latest version, and the location part appears in
      the name exactly when the info holds a comma. */
  lemma PipRecordShape(f: PipFields)
    ensures PipRecord(f).latestVersion == f.latest
    ensures ',' !in f.info ==> PipRecord(f) == Update(f.name, f.info, f.latest)
    ensures ',' in f.info ==>
      && f.info == PipRecord(f).installedVersion + [','] + f.info[|PipRecord(f).installedVersion| + 1..]
      && ',' !in PipRecord(f).installedVersion
      && PipRecord(f).name == f.name + " (" + Strip(f.info[|PipRecord(f).installedVersion| + 1..]) + ")"
  {
    if ',' in f.info {
      var (version, location) := SplitOnce(f.info, ',').value;
      assert f.info[|version| + 1..] == location;
    }
  }

  /** One line of `pip list --outdated`. */
  function PipEntry(line: string): LineResult {
    match ParsePipLine(line)
    case None => Abort
    case Some(f) => Keep(PipRecord(f))
  }

  /** The lines of the stripped output. */
  function PipLines(output: string): seq<string> {
    Split(Strip(output), '\n')
  }

  /** Nothing for empty output; otherwise the records of its lines. */
  function PipOutcome(output: string): Outcome {
    if Strip(output) == [] then Outcome([], false) else Collect(PipLines(output), PipEntry)
  }

  /** Empty output adds nothing and does not fail. */
  lemma PipRecordsEmpty(output: string)
    requires Strip(output) == []
    ensures PipOutcome(output) == Outcome([], false)
  {
  }

  /** Otherwise the run fails exactly when some line does not match. */
  lemma PipAborts(output: string)
    requires Strip(output) != []
    ensures var lines := PipLines(output);
      PipOutcome(output).aborted <==> exists i :: 0 <= i < |lines| && ParsePipLine(lines[i]).None?
  {
    PipLinesAbort(PipLines(output));
  }

  lemma PipLinesAbort(lines: seq<string>)
    ensures Collect(lines, PipEntry).aborted <==> exists i :: 0 <= i < |lines| && ParsePipLine(lines[i]).None?
  {
    CollectAborts(lines, PipEntry);
    if exists i :: 0 <= i < |lines| && ParsePipLine(lines[i]).None? {
      var i :| 0 <= i < |lines| && ParsePipLine(lines[i]).None?;
      PipEntryCases(lines[i]);
    }
    if exists i :: 0 <= i < |lines| && PipEntry(lines[i]) == Abort {
      var i :| 0 <= i < |lines| && PipEntry(lines[i]) == Abort;
      PipEntryCases(lines[i]);
    }
  }

  /** When every line matches, there is one record per line, in order. */
  lemma PipRecords(output: string)
    requires Strip(output) != [] && !PipOutcome(output).aborted
    ensures var lines := PipLines(output);
      && |PipOutcome(output).records| == |lines|
      && forall i :: 0 <= i < |lines| ==>
           ParsePipLine(lines[i]).Some? && PipOutcome(output).records[i] == PipRecord(ParsePipLine(lines[i]).value)
  {
    var lines := PipLines(output);
    PipAborts(output);
    forall i | 0 <= i < |lines| ensures PipEntry(lines[i]).Keep? {
      PipEntryCases(lines[i]);
    }
    CollectOnePerEntry(lines, PipEntry);
    forall i | 0 <= i < |lines|
      ensures ParsePipLine(lines[i]).Some? && PipEntry(lines[i]).record == PipRecord(ParsePipLine(lines[i]).value)
    {
      PipEntryCases(lines[i]);
    }
  }

  lemma PipEntryCases(line: string)
    ensures PipEntry(line) == Abort <==> ParsePipLine(line).None?
    ensures ParsePipLine(line).Some? ==> PipEntry(line) == Keep(PipRecord(ParsePipLine(line).value))
  {
  }

  /** A line whose info holds a version, a comma, a space and a location:
      the location moves next to the name. */
  lemma PipLocationEntry(name: string, version: string, location: string, latest: string)
    requires name != [] && NoSpace(name)
    requires ',' !in version && '\n' !in version
    requires '\n' !in location && location != [] && !IsSpace(location[0]) && !IsSpace(location[|location| - 1])
    requires latest != [] && NoSpace(latest)
    ensures PipEntry(name + " (" + (version + ", " + location) + LatestMarker + latest)
         == Keep(Update(name + " (" + location + ")", version, latest))
  {
    var info := version + ", " + location;
    var line := name + " (" + info + LatestMarker + latest;
    LocationInfo(version, location);
    assert line == line + "";
    PipLineRoundTrip(name, info, latest, "");
    PipLocationRecord(name, version, location, latest);
  }

  lemma LocationInfo(version: string, location: string)
    requires '\n' !in version && '\n' !in location
    ensures '\n' !in version + ", " + location
  {
  }

  lemma PipLocationRecord(name: string, version: string, location: string, latest: string)
    requires ',' !in version
    requires location != [] && !IsSpace(location[0]) && !IsSpace(location[|location| - 1])
    ensures PipRecord(PipFields(name, version + ", " + location, latest))
         == Update(name + " (" + location + ")", version, latest)
  {
    assert version + ", " + location == version + [','] + (" " + location);
    SplitOnceAt(version, ',', " " + location);
    LeadingSpaceStripped(location);
  }

  lemma LeadingSpaceStripped(w: string)
    requires w != [] && !IsSpace(w[0]) && !IsSpace(w[|w| - 1])
    ensures Strip(" " + w) == w
  {
    StripNoop(w);
    assert (" " + w)[1..] == w;
    assert TrimLeft(" " + w) == TrimLeft(w);
  }

  /** The line `foo (1.0, /custom/path) - Latest: 2.0`. */
  lemma PipCustomLocationExample()
    ensures PipEntry("foo (1.0, /custom/path) - Latest: 2.0") == Keep(Update("foo (/custom/path)", "1.0", "2.0"))
  {
    PipExampleLine();
    PipExampleName();
    PipExampleWords();
    PipLocationEntry("foo", "1.0", "/custom/path", "2.0");
  }

  /** The example line and record, as the parts they are made of. Each is
      a lemma of its own because proved inline, or as one lemma, they cost
      the solver many times more. */
  lemma PipExampleLine()
    ensures "foo (1.0, /custom/path) - Latest: 2.0" == "foo" + " (" + ("1.0" + ", " + "/custom/path") + LatestMarker + "2.0"
  {
  }

  lemma PipExampleName()
    ensures "foo (/custom/path)" == "foo" + " (" + "/custom/path" + ")"
  {
  }

  lemma PipExampleWords()
    ensures NoSpace("foo") && NoSpace("2.0") && ',' !in "1.0" && '\n' !in "1.0" && '\n' !in "/custom/path"
  {
  }

  // ---------------------------------------------------------------------------
  // The adapters as objects
  // ---------------------------------------------------------------------------

  /** Everything the three tools would print: Homebrew's decoded outdated
      list, Cask's listing and its per-package info output, Pip's outdated
      list. */
  datatype ToolOutputs = ToolOutputs(
    brewOutdated: seq<Formula>,
    caskListing: string,
    caskInfo: string -> string,
    pipOutdated: string)

  /** What `sync` of an adapter of kind `k` appends. */
  function SyncOutcome(k: Kind, out: ToolOutputs): Outcome {
    match k
    case Homebrew => HomebrewOutcome(out.brewOutdated)
    case Cask => CaskOutcome(out.caskListing, out.caskInfo)
    case Pip => PipOutcome(out.pipOutdated)
  }

  /** `Cask.sync`'s installed-version heuristic as the source writes it, on
      a local list that `remove` shortens in place. */
  method GuessVersion(field: string) returns (version: string)
    ensures version == CaskVersion(field)
  {
    var installed := InstalledVersions(field);
    var versions := SortStrings(installed);
    if |versions| > 1 && "latest" in versions {
      versions := RemoveFirst(versions, "latest");
      assert versions == Remaining(installed);
    } else {
      assert versions == Remaining(installed);
    }
    version := if versions != [] then versions[|versions| - 1] else "?";
    PickVersionOfRemaining(installed, versions);
  }

  lemma PickVersionOfRemaining(installed: seq<string>, versions: seq<string>)
    requires versions == Remaining(installed)
    ensures PickVersion(installed) == (if versions != [] then versions[|versions| - 1] else "?")
  {
  }

  /** The body of `Cask.sync`'s loop for listing line `i`, and what it does
      to the collected outcome. */
  method CaskStep(lines: seq<string>, info: string -> string, i: nat) returns (r: LineResult)
    requires i < |lines| && !CaskPrefix(lines, info, i).aborted
    ensures r.Abort? ==> Collect(lines, CaskEntryFor(info)) == Outcome(CaskPrefix(lines, info, i).records, true)
    ensures r.Skip? ==> CaskPrefix(lines, info, i + 1) == CaskPrefix(lines, info, i)
    ensures r.Keep? ==> CaskPrefix(lines, info, i + 1) == Outcome(CaskPrefix(lines, info, i).records + [r.record], false)
  {
    var parts := SplitOnce(lines[i], ' ');
    if parts.None? {
      r := Abort;
    } else {
      var (name, field) := parts.value;
      var version := GuessVersion(field);
      var infoOutput := info(name);
      if !Contains(infoOutput, "Not installed") {
        r := Skip;
      } else {
        var words := Split(Split(infoOutput, '\n')[0], ' ');
        if |words| < 2 {
          r := Abort;
        } else {
          r := Keep(Update(name, version, words[1]));
        }
      }
    }
    assert r == CaskEntry(lines[i], info);
    CaskPrefixNext(lines, info, i, r);
  }

  class Manager {
    const kind: Kind
    /** `self.updates`: the records `sync` has appended. */
    var updates: seq<Update>

    /** `PackageManager.__init__`: no updates yet. */
    constructor (kind: Kind)
      ensures this.kind == kind && updates == []
    {
      this.kind := kind;
      updates := [];
    }

    /** `Homebrew.sync`, after `brew update` and `brew outdated --json=v1`. */
    method SyncHomebrew(outdated: seq<Formula>) returns (ok: bool)
      requires kind == Homebrew
      modifies this
      ensures updates == old(updates) + HomebrewOutcome(outdated).records
      ensures ok == !HomebrewOutcome(outdated).aborted
    {
      for i := 0 to |outdated|
        invariant updates == old(updates) + Collect(outdated[..i], HomebrewEntry).records
        invariant !Collect(outdated[..i], HomebrewEntry).aborted
      {
        CollectStep(outdated, HomebrewEntry, i);
        var pkg := outdated[i];
        if pkg.installedVersions == [] {
          CollectStaysAborted(outdated, HomebrewEntry, i + 1);
          return false;
        }
        updates := updates + [Update(pkg.name, MaxString(pkg.installedVersions), pkg.currentVersion)];
      }
      assert outdated[..|outdated|] == outdated;
      return true;
    }

    /** `Cask.sync`, after `brew cask update` and `brew cask list --versions`;
        `info` stands for running `brew cask info <name>`. */
    method SyncCask(listing: string, info: string -> string) returns (ok: bool)
      requires kind == Cask
      modifies this
      ensures updates == old(updates) + CaskOutcome(listing, info).records
      ensures ok == !CaskOutcome(listing, info).aborted
    {
      ok := SyncCaskLines(CaskLines(listing), info);
    }

    /** The loop of `Cask.sync` over the listing's lines. */
    method SyncCaskLines(lines: seq<string>, info: string -> string) returns (ok: bool)
      requires kind == Cask
      modifies this
      ensures updates == old(updates) + Collect(lines, CaskEntryFor(info)).records
      ensures ok == !Collect(lines, CaskEntryFor(info)).aborted
    {
      for i := 0 to |lines|
        invariant updates == old(updates) + CaskPrefix(lines, info, i).records
        invariant !CaskPrefix(lines, info, i).aborted
      {
        var r := CaskStep(lines, info, i);
        if r.Abort? {
          return false;
        } else if r.Keep? {
          updates := updates + [r.record];
        }
      }
      CaskPrefixWhole(lines, info);
      return true;
    }

    /** `Pip.sync`, on the output of `pip list --outdated`. */
    method SyncPip(output: string) returns (ok: bool)
      requires kind == Pip
      modifies this
      ensures updates == old(updates) + PipOutcome(output).records
      ensures ok == !PipOutcome(output).aborted
    {
      if Strip(output) == [] {
        return true;
      }
      var lines := PipLines(output);
      for i := 0 to |lines|
        invariant updates == old(updates) + Collect(lines[..i], PipEntry).records
        invariant !Collect(lines[..i], PipEntry).aborted
      {
        var r: LineResult;
        var groups := ParsePipLine(lines[i]);
        if groups.None? {
          r := Abort;
        } else {
          var PipFields(name, installedInfo, latest) := groups.value;
          var parts := SplitOnce(installedInfo, ',');
          if parts.None? {
            r := Keep(Update(name, installedInfo, latest));
          } else {
            var (version, location) := parts.value;
            r := Keep(Update(name + " (" + Strip(location) + ")", version, latest));
          }
        }
        assert r == PipEntry(lines[i]);
        CollectNext(lines, PipEntry, i, r);
        if r.Abort? {
          return false;
        } else if r.Keep? {
          updates := updates + [r.record];
        }
      }
      assert lines[..|lines|] == lines;
      return true;
    }

    /** `manager.sync()`, dispatched on the adapter's class. */
    method Sync(out: ToolOutputs) returns (ok: bool)
      modifies this
      ensures updates == old(updates) + SyncOutcome(kind, out).records
      ensures ok == !SyncOutcome(kind, out).aborted
    {
      match kind
      case Homebrew => ok := SyncHomebrew(out.brewOutdated);
      case Cask => ok := SyncCask(out.caskListing, out.caskInfo);
      case Pip => ok := SyncPip(out.pipOutdated);
    }
  }
}
