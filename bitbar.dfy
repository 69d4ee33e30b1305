/** `PackageManager.bitbar_cli_format`: turns a shell command line into the
    `bash=<program> param1=<arg> param2=<arg> ...` attributes that the BitBar
    menu-bar host reads to run a command when a menu line is clicked. */
module BitBar {
  import opened Text

  /** The formatter unpacks `strip().split(' ', 1)` into two names, so the
      stripped command line must hold a space; Python raises ValueError
      otherwise. */
  predicate Formattable(fullCli: string) {
    ' ' in Strip(fullCli)
  }

  /** The program: the stripped command line up to its first space. */
  function Program(fullCli: string): string
    requires Formattable(fullCli)
  {
    SplitOnce(Strip(fullCli), ' ').value.0
  }

  /** The positional arguments: what follows the first space, split on every
      single space (so two spaces in a row give an empty argument). */
  function Arguments(fullCli: string): seq<string>
    requires Formattable(fullCli)
  {
    Split(SplitOnce(Strip(fullCli), ' ').value.1, ' ')
  }

  /** The attribute for the `k`-th positional argument. */
  function ParamAttribute(k: nat, arg: string): string {
    "param" + NatToString(k) + "=" + arg
  }

  /** ` param1=<ts[0]> param2=<ts[1]> ...` */
  function ParamAttributes(ts: seq<string>): string {
    if ts == [] then ""
    else ParamAttributes(ts[..|ts| - 1]) + " " + ParamAttribute(|ts|, ts[|ts| - 1])
  }

  /** What `bitbar_cli_format(fullCli)` returns. */
  function Schema(fullCli: string): string
    requires Formattable(fullCli)
  {
    "bash=" + Program(fullCli) + ParamAttributes(Arguments(fullCli))
  }

  /** A schema always starts with `bash=`. */
  lemma SchemaNonEmpty(fullCli: string)
    requires Formattable(fullCli)
    ensures Schema(fullCli)[..5] == "bash="
  {
  }

  /** The formatter as the source writes it: one `+=` per argument. */
  method BitBarCliFormat(fullCli: string) returns (bitbarCli: string)
    requires Formattable(fullCli)
    ensures bitbarCli == Schema(fullCli)
  {
    var parts := SplitOnce(Strip(fullCli), ' ');
    var cmd := parts.value.0;
    bitbarCli := "bash=" + cmd;
    var args := Split(parts.value.1, ' ');
    for index := 0 to |args|
      invariant bitbarCli == "bash=" + cmd + ParamAttributes(args[..index])
    {
      ParamAttributesStep(args, index);
      AppendAttribute("bash=" + cmd, ParamAttributes(args[..index]), index + 1, args[index]);
      bitbarCli := bitbarCli + " param" + NatToString(index + 1) + "=" + args[index];
    }
    assert args[..|args|] == args;
  }


  lemma ParamAttributesStep(ts: seq<string>, k: nat)
    requires k < |ts|
    ensures ParamAttributes(ts[..k + 1]) == ParamAttributes(ts[..k]) + " " + ParamAttribute(k + 1, ts[k])
  {
    assert ts[..k + 1][..k] == ts[..k];
  }

  lemma AppendAttribute(x: string, y: string, k: nat, arg: string)
    ensures x + y + " param" + NatToString(k) + "=" + arg == x + (y + " " + ParamAttribute(k, arg))
  {
  }

  /** The program and the arguments are exactly the space-separated tokens of
      the stripped command line, and joining them gives that line back: the
      host runs the command it was given. */
  lemma CommandLineRecovered(fullCli: string)
    requires Formattable(fullCli)
    ensures [Program(fullCli)] + Arguments(fullCli) == Split(Strip(fullCli), ' ')
    ensures Join([Program(fullCli)] + Arguments(fullCli), ' ') == Strip(fullCli)
  {
    SplitOnceSplit(Strip(fullCli), ' ');
    JoinSplit(Strip(fullCli), ' ');
  }

  /** The schema's space-separated attributes: `bash=<program>`, then
      `param<k>=<k-th argument>` for k = 1, 2, ... in order. */
  lemma SchemaAttributes(fullCli: string)
    requires Formattable(fullCli)
    ensures var fields := Split(Schema(fullCli), ' ');
      var args := Arguments(fullCli);
      && |fields| == 1 + |args|
      && fields[0] == "bash=" + Program(fullCli)
      && forall k :: 1 <= k <= |args| ==> fields[k] == ParamAttribute(k, args[k - 1])
  {
    JoinAttributes("bash=" + Program(fullCli), Arguments(fullCli));
    PiecesNoSpace(fullCli);
    SplitJoin(SchemaPieces(fullCli), ' ');
  }

  /** `bash=<program>` and the attributes, one per argument. */
  function SchemaPieces(fullCli: string): seq<string>
    requires Formattable(fullCli)
  {
    ["bash=" + Program(fullCli)] + AttributeList(Arguments(fullCli))
  }

  lemma PiecesNoSpace(fullCli: string)
    requires Formattable(fullCli)
    ensures forall i :: 0 <= i < |SchemaPieces(fullCli)| ==> ' ' !in SchemaPieces(fullCli)[i]
  {
    var pieces := SchemaPieces(fullCli);
    forall i | 0 <= i < |pieces| ensures ' ' !in pieces[i] {
      if i > 0 {
        AttributeNoSpace(fullCli, i);
      }
    }
  }

  function AttributeList(ts: seq<string>): (r: seq<string>)
    ensures |r| == |ts|
    ensures forall i :: 0 <= i < |ts| ==> r[i] == ParamAttribute(i + 1, ts[i])
  {
    seq(|ts|, i requires 0 <= i < |ts| => ParamAttribute(i + 1, ts[i]))
  }

  lemma AttributeNoSpace(fullCli: string, k: nat)
    requires Formattable(fullCli) && 1 <= k <= |Arguments(fullCli)|
    ensures ' ' !in ParamAttribute(k, Arguments(fullCli)[k - 1])
  {
    NatToStringNoSpace(k);
    SplitPiecesAvoidSeparator(SplitOnce(Strip(fullCli), ' ').value.1, ' ', k - 1);
  }

  lemma NatToStringNoSpace(n: nat)
    ensures ' ' !in NatToString(n)
  {
  }

  lemma {:induction false} JoinSnoc(xs: seq<string>, sep: char, y: string)
    requires |xs| >= 1
    ensures Join(xs + [y], sep) == Join(xs, sep) + [sep] + y
  {
    if |xs| > 1 {
      assert (xs + [y])[1..] == xs[1..] + [y];
      JoinSnoc(xs[1..], sep, y);
    }
  }

  lemma {:induction false} JoinAttributes(head: string, ts: seq<string>)
    ensures head + ParamAttributes(ts) == Join([head] + AttributeList(ts), ' ')
  {
    if ts != [] {
      var init := ts[..|ts| - 1];
      JoinAttributes(head, init);
      AttributeListSnoc(ts);
      JoinSnoc([head] + AttributeList(init), ' ', ParamAttribute(|ts|, ts[|ts| - 1]));
      assert [head] + AttributeList(ts) == [head] + AttributeList(init) + [ParamAttribute(|ts|, ts[|ts| - 1])];
    }
  }

  lemma AttributeListSnoc(ts: seq<string>)
    requires ts != []
    ensures AttributeList(ts) == AttributeList(ts[..|ts| - 1]) + [ParamAttribute(|ts|, ts[|ts| - 1])]
  {
  }

  /** A command line that starts with a non-space and has a space followed by
      a non-space can be formatted. */
  lemma FormattableWhen(s: string, k: nat)
    requires k + 1 < |s| && !IsSpace(s[0]) && s[k] == ' ' && !IsSpace(s[k + 1])
    ensures Formattable(s)
  {
    StripKeepsPrefix(s, k + 1);
    assert Strip(s)[k] == s[..k + 2][k];
  }

  /** Appending one whitespace-free word to a stripped command line appends
      exactly one attribute, numbered after the existing ones. */
  lemma AppendArgument(c: string, p: string)
    requires Formattable(c) && Strip(c) == c
    requires p != [] && NoSpace(p)
    ensures Formattable(c + " " + p)
    ensures Program(c + " " + p) == Program(c)
    ensures Arguments(c + " " + p) == Arguments(c) + [p]
    ensures Schema(c + " " + p) == Schema(c) + " " + ParamAttribute(|Arguments(c)| + 1, p)
  {
    AppendArgumentTokens(c, p);
    SchemaOneMore(c, c + " " + p, p);
  }

  lemma SchemaOneMore(s: string, t: string, p: string)
    requires Formattable(s) && Formattable(t)
    requires Program(t) == Program(s) && Arguments(t) == Arguments(s) + [p]
    ensures Schema(t) == Schema(s) + " " + ParamAttribute(|Arguments(s)| + 1, p)
  {
    ParamAttributesSnoc(Arguments(s), p);
    SpaceAfter("bash=" + Program(s), ParamAttributes(Arguments(s)), ParamAttribute(|Arguments(s)| + 1, p));
  }

  /** Regrouping a concatenation around one space; stated apart so that the
      grouping is proved without the schema's definitions in scope. */
  lemma SpaceAfter(h: string, x: string, y: string)
    ensures h + (x + " " + y) == h + x + " " + y
  {
  }

  lemma ParamAttributesSnoc(ts: seq<string>, p: string)
    ensures ParamAttributes(ts + [p]) == ParamAttributes(ts) + " " + ParamAttribute(|ts| + 1, p)
  {
    var s := ts + [p];
    ParamAttributesStep(s, |ts|);
    assert s[..|ts|] == ts && s[..|ts| + 1] == s && s[|ts|] == p;
  }

  /** Two arguments give two attributes, numbered 1 and 2. */
  lemma ParamAttributesTwo(h: string, a: string, b: string)
    ensures h + ParamAttributes([a, b]) == h + " " + ParamAttribute(1, a) + " " + ParamAttribute(2, b)
  {
    ParamAttributesSnoc([], a);
    ParamAttributesSnoc([a], b);
    assert [] + [a] == [a] && [a] + [b] == [a, b];
  }

  lemma AppendArgumentTokens(c: string, p: string)
    requires Formattable(c) && Strip(c) == c
    requires p != [] && NoSpace(p)
    ensures Formattable(c + " " + p)
    ensures Program(c + " " + p) == Program(c)
    ensures Arguments(c + " " + p) == Arguments(c) + [p]
  {
    var s := c + " " + p;
    AppendKeepsStripped(c, p);
    AppendSplitsAtProgram(c, p);
    var params := SplitOnce(c, ' ').value.1;
    assert forall k :: 0 <= k < |p| ==> p[k] != ' ';
    SplitSnoc(params, ' ', p);
  }

  lemma AppendKeepsStripped(c: string, p: string)
    requires Strip(c) == c && c != []
    requires p != [] && NoSpace(p)
    ensures Strip(c + " " + p) == c + " " + p
  {
    var s := c + " " + p;
    StripShape(c);
    assert s[0] == c[0] && s[|s| - 1] == p[|p| - 1];
    StripNoop(s);
  }

  lemma AppendSplitsAtProgram(c: string, p: string)
    requires ' ' in c
    ensures SplitOnce(c + " " + p, ' ').value
         == (SplitOnce(c, ' ').value.0, SplitOnce(c, ' ').value.1 + " " + p)
  {
    var s := c + " " + p;
    assert s == c + (" " + p);
    FindPrefix(c, " " + p, ' ');
    var i := Find(c, ' ');
    assert s[..i] == c[..i];
    assert s[i + 1..] == c[i + 1..] + " " + p;
  }

  lemma {:induction false} FindPrefix(a: string, b: string, c: char)
    requires c in a
    ensures Find(a + b, c) == Find(a, c)
  {
    if a[0] != c {
      assert (a + b)[1..] == a[1..] + b;
      FindPrefix(a[1..], b, c);
    }
  }

  lemma {:induction false} SplitSnoc(a: string, sep: char, b: string)
    requires sep !in b
    ensures Split(a + [sep] + b, sep) == Split(a, sep) + [b]
  {
    if a == [] {
      assert a + [sep] + b == [sep] + b;
      assert ([sep] + b)[1..] == b;
      SplitNoSep(b, sep);
    } else {
      assert (a + [sep] + b)[1..] == a[1..] + [sep] + b;
      SplitSnoc(a[1..], sep, b);
    }
  }
}
