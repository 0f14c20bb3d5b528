/** The configuration store: layering, exporting to the shell and reading the environment back (benchjson.py). */
module ConfigStore {
  import opened Prelude
  import opened Shell

  /** The JSON values a configuration holds. */
  datatype Val = Str(s: string) | Bool(b: bool)

  type Config = map<string, Val>

  /** Python's spelling of the truth values is changed into the shell's; every other string stays. */
  function TextOfString(s: string): string {
    if s == "True" then "true" else if s == "False" then "false" else s
  }

  function Text(v: Val): string {
    match v
    case Str(s) => TextOfString(s)
    case Bool(b) => if b then "true" else "false"
  }

  function UpperChar(c: char): char {
    if 'a' <= c <= 'z' then (c as int - 32) as char else c
  }

  function Upper(s: string): string {
    if s == "" then "" else [UpperChar(s[0])] + Upper(s[1..])
  }

  function Underscored(s: string): string {
    if s == "" then "" else [if s[0] == '-' then '_' else s[0]] + Underscored(s[1..])
  }

  /** The name export and new-config use for a key. */
  function ShellName(k: string): string {
    "BBAKE_" + Upper(Underscored(k))
  }

  /** The name update uses: hyphens stay. */
  function LookupName(k: string): string {
    "BBAKE_" + Upper(k)
  }

  /** Keys that name a shell variable: letters, digits, underscores and hyphens. */
  predicate ValidKey(k: string) {
    forall i :: 0 <= i < |k| ==> WordChar(k[i]) || k[i] == '-'
  }

  // ---- What names and texts are ----

  lemma UpperAppliesToChars(k: string)
    ensures |Upper(k)| == |k| && forall i :: 0 <= i < |k| ==> Upper(k)[i] == UpperChar(k[i])
  {
  }

  lemma UnderscoredAppliesToChars(k: string)
    ensures |Underscored(k)| == |k| && forall i :: 0 <= i < |k| ==>
      Underscored(k)[i] == if k[i] == '-' then '_' else k[i]
  {
  }

  /** Each letter becomes the one at its place in the alphabet, and everything else stays. */
  predicate IsCapital(c: char, u: char) {
    (forall j :: 0 <= j < 26 && c == Lower[j] ==> u == Capitals[j]) && (c !in Lower ==> u == c)
  }

  lemma UpperCharIsCapital(c: char)
    ensures IsCapital(c, UpperChar(c)) && UpperChar(c) !in Lower
  {
    ListsAreRanges(UpperChar(c));
    IsCapitalOf(c);
  }

  lemma IsCapitalOf(c: char)
    ensures IsCapital(c, UpperChar(c))
  {
    ListsAreRanges(c);
    forall j | 0 <= j < 26 && c == Lower[j]
      ensures UpperChar(c) == Capitals[j]
    {
      Alphabet();
    }
  }

  /**
  A key's variable, character by character: the prefix, then the key with capital letters; hyphens are underscores in
  the name that is exported, and stay in the one that update looks up.
  */
  lemma NamesOfKey(k: string, i: nat)
    requires i < |k|
    ensures |ShellName(k)| == |LookupName(k)| == 6 + |k| && ShellName(k)[..6] == LookupName(k)[..6] == "BBAKE_"
    ensures if k[i] == '-' then ShellName(k)[6 + i] == '_' else IsCapital(k[i], ShellName(k)[6 + i])
    ensures IsCapital(k[i], LookupName(k)[6 + i])
    ensures ShellName(k)[6 + i] !in Lower && LookupName(k)[6 + i] !in Lower
  {
    UpperAppliesToChars(k);
    UnderscoredAppliesToChars(k);
    UpperAppliesToChars(Underscored(k));
    UpperCharIsCapital(k[i]);
    UpperCharIsCapital(Underscored(k)[i]);
    assert ShellName(k)[6 + i] == Upper(Underscored(k))[i] && LookupName(k)[6 + i] == Upper(k)[i];
    assert ShellName(k)[..6] == "BBAKE_" && LookupName(k)[..6] == "BBAKE_";
  }

  /** The texts of the truth values, and that every other string is printed as it is. */
  lemma TextIs(v: Val)
    ensures Text(v) == "true" <==> v == Bool(true) || v == Str("True") || v == Str("true")
    ensures Text(v) == "false" <==> v == Bool(false) || v == Str("False") || v == Str("false")
    ensures v.Str? && v != Str("True") && v != Str("False") ==> Text(v) == v.s
    ensures IsSpelled(v, Text(v))
  {
  }

  // ---- Export ----

  type Items = seq<(string, Val)>

  function Head(k: string): string {
    "export " + ShellName(k) + "="
  }

  function Line(k: string, v: Val): string {
    Head(k) + Quote(Text(v)) + "\n"
  }

  function Printed(items: Items): string {
    if items == [] then "" else
      Printed(items[..|items| - 1]) + Line(items[|items| - 1].0, items[|items| - 1].1)
  }

  method ShellExport(items: Items) returns (out: string)
    ensures out == Printed(items)
  {
    out := "";
    for i := 0 to |items|
      invariant out == Printed(items[..i])
    {
      var (k, v) := items[i];
      var text := match v { case Str(s) => s case Bool(b) => if b then "True" else "False" };
      if text == "True" {
        text := "true";
      }
      if text == "False" {
        text := "false";
      }
      var line := "export " + ShellName(k) + "=" + Quote(text) + "\n";
      assert line == Line(k, v);
      out := out + line;
      assert items[..i + 1][..i] == items[..i];
    }
    assert items[..|items|] == items;
  }

  predicate ValidKeys(items: Items) {
    forall i :: 0 <= i < |items| ==> ValidKey(items[i].0)
  }

  /** The environment after the assignments the items ask for, each value seen through f. */
  function Assigned(env: Env, items: Items, f: string -> string): Env {
    if items == [] then env
    else Assigned(env, items[..|items| - 1], f)[ShellName(items[|items| - 1].0) := f(Text(items[|items| - 1].1))]
  }

  const Same := (s: string) => s

  lemma {:induction false} ShellNameChars(k: string)
    requires ValidKey(k)
    ensures forall i :: 0 <= i < |Upper(Underscored(k))| ==> WordChar(Upper(Underscored(k))[i])
  {
    if k != "" {
      ShellNameChars(k[1..]);
      var rest := Upper(Underscored(k[1..]));
      var c := UpperChar(if k[0] == '-' then '_' else k[0]);
      assert Underscored(k)[1..] == Underscored(k[1..]);
      assert Upper(Underscored(k)) == [c] + rest;
      assert WordChar(c);
    }
  }

  lemma ShellNameIsName(k: string)
    requires ValidKey(k)
    ensures ValidName(ShellName(k)) && Ordinary(ShellName(k)) && '=' !in ShellName(k)
  {
    ShellNameChars(k);
    var rest := Upper(Underscored(k));
    forall i | 0 <= i < |ShellName(k)|
      ensures WordChar(ShellName(k)[i])
    {
      if i >= 6 {
        assert ShellName(k)[i] == rest[i - 6];
      }
    }
  }

  /** The words of the command a line is read as. */
  function Words(k: string, text: string): seq<string> {
    ["export", ShellName(k) + "=" + text]
  }

  lemma ReadFirst(r: Reader, s: string)
    requires r.Reading? && r.mode == Plain && r.word.None? && s != "" && Ordinary(s)
    ensures Read(r, s) == r.(word := Some(s))
  {
    ReadOrdinary(r, s);
    assert "" + s == s;
  }

  lemma ExportIsOrdinary()
    ensures Ordinary("export")
  {
  }

  lemma ReadSpace(r: Reader, rest: string)
    requires r.Reading? && r.mode == Plain && r.word.Some?
    ensures Read(r, " " + rest) == Read(r.(words := r.words + [r.word.value], word := None), rest)
  {
    assert (" " + rest)[1..] == rest;
  }

  lemma ReadExportWord(r: Reader, rest: string)
    requires r.Reading? && r.mode == Plain && r.word.None?
    ensures Read(r, "export" + (" " + rest)) == Read(r.(words := r.words + ["export"]), rest)
  {
    ExportIsOrdinary();
    var e := "export";
    ReadFirst(r, e);
    ReadAppend(r, e, " " + rest);
    ReadSpace(r.(word := Some(e)), rest);
  }

  /** A printed assignment, whatever comes after its value, is read as the two words of its command. */
  lemma ReadAssignment(r: Reader, k: string, text: string)
    requires r.Reading? && r.mode == Plain && r.word.None? && ValidKey(k)
    ensures Read(r, Head(k) + Quote(text)) == r.(words := r.words + ["export"], word := Some(ShellName(k) + "=" + text))
  {
    var name := ShellName(k) + "=";
    var r2 := r.(words := r.words + ["export"]);
    assert Head(k) + Quote(text) == "export" + (" " + (name + Quote(text)));
    ReadExportWord(r, name + Quote(text));
    ReadAppend(r2, name, Quote(text));
    ReadName(r2, k);
    ReadQuoted(r2.(word := Some(name)), text);
  }

  lemma ReadName(r: Reader, k: string)
    requires r.Reading? && r.mode == Plain && r.word.None? && ValidKey(k)
    ensures Read(r, ShellName(k) + "=") == r.(word := Some(ShellName(k) + "="))
  {
    ShellNameIsName(k);
    ReadFirst(r, ShellName(k) + "=");
  }

  /** The commands a printed configuration is read as. */
  function CommandsOf(items: Items): seq<seq<string>> {
    if items == [] then []
    else CommandsOf(items[..|items| - 1]) + [Words(items[|items| - 1].0, Text(items[|items| - 1].1))]
  }

  lemma {:induction false} ReadPrinted(items: Items)
    requires ValidKeys(items)
    ensures Read(Start, Printed(items)) == Reading(Plain, None, [], CommandsOf(items))
    decreases |items|
  {
    if items != [] {
      var init := items[..|items| - 1];
      var (k, v) := items[|items| - 1];
      ReadPrinted(init);
      var r := Read(Start, Printed(init));
      ReadAppend(Start, Printed(init), Line(k, v));
      ReadAppend(r, Head(k) + Quote(Text(v)), "\n");
      ReadAssignment(r, k, Text(v));
      assert "\n"[1..] == "";
      assert [] + ["export"] + [ShellName(k) + "=" + Text(v)] == Words(k, Text(v));
    }
  }

  lemma {:induction false} FirstEqualsAfter(a: string, b: string)
    requires '=' !in a
    ensures FirstEquals(a + "=" + b) == |a|
    decreases |a|
  {
    if a != "" {
      FirstEqualsAfter(a[1..], b);
      assert (a + "=" + b)[1..] == a[1..] + "=" + b;
    }
  }

  lemma ExportSets(env: Env, k: string, text: string)
    requires ValidKey(k)
    ensures ExportArg(env, ShellName(k) + "=" + text) == Some(env[ShellName(k) := text])
  {
    ShellNameIsName(k);
    FirstEqualsAfter(ShellName(k), text);
    var arg := ShellName(k) + "=" + text;
    assert arg[..|ShellName(k)|] == ShellName(k) && arg[|ShellName(k)| + 1..] == text;
  }

  lemma ExportSetsOne(env: Env, k: string, text: string)
    requires ValidKey(k)
    ensures ExportArgs(env, [ShellName(k) + "=" + text]) == Some(env[ShellName(k) := text])
    ensures ExportArgs(env, Words(k, text)) == ExportArgs(env, [ShellName(k) + "=" + text])
  {
    ExportSets(env, k, text);
    ExportWordSetsNothing(env);
    var one := [ShellName(k) + "=" + text];
    assert one[1..] == [];
    assert Words(k, text)[1..] == one;
  }

  /** The word export among the arguments only marks a variable of that name. */
  lemma ExportWordSetsNothing(env: Env)
    ensures ExportArg(env, "export") == Some(env)
  {
    assert FirstEquals("export") == 6 by {
      assert forall i :: 0 <= i < 6 ==> "export"[i] != '=';
    }
    assert "export"[..6] == "export";
  }

  lemma {:induction false} RunOneMore(env: Env, commands: seq<seq<string>>, k: string, text: string)
    requires RunCommands(env, commands).Some? && ValidKey(k)
    ensures RunCommands(env, commands + [Words(k, text)])
      == Some(RunCommands(env, commands).value[ShellName(k) := text])
    decreases |commands|
  {
    var all := commands + [Words(k, text)];
    if commands == [] {
      ExportSetsOne(env, k, text);
      assert all[0] == Words(k, text) && all[1..] == [];
      assert Words(k, text)[1..] == [ShellName(k) + "=" + text];
    } else {
      assert all[0] == commands[0] && all[1..] == commands[1..] + [Words(k, text)];
      var env' := ExportArgs(env, commands[0][1..]).value;
      RunOneMore(env', commands[1..], k, text);
    }
  }

  lemma {:induction false} RunPrinted(env: Env, items: Items)
    requires ValidKeys(items)
    ensures RunCommands(env, CommandsOf(items)) == Some(Assigned(env, items, Same))
    decreases |items|
  {
    if items != [] {
      var init := items[..|items| - 1];
      var (k, v) := items[|items| - 1];
      RunPrinted(env, init);
      RunOneMore(env, CommandsOf(init), k, Text(v));
    }
  }

  /**
  Printing a configuration and running what was printed as a script assigns to every key's variable exactly its
  value, whatever characters it has, truth values normalised; of two keys with one name the later one wins.
  */
  lemma ExportReadsBack(env: Env, items: Items)
    requires ValidKeys(items)
    ensures RunScript(env, Printed(items)) == Some(Assigned(env, items, Same))
  {
    ReadPrinted(items);
    RunPrinted(env, items);
  }

  lemma SubstitutionDropsLastNewline(items: Items, k: string, v: Val)
    ensures Substituted(Printed(items) + Line(k, v)) == Printed(items) + (Head(k) + Quote(Text(v)))
  {
    QuoteEnds(Text(v));
    DropsLastNewline(Printed(items), Head(k), Quote(Text(v)));
  }

  lemma DropsLastNewline(a: string, b: string, q: string)
    requires q != "" && !Blank(q[|q| - 1])
    ensures Substituted(a + (b + q + "\n")) == a + (b + q)
  {
    var p := a + (b + q);
    assert p[|p| - 1] == q[|q| - 1];
    assert a + (b + q + "\n") == p + "\n";
    assert (p + "\n")[..|p|] == p;
  }

  /** The form the exports are meant for, eval "$(...)": the substitution drops the newline at the end, and no value. */
  lemma QuotedEvalReadsBack(env: Env, items: Items)
    requires ValidKeys(items)
    ensures RunScript(env, Substituted(Printed(items))) == Some(Assigned(env, items, Same))
  {
    if items != [] {
      var init := items[..|items| - 1];
      var (k, v) := items[|items| - 1];
      SubstitutionDropsLastNewline(init, k, v);
      ReadPrinted(init);
      ReadAppend(Start, Printed(init), Head(k) + Quote(Text(v)));
      ReadAssignment(Read(Start, Printed(init)), k, Text(v));
      assert [] + ["export"] + [ShellName(k) + "=" + Text(v)] == Words(k, Text(v));
      RunPrinted(env, items);
    }
  }

  // ---- The unquoted eval ----

  lemma SqueezeLine(k: string, v: Val)
    requires ValidKey(k)
    ensures Squeeze(Line(k, v)) == Head(k) + Quote(Squeeze(Text(v))) + " "
  {
    SqueezeHeadOfLine(k);
    SqueezeHeadAndValue(Head(k), Text(v));
    SqueezeNewline(Head(k), Quote(Text(v)));
  }

  lemma SqueezeHeadAndValue(head: string, text: string)
    requires Squeeze(head) == head
    ensures Squeeze(head + Quote(text)) == head + Quote(Squeeze(text))
    ensures Quote(text) != "" && !Blank(Quote(text)[|Quote(text)| - 1])
  {
    QuoteEnds(text);
    SqueezeQuoted(text);
    SqueezeAppend(head, Quote(text));
  }

  lemma SqueezeNewline(a: string, q: string)
    requires q != "" && !Blank(q[|q| - 1])
    ensures Squeeze(a + q + "\n") == Squeeze(a + q) + " "
  {
    var b := a + q;
    assert b[|b| - 1] == q[|q| - 1];
    SqueezeAppend(b, "\n");
    assert "\n"[1..] == "" && " " + "" == " ";
  }

  lemma SqueezeHeadOfLine(k: string)
    requires ValidKey(k)
    ensures Squeeze(Head(k)) == Head(k)
  {
    var name := ShellName(k) + "=";
    SqueezeExportWord();
    SqueezeName(k);
    assert Head(k) == "export " + name;
    SqueezeAppend("export ", name);
  }

  lemma SqueezeExportWord()
    ensures Squeeze("export ") == "export "
  {
    SqueezeKeepsExactly("export ");
  }

  lemma SqueezeName(k: string)
    requires ValidKey(k)
    ensures Squeeze(ShellName(k) + "=") == ShellName(k) + "=" && !Blank((ShellName(k) + "=")[0])
  {
    ShellNameIsName(k);
    SqueezeKeepsExactly(ShellName(k) + "=");
  }

  /** The words an unquoted eval sees: one command, since the newlines between the lines have become spaces. */
  function AllWords(items: Items): seq<string> {
    if items == [] then []
    else AllWords(items[..|items| - 1]) + Words(items[|items| - 1].0, Squeeze(Text(items[|items| - 1].1)))
  }

  lemma ReadSpacedAssignment(r: Reader, k: string, text: string)
    requires r.Reading? && r.mode == Plain && r.word.None? && ValidKey(k)
    ensures Read(r, Head(k) + Quote(text) + " ") == r.(words := r.words + Words(k, text))
  {
    ReadAppend(r, Head(k) + Quote(text), " ");
    ReadAssignment(r, k, text);
    assert " "[1..] == "";
    assert r.words + ["export"] + [ShellName(k) + "=" + text] == r.words + Words(k, text);
  }

  lemma {:induction false} ReadSqueezed(items: Items)
    requires ValidKeys(items)
    ensures Read(Start, Squeeze(Printed(items))) == Reading(Plain, None, AllWords(items), [])
    decreases |items|
  {
    if items != [] {
      var init := items[..|items| - 1];
      var (k, v) := items[|items| - 1];
      var text := Squeeze(Text(v));
      ReadSqueezed(init);
      assert Line(k, v)[0] == 'e';
      SqueezeAppend(Printed(init), Line(k, v));
      SqueezeLine(k, v);
      var r := Read(Start, Squeeze(Printed(init)));
      ReadAppend(Start, Squeeze(Printed(init)), Head(k) + Quote(text) + " ");
      ReadSpacedAssignment(r, k, text);
    }
  }

  lemma {:induction false} ExportArgsAppend(env: Env, a: seq<string>, b: seq<string>)
    requires ExportArgs(env, a).Some?
    ensures ExportArgs(env, a + b) == ExportArgs(ExportArgs(env, a).value, b)
    decreases |a|
  {
    if a == [] {
      assert a + b == b;
    } else {
      assert (a + b)[1..] == a[1..] + b;
      ExportArgsAppend(ExportArg(env, a[0]).value, a[1..], b);
    }
  }

  lemma {:induction false} RunAllWords(env: Env, items: Items)
    requires ValidKeys(items)
    ensures ExportArgs(env, AllWords(items)) == Some(Assigned(env, items, Squeeze))
    ensures items != [] ==> AllWords(items) != [] && AllWords(items)[0] == "export"
    decreases |items|
  {
    if items != [] {
      var init := items[..|items| - 1];
      var (k, v) := items[|items| - 1];
      var text := Squeeze(Text(v));
      RunAllWords(env, init);
      var env' := Assigned(env, init, Squeeze);
      ExportArgsAppend(env, AllWords(init), Words(k, text));
      ExportSetsOne(env', k, text);
    }
  }

  lemma {:induction false} PrintedEnds(items: Items)
    requires items != []
    ensures Printed(items) != "" && Printed(items)[0] == 'e' && Printed(items)[|Printed(items)| - 1] == '\n'
    decreases |items|
  {
    if |items| > 1 {
      PrintedEnds(items[..|items| - 1]);
    }
  }

  /** A text that reads as one command with a space after it reads as that command without. */
  lemma SpaceAtTheEnd(s: string, words: seq<string>)
    requires Read(Start, s + " ") == Reading(Plain, None, words, []) && words != []
    ensures Commands(s) == Some([words])
  {
    ReadAppend(Start, s, " ");
    assert " "[1..] == "";
    var r := Read(Start, s);
    assert Step(r, ' ') == Reading(Plain, None, words, []);
    assert EndCommand(r).commands == [] + [words] == [words];
  }

  lemma RunOneCommand(env: Env, words: seq<string>)
    requires words != [] && words[0] == "export"
    ensures RunCommands(env, [words]) == ExportArgs(env, words)
  {
    ExportWordSetsNothing(env);
    var commands: seq<seq<string>> := [words];
    assert |commands[1..]| == 0;
  }

  lemma EvalTextIsSqueezed(items: Items)
    requires items != []
    ensures EvalText(Printed(items)) + " " == Squeeze(Printed(items))
  {
    PrintedEnds(items);
    EvalTextOfEnded(Printed(items));
  }

  lemma EvalTextOfEnded(p: string)
    requires p != "" && !Blank(p[0]) && p[|p| - 1] == '\n'
    ensures EvalText(p) + " " == Squeeze(p)
  {
    SubstitutionKeepsFields(p);
    JoinOfFields(p);
  }

  /**
  The form the tuskfiles use, eval $(...) without double quotes, reads the whole output as a single export
  command and assigns every value with its runs of blanks squeezed to one space.
  */
  lemma UnquotedEvalSqueezes(env: Env, items: Items)
    requires ValidKeys(items)
    ensures RunScript(env, EvalText(Printed(items))) == Some(Assigned(env, items, Squeeze))
  {
    if items != [] {
      EvalTextIsSqueezed(items);
      ReadSqueezed(items);
      RunAllWords(env, items);
      SpaceAtTheEnd(EvalText(Printed(items)), AllWords(items));
      RunOneCommand(env, AllWords(items));
    }
  }

  /** No two keys of a configuration share a variable. */
  predicate DistinctNames(items: Items) {
    forall i, j :: 0 <= i < j < |items| ==> ShellName(items[i].0) != ShellName(items[j].0)
  }

  /** Items that share a variable agree on its value, seen through f. */
  predicate Consistent(items: Items, f: string -> string) {
    forall i, j :: 0 <= i < j < |items| && ShellName(items[i].0) == ShellName(items[j].0) ==>
      f(Text(items[i].1)) == f(Text(items[j].1))
  }

  lemma {:induction false} AssignedIs(env: Env, items: Items, f: string -> string)
    requires Consistent(items, f)
    ensures forall i :: 0 <= i < |items| ==>
      ShellName(items[i].0) in Assigned(env, items, f)
      && Assigned(env, items, f)[ShellName(items[i].0)] == f(Text(items[i].1))
    ensures forall n ::
      n in Assigned(env, items, f) && (forall i :: 0 <= i < |items| ==> n != ShellName(items[i].0)) ==>
        n in env && Assigned(env, items, f)[n] == env[n]
    ensures forall n :: n in env ==> n in Assigned(env, items, f)
    decreases |items|
  {
    if items != [] {
      var k := |items| - 1;
      var init := items[..k];
      AssignedIs(env, init, f);
      forall i | 0 <= i < |items|
        ensures ShellName(items[i].0) in Assigned(env, items, f)
        ensures Assigned(env, items, f)[ShellName(items[i].0)] == f(Text(items[i].1))
      {
        if i < k {
          assert init[i] == items[i];
        }
      }
      forall n | n in Assigned(env, items, f) && (forall i :: 0 <= i < |items| ==> n != ShellName(items[i].0))
        ensures n in env && Assigned(env, items, f)[n] == env[n]
      {
        assert forall i :: 0 <= i < |init| ==> init[i] == items[i];
        assert n != ShellName(items[k].0);
      }
    }
  }

  /** With distinct variables, a script recovers every value. */
  lemma ScriptRecoversEveryValue(env: Env, items: Items, i: nat)
    requires ValidKeys(items) && DistinctNames(items) && i < |items|
    ensures
      var result := RunScript(env, Printed(items));
      && result.Some? && ShellName(items[i].0) in result.value
      && result.value[ShellName(items[i].0)] == Text(items[i].1)
      && IsSpelled(items[i].1, result.value[ShellName(items[i].0)])
  {
    ExportReadsBack(env, items);
    AssignedIs(env, items, Same);
    TextIs(items[i].1);
  }

  /** A text stands for a value: "true" and "false" for truth values in any spelling, all other strings as they are. */
  predicate IsSpelled(v: Val, text: string) {
    && (text == "true" <==> v == Bool(true) || v == Str("True") || v == Str("true"))
    && (text == "false" <==> v == Bool(false) || v == Str("False") || v == Str("false"))
    && (text != "true" && text != "false" ==> v == Str(text))
  }

  /** With distinct variables, the unquoted eval recovers a value exactly when its only blanks are isolated spaces. */
  lemma UnquotedEvalRecoversExactly(env: Env, items: Items, i: nat)
    requires ValidKeys(items) && DistinctNames(items) && i < |items|
    ensures
      var result := RunScript(env, EvalText(Printed(items)));
      && result.Some? && ShellName(items[i].0) in result.value
      && (result.value[ShellName(items[i].0)] == Text(items[i].1) <==> IsolatedSpaces(Text(items[i].1)))
  {
    UnquotedEvalSqueezes(env, items);
    AssignedIs(env, items, Squeeze);
    SqueezeKeepsExactly(Text(items[i].1));
  }

  // ---- The three at once ----

  /** How a shell comes to run what was printed: from a file, by eval "$(...)", or by eval $(...). */
  datatype Form = FromFile | Quoted | Unquoted
  {
    /** The script that is run. */
    function Script(printed: string): string {
      match this
      case FromFile => printed
      case Quoted => Substituted(printed)
      case Unquoted => EvalText(printed)
    }

    /** What becomes of a value. */
    function Seen(s: string): string {
      if this == Unquoted then Squeeze(s) else s
    }
  }

  lemma {:induction false} AssignedAlike(env: Env, items: Items, f: string -> string, g: string -> string)
    requires forall s :: f(s) == g(s)
    ensures Assigned(env, items, f) == Assigned(env, items, g)
    decreases |items|
  {
    if items != [] {
      AssignedAlike(env, items[..|items| - 1], f, g);
    }
  }

  lemma EveryFormAssigns(form: Form, env: Env, items: Items)
    requires ValidKeys(items)
    ensures RunScript(env, form.Script(Printed(items))) == Some(Assigned(env, items, form.Seen))
  {
    match form
    case FromFile =>
      ExportReadsBack(env, items);
      AssignedAlike(env, items, Same, form.Seen);
    case Quoted =>
      QuotedEvalReadsBack(env, items);
      AssignedAlike(env, items, Same, form.Seen);
    case Unquoted =>
      UnquotedEvalSqueezes(env, items);
      AssignedAlike(env, items, Squeeze, form.Seen);
  }

  /** A value seen twice is as seen once; none becomes empty, or one of Python's truth values, that was not. */
  lemma SeenTwice(form: Form, v: Val)
    ensures form.Seen(form.Seen(Text(v))) == form.Seen(Text(v))
    ensures form.Seen(Text(v)) == "" <==> Text(v) == ""
    ensures Text(Str(form.Seen(Text(v)))) == form.Seen(Text(v))
    ensures form.Seen(Text(v)) == Text(v) <==> form != Unquoted || IsolatedSpaces(Text(v))
  {
    TextIsNoTruth(v);
    SqueezeTwice(Text(v));
    TextStays(Text(v));
  }

  lemma SqueezeTwice(s: string)
    requires s != "True" && s != "False"
    ensures Squeeze(Squeeze(s)) == Squeeze(s) && Text(Str(Squeeze(s))) == Squeeze(s)
    ensures Squeeze(s) == "" <==> s == ""
    ensures Squeeze(s) == s <==> IsolatedSpaces(s)
  {
    SqueezeIsIdempotent(s);
    SqueezeKeepsExactly(s);
    SqueezedToNoTruth(s);
    TextStays(Squeeze(s));
  }

  lemma TextIsNoTruth(v: Val)
    ensures Text(v) != "True" && Text(v) != "False"
  {
  }

  lemma TextStays(s: string)
    requires s != "True" && s != "False"
    ensures Text(Str(s)) == s
  {
  }

  /** No other text is squeezed into one of Python's truth values. */
  lemma SqueezedToNoTruth(s: string)
    requires s != "True" && s != "False"
    ensures Squeeze(s) != "True" && Squeeze(s) != "False"
  {
    SqueezedToWord(s, "True");
    SqueezedToWord(s, "False");
  }

  lemma SqueezedToWord(s: string, w: string)
    requires forall i :: 0 <= i < |w| ==> Safe(w[i])
    ensures Squeeze(s) == w ==> s == w
  {
    if Squeeze(s) == w {
      SqueezeKeepsChars(s);
      SafeHasNoBlanks(s);
      SqueezeKeepsExactly(s);
    }
  }

  lemma SafeHasNoBlanks(s: string)
    requires forall i :: 0 <= i < |s| ==> Safe(s[i])
    ensures IsolatedSpaces(s)
  {
    assert forall i :: 0 <= i < |s| ==> !Blank(s[i]);
  }
}
