/**
The part of the POSIX shell that reads back printed exports: quoting and quote removal (sections 2.2.1 to
2.2.3 of the Shell Command Language, IEEE Std 1003.1-2017), field splitting (section 2.6.5) and the export
utility. A character that would start an expansion, a redirection or any other construct makes the reading
fail, so that a successful reading shows there was none.
*/
module Shell {
  import opened Prelude

  // ---- Python's shlex.quote ----

  predicate Letter(c: char) {
    'a' <= c <= 'z' || 'A' <= c <= 'Z'
  }

  predicate WordChar(c: char) {
    Letter(c) || '0' <= c <= '9' || c == '_'
  }

  predicate Safe(c: char) {
    WordChar(c) || c in "@%+=:,./-"
  }

  function Quote(s: string): string {
    if s == "" then "''"
    else if forall i :: 0 <= i < |s| ==> Safe(s[i]) then s
    else "'" + Escape(s) + "'"
  }

  const Lower := "abcdefghijklmnopqrstuvwxyz"
  const Capitals := "ABCDEFGHIJKLMNOPQRSTUVWXYZ"
  const Digits := "0123456789"

  lemma Alphabet()
    ensures |Lower| == |Capitals| == 26 && |Digits| == 10
    ensures forall j :: 0 <= j < 26 ==> Lower[j] as int == 'a' as int + j && Capitals[j] as int == 'A' as int + j
    ensures forall j :: 0 <= j < 10 ==> Digits[j] as int == '0' as int + j
  {
  }

  lemma ListsAreRanges(c: char)
    ensures c in Lower <==> 'a' <= c <= 'z'
    ensures c in Capitals <==> 'A' <= c <= 'Z'
    ensures c in Digits <==> '0' <= c <= '9'
  {
    Alphabet();
    if 'a' <= c <= 'z' {
      assert Lower[c as int - 'a' as int] == c;
    } else if 'A' <= c <= 'Z' {
      assert Capitals[c as int - 'A' as int] == c;
    } else if '0' <= c <= '9' {
      assert Digits[c as int - '0' as int] == c;
    }
  }

  /** The characters a printed string need not be quoted for. */
  predicate Plainly(c: char) {
    c in Lower || c in Capitals || c in Digits || c in "_@%+=:,./-"
  }

  /** A string is printed without quotes exactly when it has characters, and none but these. */
  lemma QuotesExactlyWhen(s: string)
    ensures Quote(s) == s <==> s != "" && forall i :: 0 <= i < |s| ==> Plainly(s[i])
    ensures Quote(s) != s ==> |Quote(s)| >= |s| + 2 && Quote(s)[0] == '\'' == Quote(s)[|Quote(s)| - 1]
  {
    forall i | 0 <= i < |s|
      ensures Safe(s[i]) <==> Plainly(s[i])
    {
      ListsAreRanges(s[i]);
    }
    EscapeLength(s);
  }

  lemma {:induction false} EscapeLength(s: string)
    ensures |Escape(s)| >= |s|
  {
    if s != "" {
      EscapeLength(s[1..]);
    }
  }

  /** A single quote is written by leaving the quotes, quoting it with double quotes, and entering them again. */
  function Spliced(c: char): string {
    if c == '\'' then "'\"'\"'" else [c]
  }

  function Escape(s: string): string {
    if s == "" then "" else Spliced(s[0]) + Escape(s[1..])
  }

  // ---- The reader ----

  datatype Mode = Plain | Single | Double | Escaped

  /** What has been read: the word being built, the words of the current command, and the commands before it. */
  datatype Reader = Fail | Reading(mode: Mode, word: Option<string>, words: seq<string>, commands: seq<seq<string>>)

  predicate Blank(c: char) {
    c == ' ' || c == '\t' || c == '\n'
  }

  /** Characters with a meaning of their own outside quotes, in some position. */
  predicate Special(c: char) {
    c in "|&;<>()$`*?[]#~!{}^"
  }

  function Add(r: Reader, c: char): Reader
    requires r.Reading?
  {
    r.(word := Some((if r.word.Some? then r.word.value else "") + [c]))
  }

  /** An empty pair of quotes is a word too. */
  function Open(r: Reader, mode: Mode): Reader
    requires r.Reading?
  {
    r.(mode := mode, word := if r.word.Some? then r.word else Some(""))
  }

  function EndWord(r: Reader): Reader
    requires r.Reading?
  {
    if r.word.None? then r else r.(word := None, words := r.words + [r.word.value])
  }

  function EndCommand(r: Reader): Reader
    requires r.Reading?
  {
    var e := EndWord(r);
    if e.words == [] then e else e.(words := [], commands := e.commands + [e.words])
  }

  function Step(r: Reader, c: char): Reader {
    if r.Fail? then Fail
    else match r.mode
      case Single => if c == '\'' then r.(mode := Plain) else Add(r, c)
      case Double => if c == '"' then r.(mode := Plain) else if c in "$`\\" then Fail else Add(r, c)
      case Escaped => if c == '\n' then r.(mode := Plain) else Add(r.(mode := Plain), c)
      case Plain =>
        if c == '\'' then Open(r, Single)
        else if c == '"' then Open(r, Double)
        else if c == '\\' then r.(mode := Escaped)
        else if c == '\n' then EndCommand(r)
        else if Blank(c) then EndWord(r)
        else if Special(c) then Fail
        else Add(r, c)
  }

  function Read(r: Reader, s: string): Reader
    decreases |s|
  {
    if s == "" then r else Read(Step(r, s[0]), s[1..])
  }

  const Start := Reading(Plain, None, [], [])

  /** The commands of a script, if all of it could be read. */
  function Commands(s: string): Option<seq<seq<string>>> {
    match Read(Start, s)
    case Fail => None
    case Reading(mode, _, _, _) => if mode == Plain then Some(EndCommand(Read(Start, s)).commands) else None
  }

  lemma {:induction false} ReadFailed(s: string)
    ensures Read(Fail, s) == Fail
    decreases |s|
  {
    if s != "" {
      ReadFailed(s[1..]);
    }
  }

  /** Text that could be read outside quotes has nothing in it that expands, redirects or separates commands. */
  lemma {:induction false} PlainIsLiteral(r: Reader, s: string)
    requires r.Reading? && r.mode == Plain && Read(r, s).Reading?
    requires forall i :: 0 <= i < |s| ==> s[i] !in "'\"\\"
    ensures forall i :: 0 <= i < |s| ==> s[i] !in "|&;<>()$`*?[]#~!{}^"
    decreases |s|
  {
    if s != "" {
      var c, t := s[0], s[1..];
      assert forall i :: 0 <= i < |t| ==> t[i] == s[i + 1];
      if Step(r, c).Fail? {
        ReadFailed(t);
      } else {
        assert c !in "'\"\\";
        PlainIsLiteral(Step(r, c), t);
        assert forall i :: 1 <= i < |s| ==> s[i] == t[i - 1];
      }
    }
  }

  /** Within double quotes, no expansion and no escape was read. */
  lemma {:induction false} DoubleIsLiteral(r: Reader, s: string)
    requires r.Reading? && r.mode == Double && Read(r, s).Reading? && '"' !in s
    ensures forall i :: 0 <= i < |s| ==> s[i] !in "$`\\"
    decreases |s|
  {
    if s != "" {
      var c, t := s[0], s[1..];
      assert forall i :: 0 <= i < |t| ==> t[i] == s[i + 1];
      if Step(r, c).Fail? {
        ReadFailed(t);
      } else {
        DoubleIsLiteral(Step(r, c), t);
        assert forall i :: 1 <= i < |s| ==> s[i] == t[i - 1];
      }
    }
  }

  // ---- Running exports ----

  type Env = map<string, string>

  predicate ValidName(name: string) {
    name != "" && !('0' <= name[0] <= '9') && forall i :: 0 <= i < |name| ==> WordChar(name[i])
  }

  /** Where the first '=' is, or the length if there is none. */
  function FirstEquals(s: string): (n: nat)
    ensures n <= |s| && (forall i :: 0 <= i < n ==> s[i] != '=') && (n < |s| ==> s[n] == '=')
  {
    if s == "" || s[0] == '=' then 0 else 1 + FirstEquals(s[1..])
  }

  /** export name=value sets a variable; export name only marks it. */
  function ExportArg(env: Env, arg: string): Option<Env> {
    var n := FirstEquals(arg);
    if !ValidName(arg[..n]) then None
    else if n == |arg| then Some(env)
    else Some(env[arg[..n] := arg[n + 1..]])
  }

  function ExportArgs(env: Env, args: seq<string>): Option<Env>
    decreases |args|
  {
    if args == [] then Some(env)
    else match ExportArg(env, args[0])
      case None => None
      case Some(env') => ExportArgs(env', args[1..])
  }

  function RunCommands(env: Env, commands: seq<seq<string>>): Option<Env>
    decreases |commands|
  {
    if commands == [] then Some(env)
    else if commands[0] == [] || commands[0][0] != "export" then None
    else match ExportArgs(env, commands[0][1..])
      case None => None
      case Some(env') => RunCommands(env', commands[1..])
  }

  /** The environment after a script of exports. */
  function RunScript(env: Env, s: string): Option<Env> {
    match Commands(s) case None => None case Some(commands) => RunCommands(env, commands)
  }

  // ---- eval $(command), without double quotes ----

  /** Command substitution drops the newlines at the end of what was printed. */
  function Substituted(s: string): string {
    if s != "" && s[|s| - 1] == '\n' then Substituted(s[..|s| - 1]) else s
  }

  /** All of them, and nothing else. */
  lemma {:induction false} SubstitutedIs(s: string)
    ensures
      var p := Substituted(s);
      && p <= s && (p == "" || p[|p| - 1] != '\n') && forall i :: |p| <= i < |s| ==> s[i] == '\n'
  {
    if s != "" && s[|s| - 1] == '\n' {
      SubstitutedIs(s[..|s| - 1]);
    }
  }

  /** The characters before the first blank. */
  function FieldLength(s: string): (n: nat)
    ensures n <= |s| && (forall i :: 0 <= i < n ==> !Blank(s[i])) && (n < |s| ==> Blank(s[n]))
  {
    if s == "" || Blank(s[0]) then 0 else 1 + FieldLength(s[1..])
  }

  /** The result is split into fields at blanks, quoted or not: quotes in it are not quoting yet. */
  function Fields(s: string): seq<string>
    decreases |s|
  {
    if s == "" then []
    else if Blank(s[0]) then Fields(s[1..])
    else [s[..FieldLength(s)]] + Fields(s[FieldLength(s)..])
  }

  /** eval joins its arguments with single spaces. */
  function Join(fields: seq<string>): string {
    if fields == [] then ""
    else if |fields| == 1 then fields[0]
    else fields[0] + " " + Join(fields[1..])
  }

  /** What an unquoted eval reads, with pathname expansion off. */
  function EvalText(printed: string): string {
    Join(Fields(Substituted(printed)))
  }

  /** What the first character of a string becomes: of a run of blanks the last one leaves a space. */
  function Squeezed(s: string): string
    requires s != ""
  {
    if !Blank(s[0]) then [s[0]] else if |s| == 1 || !Blank(s[1]) then " " else ""
  }

  /** Every run of blanks becomes one space. */
  function Squeeze(s: string): string {
    if s == "" then "" else Squeezed(s) + Squeeze(s[1..])
  }

  /** The only blanks are spaces, and no two stand side by side. */
  predicate IsolatedSpaces(s: string) {
    && (forall i :: 0 <= i < |s| && Blank(s[i]) ==> s[i] == ' ')
    && (forall i, j :: 0 <= i && j == i + 1 < |s| && Blank(s[i]) ==> !Blank(s[j]))
  }

  /** The same with the three blanks of the default IFS written out. */
  lemma IsolatedSpacesAre(s: string)
    ensures IsolatedSpaces(s) <==>
      && '\t' !in s && '\n' !in s
      && forall i :: 0 <= i < |s| - 1 && s[i] == ' ' ==> s[i + 1] != ' '
  {
    if IsolatedSpaces(s) {
      forall i | 0 <= i < |s|
        ensures s[i] != '\t' && s[i] != '\n'
      {
        assert Blank(s[i]) ==> s[i] == ' ';
      }
      forall i | 0 <= i < |s| - 1 && s[i] == ' '
        ensures s[i + 1] != ' '
      {
        var j := i + 1;
        assert Blank(s[i]) ==> !Blank(s[j]);
      }
    }
  }

  lemma {:induction false} SqueezeLength(s: string)
    ensures |Squeeze(s)| <= |s|
  {
    if s != "" {
      SqueezeLength(s[1..]);
    }
  }

  /** Squeezing keeps exactly the strings whose blanks are isolated single spaces. */
  lemma {:induction false} SqueezeKeepsExactly(s: string)
    ensures Squeeze(s) == s <==> IsolatedSpaces(s)
  {
    if s != "" {
      var t := s[1..];
      SqueezeKeepsExactly(t);
      SqueezeLength(t);
      assert s == [s[0]] + t;
      assert forall i :: 0 <= i < |t| ==> t[i] == s[i + 1];
      if Blank(s[0]) && t != "" && Blank(t[0]) {
        assert !IsolatedSpaces(s);
      } else if !Blank(s[0]) || s[0] == ' ' {
        assert Squeeze(s) == [s[0]] + Squeeze(t);
        IsolatedCons(s);
      }
    }
  }

  lemma {:induction false} SqueezeIsIdempotent(s: string)
    ensures Squeeze(Squeeze(s)) == Squeeze(s) && IsolatedSpaces(Squeeze(s))
    ensures s != "" ==> Squeeze(s) != "" && Blank(Squeeze(s)[0]) == Blank(s[0])
  {
    if s != "" {
      var t, q := s[1..], Squeeze(s);
      SqueezeIsIdempotent(t);
      if Squeezed(s) != "" {
        assert q[1..] == Squeeze(t);
        IsolatedCons(q);
      }
    }
    SqueezeKeepsExactly(Squeeze(s));
  }

  lemma IsolatedCons(s: string)
    requires s != "" && (Blank(s[0]) ==> s[0] == ' ' && (|s| > 1 ==> !Blank(s[1])))
    ensures IsolatedSpaces(s) <==> IsolatedSpaces(s[1..])
  {
    var t := s[1..];
    if IsolatedSpaces(t) {
      forall i, j | 0 <= i && j == i + 1 < |s| && Blank(s[i])
        ensures !Blank(s[j])
      {
        if i > 0 {
          assert Blank(t[i - 1]) && t[i] == s[j];
        }
      }
      forall i | 0 <= i < |s| && Blank(s[i])
        ensures s[i] == ' '
      {
        if i > 0 {
          assert t[i - 1] == s[i];
        }
      }
    }
    if IsolatedSpaces(s) {
      forall i, j | 0 <= i && j == i + 1 < |t| && Blank(t[i])
        ensures !Blank(t[j])
      {
        assert Blank(s[i + 1]) && t[j] == s[i + 2];
      }
      assert forall i :: 0 <= i < |t| && Blank(t[i]) ==> t[i] == s[i + 1];
    }
  }

  // ---- Reading back what Quote wrote ----

  lemma {:induction false} ReadAppend(r: Reader, a: string, b: string)
    ensures Read(r, a + b) == Read(Read(r, a), b)
    decreases |a|
  {
    if a == "" {
      assert a + b == b;
    } else {
      ReadAppend(Step(r, a[0]), a[1..], b);
      assert (a + b)[1..] == a[1..] + b;
    }
  }

  predicate Ordinary(s: string) {
    forall i :: 0 <= i < |s| ==> !Blank(s[i]) && !Special(s[i]) && s[i] !in "'\"\\"
  }

  /** Outside quotes, ordinary characters go into the word as they are. */
  lemma {:induction false} ReadOrdinary(r: Reader, s: string)
    requires r.Reading? && r.mode == Plain && s != "" && Ordinary(s)
    ensures Read(r, s) == r.(word := Some((if r.word.Some? then r.word.value else "") + s))
    decreases |s|
  {
    var r' := Step(r, s[0]);
    assert r' == Add(r, s[0]);
    var w := if r.word.Some? then r.word.value else "";
    if |s| > 1 {
      ReadOrdinary(r', s[1..]);
      assert w + [s[0]] + s[1..] == w + s;
    } else {
      assert s[1..] == "" && w + [s[0]] == w + s;
    }
  }

  /** Inside single quotes, what Escape wrote reads as what it was given. */
  lemma {:induction false} ReadEscaped(r: Reader, s: string)
    requires r.Reading? && r.mode == Single && r.word.Some?
    ensures Read(r, Escape(s)) == r.(word := Some(r.word.value + s))
    decreases |s|
  {
    if s == "" {
      assert r.word.value + s == r.word.value;
    } else {
      var head := Spliced(s[0]);
      var r' := r.(word := Some(r.word.value + [s[0]]));
      ReadAppend(r, head, Escape(s[1..]));
      assert Read(r, head) == r' by {
        if s[0] == '\'' {
          ReadSplice(r);
        } else {
          assert head[1..] == "";
        }
      }
      ReadEscaped(r', s[1..]);
      assert r.word.value + [s[0]] + s[1..] == r.word.value + s;
    }
  }

  lemma ReadSplice(r: Reader)
    requires r.Reading? && r.mode == Single && r.word.Some?
    ensures Read(r, "'\"'\"'") == r.(word := Some(r.word.value + "'"))
  {
    var r1 := Step(r, '\'');
    var r2 := Step(r1, '"');
    var r3 := Step(r2, '\'');
    var r4 := Step(r3, '"');
    var r5 := Step(r4, '\'');
    assert "'\"'\"'"[1..] == "\"'\"'" && "\"'\"'"[1..] == "'\"'"
      && "'\"'"[1..] == "\"'" && "\"'"[1..] == "'" && "'"[1..] == "";
    assert Read(r, "'\"'\"'") == Read(r1, "\"'\"'") == Read(r2, "'\"'")
      == Read(r3, "\"'") == Read(r4, "'") == Read(r5, "");
  }

  lemma SafeIsOrdinary(s: string)
    requires forall i :: 0 <= i < |s| ==> Safe(s[i])
    ensures Ordinary(s)
  {
  }

  /** For every string: quoting it and letting the shell remove the quotes gives it back, within the word around it. */
  lemma ReadQuoted(r: Reader, s: string)
    requires r.Reading? && r.mode == Plain && r.word.Some?
    ensures Read(r, Quote(s)) == r.(word := Some(r.word.value + s))
  {
    var q := Quote(s);
    if s == "" {
      var r1 := Step(r, '\'');
      var r2 := Step(r1, '\'');
      assert q[1..] == "'" && "'"[1..] == "" && r.word.value + s == r.word.value;
      assert Read(r, q) == Read(r1, "'") == Read(r2, "");
    } else if forall i :: 0 <= i < |s| ==> Safe(s[i]) {
      SafeIsOrdinary(s);
      ReadOrdinary(r, s);
    } else {
      var r1 := Step(r, '\'');
      assert r1 == r.(mode := Single);
      assert q == "'" + (Escape(s) + "'") && q[1..] == Escape(s) + "'";
      ReadAppend(r1, Escape(s), "'");
      ReadEscaped(r1, s);
      assert "'"[1..] == "";
    }
  }

  // ---- Squeezing what Quote wrote ----

  /** Squeezing goes through a concatenation that does not join two blanks. */
  lemma {:induction false} SqueezeAppend(a: string, b: string)
    requires a == "" || b == "" || !Blank(a[|a| - 1]) || !Blank(b[0])
    ensures Squeeze(a + b) == Squeeze(a) + Squeeze(b)
    decreases |a|
  {
    if a == "" {
      assert a + b == b;
    } else if b == "" {
      assert a + b == a;
    } else {
      var t := a[1..];
      SqueezeAppend(t, b);
      assert (a + b)[1..] == t + b;
      assert Squeezed(a + b) == Squeezed(a) by {
        assert (a + b)[1] == if t == "" then b[0] else a[1];
      }
      assert Squeezed(a) + (Squeeze(t) + Squeeze(b)) == Squeezed(a) + Squeeze(t) + Squeeze(b);
    }
  }

  /** Characters that are not blank are kept. */
  lemma SqueezeAfterWord(f: string, t: string)
    requires forall i :: 0 <= i < |f| ==> !Blank(f[i])
    ensures Squeeze(f + t) == f + Squeeze(t)
  {
    SqueezeKeepsExactly(f);
    SqueezeAppend(f, t);
  }

  lemma EscapeAppend(c: char, t: string)
    ensures Escape([c] + t) == Spliced(c) + Escape(t)
  {
    assert ([c] + t)[1..] == t;
  }

  lemma EscapeBegins(s: string)
    requires s != ""
    ensures Escape(s) != "" && Blank(Escape(s)[0]) == Blank(s[0])
  {
  }

  lemma {:induction false} SqueezeEscaped(s: string)
    ensures Squeeze(Escape(s)) == Escape(Squeeze(s))
    decreases |s|
  {
    if s != "" {
      var c, t := s[0], s[1..];
      SqueezeEscaped(t);
      EscapeAppend(c, Squeeze(t));
      EscapeAppend(' ', Squeeze(t));
      if Blank(c) {
        SqueezeEscapedBlank(s);
      } else {
        SqueezeAfterWord(Spliced(c), Escape(t));
        assert Squeeze(s) == [c] + Squeeze(t);
      }
    }
  }

  lemma SqueezeEscapedBlank(s: string)
    requires s != "" && Blank(s[0])
    ensures Squeeze(Escape(s)) == Squeezed(s) + Squeeze(Escape(s[1..]))
    ensures Squeeze(s) == Squeeze(s[1..]) || Squeeze(s) == [' '] + Squeeze(s[1..])
  {
    var t := s[1..];
    if t != "" {
      EscapeBegins(t);
    }
    assert Escape(s) == [s[0]] + Escape(t);
    assert Escape(s)[1..] == Escape(t);
  }

  lemma {:induction false} SqueezeKeepsChars(s: string)
    ensures s != "" ==> Squeeze(s) != ""
    ensures (forall i :: 0 <= i < |s| ==> Safe(s[i])) <==> (forall i :: 0 <= i < |Squeeze(s)| ==> Safe(Squeeze(s)[i]))
    decreases |s|
  {
    if s != "" {
      var t := s[1..];
      SqueezeKeepsChars(t);
      assert s == [s[0]] + t;
      if Blank(s[0]) {
        assert !Safe(s[0]);
        if t == "" || !Blank(t[0]) {
          assert !Safe(Squeeze(s)[0]);
        } else {
          assert !Safe(t[0]) && Squeeze(s) == Squeeze(t);
        }
      } else {
        var q := Squeeze(s);
        assert q == [s[0]] + Squeeze(t);
        assert (forall i :: 0 <= i < |q| ==> Safe(q[i]))
          <==> Safe(q[0]) && forall i :: 0 <= i < |Squeeze(t)| ==> Safe(Squeeze(t)[i]) by {
          assert forall i :: 0 <= i < |Squeeze(t)| ==> Squeeze(t)[i] == q[i + 1];
          assert forall i :: 1 <= i < |q| ==> q[i] == Squeeze(t)[i - 1];
        }
        assert (forall i :: 0 <= i < |s| ==> Safe(s[i])) <==> Safe(s[0]) && forall i :: 0 <= i < |t| ==> Safe(t[i]) by {
          assert forall i :: 0 <= i < |t| ==> t[i] == s[i + 1];
          assert forall i :: 1 <= i < |s| ==> s[i] == t[i - 1];
        }
      }
    }
  }

  lemma QuoteEnds(s: string)
    ensures Quote(s) != "" && !Blank(Quote(s)[0]) && !Blank(Quote(s)[|Quote(s)| - 1])
  {
  }

  /** For every string: squeezing its quoted form is quoting its squeezed form. */
  lemma SqueezeQuoted(s: string)
    ensures Squeeze(Quote(s)) == Quote(Squeeze(s))
  {
    SqueezeKeepsChars(s);
    if s == "" {
      SqueezeKeepsExactly("''");
    } else if forall i :: 0 <= i < |s| ==> Safe(s[i]) {
      SqueezeKeepsExactly(s);
    } else {
      SqueezeEscaped(s);
      SqueezeKeepsExactly("'");
      SqueezeAppend("'" + Escape(s), "'");
      SqueezeAppend("'", Escape(s));
    }
  }

  /** The fields, each with a space after it. */
  function Glue(fields: seq<string>): string {
    if fields == [] then "" else fields[0] + (" " + Glue(fields[1..]))
  }

  lemma {:induction false} GlueIsJoin(fields: seq<string>)
    requires fields != []
    ensures Glue(fields) == Join(fields) + " "
    decreases |fields|
  {
    if |fields| > 1 {
      GlueIsJoin(fields[1..]);
    } else {
      assert fields[1..] == [] && " " + "" == " ";
    }
  }

  /** The fields of a text that ends with a blank, glued together, are the text squeezed, but for a leading space. */
  lemma {:induction false} GlueOfFields(s: string)
    requires s != "" && Blank(s[|s| - 1])
    ensures Squeeze(s) == if Blank(s[0]) then " " + Glue(Fields(s)) else Glue(Fields(s))
    decreases |s|
  {
    if Blank(s[0]) {
      var t := s[1..];
      if t != "" {
        assert t[|t| - 1] == s[|s| - 1];
        GlueOfFields(t);
      }
    } else {
      var n := FieldLength(s);
      var f, t := s[..n], s[n..];
      assert s == f + t && t[|t| - 1] == s[|s| - 1];
      GlueOfFields(t);
      SqueezeAfterWord(f, t);
      assert ([f] + Fields(t))[1..] == Fields(t);
    }
  }

  /** Splitting a printed text into fields and joining them with single spaces squeezes it. */
  lemma JoinOfFields(s: string)
    requires s != "" && !Blank(s[0]) && Blank(s[|s| - 1])
    ensures Join(Fields(s)) + " " == Squeeze(s)
  {
    GlueOfFields(s);
    GlueIsJoin(Fields(s));
  }

  lemma {:induction false} SubstitutionKeepsFields(s: string)
    ensures Fields(Substituted(s)) == Fields(s)
    decreases |s|
  {
    if s != "" && s[|s| - 1] == '\n' {
      var t := s[..|s| - 1];
      SubstitutionKeepsFields(t);
      assert s == t + "\n";
      TrailingNewline(t);
    }
  }

  lemma FieldLengthIs(s: string, n: nat)
    requires n <= |s| && (forall i :: 0 <= i < n ==> !Blank(s[i])) && (n < |s| ==> Blank(s[n]))
    ensures FieldLength(s) == n
  {
  }

  lemma {:induction false} TrailingNewline(s: string)
    ensures Fields(s + "\n") == Fields(s)
    decreases |s|
  {
    var l := s + "\n";
    if s == "" {
      assert l[1..] == "";
    } else if Blank(s[0]) {
      TrailingNewline(s[1..]);
      assert l[1..] == s[1..] + "\n";
    } else {
      var n := FieldLength(s);
      TrailingNewline(s[n..]);
      assert l[..n] == s[..n] && l[n..] == s[n..] + "\n";
      FieldLengthIs(l, n);
    }
  }
}
