/** Writing the environment back, and building a configuration from layers (benchjson.py). */
module ConfigUpdate {
  import opened Prelude
  import opened Shell
  import opened ConfigStore

  // ---- update ----

  /** Update looks at a variable only if it is set and not empty. */
  predicate Offered(env: Env, k: string) {
    LookupName(k) in env && env[LookupName(k)] != ""
  }

  function Updated(config: Config, env: Env, configvars: seq<string>): (r: Config)
    ensures forall k :: k in r <==> k in config || (k in configvars && Offered(env, k))
    ensures forall k :: k in r ==>
      r[k] == if k in configvars && Offered(env, k) then Str(env[LookupName(k)]) else config[k]
  {
    config + map k | k in configvars && Offered(env, k) :: Str(env[LookupName(k)])
  }

  method CmdUpdate(config: Config, env: Env, configvars: seq<string>) returns (j: Config)
    ensures j == Updated(config, env, configvars)
  {
    var u: Config := map[];
    for i := 0 to |configvars|
      invariant forall k :: k in u ==> k in configvars && Offered(env, k) && u[k] == Str(env[LookupName(k)])
      invariant forall h :: 0 <= h < i && Offered(env, configvars[h]) ==>
        configvars[h] in u || (configvars[h] in config && config[configvars[h]] == Str(env[LookupName(configvars[h])]))
    {
      var k := configvars[i];
      if LookupName(k) !in env || env[LookupName(k)] == "" || (k in config && config[k] == Str(env[LookupName(k)])) {
        continue;
      }
      u := u[k := Str(env[LookupName(k)])];
    }
    j := config + u;
    forall k | k in Updated(config, env, configvars)
      ensures k in j && j[k] == Updated(config, env, configvars)[k]
    {
    }
    assert j.Keys == Updated(config, env, configvars).Keys;
  }

  /** The items are the entries of the configuration, in some order. */
  ghost predicate Lists(items: Items, config: Config) {
    && (forall i :: 0 <= i < |items| ==> items[i].0 in config && config[items[i].0] == items[i].1)
    && (forall k :: k in config ==> exists i :: 0 <= i < |items| && items[i].0 == k)
  }

  /** Nothing in the environment carries the store's prefix. */
  predicate NoStoreVariables(env: Env) {
    forall n :: n in env ==> !("BBAKE_" <= n)
  }

  /** The environment a shell has after running the printed exports. */
  function ExportedEnv(form: Form, base: Env, items: Items): Env {
    match RunScript(base, form.Script(Printed(items))) case Some(env) => env case None => base
  }

  /** Export, run what was printed, update. */
  function Pass(form: Form, base: Env, items: Items, config: Config, configvars: seq<string>): Config {
    Updated(config, ExportedEnv(form, base, items), configvars)
  }

  /** The two names of a key are the same exactly when it has no hyphen. */
  lemma NamesDifferByHyphens(k: string)
    ensures LookupName(k) == ShellName(k) <==> '-' !in k
  {
    UpperAppliesToChars(k);
    UnderscoredAppliesToChars(k);
    UpperAppliesToChars(Underscored(k));
    var a, b := Upper(k), Upper(Underscored(k));
    assert LookupName(k) == ShellName(k) <==> a == b by {
      assert LookupName(k)[6..] == a && ShellName(k)[6..] == b;
    }
    if '-' in k {
      var i :| 0 <= i < |k| && k[i] == '-';
      assert a[i] == '-' && b[i] == '_';
    } else {
      assert forall i :: 0 <= i < |k| ==> a[i] == b[i];
    }
  }

  /** A name update looks up with a hyphen in it is no shell variable's name. */
  lemma HyphenIsNoName(k: string, k': string)
    requires ValidKey(k') && LookupName(k) == ShellName(k')
    ensures '-' !in k
  {
    UpperAppliesToChars(k);
    ShellNameChars(k');
    var a := Upper(k);
    assert a == LookupName(k)[6..] == ShellName(k')[6..] == Upper(Underscored(k'));
    forall i | 0 <= i < |k|
      ensures k[i] != '-'
    {
      assert a[i] == UpperChar(k[i]) && WordChar(a[i]);
    }
  }

  /** What update sees after an export: exactly the keys whose name an item has, with that item's text. */
  lemma OfferedAfterExport(form: Form, base: Env, items: Items, k: string)
    requires ValidKeys(items) && Consistent(items, form.Seen) && NoStoreVariables(base)
    ensures
      var env := ExportedEnv(form, base, items);
      && (Offered(env, k) <==>
            exists i :: 0 <= i < |items| && ShellName(items[i].0) == LookupName(k) && Text(items[i].1) != "")
      && forall i :: 0 <= i < |items| && ShellName(items[i].0) == LookupName(k) ==>
           LookupName(k) in env && env[LookupName(k)] == form.Seen(Text(items[i].1))
  {
    EveryFormAssigns(form, base, items);
    AssignedIs(base, items, form.Seen);
    forall i | 0 <= i < |items|
      ensures form.Seen(Text(items[i].1)) == "" <==> Text(items[i].1) == ""
    {
      SeenTwice(form, items[i].1);
    }
    assert "BBAKE_" <= LookupName(k);
  }

  /** A pass gives a key a value if it is listed, has no hyphen and its text is not empty. */
  predicate Passes(config: Config, configvars: seq<string>, k: string)
    requires k in config
  {
    k in configvars && '-' !in k && Text(config[k]) != ""
  }

  /** The value a key has after a pass. */
  function Normalised(form: Form, config: Config, configvars: seq<string>, k: string): Val
    requires k in config
  {
    if Passes(config, configvars, k) then Str(form.Seen(Text(config[k]))) else config[k]
  }

  /**
  One pass removes no key, and gives the unhyphenated keys that are listed their text as the shell has seen it. It
  adds a key exactly when a listed name outside the configuration looks up another key's variable.
  */
  lemma PassNormalises(form: Form, base: Env, items: Items, config: Config, configvars: seq<string>)
    requires Lists(items, config) && ValidKeys(items) && DistinctNames(items) && NoStoreVariables(base)
    ensures
      var after := Pass(form, base, items, config, configvars);
      && (forall k :: k in config ==> k in after && after[k] == Normalised(form, config, configvars, k))
      && (after.Keys == config.Keys <==> !Aliased(items, config, configvars))
  {
    var after := Pass(form, base, items, config, configvars);
    forall k | k in config
      ensures k in after && after[k] == Normalised(form, config, configvars, k)
    {
      PassOfKey(form, base, items, config, configvars, k);
    }
    forall k | k !in config
      ensures k in after <==>
        k in configvars && exists i ::
          0 <= i < |items| && ShellName(items[i].0) == LookupName(k) && Text(items[i].1) != ""
    {
      OfferedAfterExport(form, base, items, k);
    }
  }

  lemma PassOfKey(form: Form, base: Env, items: Items, config: Config, configvars: seq<string>, k: string)
    requires Lists(items, config) && ValidKeys(items) && DistinctNames(items) && NoStoreVariables(base) && k in config
    ensures
      var after := Pass(form, base, items, config, configvars);
      k in after && after[k] == Normalised(form, config, configvars, k)
  {
    var i :| 0 <= i < |items| && items[i].0 == k;
    if '-' in k {
      HyphenIsNotOffered(form, base, items, k);
    } else {
      OfferedItem(form, base, items, i);
    }
  }

  lemma HyphenIsNotOffered(form: Form, base: Env, items: Items, k: string)
    requires ValidKeys(items) && DistinctNames(items) && NoStoreVariables(base) && '-' in k
    ensures !Offered(ExportedEnv(form, base, items), k)
  {
    OfferedAfterExport(form, base, items, k);
    forall i | 0 <= i < |items|
      ensures ShellName(items[i].0) != LookupName(k)
    {
      if ShellName(items[i].0) == LookupName(k) {
        HyphenIsNoName(k, items[i].0);
      }
    }
  }

  lemma OfferedItem(form: Form, base: Env, items: Items, i: nat)
    requires ValidKeys(items) && DistinctNames(items) && NoStoreVariables(base)
    requires i < |items| && '-' !in items[i].0
    ensures
      var env, k := ExportedEnv(form, base, items), items[i].0;
      && LookupName(k) in env && env[LookupName(k)] == form.Seen(Text(items[i].1))
      && (Offered(env, k) <==> Text(items[i].1) != "")
  {
    OfferedAfterExport(form, base, items, items[i].0);
    NamesDifferByHyphens(items[i].0);
    SeenTwice(form, items[i].1);
  }

  /** A listed name that is no key of the configuration, but looks up the variable of one that has a value. */
  ghost predicate Aliased(items: Items, config: Config, configvars: seq<string>) {
    exists k :: k in configvars && k !in config
      && exists i :: 0 <= i < |items| && ShellName(items[i].0) == LookupName(k) && Text(items[i].1) != ""
  }

  /**
  A pass changes no more than the spelling of truth values if and only if it goes through a file or a quoted eval, or
  the blanks of every text it writes back are isolated spaces.
  */
  lemma PassKeepsTextsExactlyWhen(form: Form, base: Env, items: Items, config: Config, configvars: seq<string>)
    requires Lists(items, config) && ValidKeys(items) && DistinctNames(items) && NoStoreVariables(base)
    ensures
      var after := Pass(form, base, items, config, configvars);
      (forall k :: k in config ==> k in after && Text(after[k]) == Text(config[k]))
      <==> form != Unquoted
           || forall k :: k in config && Passes(config, configvars, k) ==> IsolatedSpaces(Text(config[k]))
  {
    PassNormalises(form, base, items, config, configvars);
    forall k | k in config
      ensures Text(Normalised(form, config, configvars, k)) == Text(config[k])
        <==> form != Unquoted || (Passes(config, configvars, k) ==> IsolatedSpaces(Text(config[k])))
    {
      SeenTwice(form, config[k]);
    }
  }

  lemma PassOfOneEntry(form: Form, k: string, v: Val)
    requires ValidKey(k) && '-' !in k && Text(v) != ""
    ensures Pass(form, map[], [(k, v)], map[k := v], [k]) == map[k := Str(form.Seen(Text(v)))]
  {
    PassNormalises(form, map[], [(k, v)], map[k := v], [k]);
  }

  /** The tuskfiles run update after an unquoted eval, so a value with two spaces in a row is rewritten with one. */
  lemma UnquotedPassRewrites()
    ensures Pass(Unquoted, map[], [("f", Str("a  b"))], map["f" := Str("a  b")], ["f"]) == map["f" := Str("a b")]
  {
    SqueezesTwoSpaces();
    PassOfOneEntry(Unquoted, "f", Str("a  b"));
  }

  lemma SqueezesTwoSpaces()
    ensures Squeeze("a  b") == "a b"
  {
    assert "a  b"[1..] == "  b" && "  b"[1..] == " b" && " b"[1..] == "b" && "b"[1..] == "";
    assert Squeeze("b") == "b" && Squeeze(" b") == " b" && Squeeze("  b") == " b";
  }

  /** The key "a-b" and the listed name "a_b" show it: update adds a_b, a key the configuration never had. */
  lemma UnderscoreAliasesHyphen(form: Form)
    ensures
      var items := [("a-b", Str("x"))];
      && Lists(items, map["a-b" := Str("x")]) && ValidKeys(items) && DistinctNames(items)
      && "a_b" in Pass(form, map[], items, map["a-b" := Str("x")], ["a_b"])
  {
    var items := [("a-b", Str("x"))];
    assert ValidKey("a-b");
    NamesOfAB();
    assert ShellName(items[0].0) == LookupName("a_b") && Text(items[0].1) == "x";
    OfferedAfterExport(form, map[], items, "a_b");
  }

  lemma NamesOfAB()
    ensures ShellName("a-b") == LookupName("a_b") == "BBAKE_A_B" && LookupName("a-b") == "BBAKE_A-B"
  {
    UpperAppliesToChars("a_b");
    UpperAppliesToChars("a-b");
    UnderscoredAppliesToChars("a-b");
    UpperAppliesToChars(Underscored("a-b"));
    assert Upper("a_b") == "A_B" == Upper(Underscored("a-b"));
    assert Upper("a-b") == "A-B";
  }

  // ---- Writing an override back ----

  /** Every variable in the environment has a name a shell can give it. */
  predicate ShellEnv(env: Env) {
    forall n :: n in env ==> ValidName(n)
  }

  /**
  Update promises to write back every listed variable that is set and not empty. In an environment a shell has made
  it does so exactly for the keys without a hyphen: a hyphenated key has the variable's value afterwards only if it
  had it before.
  */
  lemma WritesBackExactlyWhen(config: Config, env: Env, configvars: seq<string>, k: string)
    requires ShellEnv(env) && k in configvars && ShellName(k) in env && env[ShellName(k)] != ""
    ensures
      var after := Updated(config, env, configvars);
      (k in after && after[k] == Str(env[ShellName(k)]))
      <==> '-' !in k || (k in config && config[k] == Str(env[ShellName(k)]))
  {
    NamesDifferByHyphens(k);
    if '-' in k {
      LookupKeepsHyphen(k);
    }
  }

  lemma LookupKeepsHyphen(k: string)
    requires '-' in k
    ensures !ValidName(LookupName(k))
  {
    UpperAppliesToChars(k);
    var i :| 0 <= i < |k| && k[i] == '-';
    assert LookupName(k)[6 + i] == Upper(k)[i] == '-';
  }

  /** The listed key "a-b" shows it: its variable is overridden, and update leaves the configuration as it was. */
  lemma HyphenIsNotWrittenBack()
    ensures
      var config: Config := map["a-b" := Str("x")];
      Updated(config, map[ShellName("a-b") := "y"], ["a-b"]) == config
  {
    NamesOfAB();
    var config: Config := map["a-b" := Str("x")];
    assert Updated(config, map[ShellName("a-b") := "y"], ["a-b"]).Keys == config.Keys;
  }

  // ---- A second pass ----

  /** After a pass, the entries that share a variable still agree on its value, which is what it was before. */
  lemma PassKeepsTexts(form: Form, base: Env, items: Items, config: Config, configvars: seq<string>, k: string)
    returns (i: nat)
    requires Lists(items, config) && ValidKeys(items) && Consistent(items, form.Seen) && NoStoreVariables(base)
    requires k in Pass(form, base, items, config, configvars)
    ensures ValidKey(k) && i < |items| && ShellName(items[i].0) == ShellName(k)
    ensures form.Seen(Text(items[i].1)) == form.Seen(Text(Pass(form, base, items, config, configvars)[k]))
  {
    var env := ExportedEnv(form, base, items);
    OfferedAfterExport(form, base, items, k);
    if k in configvars && Offered(env, k) {
      i :| 0 <= i < |items| && ShellName(items[i].0) == LookupName(k) && Text(items[i].1) != "";
      HyphenIsNoName(k, items[i].0);
      NamesDifferByHyphens(k);
      LookedUpIsValid(k, items[i].0);
      SeenTwice(form, items[i].1);
    } else {
      i :| 0 <= i < |items| && items[i].0 == k;
    }
  }

  lemma LookedUpIsValid(k: string, k': string)
    requires ValidKey(k') && LookupName(k) == ShellName(k')
    ensures ValidKey(k)
  {
    UpperAppliesToChars(k);
    ShellNameChars(k');
    var a := Upper(k);
    assert a == LookupName(k)[6..] == ShellName(k')[6..] == Upper(Underscored(k'));
    forall i | 0 <= i < |k|
      ensures WordChar(k[i])
    {
      assert a[i] == UpperChar(k[i]) && WordChar(a[i]);
    }
  }

  /**
  Idempotence: a second pass over what the first one wrote, its entries listed in any order, changes nothing, in each
  form. It needs no assumption on aliases; it is enough that keys sharing a variable agree.
  */
  lemma SecondPassChangesNothing(form: Form, base: Env, items: Items, config: Config, configvars: seq<string>,
                                 items': Items)
    requires Lists(items, config) && ValidKeys(items) && Consistent(items, form.Seen) && NoStoreVariables(base)
    requires Lists(items', Pass(form, base, items, config, configvars))
    ensures
      var after := Pass(form, base, items, config, configvars);
      Pass(form, base, items', after, configvars) == after
  {
    var after := Pass(form, base, items, config, configvars);
    SecondListingAgrees(form, base, items, config, configvars, items');
    forall k | k in configvars && Offered(ExportedEnv(form, base, items'), k)
      ensures k in after && after[k] == Str(ExportedEnv(form, base, items')[LookupName(k)])
    {
      OfferedTwice(form, base, items, config, configvars, items', k);
    }
    UpdateWithNothingNew(after, ExportedEnv(form, base, items'), configvars);
  }

  lemma UpdateWithNothingNew(config: Config, env: Env, configvars: seq<string>)
    requires forall k :: k in configvars && Offered(env, k) ==> k in config && config[k] == Str(env[LookupName(k)])
    ensures Updated(config, env, configvars) == config
  {
    assert Updated(config, env, configvars).Keys == config.Keys;
  }

  lemma SecondListingAgrees(form: Form, base: Env, items: Items, config: Config, configvars: seq<string>,
                            items': Items)
    requires Lists(items, config) && ValidKeys(items) && Consistent(items, form.Seen) && NoStoreVariables(base)
    requires Lists(items', Pass(form, base, items, config, configvars))
    ensures ValidKeys(items') && Consistent(items', form.Seen)
  {
    forall i | 0 <= i < |items'|
      ensures ValidKey(items'[i].0)
    {
      var _ := PassKeepsTexts(form, base, items, config, configvars, items'[i].0);
    }
    var after := Pass(form, base, items, config, configvars);
    forall i, j | 0 <= i < j < |items'| && ShellName(items'[i].0) == ShellName(items'[j].0)
      ensures form.Seen(Text(items'[i].1)) == form.Seen(Text(items'[j].1))
    {
      assert items'[i].1 == after[items'[i].0] && items'[j].1 == after[items'[j].0];
      AlikeAfterPass(form, base, items, config, configvars, items'[i].0, items'[j].0);
    }
  }

  lemma AlikeAfterPass(form: Form, base: Env, items: Items, config: Config, configvars: seq<string>,
                       k: string, k': string)
    requires Lists(items, config) && ValidKeys(items) && Consistent(items, form.Seen) && NoStoreVariables(base)
    requires k in Pass(form, base, items, config, configvars) && k' in Pass(form, base, items, config, configvars)
    requires ShellName(k) == ShellName(k')
    ensures
      var after := Pass(form, base, items, config, configvars);
      form.Seen(Text(after[k])) == form.Seen(Text(after[k']))
  {
    var g := PassKeepsTexts(form, base, items, config, configvars, k);
    var h := PassKeepsTexts(form, base, items, config, configvars, k');
    if g != h {
      assert form.Seen(Text(items[g].1)) == form.Seen(Text(items[h].1));
    }
  }

  lemma OfferedTwice(form: Form, base: Env, items: Items, config: Config, configvars: seq<string>,
                     items': Items, k: string)
    requires Lists(items, config) && ValidKeys(items) && Consistent(items, form.Seen) && NoStoreVariables(base)
    requires Lists(items', Pass(form, base, items, config, configvars))
    requires ValidKeys(items') && Consistent(items', form.Seen)
    requires Offered(ExportedEnv(form, base, items'), k) && k in configvars
    ensures
      var after := Pass(form, base, items, config, configvars);
      k in after && after[k] == Str(ExportedEnv(form, base, items')[LookupName(k)])
  {
    OfferedAfterExport(form, base, items, k);
    OfferedAfterExport(form, base, items', k);
    var i :| 0 <= i < |items'| && ShellName(items'[i].0) == LookupName(k) && Text(items'[i].1) != "";
    var h := PassKeepsTexts(form, base, items, config, configvars, items'[i].0);
  }

  // ---- new-config ----

  /** The value of a key in the last profile that defines it. */
  function LastDefined(profiles: seq<Option<Config>>, k: string): Option<Val> {
    if profiles == [] then None
    else
      var p := profiles[|profiles| - 1];
      if p.Some? && k in p.value then Some(p.value[k]) else LastDefined(profiles[..|profiles| - 1], k)
  }

  /** The same without recursion: the value in the profile that defines the key and has no later one that does. */
  lemma {:induction false} LastDefinedIs(profiles: seq<Option<Config>>, k: string, i: nat)
    requires i < |profiles| && Defines(profiles[i], k) && forall j :: i < j < |profiles| ==> !Defines(profiles[j], k)
    ensures LastDefined(profiles, k) == Some(profiles[i].value[k])
    decreases |profiles|
  {
    var n := |profiles| - 1;
    if i < n {
      assert !Defines(profiles[n], k);
      LastDefinedIs(profiles[..n], k, i);
    }
  }

  lemma {:induction false} UndefinedExactlyWhen(profiles: seq<Option<Config>>, k: string)
    ensures LastDefined(profiles, k).None? <==> forall i :: 0 <= i < |profiles| ==> !Defines(profiles[i], k)
    decreases |profiles|
  {
    if profiles != [] {
      var n := |profiles| - 1;
      UndefinedExactlyWhen(profiles[..n], k);
      assert forall i :: 0 <= i < n ==> profiles[..n][i] == profiles[i];
    }
  }

  predicate Defines(p: Option<Config>, k: string) {
    p.Some? && k in p.value
  }

  predicate Falsy(config: Config, k: string) {
    k !in config || config[k] == Str("") || config[k] == Bool(false)
  }

  /** Python's str of a value. */
  function Shown(v: Val): string {
    match v case Str(s) => s case Bool(b) => if b then "True" else "False"
  }

  /** How a profile's pyenv is resolved against the configuration directory, and any other against the launch one. */
  datatype Paths = Paths(inConfig: Val -> string, inLaunch: string -> string)

  /** The pyenv before the environment is layered: the profile's, or else the variable's, or else "env". */
  function PyEnv(profiles: seq<Option<Config>>, env: Env, paths: Paths): Val {
    match LastDefined(profiles, "pyenv")
    case Some(v) => Str(paths.inConfig(v))
    case None => Str(paths.inLaunch(if ShellName("pyenv") in env then env[ShellName("pyenv")] else "env"))
  }

  function Profiled(profiles: seq<Option<Config>>, env: Env, paths: Paths, k: string): Option<Val> {
    if k == "pyenv" then Some(PyEnv(profiles, env, paths)) else LastDefined(profiles, k)
  }

  /** The value of a key once profiles and environment are in: a set variable wins, even an empty one. */
  function Layered(profiles: seq<Option<Config>>, env: Env, paths: Paths, configvars: seq<string>,
                   k: string): Option<Val> {
    if k in configvars && k != "consensus" && ShellName(k) in env then Some(Str(TextOfString(env[ShellName(k)])))
    else Profiled(profiles, env, paths, k)
  }

  /** A Python KeyError on the missing maxnodes. */
  datatype NewConfig = Written(config: Config) | MissingMaxnodes

  /** The entries that are always set, and the name made up from the number of nodes when there is none. */
  function Finished(merged: Config, consensus: string, nodesdir: string): NewConfig {
    var bench := merged["consensus" := Str(consensus)]["nodesdir" := Str(nodesdir)];
    if !Falsy(merged, "name") then Written(bench)
    else if "maxnodes" !in merged then MissingMaxnodes
    else Written(bench["name" := Str(consensus + Shown(merged["maxnodes"]))])
  }

  /** A name that is given, and not one Python takes for nothing. */
  predicate Named(name: Option<Val>) {
    name.Some? && name.value != Str("") && name.value != Bool(false)
  }

  /** What the name becomes: the one that is given, or the consensus with the number of nodes as Python prints it. */
  predicate NameIs(name: Val, given: Option<Val>, maxnodes: Option<Val>, consensus: string) {
    if Named(given) then name == given.value
    else match maxnodes
      case Some(Str(s)) => name == Str(consensus + s)
      case Some(Bool(b)) => name == Str(consensus + if b then "True" else "False")
      case None => false
  }

  /**
  A None profile is a file that does not exist. For any profiles, any contents and any environment, every key has
  its layered value, pyenv included, except the three that are set last: consensus and nodesdir are the arguments, and
  a name that is missing is made up. Only a missing maxnodes can fail, and only when the name is missing, too.
  */
  method CmdNewConfig(profiles: seq<Option<Config>>, env: Env, configvars: seq<string>, consensus: string,
                      nodesdir: string, paths: Paths) returns (r: NewConfig)
    ensures exists layered ::
      AllLayered(layered, profiles, env, paths, configvars) && r == Finished(layered, consensus, nodesdir)
    ensures r.Written? ==> forall k :: k != "consensus" && k != "nodesdir" && k != "name" ==>
      Holds(r.config, k, Layered(profiles, env, paths, configvars, k))
    ensures r.Written? ==>
      Entry(r.config, "consensus") == Some(Str(consensus)) && Entry(r.config, "nodesdir") == Some(Str(nodesdir))
    ensures
      var given := Layered(profiles, env, paths, configvars, "name");
      var maxnodes := Layered(profiles, env, paths, configvars, "maxnodes");
      && (r.Written? ==> "name" in r.config && NameIs(r.config["name"], given, maxnodes, consensus))
      && (r.MissingMaxnodes? <==> !Named(given) && maxnodes.None?)
  {
    var bench := MergeProfiles(profiles);
    if "pyenv" in bench {
      bench := bench["pyenv" := Str(paths.inConfig(bench["pyenv"]))];
    } else {
      var pyenvdir := if ShellName("pyenv") in env then env[ShellName("pyenv")] else "env";
      bench := bench["pyenv" := Str(paths.inLaunch(pyenvdir))];
    }
    bench := ApplyEnvironment(bench, profiles, env, paths, configvars);
    r := Finish(bench, consensus, nodesdir);
    FinishedLayered(bench, profiles, env, paths, configvars, consensus, nodesdir);
    FinishedKeepsLayered(bench, profiles, env, paths, configvars, consensus, nodesdir);
  }

  lemma FinishedLayered(layered: Config, profiles: seq<Option<Config>>, env: Env, paths: Paths, configvars: seq<string>,
                        consensus: string, nodesdir: string)
    requires AllLayered(layered, profiles, env, paths, configvars)
    ensures
      var r := Finished(layered, consensus, nodesdir);
      var given := Layered(profiles, env, paths, configvars, "name");
      var maxnodes := Layered(profiles, env, paths, configvars, "maxnodes");
      && (r.MissingMaxnodes? <==> !Named(given) && maxnodes.None?)
      && (r.Written? ==>
            && Entry(r.config, "consensus") == Some(Str(consensus))
            && Entry(r.config, "nodesdir") == Some(Str(nodesdir))
            && "name" in r.config && NameIs(r.config["name"], given, maxnodes, consensus))
  {
    FinishedIs(layered, consensus, nodesdir);
    EntryIs(layered, "name", Layered(profiles, env, paths, configvars, "name"));
    EntryIs(layered, "maxnodes", Layered(profiles, env, paths, configvars, "maxnodes"));
  }

  lemma FinishedKeepsLayered(layered: Config, profiles: seq<Option<Config>>, env: Env, paths: Paths,
                             configvars: seq<string>, consensus: string, nodesdir: string)
    requires AllLayered(layered, profiles, env, paths, configvars)
    ensures
      var r := Finished(layered, consensus, nodesdir);
      r.Written? ==> forall k :: k != "consensus" && k != "nodesdir" && k != "name" ==>
        Holds(r.config, k, Layered(profiles, env, paths, configvars, k))
  {
    forall k | k != "consensus" && k != "nodesdir" && k != "name"
      ensures Finished(layered, consensus, nodesdir).Written? ==>
        Entry(Finished(layered, consensus, nodesdir).config, k) == Entry(layered, k)
    {
    }
  }

  lemma EntryIs(config: Config, k: string, v: Option<Val>)
    requires Holds(config, k, v)
    ensures Entry(config, k) == v
  {
  }

  /** What a configuration holds for a key. */
  function Entry(config: Config, k: string): Option<Val> {
    if k in config then Some(config[k]) else None
  }

  lemma FinishedIs(merged: Config, consensus: string, nodesdir: string)
    ensures
      var r := Finished(merged, consensus, nodesdir);
      && (r.MissingMaxnodes? <==> !Named(Entry(merged, "name")) && "maxnodes" !in merged)
      && (r.Written? ==>
            && Entry(r.config, "consensus") == Some(Str(consensus))
            && Entry(r.config, "nodesdir") == Some(Str(nodesdir))
            && "name" in r.config
            && NameIs(r.config["name"], Entry(merged, "name"), Entry(merged, "maxnodes"), consensus))
  {
  }

  /** The profile at i is the last one that defines k. */
  ghost predicate LastToDefine(profiles: seq<Option<Config>>, k: string, i: nat) {
    i < |profiles| && Defines(profiles[i], k) && forall j :: i < j < |profiles| ==> !Defines(profiles[j], k)
  }

  /**
  The layered value, said without the layers: a variable that is listed and set wins, even an empty one, in the
  shell's spelling of truth values; else the last profile that defines the key; a pyenv is made a path, and the
  variable of one that no profile defines is taken even if it is not listed.
  */
  lemma LayeredIs(profiles: seq<Option<Config>>, env: Env, paths: Paths, configvars: seq<string>, k: string)
    ensures
      var v := Layered(profiles, env, paths, configvars, k);
      if k in configvars && k != "consensus" && ShellName(k) in env then
        var s := env[ShellName(k)];
        v == Some(Str(if s == "True" then "true" else if s == "False" then "false" else s))
      else
        && (forall i: nat :: LastToDefine(profiles, k, i) ==>
              v == Some(if k == "pyenv" then Str(paths.inConfig(profiles[i].value[k])) else profiles[i].value[k]))
        && ((forall i :: 0 <= i < |profiles| ==> !Defines(profiles[i], k)) ==>
              v == if k != "pyenv" then None
                   else Some(Str(paths.inLaunch(if ShellName(k) in env then env[ShellName(k)] else "env"))))
  {
    UndefinedExactlyWhen(profiles, k);
    forall i: nat | LastToDefine(profiles, k, i)
      ensures LastDefined(profiles, k) == Some(profiles[i].value[k])
    {
      LastDefinedIs(profiles, k, i);
    }
  }

  method Finish(merged: Config, consensus: string, nodesdir: string) returns (r: NewConfig)
    ensures r == Finished(merged, consensus, nodesdir)
  {
    var bench := merged["consensus" := Str(consensus)]["nodesdir" := Str(nodesdir)];
    assert Falsy(bench, "name") <==> Falsy(merged, "name");
    if Falsy(bench, "name") {
      if "maxnodes" !in bench {
        return MissingMaxnodes;
      }
      bench := bench["name" := Str(consensus + Shown(bench["maxnodes"]))];
    }
    return Written(bench);
  }

  /** The configuration holds for k what v says. */
  predicate Holds(config: Config, k: string, v: Option<Val>) {
    match v case None => k !in config case Some(x) => k in config && config[k] == x
  }

  method MergeProfiles(profiles: seq<Option<Config>>) returns (bench: Config)
    ensures forall k :: Holds(bench, k, LastDefined(profiles, k))
  {
    bench := map[];
    for i := 0 to |profiles|
      invariant forall k :: Holds(bench, k, LastDefined(profiles[..i], k))
    {
      assert profiles[..i + 1][..i] == profiles[..i];
      if profiles[i].None? {
        continue;
      }
      bench := bench + profiles[i].value;
    }
    assert profiles[..|profiles|] == profiles;
  }

  lemma LayeredWithOneMore(profiles: seq<Option<Config>>, env: Env, paths: Paths, configvars: seq<string>,
                           i: nat, k: string)
    requires i < |configvars|
    ensures Layered(profiles, env, paths, configvars[..i + 1], k)
      == if k == configvars[i] && k != "consensus" && ShellName(k) in env
         then Some(Str(TextOfString(env[ShellName(k)])))
         else Layered(profiles, env, paths, configvars[..i], k)
  {
    assert k in configvars[..i + 1] <==> k in configvars[..i] || k == configvars[i];
  }

  ghost predicate AllLayered(bench: Config, profiles: seq<Option<Config>>, env: Env, paths: Paths,
                             configvars: seq<string>) {
    forall k :: Holds(bench, k, Layered(profiles, env, paths, configvars, k))
  }

  /** The configuration after the environment had its say on one key. */
  function Overridden(bench: Config, env: Env, k: string): Config {
    if k == "consensus" || ShellName(k) !in env then bench else bench[k := Str(TextOfString(env[ShellName(k)]))]
  }

  lemma OneMoreVariable(bench: Config, profiles: seq<Option<Config>>, env: Env, paths: Paths,
                        configvars: seq<string>, i: nat)
    requires i < |configvars| && AllLayered(bench, profiles, env, paths, configvars[..i])
    ensures AllLayered(Overridden(bench, env, configvars[i]), profiles, env, paths, configvars[..i + 1])
  {
    var bench', vars := Overridden(bench, env, configvars[i]), configvars[..i + 1];
    forall k: string
      ensures Holds(bench', k, Layered(profiles, env, paths, vars, k))
    {
      LayeredWithOneMore(profiles, env, paths, configvars, i, k);
      assert Holds(bench, k, Layered(profiles, env, paths, configvars[..i], k));
    }
  }

  method ApplyEnvironment(merged: Config, ghost profiles: seq<Option<Config>>, env: Env, ghost paths: Paths,
                          configvars: seq<string>)
    returns (bench: Config)
    requires forall k :: Holds(merged, k, Profiled(profiles, env, paths, k))
    ensures AllLayered(bench, profiles, env, paths, configvars)
  {
    bench := merged;
    for i := 0 to |configvars|
      invariant AllLayered(bench, profiles, env, paths, configvars[..i])
    {
      var k := configvars[i];
      OneMoreVariable(bench, profiles, env, paths, configvars, i);
      if k == "consensus" || ShellName(k) !in env {
        continue;
      }
      var v := env[ShellName(k)];
      if v == "False" {
        v := "false";
      }
      if v == "True" {
        v := "true";
      }
      assert v == TextOfString(env[ShellName(k)]);
      if Falsy(bench, k) {
        bench := bench[k := Str(v)];
        continue;
      }
      bench := bench[k := Str(v)];
    }
    assert configvars[..|configvars|] == configvars;
  }
}
