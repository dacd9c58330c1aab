/**
  Clients of the loader that replay the situations of env_test.go. Each
  method builds a loader, loads it, and returns what the situation checks
  (the outcome, the error text, the values written or the help text); its
  `ensures` states what the situation expects. (The process-environment
  situation, env_test.go lines 62-85, and the float situations are not
  modelled; the help situations use an empty map.)
*/
module Scenarios {
  import opened Options
  import opened Text
  import opened Decode
  import opened Sources
  import opened Bindings
  import opened Resolution
  import opened Env

  /** Splitting "de,fr,it" on "," gives the three codes in order. */
  lemma SplitCountryCodes()
    ensures Split("de,fr,it", ",") == ["de", "fr", "it"]
    ensures Split("de,it,fr", ",") == ["de", "it", "fr"]
  {
    SplitThree("de", "fr", "it", ",");
    Spelled("de", "fr", "it", "de,fr,it");
    SplitThree("de", "it", "fr", ",");
    Spelled("de", "it", "fr", "de,it,fr");
  }

  lemma SplitThree(a: string, b: string, c: string, d: string)
    requires d != [] && d[0] !in a && d[0] !in b && d[0] !in c
    ensures Split(a + d + b + d + c, d) == [a, b, c]
  {
    SplitWithout(c, d);
    SplitCons(b, d, c);
    assert a + d + b + d + c == a + d + (b + d + c);
    SplitCons(a, d, b + d + c);
  }

  lemma SetOfCountryCodes()
    ensures ToSet(["de", "it", "fr"]) == map["de" := true, "it" := true, "fr" := true]
  {
  }

  /*
    Identities between string literals. They say nothing about the loader;
    each is stated on its own so that the solver checks it without the
    context of a scenario, where comparing long literals is costly.
  */

  /** `s` is the three two-letter codes with commas between them. */
  lemma Spelled(a: string, b: string, c: string, s: string)
    requires |a| == |b| == |c| == 2 && |s| == 8
    requires s[0] == a[0] && s[1] == a[1] && s[2] == ',' && s[3] == b[0]
    requires s[4] == b[1] && s[5] == ',' && s[6] == c[0] && s[7] == c[1]
    ensures a + "," + b + "," + c == s
  {
  }

  /** The header followed by BAR, and by PRE_BAR. */
  lemma MissingBarText()
    ensures MissingHeader + "BAR" == "missing environment variables: BAR"
    ensures MissingHeader + ("PRE_" + "BAR") == "missing environment variables: PRE_BAR"
  {
  }

  /** The two help lines of the HOST/PORT situation, and the text they make. */
  lemma HostPortText()
    ensures "" + "HOST" + " -- " + "hostname" == "HOST -- hostname"
    ensures "" + "PORT" + " -- " + "port number" == "PORT -- port number"
    ensures "HOST -- hostname" + "\n" + ("PORT -- port number" + "\n" + "") ==
      "HOST -- hostname\nPORT -- port number\n"
  {
  }

  /** The effective key of PI under MATH_ then CONSTANTS_. */
  lemma PiKeyText()
    ensures "" + "MATH_" + "CONSTANTS_" + "PI" + " -- " == "MATH_CONSTANTS_PI -- "
  {
  }

  /** Loading one binding that is neither missing nor malformed succeeds and writes at most it. */
  lemma LoadOne(src: Source, b: Binding)
    requires !IsMissing(src, b) && !IsMalformed(src, b)
    ensures LoadOutcome(src, [b]) == Ok
    ensures LoadValues(src, [b]) ==
      if b.dest.Slot? && StepOf(src, b).Assign? then map[0 := StepOf(src, b).value] else map[]
  {
    var p := Run(src, [b], 0);
    RunStep(src, [b], 1);
    ApplyRecords(src, b, 0, p);
    ApplyValues(src, b, 0, p);
  }

  /** Loading two bindings that resolve to values writes both and succeeds. */
  lemma LoadTwo(src: Source, b0: Binding, b1: Binding)
    requires StepOf(src, b0).Assign? && b0.dest.Slot?
    requires StepOf(src, b1).Assign? && b1.dest.Slot?
    ensures LoadOutcome(src, [b0, b1]) == Ok
    ensures LoadValues(src, [b0, b1]) == map[0 := StepOf(src, b0).value, 1 := StepOf(src, b1).value]
  {
    RunStep(src, [b0, b1], 1);
    RunStep(src, [b0, b1], 2);
  }

  /** The help text of HOST "hostname" then PORT "port number", without a prefix. */
  lemma HostPortHelp(bs: seq<Binding>)
    requires |bs| == 2
    requires bs[0].key == "HOST" && bs[0].description == "hostname"
    requires bs[1].key == "PORT" && bs[1].description == "port number"
    ensures HelpText("", bs) == "HOST -- hostname\nPORT -- port number\n"
  {
    var host, port := HelpLine("", bs[0]), HelpLine("", bs[1]);
    assert HelpText("", bs[1..][1..]) == "";
    assert HelpText("", bs[1..]) == port + "\n" + "";
    assert HelpText("", bs) == host + "\n" + (port + "\n" + "");
    HostPortText();
  }

  /** A key found in the map loads; a key absent from it is reported by name. */
  method MapSourceScenario() returns (found: Outcome, missing: Outcome)
    ensures found == Ok
    ensures missing == MissingVariables(["BAR"])
    ensures Message(missing.keys) == "missing environment variables: BAR"
  {
    var e := new Loader.FromMap(map["FOO" := "abc"]);
    e.String("FOO", Nil, "irrelevant");
    var values;
    found, values := e.Load();
    assert e.bindings == [e.bindings[0]];
    assert Lookup(e.source, "FOO") == Some("abc");
    LoadOne(e.source, e.bindings[0]);

    e := new Loader.FromMap(map["FOO" := "abc"]);
    e.String("BAR", Nil, "irrelevant");
    missing, values := e.Load();
    assert Lookup(e.source, "BAR") == None;
    assert e.bindings == [e.bindings[0]];
    SingleMissingMessage(e.source, e.bindings[0]);
    MissingBarText();
  }

  /** A prefixed loader finds its keys under the prefix. */
  method PrefixSourceScenario() returns (outcome: Outcome)
    ensures outcome == Ok
  {
    var root := new Loader.FromMap(map["PRE_FOO" := "abc"]);
    var e := root.Prefix("PRE_");
    e.String("FOO", Nil, "irrelevant");
    var values;
    outcome, values := e.Load();
    assert e.bindings == [e.bindings[0]];
    assert "" + "PRE_" + "FOO" == "PRE_FOO";
    assert Lookup(e.source, "FOO") == Some("abc");
    LoadOne(e.source, e.bindings[0]);
  }

  /** An unprefixed key does not satisfy a prefixed loader. */
  method PrefixSourceUnprefixedScenario() returns (outcome: Outcome)
    ensures outcome.MissingVariables?
  {
    var root := new Loader.FromMap(map["FOO" := "abc"]);
    var e := root.Prefix("PRE_");
    e.String("FOO", Nil, "irrelevant");
    var values;
    outcome, values := e.Load();
    assert Lookup(e.source, "FOO") == None;
    assert e.bindings == [e.bindings[0]];
    SingleMissingMessage(e.source, e.bindings[0]);
  }

  /** A missing key is reported with its prefix. */
  method PrefixSourceMissingScenario() returns (outcome: Outcome)
    ensures outcome.MissingVariables?
    ensures Message(outcome.keys) == "missing environment variables: PRE_BAR"
  {
    var root := new Loader.FromMap(map["PRE_FOO" := "abc"]);
    var e := root.Prefix("PRE_");
    e.String("BAR", Nil, "irrelevant");
    var values;
    outcome, values := e.Load();
    assert "" + "PRE_" + "BAR" == "PRE_BAR";
    assert Lookup(e.source, "BAR") == None;
    assert e.bindings == [e.bindings[0]];
    SingleMissingMessage(e.source, e.bindings[0]);
    MissingBarText();
  }

  /** One help line per binding, in registration order. */
  method HelpScenario() returns (text: string)
    ensures text == "HOST -- hostname\nPORT -- port number\n"
  {
    var e := new Loader.FromMap(map[]);
    e.String("HOST", Nil, "hostname");
    e.Int("PORT", Nil, "port number");
    text := e.Help();
    assert KeyPrefix(e.source) == "";
    HostPortHelp(e.bindings);
  }

  const PiDescription := "the ratio of a circle's circumference to its diameter"

  /** A loader prefixed twice lists only its own bindings, under both prefixes. */
  method PrefixedHelpScenario() returns (text: string)
    ensures text == "MATH_CONSTANTS_PI -- " + PiDescription + "\n"
  {
    var e := new Loader.FromMap(map[]);
    e.String("HOST", Nil, "hostname");
    e.Int("PORT", Nil, "port number");
    var math := e.Prefix("MATH_");
    var sub := math.Prefix("CONSTANTS_");
    sub.Float("PI", Nil, PiDescription);
    text := sub.Help();
    assert KeyPrefix(sub.source) == "" + "MATH_" + "CONSTANTS_";
    var b := sub.bindings[0];
    assert sub.bindings == [b] && sub.bindings[1..] == [];
    assert text == HelpLine(KeyPrefix(sub.source), b) + "\n" + "";
    PiKeyText();
  }

  method StringScenario() returns (outcome: Outcome, values: map<nat, Value>)
    ensures outcome == Ok && values == map[0 := StrVal("abc")]
  {
    var e := new Loader.FromMap(map["FOO" := "abc"]);
    e.String("FOO", Slot, "irrelevant");
    outcome, values := e.Load();
    assert e.bindings == [e.bindings[0]];
    assert Lookup(e.source, "FOO") == Some("abc");
    LoadOne(e.source, e.bindings[0]);
  }

  method OptionalStringScenario() returns (outcome: Outcome, values: map<nat, Value>)
    ensures outcome == Ok && values == map[0 := StrVal("abc"), 1 := StrVal("def")]
  {
    var e := new Loader.FromMap(map["FOO" := "abc"]);
    e.OptionalString("FOO", Slot, "xyz", "irrelevant");
    e.OptionalString("BAR", Slot, "def", "irrelevant");
    outcome, values := e.Load();
    var b0, b1 := e.bindings[0], e.bindings[1];
    assert e.bindings == [b0, b1];
    assert Lookup(e.source, "FOO") == Some("abc") && Lookup(e.source, "BAR") == None;
    LoadTwo(e.source, b0, b1);
  }

  method IntScenario() returns (outcome: Outcome, values: map<nat, Value>)
    ensures outcome == Ok && values == map[0 := IntVal(123)]
  {
    var e := new Loader.FromMap(map["FOO" := "123"]);
    e.Int("FOO", Slot, "irrelevant");
    outcome, values := e.Load();
    var b := e.bindings[0];
    assert e.bindings == [b];
    assert Lookup(e.source, "FOO") == Some("123");
    ParseInt123();
    ResolveRules(b.kind, Lookup(e.source, b.key));
    LoadOne(e.source, b);
  }

  method OptionalIntScenario() returns (outcome: Outcome, values: map<nat, Value>)
    ensures outcome == Ok && values == map[0 := IntVal(123), 1 := IntVal(456)]
  {
    var e := new Loader.FromMap(map["FOO" := "123"]);
    e.OptionalInt("FOO", Slot, 999, "irrelevant");
    e.OptionalInt("BAR", Slot, 456, "irrelevant");
    outcome, values := e.Load();
    var b0, b1 := e.bindings[0], e.bindings[1];
    assert e.bindings == [b0, b1];
    assert Lookup(e.source, "FOO") == Some("123") && Lookup(e.source, "BAR") == None;
    ParseInt123();
    ResolveRules(b0.kind, Lookup(e.source, b0.key));
    LoadTwo(e.source, b0, b1);
  }

  method BoolScenario() returns (outcome: Outcome, values: map<nat, Value>)
    ensures outcome == Ok && values == map[0 := BoolVal(true)]
  {
    var e := new Loader.FromMap(map["FOO" := "true"]);
    e.Bool("FOO", Slot, "irrelevant");
    outcome, values := e.Load();
    var b := e.bindings[0];
    assert e.bindings == [b];
    assert Lookup(e.source, "FOO") == Some("true");
    ResolveRules(b.kind, Lookup(e.source, b.key));
    LoadOne(e.source, b);
  }

  method OptionalBoolScenario() returns (outcome: Outcome, values: map<nat, Value>)
    ensures outcome == Ok && values == map[0 := BoolVal(false), 1 := BoolVal(true)]
  {
    var e := new Loader.FromMap(map["FOO" := "false"]);
    e.OptionalBool("FOO", Slot, false, "irrelevant");
    e.OptionalBool("BAR", Slot, true, "irrelevant");
    outcome, values := e.Load();
    var b0, b1 := e.bindings[0], e.bindings[1];
    assert e.bindings == [b0, b1];
    assert Lookup(e.source, "FOO") == Some("false") && Lookup(e.source, "BAR") == None;
    ResolveRules(b0.kind, Lookup(e.source, b0.key));
    LoadTwo(e.source, b0, b1);
  }

  /** A flag is true when its key is present, even with an empty value, and false otherwise. */
  method FlagScenario() returns (outcome: Outcome, values: map<nat, Value>)
    ensures outcome == Ok && values == map[0 := BoolVal(true), 1 := BoolVal(false)]
  {
    var e := new Loader.FromMap(map["FOO" := ""]);
    e.Flag("FOO", Slot, "irrelevant");
    e.Flag("BAR", Slot, "irrelevant");
    outcome, values := e.Load();
    var b0, b1 := e.bindings[0], e.bindings[1];
    assert e.bindings == [b0, b1];
    assert Lookup(e.source, "FOO") == Some("") && Lookup(e.source, "BAR") == None;
    ResolveRules(b0.kind, Lookup(e.source, b0.key));
    ResolveRules(b1.kind, Lookup(e.source, b1.key));
    LoadTwo(e.source, b0, b1);
  }

  method ListScenario() returns (outcome: Outcome, values: map<nat, Value>)
    ensures outcome == Ok && values == map[0 := ListVal(["de", "fr", "it"])]
  {
    var e := new Loader.FromMap(map["FOO" := "de,fr,it"]);
    e.List("FOO", Slot, ",", "irrelevant");
    outcome, values := e.Load();
    var b := e.bindings[0];
    assert e.bindings == [b];
    assert Lookup(e.source, "FOO") == Some("de,fr,it");
    ResolveRules(b.kind, Lookup(e.source, b.key));
    SplitCountryCodes();
    LoadOne(e.source, b);
  }

  method OptionalListScenario() returns (outcome: Outcome, values: map<nat, Value>)
    ensures outcome == Ok && values == map[0 := ListVal(["de", "fr", "it"]), 1 := ListVal(["dk", "se"])]
  {
    var e := new Loader.FromMap(map["FOO" := "de,fr,it"]);
    e.OptionalList("FOO", Slot, ",", ["ussr"], "irrelevant");
    e.OptionalList("BAR", Slot, ",", ["dk", "se"], "irrelevant");
    outcome, values := e.Load();
    var b0, b1 := e.bindings[0], e.bindings[1];
    assert e.bindings == [b0, b1];
    assert Lookup(e.source, "FOO") == Some("de,fr,it") && Lookup(e.source, "BAR") == None;
    ResolveRules(b0.kind, Lookup(e.source, b0.key));
    ResolveRules(b1.kind, Lookup(e.source, b1.key));
    SplitCountryCodes();
    LoadTwo(e.source, b0, b1);
  }

  method SetScenario() returns (outcome: Outcome, values: map<nat, Value>)
    ensures outcome == Ok && values == map[0 := SetVal(map["de" := true, "it" := true, "fr" := true])]
  {
    var e := new Loader.FromMap(map["FOO" := "de,it,fr"]);
    e.Set("FOO", Slot, ",", "irrelevant");
    outcome, values := e.Load();
    var b := e.bindings[0];
    assert e.bindings == [b];
    assert Lookup(e.source, "FOO") == Some("de,it,fr");
    ResolveRules(b.kind, Lookup(e.source, b.key));
    SplitCountryCodes();
    SetOfCountryCodes();
    LoadOne(e.source, b);
  }

  method OptionalSetScenario() returns (outcome: Outcome, values: map<nat, Value>)
    ensures outcome == Ok
    ensures values == map[0 := SetVal(map["de" := true, "it" := true, "fr" := true]),
                          1 := SetVal(map["dk" := true, "se" := true])]
  {
    var e := new Loader.FromMap(map["FOO" := "de,it,fr"]);
    e.OptionalSet("FOO", Slot, ",", map["sfry" := true], "irrelevant");
    e.OptionalSet("BAR", Slot, ",", map["dk" := true, "se" := true], "irrelevant");
    outcome, values := e.Load();
    var b0, b1 := e.bindings[0], e.bindings[1];
    assert e.bindings == [b0, b1];
    assert Lookup(e.source, "FOO") == Some("de,it,fr") && Lookup(e.source, "BAR") == None;
    ResolveRules(b0.kind, Lookup(e.source, b0.key));
    ResolveRules(b1.kind, Lookup(e.source, b1.key));
    SplitCountryCodes();
    SetOfCountryCodes();
    LoadTwo(e.source, b0, b1);
  }
}
