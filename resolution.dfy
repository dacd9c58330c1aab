/**
  What `Load` computes and what `Help` renders, as functions of the source and
  the registered bindings, with the properties the loader promises proved
  about them. The loader class in module Env is proved to compute exactly
  these functions.

  `Load` resolves the bindings one after another in registration order. A
  missing required key is recorded and resolution goes on, so every missing
  key is reported together. A present value that does not decode stops
  resolution at that binding; the destinations written before it keep their
  new values.
*/
module Resolution {
  import opened Options
  import opened Text
  import opened Sources
  import opened Bindings

  /** The result of `Load`. */
  datatype Outcome =
    | Ok
    | MissingVariables(keys: seq<string>)  // the effective keys of absent required bindings
    | BadValue(key: string)                 // the effective key of the first value that did not decode

  const MissingHeader: string := "missing environment variables: "

  /**
    The text of the missing-variables error: the header, then the keys in
    order, comma-space separated. A single key follows the header directly.
  */
  function Message(keys: seq<string>): (r: string)
    ensures |MissingHeader| <= |r| && r[..|MissingHeader|] == MissingHeader
    ensures |keys| == 1 ==> r == MissingHeader + keys[0]
  {
    MissingHeader + Join(keys, ", ")
  }

  /** The state of a `Load` part way through. */
  datatype Progress = Progress(missing: seq<string>, values: map<nat, Value>, bad: Option<string>)

  function StepOf(src: Source, b: Binding): Step {
    Resolve(b.kind, Lookup(src, b.key))
  }

  predicate IsMissing(src: Source, b: Binding) {
    StepOf(src, b).Missing?
  }

  predicate IsMalformed(src: Source, b: Binding) {
    StepOf(src, b).Malformed?
  }

  /** Resolve binding number `i` on top of the progress so far. */
  function Apply(src: Source, b: Binding, i: nat, p: Progress): Progress {
    match StepOf(src, b)
    case Missing => p.(missing := p.missing + [EffectiveKey(src, b.key)])
    case Malformed => p.(bad := Some(EffectiveKey(src, b.key)))
    case Unmodelled => p
    case Assign(v) => if b.dest.Slot? then p.(values := p.values[i := v]) else p
  }

  /** Resolving one binding writes its destination exactly when it resolves to a value. */
  lemma ApplyValues(src: Source, b: Binding, i: nat, p: Progress)
    ensures Apply(src, b, i, p).values ==
      if StepOf(src, b).Assign? && b.dest.Slot? then p.values[i := StepOf(src, b).value] else p.values
  {
  }

  /** Resolving one binding records its key exactly when it is missing, or stops at it when it is malformed. */
  lemma ApplyRecords(src: Source, b: Binding, i: nat, p: Progress)
    ensures Apply(src, b, i, p).missing ==
      p.missing + (if IsMissing(src, b) then [EffectiveKey(src, b.key)] else [])
    ensures Apply(src, b, i, p).bad == if IsMalformed(src, b) then Some(EffectiveKey(src, b.key)) else p.bad
  {
  }

  /**
    The progress after the first `n` bindings. Only destinations of those
    bindings are ever written, and never a nil one.
  */
  function Run(src: Source, bs: seq<Binding>, n: nat): (r: Progress)
    requires n <= |bs|
    ensures forall j :: j in r.values ==> j < n && bs[j].dest.Slot?
  {
    if n == 0 then Progress([], map[], None)
    else
      var p := Run(src, bs, n - 1);
      if p.bad.Some? then p
      else
        ApplyValues(src, bs[n - 1], n - 1, p);
        Apply(src, bs[n - 1], n - 1, p)
  }

  /**
    Whatever happens later in a run, each destination written so far holds
    the value its own binding resolves to.
  */
  lemma {:induction false} RunWrites(src: Source, bs: seq<Binding>, n: nat)
    requires n <= |bs|
    ensures forall j :: j in Run(src, bs, n).values ==>
      StepOf(src, bs[j]).Assign? && Run(src, bs, n).values[j] == StepOf(src, bs[j]).value
  {
    if n > 0 {
      RunWrites(src, bs, n - 1);
      if Run(src, bs, n - 1).bad.None? {
        RunStep(src, bs, n);
        ApplyValues(src, bs[n - 1], n - 1, Run(src, bs, n - 1));
      }
    }
  }

  /** A run that has not stopped resolves the next binding on top of what it has. */
  lemma RunStep(src: Source, bs: seq<Binding>, n: nat)
    requires 0 < n <= |bs| && Run(src, bs, n - 1).bad.None?
    ensures Run(src, bs, n) == Apply(src, bs[n - 1], n - 1, Run(src, bs, n - 1))
  {
  }

  /** The result of `Load`; a missing-variables error always names at least one key. */
  function LoadOutcome(src: Source, bs: seq<Binding>): (r: Outcome)
    ensures r.MissingVariables? ==> r.keys != []
  {
    var p := Run(src, bs, |bs|);
    if p.bad.Some? then BadValue(p.bad.value)
    else if p.missing == [] then Ok
    else MissingVariables(p.missing)
  }

  /** The destinations `Load` writes, keyed by binding index, with the values written. */
  function LoadValues(src: Source, bs: seq<Binding>): (r: map<nat, Value>)
    ensures forall j :: j in r ==> j < |bs| && bs[j].dest.Slot?
  {
    Run(src, bs, |bs|).values
  }

  /**
    Reference definition of the missing keys: the effective keys of the
    absent required bindings, in registration order.
  */
  function MissingOf(src: Source, bs: seq<Binding>): (r: seq<string>)
    ensures forall k :: k in r <==>
      exists j :: 0 <= j < |bs| && IsMissing(src, bs[j]) && k == EffectiveKey(src, bs[j].key)
  {
    if bs == [] then []
    else
      var rest := MissingOf(src, bs[1..]);
      assert forall j :: 0 <= j < |bs| - 1 ==> bs[1..][j] == bs[j + 1];
      (if IsMissing(src, bs[0]) then [EffectiveKey(src, bs[0].key)] else []) + rest
  }

  lemma {:induction false} MissingOfAppend(src: Source, a: seq<Binding>, b: seq<Binding>)
    ensures MissingOf(src, a + b) == MissingOf(src, a) + MissingOf(src, b)
    decreases |a|
  {
    if a != [] {
      assert (a + b)[0] == a[0] && (a + b)[1..] == a[1..] + b;
      MissingOfAppend(src, a[1..], b);
      var head := if IsMissing(src, a[0]) then [EffectiveKey(src, a[0].key)] else [];
      assert MissingOf(src, a + b) == head + (MissingOf(src, a[1..]) + MissingOf(src, b));
      assert MissingOf(src, a) == head + MissingOf(src, a[1..]);
    } else {
      assert a + b == b;
    }
  }

  /** No key is missing exactly when no binding is missing. */
  lemma {:induction false} MissingOfEmpty(src: Source, bs: seq<Binding>)
    ensures MissingOf(src, bs) == [] <==> forall j :: 0 <= j < |bs| ==> !IsMissing(src, bs[j])
    decreases |bs|
  {
    if bs != [] {
      MissingOfEmpty(src, bs[1..]);
      assert forall j :: 1 <= j < |bs| ==> bs[j] == bs[1..][j - 1];
    }
  }

  /** While every value decodes, a run records exactly the missing keys so far. */
  lemma {:induction false} RunCleanMissing(src: Source, bs: seq<Binding>, n: nat)
    requires n <= |bs|
    requires forall j :: 0 <= j < n ==> !IsMalformed(src, bs[j])
    ensures Run(src, bs, n).bad.None?
    ensures Run(src, bs, n).missing == MissingOf(src, bs[..n])
  {
    if n > 0 {
      RunCleanMissing(src, bs, n - 1);
      RunStep(src, bs, n);
      ApplyRecords(src, bs[n - 1], n - 1, Run(src, bs, n - 1));
      assert bs[..n] == bs[..n - 1] + [bs[n - 1]];
      MissingOfAppend(src, bs[..n - 1], [bs[n - 1]]);
      assert [bs[n - 1]][1..] == [];
    }
  }

  /**
    While every value decodes, a run has written exactly the destinations of
    the bindings so far that resolve to a value, each with that value.
  */
  lemma {:induction false} RunCleanValues(src: Source, bs: seq<Binding>, n: nat)
    requires n <= |bs|
    requires forall j :: 0 <= j < n ==> !IsMalformed(src, bs[j])
    ensures forall j :: j in Run(src, bs, n).values ==> j < n
    ensures forall j :: 0 <= j < n ==>
      (j in Run(src, bs, n).values <==> bs[j].dest.Slot? && StepOf(src, bs[j]).Assign?)
    ensures forall j :: 0 <= j < n && j in Run(src, bs, n).values ==>
      Run(src, bs, n).values[j] == StepOf(src, bs[j]).value
  {
    if n > 0 {
      RunCleanValues(src, bs, n - 1);
      RunCleanMissing(src, bs, n - 1);
      RunStep(src, bs, n);
      ApplyValues(src, bs[n - 1], n - 1, Run(src, bs, n - 1));
      var before, after := Run(src, bs, n - 1).values, Run(src, bs, n).values;
      var step := StepOf(src, bs[n - 1]);
      assert after == if step.Assign? && bs[n - 1].dest.Slot? then before[n - 1 := step.value] else before;
    }
  }

  /** Invariant of a run over bindings that all decode. */
  lemma RunClean(src: Source, bs: seq<Binding>, n: nat)
    requires n <= |bs|
    requires forall j :: 0 <= j < n ==> !IsMalformed(src, bs[j])
    ensures Run(src, bs, n).bad.None?
    ensures Run(src, bs, n).missing == MissingOf(src, bs[..n])
    ensures forall j :: j in Run(src, bs, n).values ==> j < n
    ensures forall j :: 0 <= j < n ==>
      (j in Run(src, bs, n).values <==> bs[j].dest.Slot? && StepOf(src, bs[j]).Assign?)
    ensures forall j :: 0 <= j < n && j in Run(src, bs, n).values ==>
      Run(src, bs, n).values[j] == StepOf(src, bs[j]).value
  {
    RunCleanMissing(src, bs, n);
    RunCleanValues(src, bs, n);
  }

  /** A run stops at the first malformed value and reports its key. */
  lemma {:induction false} RunStops(src: Source, bs: seq<Binding>, n: nat)
    requires n <= |bs|
    ensures Run(src, bs, n).bad.Some? <==> exists j :: 0 <= j < n && IsMalformed(src, bs[j])
    ensures Run(src, bs, n).bad.Some? ==>
      exists j :: 0 <= j < n && IsMalformed(src, bs[j]) &&
        Run(src, bs, n).bad.value == EffectiveKey(src, bs[j].key) &&
        forall i :: 0 <= i < j ==> !IsMalformed(src, bs[i])
  {
    if n > 0 {
      RunStops(src, bs, n - 1);
    }
  }

  /** Once stopped, a run stays stopped: nothing after the bad value is resolved. */
  lemma {:induction false} RunStaysStopped(src: Source, bs: seq<Binding>, m: nat, n: nat)
    requires m <= n <= |bs| && Run(src, bs, m).bad.Some?
    ensures Run(src, bs, n) == Run(src, bs, m)
    decreases n - m
  {
    if m < n {
      RunStaysStopped(src, bs, m, n - 1);
    }
  }

  /** `Load` succeeds exactly when no required key is absent and every present value decodes. */
  lemma LoadOkIff(src: Source, bs: seq<Binding>)
    ensures LoadOutcome(src, bs) == Ok <==>
      forall j :: 0 <= j < |bs| ==> !IsMissing(src, bs[j]) && !IsMalformed(src, bs[j])
  {
    RunStops(src, bs, |bs|);
    if forall j :: 0 <= j < |bs| ==> !IsMalformed(src, bs[j]) {
      RunClean(src, bs, |bs|);
      assert bs[..|bs|] == bs;
      MissingOfEmpty(src, bs);
    }
  }

  /**
    When every present value decodes, `Load` fails exactly when some required
    key is absent, and the error lists the effective keys of all absent
    required bindings, in registration order.
  */
  lemma ReportsAllMissing(src: Source, bs: seq<Binding>)
    requires forall j :: 0 <= j < |bs| ==> !IsMalformed(src, bs[j])
    ensures LoadOutcome(src, bs) ==
      if MissingOf(src, bs) == [] then Ok else MissingVariables(MissingOf(src, bs))
  {
    RunClean(src, bs, |bs|);
    assert bs[..|bs|] == bs;
  }

  /**
    `Load` reports a bad value exactly when some present value does not
    decode, and it reports the first such binding's effective key.
  */
  lemma ReportsFirstBadValue(src: Source, bs: seq<Binding>)
    ensures LoadOutcome(src, bs).BadValue? <==> exists j :: 0 <= j < |bs| && IsMalformed(src, bs[j])
    ensures LoadOutcome(src, bs).BadValue? ==>
      exists j :: 0 <= j < |bs| && IsMalformed(src, bs[j]) &&
        LoadOutcome(src, bs).key == EffectiveKey(src, bs[j].key) &&
        forall i :: 0 <= i < j ==> !IsMalformed(src, bs[i])
  {
    RunStops(src, bs, |bs|);
  }

  /**
    When binding `j` is the first whose value does not decode, `Load` reports
    its key, and the destinations written are exactly those the bindings
    before it wrote: nothing after it is resolved, and nothing is undone.
  */
  lemma KeepsWritesBeforeBadValue(src: Source, bs: seq<Binding>, j: nat)
    requires j < |bs| && IsMalformed(src, bs[j])
    requires forall i :: 0 <= i < j ==> !IsMalformed(src, bs[i])
    ensures LoadOutcome(src, bs) == BadValue(EffectiveKey(src, bs[j].key))
    ensures LoadValues(src, bs) == Run(src, bs, j).values
  {
    RunCleanMissing(src, bs, j);
    RunStep(src, bs, j + 1);
    ApplyRecords(src, bs[j], j, Run(src, bs, j));
    ApplyValues(src, bs[j], j, Run(src, bs, j));
    RunStaysStopped(src, bs, j + 1, |bs|);
  }

  /**
    When every present value decodes, `Load` writes exactly the bindings that
    have a destination and resolve to a value, and writes that value: the
    decoded text for a present key, the default verbatim for an absent
    optional key, presence for a flag. Nothing else is written.
  */
  lemma WritesDestinations(src: Source, bs: seq<Binding>)
    requires forall j :: 0 <= j < |bs| ==> !IsMalformed(src, bs[j])
    ensures forall j :: j in LoadValues(src, bs) ==> j < |bs|
    ensures forall j :: 0 <= j < |bs| ==>
      (j in LoadValues(src, bs) <==> bs[j].dest.Slot? && StepOf(src, bs[j]).Assign?)
    ensures forall j :: 0 <= j < |bs| && j in LoadValues(src, bs) ==>
      LoadValues(src, bs)[j] == StepOf(src, bs[j]).value
  {
    RunClean(src, bs, |bs|);
  }

  /**
    A required binding whose key is absent makes `Load` fail with
    "missing environment variables: K", K the prefixed key, even when the
    binding has no destination.
  */
  lemma SingleMissingMessage(src: Source, b: Binding)
    requires b.kind.Required() && Lookup(src, b.key).None?
    ensures LoadOutcome(src, [b]) == MissingVariables([EffectiveKey(src, b.key)])
    ensures Message(LoadOutcome(src, [b]).keys) == MissingHeader + KeyPrefix(src) + b.key
  {
    var key := EffectiveKey(src, b.key);
    assert [b][0] == b && [b][1..] == [];
    assert MissingOf(src, [b]) == [key] + MissingOf(src, []);
    ReportsAllMissing(src, [b]);
    assert MissingHeader + key == MissingHeader + KeyPrefix(src) + b.key;
  }

  /**
    The key list can be read back from the error text, as long as no key
    contains a comma.
  */
  lemma MessageListsKeys(keys: seq<string>)
    requires |keys| >= 1 && forall i :: 0 <= i < |keys| ==> ',' !in keys[i]
    ensures Message(keys)[..|MissingHeader|] == MissingHeader
    ensures Split(Message(keys)[|MissingHeader|..], ", ") == keys
  {
    assert Message(keys)[|MissingHeader|..] == Join(keys, ", ");
    SplitJoin(keys, ", ");
  }

  /**
    One line of help text, without its newline: it begins with the effective
    key, and holds no newline unless the prefix, key or description does.
  */
  function HelpLine(prefix: string, b: Binding): (r: string)
    ensures |prefix + b.key| <= |r| && r[..|prefix + b.key|] == prefix + b.key
    ensures '\n' !in prefix && '\n' !in b.key && '\n' !in b.description ==> '\n' !in r
  {
    prefix + b.key + " -- " + b.description
  }

  /**
    The help text: one newline-terminated line per binding, in registration
    order, whatever the kinds. It reads only the key prefix, never the source.
  */
  function HelpText(prefix: string, bs: seq<Binding>): (r: string)
    ensures r == [] <==> bs == []
    ensures r != [] ==> r[|r| - 1] == '\n'
  {
    if bs == [] then "" else HelpLine(prefix, bs[0]) + "\n" + HelpText(prefix, bs[1..])
  }

  function HelpLines(prefix: string, bs: seq<Binding>): seq<string> {
    seq(|bs|, j requires 0 <= j < |bs| => HelpLine(prefix, bs[j]))
  }

  /** Registering more bindings appends their lines to the help text. */
  lemma {:induction false} HelpTextAppend(prefix: string, a: seq<Binding>, b: seq<Binding>)
    ensures HelpText(prefix, a + b) == HelpText(prefix, a) + HelpText(prefix, b)
    decreases |a|
  {
    if a == [] {
      assert a + b == b;
    } else {
      assert (a + b)[1..] == a[1..] + b;
      HelpTextAppend(prefix, a[1..], b);
    }
  }

  /**
    The help text depends on the keys and descriptions alone: neither the
    kinds, the defaults nor the destinations of the bindings change it.
  */
  lemma {:induction false} HelpTextIgnoresKinds(prefix: string, bs: seq<Binding>, cs: seq<Binding>)
    requires |bs| == |cs|
    requires forall j :: 0 <= j < |bs| ==> bs[j].key == cs[j].key && bs[j].description == cs[j].description
    ensures HelpText(prefix, bs) == HelpText(prefix, cs)
    decreases |bs|
  {
    if bs != [] {
      HelpTextIgnoresKinds(prefix, bs[1..], cs[1..]);
    }
  }

  lemma {:induction false} HelpTextJoin(prefix: string, bs: seq<Binding>)
    ensures HelpText(prefix, bs) == Join(HelpLines(prefix, bs) + [""], "\n")
    decreases |bs|
  {
    if bs != [] {
      HelpTextJoin(prefix, bs[1..]);
      var tail := HelpLines(prefix, bs[1..]) + [""];
      assert HelpLines(prefix, bs) + [""] == [HelpLine(prefix, bs[0])] + tail;
      JoinCons(HelpLine(prefix, bs[0]), tail, "\n");
    }
  }

  /**
    The help text splits back into its lines, one per binding in order,
    followed by the empty remainder after the last newline, as long as no
    key, description or prefix holds a newline.
  */
  lemma HelpTextLines(prefix: string, bs: seq<Binding>)
    requires '\n' !in prefix
    requires forall j :: 0 <= j < |bs| ==> '\n' !in bs[j].key && '\n' !in bs[j].description
    ensures Split(HelpText(prefix, bs), "\n") == HelpLines(prefix, bs) + [""]
  {
    HelpTextJoin(prefix, bs);
    var parts := HelpLines(prefix, bs) + [""];
    forall i | 0 <= i < |parts|
      ensures "\n"[0] !in parts[i]
    {
      if i < |bs| {
        assert parts[i] == prefix + bs[i].key + " -- " + bs[i].description;
      }
    }
    SplitJoin(parts, "\n");
  }
}
