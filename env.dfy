/**
  The configuration loader. A loader is bound to a source for its whole life
  and accumulates bindings, one per registration call, in registration order.
  `Load` resolves them all against the source; `Help` describes them. Both
  are proved to compute the functions of module Resolution, where the
  promises about them are proved.

  A destination (Go's `&foo`, or nil) is modelled by the binding's
  Destination; the values `Load` writes come back as a map from binding index
  to value, and an index missing from the map is a destination left untouched.
*/
module Env {
  import opened Options
  import opened Sources
  import opened Bindings
  import opened Resolution

  class Loader {
    const source: Source
    var bindings: seq<Binding>

    /** A loader reading from a fixed map. */
    constructor FromMap(vars: map<string, string>)
      ensures source == MapSource(vars) && bindings == []
    {
      source := MapSource(vars);
      bindings := [];
    }

    constructor OnSource(src: Source)
      ensures source == src && bindings == []
    {
      source := src;
      bindings := [];
    }

    /**
      A new loader over the same source that looks every key up with
      `prefix` in front. It starts with no bindings of its own, and this
      loader is left as it was.
    */
    method Prefix(prefix: string) returns (sub: Loader)
      ensures fresh(sub)
      ensures sub.source == PrefixSource(prefix, source) && sub.bindings == []
      ensures KeyPrefix(sub.source) == KeyPrefix(source) + prefix
    {
      sub := new Loader.OnSource(PrefixSource(prefix, source));
    }

    method Register(b: Binding)
      modifies this
      ensures bindings == old(bindings) + [b]
    {
      bindings := bindings + [b];
    }

    method String(key: string, dest: Destination, description: string)
      modifies this
      ensures bindings == old(bindings) + [Binding(key, dest, description, StringKind(None))]
    {
      Register(Binding(key, dest, description, StringKind(None)));
    }

    method OptionalString(key: string, dest: Destination, default: string, description: string)
      modifies this
      ensures bindings == old(bindings) + [Binding(key, dest, description, StringKind(Some(default)))]
    {
      Register(Binding(key, dest, description, StringKind(Some(default))));
    }

    method Int(key: string, dest: Destination, description: string)
      modifies this
      ensures bindings == old(bindings) + [Binding(key, dest, description, IntKind(None))]
    {
      Register(Binding(key, dest, description, IntKind(None)));
    }

    method OptionalInt(key: string, dest: Destination, default: int, description: string)
      modifies this
      ensures bindings == old(bindings) + [Binding(key, dest, description, IntKind(Some(default)))]
    {
      Register(Binding(key, dest, description, IntKind(Some(default))));
    }

    method Float(key: string, dest: Destination, description: string)
      modifies this
      ensures bindings == old(bindings) + [Binding(key, dest, description, FloatKind(true))]
    {
      Register(Binding(key, dest, description, FloatKind(true)));
    }

    /** The floating-point default is not modelled. */
    method OptionalFloat(key: string, dest: Destination, description: string)
      modifies this
      ensures bindings == old(bindings) + [Binding(key, dest, description, FloatKind(false))]
    {
      Register(Binding(key, dest, description, FloatKind(false)));
    }

    method Bool(key: string, dest: Destination, description: string)
      modifies this
      ensures bindings == old(bindings) + [Binding(key, dest, description, BoolKind(None))]
    {
      Register(Binding(key, dest, description, BoolKind(None)));
    }

    method OptionalBool(key: string, dest: Destination, default: bool, description: string)
      modifies this
      ensures bindings == old(bindings) + [Binding(key, dest, description, BoolKind(Some(default)))]
    {
      Register(Binding(key, dest, description, BoolKind(Some(default))));
    }

    method Flag(key: string, dest: Destination, description: string)
      modifies this
      ensures bindings == old(bindings) + [Binding(key, dest, description, FlagKind)]
    {
      Register(Binding(key, dest, description, FlagKind));
    }

    method List(key: string, dest: Destination, delim: string, description: string)
      modifies this
      ensures bindings == old(bindings) + [Binding(key, dest, description, ListKind(delim, None))]
    {
      Register(Binding(key, dest, description, ListKind(delim, None)));
    }

    method OptionalList(key: string, dest: Destination, delim: string, default: seq<string>, description: string)
      modifies this
      ensures bindings == old(bindings) + [Binding(key, dest, description, ListKind(delim, Some(default)))]
    {
      Register(Binding(key, dest, description, ListKind(delim, Some(default))));
    }

    method Set(key: string, dest: Destination, delim: string, description: string)
      modifies this
      ensures bindings == old(bindings) + [Binding(key, dest, description, SetKind(delim, None))]
    {
      Register(Binding(key, dest, description, SetKind(delim, None)));
    }

    method OptionalSet(key: string, dest: Destination, delim: string, default: map<string, bool>, description: string)
      modifies this
      ensures bindings == old(bindings) + [Binding(key, dest, description, SetKind(delim, Some(default)))]
    {
      Register(Binding(key, dest, description, SetKind(delim, Some(default))));
    }

    /**
      Resolve every binding, in registration order, against the source. The
      outcome and the destinations written are those of LoadOutcome and
      LoadValues, about which the Resolution lemmas state what `Load`
      promises.
    */
    method Load() returns (outcome: Outcome, values: map<nat, Value>)
      ensures outcome == LoadOutcome(source, bindings)
      ensures values == LoadValues(source, bindings)
    {
      var missing: seq<string> := [];
      values := map[];
      var i := 0;
      while i < |bindings|
        invariant i <= |bindings|
        invariant Run(source, bindings, i) == Progress(missing, values, None)
      {
        var b := bindings[i];
        var key := EffectiveKey(source, b.key);
        match Resolve(b.kind, Lookup(source, b.key)) {
          case Missing =>
            missing := missing + [key];
          case Malformed =>
            RunStaysStopped(source, bindings, i + 1, |bindings|);
            outcome := BadValue(key);
            return;
          case Unmodelled =>
          case Assign(v) =>
            if b.dest.Slot? {
              values := values[i := v];
            }
        }
        i := i + 1;
      }
      outcome := if missing == [] then Ok else MissingVariables(missing);
    }

    /** The help text: one line per binding, without consulting the source. */
    method Help() returns (text: string)
      ensures text == HelpText(KeyPrefix(source), bindings)
    {
      var prefix := KeyPrefix(source);
      text := "";
      var i := 0;
      while i < |bindings|
        invariant i <= |bindings|
        invariant text == HelpText(prefix, bindings[..i])
      {
        HelpTextAppend(prefix, bindings[..i], [bindings[i]]);
        assert bindings[..i + 1] == bindings[..i] + [bindings[i]];
        text := text + HelpLine(prefix, bindings[i]) + "\n";
        i := i + 1;
      }
      assert bindings[..i] == bindings;
    }
  }
}
