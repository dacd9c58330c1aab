/**
  Registered bindings and how one binding resolves against the value its key
  finds (or does not find) in the source.
*/
module Bindings {
  import opened Options
  import opened Text
  import opened Decode

  /** Where a decoded value goes: a caller's variable, or nowhere (Go's nil pointer). */
  datatype Destination = Nil | Slot

  /** A decoded value as it is written to a destination. */
  datatype Value =
    | StrVal(str: string)
    | IntVal(number: int)
    | BoolVal(truth: bool)
    | ListVal(items: seq<string>)
    | SetVal(members: map<string, bool>)

  /**
    The kind of a binding with its kind-specific data. A default of `None`
    makes the binding required; `Some(d)` makes it optional with default `d`.
    A flag is never required. A float binding keeps only whether it is
    required: its values and default are not modelled.
  */
  datatype Kind =
    | StringKind(stringDefault: Option<string>)
    | IntKind(intDefault: Option<int>)
    | FloatKind(floatRequired: bool)
    | BoolKind(boolDefault: Option<bool>)
    | FlagKind
    | ListKind(listDelim: string, listDefault: Option<seq<string>>)
    | SetKind(setDelim: string, setDefault: Option<map<string, bool>>)
  {
    predicate Required() {
      match this
      case StringKind(d) => d.None?
      case IntKind(d) => d.None?
      case FloatKind(required) => required
      case BoolKind(d) => d.None?
      case FlagKind => false
      case ListKind(_, d) => d.None?
      case SetKind(_, d) => d.None?
    }

    /** The default of an optional binding, as the value written for an absent key. */
    function Default(): Option<Value> {
      match this
      case StringKind(d) => if d.Some? then Some(StrVal(d.value)) else None
      case IntKind(d) => if d.Some? then Some(IntVal(d.value)) else None
      case FloatKind(_) => None
      case BoolKind(d) => if d.Some? then Some(BoolVal(d.value)) else None
      case FlagKind => Some(BoolVal(false))
      case ListKind(_, d) => if d.Some? then Some(ListVal(d.value)) else None
      case SetKind(_, d) => if d.Some? then Some(SetVal(d.value)) else None
    }
  }

  datatype Binding = Binding(key: string, dest: Destination, description: string, kind: Kind)

  /** What resolving one binding does. */
  datatype Step =
    | Assign(value: Value)  // write `value` to the destination, if there is one
    | Missing               // a required key is absent: report it
    | Malformed             // a present value does not decode
    | Unmodelled            // a float binding that is satisfied: its value is not modelled

  /**
    Resolve a binding of kind `kind` given what its key found in the source.
    An absent key is an error exactly when the binding is required, and only
    a present integer or boolean can fail to decode; ResolveRules gives the
    rule for each kind.
  */
  function Resolve(kind: Kind, found: Option<string>): (r: Step)
    ensures r.Missing? <==> kind.Required() && found.None?
    ensures r.Malformed? ==> found.Some? && (kind.IntKind? || kind.BoolKind?)
  {
    match found
    case None =>
      if kind.Required() then Missing
      else if kind.FloatKind? then Unmodelled
      else Assign(kind.Default().value)
    case Some(raw) =>
      match kind
      case StringKind(_) => Assign(StrVal(raw))
      case IntKind(_) =>
        var parsed := ParseInt(raw);
        if parsed.Some? then Assign(IntVal(parsed.value)) else Malformed
      case FloatKind(_) => Unmodelled
      case BoolKind(_) =>
        var parsed := ParseBool(raw);
        if parsed.Some? then Assign(BoolVal(parsed.value)) else Malformed
      case FlagKind => Assign(BoolVal(true))
      case ListKind(delim, _) => Assign(ListVal(Split(raw, delim)))
      case SetKind(delim, _) => Assign(SetVal(ToSet(Split(raw, delim))))
  }

  /**
    The rules of Resolve, kind by kind: an absent optional key takes the
    default verbatim; a flag is presence; a present value is decoded by its
    kind's rule.
  */
  lemma ResolveRules(kind: Kind, found: Option<string>)
    ensures found.None? && !kind.Required() && !kind.FloatKind? ==>
      Resolve(kind, found) == Assign(kind.Default().value)
    ensures kind.FlagKind? ==> Resolve(kind, found) == Assign(BoolVal(found.Some?))
    ensures kind.StringKind? && found.Some? ==> Resolve(kind, found) == Assign(StrVal(found.value))
    ensures kind.IntKind? && found.Some? ==>
      Resolve(kind, found) ==
        (if ParseInt(found.value).Some? then Assign(IntVal(ParseInt(found.value).value)) else Malformed)
    ensures kind.BoolKind? && found.Some? ==>
      Resolve(kind, found) ==
        (if ParseBool(found.value).Some? then Assign(BoolVal(ParseBool(found.value).value)) else Malformed)
    ensures kind.ListKind? && found.Some? ==>
      Resolve(kind, found) == Assign(ListVal(Split(found.value, kind.listDelim)))
    ensures kind.SetKind? && found.Some? ==>
      Resolve(kind, found) == Assign(SetVal(ToSet(Split(found.value, kind.setDelim))))
  {
  }

  /**
    A list value decodes losslessly: joining its items with the delimiter
    gives back the raw text.
  */
  lemma ListDecodeLossless(delim: string, def: Option<seq<string>>, raw: string)
    ensures Resolve(ListKind(delim, def), Some(raw)).Assign?
    ensures Join(Resolve(ListKind(delim, def), Some(raw)).value.items, delim) == raw
  {
    JoinSplit(raw, delim);
  }

  /** A set value holds exactly the parts of the raw text, each mapped to true. */
  lemma SetDecodeMembers(delim: string, def: Option<map<string, bool>>, raw: string, k: string)
    ensures Resolve(SetKind(delim, def), Some(raw)).Assign?
    ensures var m := Resolve(SetKind(delim, def), Some(raw)).value.members;
      (k in m <==> k in Split(raw, delim)) && (k in m ==> m[k])
  {
  }
}
