/**
  Key/value sources. A loader reads from a fixed map, or from a prefixed view
  of another source, where looking up `k` means looking up `prefix + k` in the
  inner source. Views nest, so their prefixes compose by concatenation. (The
  process environment is the third kind of source; it is not part of this
  model.)
*/
module Sources {
  import opened Options

  datatype Source =
    | MapSource(vars: map<string, string>)
    | PrefixSource(prefix: string, inner: Source)

  /** The map at the bottom of the chain of views. */
  function Root(src: Source): map<string, string> {
    match src
    case MapSource(m) => m
    case PrefixSource(_, inner) => Root(inner)
  }

  /** The prefixes of the chain, outermost view last. */
  function KeyPrefix(src: Source): string {
    match src
    case MapSource(_) => ""
    case PrefixSource(p, inner) => KeyPrefix(inner) + p
  }

  /** The key as the bottom map sees it, and as help text and errors report it. */
  function EffectiveKey(src: Source, key: string): string {
    KeyPrefix(src) + key
  }

  /**
    Look `key` up, rewriting it through every prefixed view on the way down.
    Whatever the chain of views, this is one lookup of the effective key in
    the bottom map.
  */
  function Lookup(src: Source, key: string): (r: Option<string>)
    ensures r == (var k := EffectiveKey(src, key); if k in Root(src) then Some(Root(src)[k]) else None)
  {
    match src
    case MapSource(m) =>
      assert "" + key == key;
      if key in m then Some(m[key]) else None
    case PrefixSource(p, inner) =>
      assert KeyPrefix(inner) + (p + key) == KeyPrefix(inner) + p + key;
      Lookup(inner, p + key)
  }

  /**
    Prefixing twice is prefixing once with the concatenation: "MATH_" then
    "CONSTANTS_" looks `PI` up as `MATH_CONSTANTS_PI`.
  */
  lemma PrefixesCompose(src: Source, p: string, q: string, key: string)
    ensures Lookup(PrefixSource(q, PrefixSource(p, src)), key) == Lookup(src, p + q + key)
    ensures EffectiveKey(PrefixSource(q, PrefixSource(p, src)), key) == EffectiveKey(src, p + q + key)
  {
    assert p + (q + key) == p + q + key;
    var outer := PrefixSource(q, PrefixSource(p, src));
    assert KeyPrefix(outer) == KeyPrefix(src) + p + q;
    assert KeyPrefix(src) + p + q + key == KeyPrefix(src) + (p + q + key);
  }
}
