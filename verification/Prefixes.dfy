/** A filter and the prefix that the names below it start with (`prefixed`). */
module Prefixes {
  import opened Strings

  datatype Prefixed = Prefixed(filter: string, prefix: string) {
    predicate Prefixes(name: string) {
      StartsWith(name, prefix) || name == filter
    }

    function ApplyTo(name: string): string {
      if name == "" then filter else prefix + name
    }

    function Clean(name: string): string {
      if StartsWith(name, prefix) then name[|prefix|..] else name
    }
  }

  /** The prefix is the filter and a separator, or nothing at all. */
  predicate IsPrefixed(p: Prefixed, sep: string) {
    p.prefix == p.filter + sep || p == Prefixed("", "")
  }

  function MakePrefixed(value: string, sep: string): (r: Prefixed)
    ensures IsPrefixed(r, sep)
  {
    if EndsWith(value, sep) then Prefixed(value[..|value| - |sep|], value)
    else Prefixed(value, if value != "" then value + sep else value)
  }

  /** A filter takes itself and what is behind its separator; an empty one takes everything. A
      separator at its end makes no difference. */
  lemma PrefixesMeans(value: string, sep: string, name: string)
    requires sep != "" && !EndsWith(value, sep)
    ensures MakePrefixed(value, sep).Prefixes(name) <==> value == "" || name == value || StartsWith(name, value + sep)
    ensures value != "" ==> MakePrefixed(value + sep, sep) == MakePrefixed(value, sep) == Prefixed(value, value + sep)
  {
    assert (value + sep)[..|value|] == value && (value + sep)[|value|..] == sep;
  }
}
