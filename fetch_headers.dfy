/**
 * The Fetch Standard's `Headers` object as far as the worker uses it: a map
 * from header names, compared after ASCII lower-casing, to one value each.
 * Storing names in lower case is this model's own normal form; the Fetch
 * Standard's header list keeps each name as it was set and only compares
 * names without regard to case.
 */
module FetchHeaders {
  import opened Wrappers

  function LowerChar(c: char): char
  {
    if 'A' <= c <= 'Z' then (c as int + 32) as char else c
  }

  /** ASCII lower-casing of a header name. */
  function Lower(s: string): string
  {
    seq(|s|, i requires 0 <= i < |s| => LowerChar(s[i]))
  }

  lemma LowerIdempotent(s: string)
    ensures Lower(Lower(s)) == Lower(s)
  {
  }

  /** Every stored name is in lower case. */
  ghost predicate Normalized(m: map<string, string>)
  {
    forall k :: k in m ==> Lower(k) == k
  }

  /** `headers.get(name)`: the value stored under `name`, whatever its case. */
  function Get(m: map<string, string>, name: string): Option<string>
  {
    if Lower(name) in m then Some(m[Lower(name)]) else None
  }

  /** The header map after `headers.set(name, value)`: `name` (in any case)
      now reads `value`, every other name reads as before. */
  function With(m: map<string, string>, name: string, value: string): (r: map<string, string>)
    ensures Normalized(m) ==> Normalized(r)
    ensures forall n :: Get(r, n) == if Lower(n) == Lower(name) then Some(value) else Get(m, n)
  {
    LowerIdempotent(name);
    m[Lower(name) := value]
  }

  /** Two normalised header maps that answer every `get` alike are equal. */
  lemma {:induction false} GetDetermines(m1: map<string, string>, m2: map<string, string>)
    requires Normalized(m1) && Normalized(m2)
    requires forall n :: Get(m1, n) == Get(m2, n)
    ensures m1 == m2
  {
    forall k | k in m1 ensures k in m2 && m2[k] == m1[k] {
      assert Get(m1, k) == Some(m1[k]);
    }
    forall k | k in m2 ensures k in m1 {
      assert Get(m2, k) == Some(m2[k]);
    }
  }

  /** A `Headers` object: the worker creates one, fills it with `set` and
      hands its contents to a `Response`. */
  class Headers {
    var entries: map<string, string>

    ghost predicate Valid()
      reads this
    {
      Normalized(entries)
    }

    /** `new Headers()`. */
    constructor ()
      ensures Valid() && entries == map[]
    {
      entries := map[];
    }

    /** `new Headers(init)` for the headers of another `Headers` object. */
    constructor Copy(init: map<string, string>)
      requires Normalized(init)
      ensures Valid() && entries == init
    {
      entries := init;
    }

    /** `headers.set(name, value)`. */
    method Set(name: string, value: string)
      requires Valid()
      modifies this
      ensures Valid() && entries == With(old(entries), name, value)
    {
      entries := With(entries, name, value);
    }
  }
}
