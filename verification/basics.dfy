/** Small building blocks shared by the server model: an option type, the
    "first element that satisfies a predicate" search that the server uses
    for every table lookup, JavaScript truthiness of optional request fields,
    and lower-casing of user names. */
module Basics {

  /** A value that may be absent, as an omitted field of a JSON body. */
  datatype Option<+T> = None | Some(value: T)

  /** Index of the first element of `s` satisfying `p`, or None when there is
      none: the behaviour of JavaScript's `Array.prototype.find`/`findIndex`. */
  function FirstIndex<T>(s: seq<T>, p: T -> bool): (r: Option<nat>)
    ensures r.Some? ==> r.value < |s| && p(s[r.value])
    ensures r.Some? ==> forall k :: 0 <= k < r.value ==> !p(s[k])
    ensures r.None? ==> forall k :: 0 <= k < |s| ==> !p(s[k])
  {
    if |s| == 0 then None
    else if p(s[0]) then Some(0)
    else match FirstIndex(s[1..], p)
      case None => None
      case Some(k) => Some(k + 1)
  }

  /** JavaScript truthiness of an optional string field: present and non-empty. */
  predicate Truthy(v: Option<string>) {
    v.Some? && v.value != ""
  }

  /** No element occurs twice. */
  predicate Distinct<T(==)>(s: seq<T>) {
    forall a, b :: 0 <= a < b < |s| ==> s[a] != s[b]
  }

  /** The elements of a sequence, as a set. */
  function Members<T>(s: seq<T>): set<T> {
    set x | x in s
  }

  function LowerChar(c: char): char {
    if 'A' <= c <= 'Z' then (c as int + 32) as char else c
  }

  /** Lower-casing as `String.prototype.toLowerCase` does it, restricted to
      the ASCII letters. */
  function Lower(s: string): (r: string)
    ensures |r| == |s|
  {
    seq(|s|, i requires 0 <= i < |s| => LowerChar(s[i]))
  }

  /** What lower-casing does to each character: a capital becomes its small
      letter, every other character stays, and no capital remains, so a
      second pass changes nothing. */
  lemma LowerChars(s: string)
    ensures forall k :: 0 <= k < |s| ==> !('A' <= Lower(s)[k] <= 'Z')
    ensures forall k :: 0 <= k < |s| && !('A' <= s[k] <= 'Z') ==> Lower(s)[k] == s[k]
    ensures forall k :: 0 <= k < |s| && 'A' <= s[k] <= 'Z' ==> Lower(s)[k] as int == s[k] as int + 32
    ensures Lower(Lower(s)) == Lower(s)
  {
  }
}
