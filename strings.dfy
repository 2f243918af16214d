/** Searching and splitting text. */
module Strings {
  import opened Wrappers

  /** The rest of s after the literal prefix lit. */
  function Expect(s: string, lit: string): (r: Option<string>)
    ensures r.Some? <==> lit <= s
    ensures r.Some? ==> s == lit + r.value
  {
    if lit <= s then Some(s[|lit|..]) else None
  }

  /** Index of the first c in s, or |s| when there is none. */
  function IndexOf(s: string, c: char): (i: nat)
    ensures i <= |s|
    ensures i < |s| ==> s[i] == c
    ensures forall k :: 0 <= k < i ==> s[k] != c
  {
    if s == [] then 0 else if s[0] == c then 0 else 1 + IndexOf(s[1..], c)
  }

  /** Splits s before its first c: the text up to c and the rest starting at c. */
  function TakeTo(s: string, c: char): (r: Option<(string, string)>)
    ensures r.Some? <==> c in s
    ensures r.Some? ==> c !in r.value.0 && s == r.value.0 + r.value.1 && r.value.1[0] == c
  {
    var i := IndexOf(s, c);
    if i < |s| then Some((s[..i], s[i..])) else None
  }

  lemma TakeToConcat(a: string, b: string, c: char)
    requires c !in a && |b| > 0 && b[0] == c
    ensures TakeTo(a + b, c) == Some((a, b))
  {
    var s := a + b;
    assert s[|a|] == c;
    assert IndexOf(s, c) == |a|;
  }
}
