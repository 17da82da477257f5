/** String helpers the signing code relies on: `str::split_once`, and
    splitting a string at a newline that neither side contains. */
module Text {
  import opened Wrappers

  /** `pat` occurs in `s` starting at index `k`. */
  predicate OccursAt(s: string, pat: string, k: nat) {
    k + |pat| <= |s| && s[k..k + |pat|] == pat
  }

  /** The first index at or after `from` where `pat` occurs in `s`. */
  function IndexFrom(s: string, pat: string, from: nat): (r: Option<nat>)
    ensures r.Some? ==> from <= r.value && OccursAt(s, pat, r.value)
    ensures r.Some? ==> forall k :: from <= k < r.value ==> !OccursAt(s, pat, k)
    ensures r.None? ==> forall k :: from <= k ==> !OccursAt(s, pat, k)
    decreases |s| - from
  {
    if from + |pat| > |s| then None
    else if s[from..from + |pat|] == pat then Some(from)
    else IndexFrom(s, pat, from + 1)
  }

  /** `str::split_once`: the text before and after the first occurrence of `pat`. */
  function SplitOnce(s: string, pat: string): (r: Option<(string, string)>)
    ensures r.Some? <==> exists k :: OccursAt(s, pat, k)
    ensures r.Some? ==> s == r.value.0 + pat + r.value.1
    ensures r.Some? ==> forall k: nat :: k < |r.value.0| ==> !OccursAt(s, pat, k)
  {
    match IndexFrom(s, pat, 0)
    case None => None
    case Some(i) =>
      assert s == s[..i] + pat + s[i + |pat|..];
      Some((s[..i], s[i + |pat|..]))
  }

  predicate NoNewline(s: string) {
    '\n' !in s
  }

  /** The length of the first line of `s`. */
  function FirstLineLength(s: string): nat {
    if s == [] || s[0] == '\n' then 0 else 1 + FirstLineLength(s[1..])
  }

  /** The length of the last line of `s`. */
  function LastLineLength(s: string): nat {
    if s == [] || s[|s| - 1] == '\n' then 0 else 1 + LastLineLength(s[..|s| - 1])
  }

  lemma {:induction false} FirstLineOf(a: string, x: string)
    requires NoNewline(a)
    ensures FirstLineLength(a + "\n" + x) == |a|
    decreases |a|
  {
    if a != [] {
      assert (a + "\n" + x)[1..] == a[1..] + "\n" + x;
      FirstLineOf(a[1..], x);
    }
  }

  lemma {:induction false} LastLineOf(x: string, a: string)
    requires NoNewline(a)
    ensures LastLineLength(x + "\n" + a) == |a|
    decreases |a|
  {
    var s := x + "\n" + a;
    if a != [] {
      assert s[..|s| - 1] == x + "\n" + a[..|a| - 1];
      LastLineOf(x, a[..|a| - 1]);
    }
  }

  /** A newline-free prefix followed by a newline can be split off uniquely. */
  lemma SplitFirstLine(a: string, x: string, b: string, y: string)
    requires NoNewline(a) && NoNewline(b)
    requires a + "\n" + x == b + "\n" + y
    ensures a == b && x == y
  {
    var s := a + "\n" + x;
    FirstLineOf(a, x);
    FirstLineOf(b, y);
    assert a == s[..|a|] == b;
    assert x == s[|a| + 1..] == y;
  }

  /** A newline-free suffix preceded by a newline can be split off uniquely. */
  lemma SplitLastLine(x: string, a: string, y: string, b: string)
    requires NoNewline(a) && NoNewline(b)
    requires x + "\n" + a == y + "\n" + b
    ensures x == y && a == b
  {
    var s := x + "\n" + a;
    LastLineOf(x, a);
    LastLineOf(y, b);
    assert a == s[|s| - |a|..] == b;
    assert x == s[..|s| - |a| - 1] == y;
  }
}
