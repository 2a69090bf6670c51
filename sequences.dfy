/** Sequence helpers shared by both series builders: duplicate-free lists and the
    "append unless already present" step that builds the year axis and the list of
    known (region, percentile) keys. */
module Sequences {

  /** No element occurs twice in `s`. */
  ghost predicate NoDups<T>(s: seq<T>) {
    forall i, j :: 0 <= i < j < |s| ==> s[i] != s[j]
  }

  /** The `if !slices.Contains(s, x) { s = append(s, x) }` step: afterwards `x` is
      present; an `s` that already held `x` is returned unchanged, otherwise `x`
      goes at the end. */
  function AppendIfAbsent<T(==, !new)>(s: seq<T>, x: T): (r: seq<T>)
    ensures x in r
    ensures forall y :: y in r <==> y in s || y == x
    ensures |s| <= |r| && r[..|s|] == s
    ensures x in s <==> |r| == |s|
    ensures x !in s ==> r[|s|] == x && |r| == |s| + 1
    ensures NoDups(s) ==> NoDups(r)
  {
    if x in s then s else s + [x]
  }

  /** The elements of `s` with later repetitions dropped, in first-seen order:
      the fold of AppendIfAbsent over `s`, starting from the empty list. */
  function Dedup<T(==, !new)>(s: seq<T>): (r: seq<T>)
    ensures NoDups(r)
    ensures forall x :: x in r <==> x in s
    ensures |r| <= |s|
  {
    if s == [] then [] else AppendIfAbsent(Dedup(s[..|s| - 1]), s[|s| - 1])
  }

  /** The position at which `x` first occurs in `s`. */
  function FirstIndex<T(==, !new)>(s: seq<T>, x: T): (i: nat)
    requires x in s
    ensures i < |s| && s[i] == x && x !in s[..i]
  {
    if s[0] == x then 0
    else
      var i := 1 + FirstIndex(s[1..], x);
      assert s[..i] == [s[0]] + s[1..][..i - 1];
      i
  }

  /** Any position holding `x` with no earlier `x` is the first index. */
  lemma FirstIndexUnique<T(!new)>(s: seq<T>, x: T, i: nat)
    requires i < |s| && s[i] == x && x !in s[..i]
    ensures FirstIndex(s, x) == i
  {
  }

  /** Extending `s` at the end does not move the first occurrence of an element
      it already holds. */
  lemma FirstIndexOfPrefix<T(!new)>(s: seq<T>, m: nat, x: T)
    requires m <= |s| && x in s[..m]
    ensures FirstIndex(s, x) == FirstIndex(s[..m], x)
  {
    var i := FirstIndex(s[..m], x);
    assert s[..m][..i] == s[..i];
    FirstIndexUnique(s, x, i);
  }

  /** Dedup keeps the elements in the order of their first occurrence in `s`. */
  lemma {:induction false} DedupKeepsFirstSeenOrder<T(!new)>(s: seq<T>, a: nat, b: nat)
    requires a < b < |Dedup(s)|
    ensures Dedup(s)[a] in s && Dedup(s)[b] in s
    ensures FirstIndex(s, Dedup(s)[a]) < FirstIndex(s, Dedup(s)[b])
  {
    var n := |s|;
    var prefix, last := s[..n - 1], s[n - 1];
    assert s[..n - 1] == prefix;
    var d := Dedup(prefix);
    assert Dedup(s) == AppendIfAbsent(d, last);
    if b < |d| {
      assert Dedup(s)[a] == d[a] && Dedup(s)[b] == d[b];
      DedupKeepsFirstSeenOrder(prefix, a, b);
      FirstIndexOfPrefix(s, n - 1, d[a]);
      FirstIndexOfPrefix(s, n - 1, d[b]);
    } else {
      assert Dedup(s)[b] == last && last !in prefix;
      assert s[..n - 1] == prefix;
      FirstIndexUnique(s, last, n - 1);
      assert d[a] in prefix;
      FirstIndexOfPrefix(s, n - 1, d[a]);
    }
  }
}
