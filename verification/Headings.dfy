/** Heading identities of a guide: a slug, and a number behind it when the slug is taken. */
module Headings {
  import opened Texts

  /** The number a numeral stands for. */
  function Value(s: string): int {
    if s == "" then 0 else 10 * Value(s[..|s| - 1]) + (s[|s| - 1] as int - '0' as int)
  }

  lemma ValueSnoc(s: string, c: char)
    ensures Value(s + [c]) == 10 * Value(s) + (c as int - '0' as int)
  {
    assert (s + [c])[..|s|] == s;
  }

  lemma {:induction false} ValueOfDecimal(n: nat)
    ensures Value(Decimal(n)) == n
  {
    if n >= 10 {
      ValueOfDecimal(n / 10);
      ValueSnoc(Decimal(n / 10), (n % 10) as char + '0');
    }
  }

  /** The candidates for a base, in the order they are tried. */
  function Candidate(base: string, suffix: nat): string {
    if suffix == 0 then base else base + "-" + Decimal(suffix)
  }

  lemma CandidatesDiffer(base: string, i: nat, j: nat)
    requires Candidate(base, i) == Candidate(base, j)
    ensures i == j
  {
    if i > 0 && j > 0 {
      var front := base + "-";
      assert Candidate(base, i)[|front|..] == Decimal(i) && Candidate(base, j)[|front|..] == Decimal(j);
      ValueOfDecimal(i);
      ValueOfDecimal(j);
    }
  }

  /** The first n candidates as a set. */
  function Candidates(base: string, n: nat): set<string> {
    if n == 0 then {} else Candidates(base, n - 1) + {Candidate(base, n - 1)}
  }

  lemma {:induction false} NotEarlier(base: string, m: nat, n: nat)
    requires m <= n
    ensures Candidate(base, n) !in Candidates(base, m)
  {
    if m > 0 {
      NotEarlier(base, m - 1, n);
      if Candidate(base, m - 1) == Candidate(base, n) {
        CandidatesDiffer(base, m - 1, n);
      }
    }
  }

  lemma {:induction false} CandidatesCounted(base: string, n: nat)
    ensures |Candidates(base, n)| == n
  {
    if n > 0 {
      CandidatesCounted(base, n - 1);
      NotEarlier(base, n - 1, n - 1);
    }
  }

  lemma {:induction false} CandidatesTaken(headings: seq<string>, base: string, n: nat)
    requires forall k :: 0 <= k < n ==> Candidate(base, k) in headings
    ensures Candidates(base, n) <= Taken(headings)
  {
    if n > 0 {
      CandidatesTaken(headings, base, n - 1);
      assert Candidate(base, n - 1) in headings;
    }
  }

  function Taken(headings: seq<string>): (r: set<string>)
    ensures |r| <= |headings|
    ensures forall s :: s in r <==> s in headings
  {
    if headings == [] then {}
    else
      var n := |headings| - 1;
      assert headings == headings[..n] + [headings[n]];
      Taken(headings[..n]) + {headings[n]}
  }

  lemma Included(a: set<string>, b: set<string>)
    requires a <= b
    ensures |a| <= |b|
  {
    assert b == a + (b - a);
  }

  /** Finitely many headings cannot take all candidates. */
  lemma NotAllTaken(headings: seq<string>, base: string, n: nat)
    requires forall k :: 0 <= k < n ==> Candidate(base, k) in headings
    ensures n <= |headings|
  {
    CandidatesCounted(base, n);
    CandidatesTaken(headings, base, n);
    Included(Candidates(base, n), Taken(headings));
  }

  /** Not taken yet, and the first such candidate. */
  ghost predicate LeastFree(headings: seq<string>, base: string, identity: string) {
    identity !in headings && exists n :: FreeAt(headings, base, identity, n)
  }

  ghost predicate FreeAt(headings: seq<string>, base: string, identity: string, n: nat) {
    identity == Candidate(base, n) && forall k :: 0 <= k < n ==> Candidate(base, k) in headings
  }

  /** The suffix loop. */
  method UniqueIdentity(headings: seq<string>, base: string) returns (identity: string)
    ensures LeastFree(headings, base, identity)
  {
    identity := base;
    var suffix := 0;
    while identity in headings
      invariant identity == Candidate(base, suffix)
      invariant forall k :: 0 <= k < suffix ==> Candidate(base, k) in headings
      decreases |headings| - suffix
    {
      NotAllTaken(headings, base, suffix + 1);
      suffix := suffix + 1;
      identity := base + "-" + Decimal(suffix);
    }
    assert FreeAt(headings, base, identity, suffix);
  }

  lemma LeastIsOne(headings: seq<string>, base: string, a: string, b: string)
    requires LeastFree(headings, base, a) && LeastFree(headings, base, b)
    ensures a == b
  {
    var i :| FreeAt(headings, base, a, i);
    var j :| FreeAt(headings, base, b, j);
  }

  // ----- the headings of a guide

  predicate SlugChar(c: char) {
    Alphanumeric(c) || c == '-' || c == ' '
  }

  /** slug: lower case, only word characters, hyphens and blanks, and blanks made hyphens. */
  function Slug(title: string): string {
    if title == "" then ""
    else
      var c := LowerChar(title[0]);
      (if !SlugChar(c) then "" else if c == ' ' then "-" else [c]) + Slug(title[1..])
  }

  predicate Distinct(headings: seq<string>) {
    forall i, j :: 0 <= i < j < |headings| ==> headings[i] != headings[j]
  }

  /** Each heading is the first free candidate behind those in front of it. */
  ghost predicate Numbered(titles: seq<string>, headings: seq<string>) {
    |headings| <= |titles| && forall i :: 0 <= i < |headings| ==> LeastFree(headings[..i], Slug(titles[i]), headings[i])
  }

  /** The heading branch of markdown over all titles; None where an identity would be empty. */
  method Identities(titles: seq<string>) returns (headings: Option<seq<string>>)
    ensures headings.None? <==> exists i :: 0 <= i < |titles| && Slug(titles[i]) == ""
    ensures headings.Some? ==> |headings.value| == |titles| && Distinct(headings.value) && Numbered(titles, headings.value)
  {
    var found := [];
    var i := 0;
    while i < |titles|
      invariant i <= |titles| && |found| == i && Numbered(titles, found) && Distinct(found)
      invariant forall j :: 0 <= j < i ==> Slug(titles[j]) != ""
    {
      var base := Slug(titles[i]);
      if base == "" {
        return None;
      }
      var identity := UniqueIdentity(found, base);
      OneMore(titles, found, identity);
      found := found + [identity];
      i := i + 1;
    }
    headings := Some(found);
  }

  lemma OneMore(titles: seq<string>, found: seq<string>, identity: string)
    requires |found| < |titles| && Numbered(titles, found) && Distinct(found)
    requires LeastFree(found, Slug(titles[|found|]), identity)
    ensures Numbered(titles, found + [identity]) && Distinct(found + [identity])
  {
    var all := found + [identity];
    forall i | 0 <= i < |all|
      ensures LeastFree(all[..i], Slug(titles[i]), all[i])
    {
      if i < |found| {
        assert all[..i] == found[..i];
      } else {
        assert all[..i] == found;
      }
    }
  }

  lemma SamePrefix(a: seq<string>, b: seq<string>, n: nat)
    requires n < |a| && n < |b| && a[..n] == b[..n] && a[n] == b[n]
    ensures a[..n + 1] == b[..n + 1]
  {
    assert a[..n + 1] == a[..n] + [a[n]] && b[..n + 1] == b[..n] + [b[n]];
  }

  lemma SameNext(headings: seq<string>, title: string, a: string, b: string)
    requires LeastFree(headings, Slug(title), a) && LeastFree(headings, Slug(title), b)
    ensures a == b
  {
    LeastIsOne(headings, Slug(title), a, b);
  }

  /** The titles decide the identities. */
  lemma {:induction false} NumberedIsOne(titles: seq<string>, a: seq<string>, b: seq<string>, n: nat)
    requires Numbered(titles, a) && Numbered(titles, b) && |a| == |b| && n <= |a|
    ensures a[..n] == b[..n]
  {
    if n > 0 {
      var k := n - 1;
      NumberedIsOne(titles, a, b, k);
      SameNext(a[..k], titles[k], a[k], b[k]);
      SamePrefix(a, b, k);
    }
  }
}
