/** Labelled spans of a text, sorted by where they start. */
module Spans {

  datatype Span = Span(start: nat, end: nat, note: string)

  predicate From(spans: seq<Span>, i: nat) {
    forall e :: e in spans ==> i <= e.start
  }

  /** In the order of the text and without overlap. */
  predicate Apart(spans: seq<Span>) {
    forall i, j :: 0 <= i < j < |spans| ==> spans[i].end <= spans[j].start
  }

  lemma ApartCons(e: Span, others: seq<Span>)
    requires Apart(others) && From(others, e.end)
    ensures Apart([e] + others)
  {
    var all := [e] + others;
    forall i, j | 0 <= i < j < |all|
      ensures all[i].end <= all[j].start
    {
      assert all[j] == others[j - 1];
      if i > 0 {
        assert all[i] == others[i - 1];
      }
    }
  }

  predicate Disjoint(a: Span, b: Span) {
    a.end <= b.start || b.end <= a.start
  }

  function Insert(e: Span, spans: seq<Span>): seq<Span> {
    if spans == [] || e.start <= spans[0].start then [e] + spans else [spans[0]] + Insert(e, spans[1..])
  }

  function SortByStart(spans: seq<Span>): seq<Span> {
    if spans == [] then [] else Insert(spans[0], SortByStart(spans[1..]))
  }

  predicate PairwiseDisjoint(spans: seq<Span>) {
    forall i, j :: 0 <= i < j < |spans| ==> Disjoint(spans[i], spans[j])
  }

  predicate Solid(spans: seq<Span>) {
    forall e :: e in spans ==> e.start < e.end
  }

  lemma {:induction false} InsertKeeps(e: Span, spans: seq<Span>)
    ensures multiset(Insert(e, spans)) == multiset{e} + multiset(spans)
    ensures forall x :: x in Insert(e, spans) <==> x == e || x in spans
  {
    if spans == [] || e.start <= spans[0].start {
    } else {
      InsertKeeps(e, spans[1..]);
      assert spans == [spans[0]] + spans[1..];
    }
  }

  lemma {:induction false} InsertApart(e: Span, spans: seq<Span>)
    requires Apart(spans) && Solid([e] + spans) && forall x :: x in spans ==> Disjoint(e, x)
    ensures Apart(Insert(e, spans))
  {
    if spans == [] {
    } else if e.start <= spans[0].start {
      FirstIsLeast(e, spans);
      ApartCons(e, spans);
    } else {
      assert spans[0] in [e] + spans && Disjoint(e, spans[0]);
      TailOf(spans);
      forall x | x in [e] + spans[1..]
        ensures x.start < x.end
      {
        assert x in [e] + spans;
      }
      InsertApart(e, spans[1..]);
      InsertKeeps(e, spans[1..]);
      ApartCons(spans[0], Insert(e, spans[1..]));
    }
  }

  lemma FirstIsLeast(e: Span, spans: seq<Span>)
    requires Apart(spans) && spans != [] && Solid([e] + spans) && e.start <= spans[0].start && Disjoint(e, spans[0])
    ensures From(spans, e.end)
  {
    assert spans[0] in [e] + spans;
    forall x | x in spans
      ensures e.end <= x.start
    {
      var i :| 0 <= i < |spans| && spans[i] == x;
      assert i > 0 ==> spans[0].end <= spans[i].start;
    }
  }

  lemma TailOf(spans: seq<Span>)
    requires Apart(spans) && spans != []
    ensures Apart(spans[1..]) && From(spans[1..], spans[0].end)
  {
    assert forall i :: 0 <= i < |spans[1..]| ==> spans[1..][i] == spans[i + 1];
  }

  lemma {:induction false} SortKeeps(spans: seq<Span>)
    ensures multiset(SortByStart(spans)) == multiset(spans)
    ensures forall x :: x in SortByStart(spans) <==> x in spans
  {
    if spans == [] {
    } else {
      SortKeeps(spans[1..]);
      InsertKeeps(spans[0], SortByStart(spans[1..]));
      assert spans == [spans[0]] + spans[1..];
    }
  }

  lemma {:induction false} SortApart(spans: seq<Span>)
    requires PairwiseDisjoint(spans) && Solid(spans)
    ensures Apart(SortByStart(spans))
  {
    if spans == [] {
    } else {
      var others := spans[1..];
      assert forall i :: 0 <= i < |others| ==> others[i] == spans[i + 1];
      SortApart(others);
      SortKeeps(others);
      HeadDisjoint(spans);
      InsertApart(spans[0], SortByStart(others));
    }
  }

  lemma HeadDisjoint(spans: seq<Span>)
    requires PairwiseDisjoint(spans) && spans != []
    ensures forall x :: x in spans[1..] ==> Disjoint(spans[0], x)
  {
    forall x | x in spans[1..]
      ensures Disjoint(spans[0], x)
    {
      var i :| 0 <= i < |spans[1..]| && spans[1..][i] == x;
      assert spans[i + 1] == x;
    }
  }

  // ----- and back: what is apart once sorted was disjoint before

  lemma {:induction false} InsertedApart(e: Span, spans: seq<Span>)
    requires Solid([e] + spans) && Apart(Insert(e, spans))
    ensures Apart(spans) && forall x :: x in spans ==> Disjoint(e, x)
  {
    if spans == [] {
    } else if e.start <= spans[0].start {
      TailOf([e] + spans);
      assert ([e] + spans)[1..] == spans;
    } else {
      var others := Insert(e, spans[1..]);
      TailOf([spans[0]] + others);
      assert ([spans[0]] + others)[1..] == others;
      forall x | x in [e] + spans[1..]
        ensures x.start < x.end
      {
        assert x in [e] + spans;
      }
      InsertedApart(e, spans[1..]);
      InsertKeeps(e, spans[1..]);
      ApartCons(spans[0], spans[1..]);
      assert [spans[0]] + spans[1..] == spans;
    }
  }

  lemma DisjointCons(e: Span, spans: seq<Span>)
    requires PairwiseDisjoint(spans) && forall x :: x in spans ==> Disjoint(e, x)
    ensures PairwiseDisjoint([e] + spans)
  {
    var all := [e] + spans;
    forall i, j | 0 <= i < j < |all|
      ensures Disjoint(all[i], all[j])
    {
      assert all[j] == spans[j - 1];
      if i > 0 {
        assert all[i] == spans[i - 1];
      }
    }
  }

  /** Sorted by start, nonempty spans lie one behind the other exactly if no two of them overlap. */
  lemma {:induction false} SortedApart(spans: seq<Span>)
    requires Solid(spans)
    ensures Apart(SortByStart(spans)) <==> PairwiseDisjoint(spans)
  {
    if PairwiseDisjoint(spans) {
      SortApart(spans);
    } else if spans != [] && Apart(SortByStart(spans)) {
      var e, others := spans[0], spans[1..];
      assert spans == [e] + others;
      SortKeeps(others);
      InsertedApart(e, SortByStart(others));
      SortedApart(others);
      DisjointCons(e, others);
    }
  }
}
