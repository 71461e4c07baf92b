// Entries in key-then-value order: sorting, and sorted permutations.
module Sorting {
  import opened ByteStrings
  import opened SortedTables

  predicate RowLeq(p: Row, q: Row) {
    p == q || RowLess(p, q)
  }

  ghost predicate Ascends(s: seq<Row>) {
    forall i, j | 0 <= i < j < |s| :: RowLeq(s[i], s[j])
  }

  lemma RowLeqTotal(p: Row, q: Row)
    ensures RowLeq(p, q) || RowLeq(q, p)
  {
    RowLessTotal(p, q);
  }

  lemma RowLeqTransitive(p: Row, q: Row, r: Row)
    requires RowLeq(p, q) && RowLeq(q, r)
    ensures RowLeq(p, r)
  {
    if p != q && q != r {
      RowLessTransitive(p, q, r);
    }
  }

  lemma RowLeqAntisymmetric(p: Row, q: Row)
    requires RowLeq(p, q) && RowLeq(q, p)
    ensures p == q
  {
    if p != q {
      if Leq(p.key, q.key) && Leq(q.key, p.key) {
        LeqAntisymmetric(p.key, q.key);
      }
      LeqAntisymmetric(p.value, q.value);
    }
  }

  function Place(e: Row, s: seq<Row>): (r: seq<Row>) {
    if s == [] || RowLeq(e, s[0]) then [e] + s else [s[0]] + Place(e, s[1..])
  }

  function Sort(s: seq<Row>): (r: seq<Row>) {
    if s == [] then [] else Place(s[0], Sort(s[1..]))
  }

  /** Ascends, one element at a time. */
  lemma AscendsCons(e: Row, s: seq<Row>)
    requires Ascends(s) && (s == [] || RowLeq(e, s[0]))
    ensures Ascends([e] + s)
  {
    var t := [e] + s;
    forall i, j | 0 <= i < j < |t| ensures RowLeq(t[i], t[j]) {
      if i == 0 && j > 1 {
        RowLeqTransitive(e, s[0], s[j - 1]);
      }
    }
  }

  lemma AscendsSnoc(s: seq<Row>, e: Row)
    requires Ascends(s) && forall x | x in s :: RowLeq(x, e)
    ensures Ascends(s + [e])
  {
    var t := s + [e];
    forall i, j | 0 <= i < j < |t| ensures RowLeq(t[i], t[j]) {
      if j == |s| {
        assert t[i] in s;
      }
    }
  }

  lemma AscendsTail(s: seq<Row>)
    requires Ascends(s) && s != []
    ensures Ascends(s[1..]) && forall x | x in s :: RowLeq(s[0], x)
  {
    forall i, j | 0 <= i < j < |s[1..]| ensures RowLeq(s[1..][i], s[1..][j]) {
      assert RowLeq(s[i + 1], s[j + 1]);
    }
  }

  lemma {:induction false} PlaceSorts(e: Row, s: seq<Row>)
    requires Ascends(s)
    ensures Ascends(Place(e, s)) && multiset(Place(e, s)) == multiset{e} + multiset(s)
    ensures Place(e, s)[0] == e || (s != [] && Place(e, s)[0] == s[0])
  {
    hide RowLeq;
    if s == [] || RowLeq(e, s[0]) {
      AscendsCons(e, s);
    } else {
      AscendsTail(s);
      PlaceSorts(e, s[1..]);
      RowLeqTotal(e, s[0]);
      AscendsCons(s[0], Place(e, s[1..]));
      assert s == [s[0]] + s[1..];
    }
  }

  /** The result is in order and holds exactly the given entries. */
  lemma {:induction false} SortSorts(s: seq<Row>)
    ensures Ascends(Sort(s)) && multiset(Sort(s)) == multiset(s)
  {
    if s != [] {
      SortSorts(s[1..]);
      PlaceSorts(s[0], Sort(s[1..]));
      assert s == [s[0]] + s[1..];
    }
  }

  /** Two ordered sequences of the same entries are equal. */
  lemma {:induction false} OneOrder(s: seq<Row>, t: seq<Row>)
    requires Ascends(s) && Ascends(t) && multiset(s) == multiset(t)
    ensures s == t
  {
    if s == [] {
      assert |multiset(t)| == 0;
    } else {
      assert s[0] in multiset(t);
      assert t != [];
      AscendsTail(s);
      AscendsTail(t);
      assert t[0] in multiset(s);
      RowLeqAntisymmetric(s[0], t[0]);
      assert s == [s[0]] + s[1..] && t == [t[0]] + t[1..];
      assert multiset(s[1..]) == multiset(s) - multiset{s[0]};
      assert multiset(t[1..]) == multiset(t) - multiset{t[0]};
      OneOrder(s[1..], t[1..]);
    }
  }

  /** Anything in order with the same entries is the sorted sequence. */
  lemma SortedIsSort(s: seq<Row>, t: seq<Row>)
    requires Ascends(t) && multiset(s) == multiset(t)
    ensures t == Sort(s)
  {
    SortSorts(s);
    OneOrder(t, Sort(s));
  }

  // ----- Several runs -----

  ghost function Bag(runs: seq<seq<Row>>): multiset<Row> {
    if runs == [] then multiset{} else multiset(runs[0]) + Bag(runs[1..])
  }

  lemma {:induction false} BagSnoc(runs: seq<seq<Row>>, run: seq<Row>)
    ensures Bag(runs + [run]) == Bag(runs) + multiset(run)
  {
    if runs == [] {
      assert [run][1..] == [];
    } else {
      BagSnoc(runs[1..], run);
      assert (runs + [run])[1..] == runs[1..] + [run];
    }
  }

  lemma {:induction false} BagMember(runs: seq<seq<Row>>, e: Row)
    ensures e in Bag(runs) <==> exists i :: 0 <= i < |runs| && e in runs[i]
  {
    if runs != [] {
      BagMember(runs[1..], e);
      if e in Bag(runs[1..]) {
        var i :| 0 <= i < |runs[1..]| && e in runs[1..][i];
        assert e in runs[i + 1];
      }
      if i :| 0 < i < |runs| && e in runs[i] {
        assert e in runs[1..][i - 1];
      }
    }
  }

  /** Taking the head off one run takes it out of the bag. */
  lemma {:induction false} BagTake(runs: seq<seq<Row>>, i: nat)
    requires i < |runs| && runs[i] != []
    ensures Bag(runs) == multiset{runs[i][0]} + Bag(runs[i := runs[i][1..]])
  {
    assert runs[i] == [runs[i][0]] + runs[i][1..];
    if i == 0 {
      assert runs[0 := runs[0][1..]][1..] == runs[1..];
    } else {
      BagTake(runs[1..], i - 1);
      assert runs[i := runs[i][1..]][1..] == runs[1..][i - 1 := runs[i][1..]];
    }
  }

  lemma {:induction false} BagEmpty(runs: seq<seq<Row>>)
    requires forall i | 0 <= i < |runs| :: runs[i] == []
    ensures Bag(runs) == multiset{}
  {
    if runs != [] {
      BagEmpty(runs[1..]);
    }
  }
}
