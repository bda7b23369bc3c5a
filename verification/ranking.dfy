/** The order `/suggest` ranks replies in: Python's `list.sort(reverse=True)`
    on `(score, text)` pairs, where the score grows strictly with the stored
    weight, so the pairs are ordered by weight and then by text, both
    descending. */
module Ranking {
  import opened Text

  /** A reply with the weight its score is computed from. */
  datatype Scored = Scored(weight: int, text: string)

  /** `a` may come before `b` in a descending sort: Python's tuple order,
      not `a < b`. */
  predicate Geq(a: Scored, b: Scored) {
    a.weight > b.weight || (a.weight == b.weight && !StrLess(a.text, b.text))
  }

  lemma GeqTotal(a: Scored, b: Scored)
    ensures Geq(a, b) || Geq(b, a)
  {
    if a.weight == b.weight {
      StrLessAsymmetricOrEqual(a.text, b.text);
    }
  }

  lemma StrLessAsymmetricOrEqual(a: string, b: string)
    ensures !StrLess(a, b) || !StrLess(b, a)
  {
    if StrLess(a, b) {
      StrLessAsymmetric(a, b);
    }
  }

  lemma GeqTransitive(a: Scored, b: Scored, c: Scored)
    requires Geq(a, b) && Geq(b, c)
    ensures Geq(a, c)
  {
    if a.weight == b.weight == c.weight && StrLess(a.text, c.text) {
      StrLessTotal(a.text, b.text);
      StrLessTotal(b.text, c.text);
      if StrLess(b.text, a.text) && StrLess(c.text, b.text) {
        StrLessTransitive(c.text, b.text, a.text);
        StrLessAsymmetric(a.text, c.text);
      } else if StrLess(b.text, a.text) {
        StrLessAsymmetric(a.text, b.text);
      } else if StrLess(c.text, b.text) {
        StrLessAsymmetric(b.text, c.text);
      } else {
        StrLessIrreflexive(a.text);
      }
    }
  }

  /** Two pairs that may each precede the other are the same pair. */
  lemma GeqAntisymmetric(a: Scored, b: Scored)
    requires Geq(a, b) && Geq(b, a)
    ensures a == b
  {
    StrLessTotal(a.text, b.text);
  }

  /** Each element may precede the next one. */
  predicate SortedDesc(xs: seq<Scored>) {
    forall i | 0 < i < |xs| :: Geq(xs[i - 1], xs[i])
  }

  /** Inserts `x` in front of the first element it may precede. */
  function Insert(x: Scored, s: seq<Scored>): (r: seq<Scored>)
    ensures |r| == |s| + 1
    ensures multiset(r) == multiset(s) + multiset{x}
    decreases |s|
  {
    if s == [] then [x]
    else if Geq(x, s[0]) then [x] + s
    else
      assert s == [s[0]] + s[1..];
      [s[0]] + Insert(x, s[1..])
  }

  /** Inserting into a descending sequence keeps it descending. */
  lemma {:induction false} InsertSorted(x: Scored, s: seq<Scored>)
    requires SortedDesc(s)
    ensures SortedDesc(Insert(x, s))
    ensures Insert(x, s)[0] == x || (s != [] && Insert(x, s)[0] == s[0])
    decreases |s|
  {
    if s != [] && !Geq(x, s[0]) {
      GeqTotal(x, s[0]);
      SortedTail(s);
      InsertSorted(x, s[1..]);
      var t := Insert(x, s[1..]);
      assert Insert(x, s) == [s[0]] + t;
      assert Geq(s[0], t[0]);
    }
  }

  /** `sorted(xs, reverse=True)` on the pairs. */
  function SortDesc(xs: seq<Scored>): (r: seq<Scored>)
    ensures |r| == |xs|
    ensures multiset(r) == multiset(xs)
    decreases |xs|
  {
    if xs == [] then []
    else
      assert xs == [xs[0]] + xs[1..];
      Insert(xs[0], SortDesc(xs[1..]))
  }

  /** The sort yields a descending sequence. */
  lemma {:induction false} SortDescSorted(xs: seq<Scored>)
    ensures SortedDesc(SortDesc(xs))
    decreases |xs|
  {
    if xs != [] {
      SortDescSorted(xs[1..]);
      InsertSorted(xs[0], SortDesc(xs[1..]));
    }
  }

  /** In a descending sequence every element may precede every later one. */
  lemma {:induction false} SortedPairwise(xs: seq<Scored>, i: nat, j: nat)
    requires SortedDesc(xs) && i < j < |xs|
    ensures Geq(xs[i], xs[j])
    decreases j - i
  {
    if i + 1 < j {
      SortedPairwise(xs, i + 1, j);
      GeqTransitive(xs[i], xs[i + 1], xs[j]);
    }
  }

  /** The first element of a descending sequence may precede every element. */
  lemma HeadIsGreatest(xs: seq<Scored>, y: Scored)
    requires SortedDesc(xs) && y in multiset(xs)
    ensures Geq(xs[0], y)
  {
    var j :| 0 <= j < |xs| && xs[j] == y;
    if j > 0 {
      SortedPairwise(xs, 0, j);
    } else {
      GeqTotal(y, y);
    }
  }

  /** There is only one descending arrangement of a multiset of pairs, so
      the ranking does not depend on the order the replies arrived in. */
  lemma {:induction false} SortedUnique(a: seq<Scored>, b: seq<Scored>)
    requires SortedDesc(a) && SortedDesc(b) && multiset(a) == multiset(b)
    ensures a == b
    decreases |a|
  {
    if a != [] {
      assert a[0] in multiset(a);
      assert b != [];
      assert b[0] in multiset(b);
      HeadIsGreatest(a, b[0]);
      HeadIsGreatest(b, a[0]);
      GeqAntisymmetric(a[0], b[0]);
      assert a == [a[0]] + a[1..];
      assert b == [b[0]] + b[1..];
      assert multiset(a) == multiset{a[0]} + multiset(a[1..]);
      assert multiset(b) == multiset{b[0]} + multiset(b[1..]);
      assert multiset(a[1..]) == multiset(a) - multiset{a[0]};
      assert multiset(b[1..]) == multiset(b) - multiset{b[0]};
      SortedTail(a);
      SortedTail(b);
      SortedUnique(a[1..], b[1..]);
    } else {
      assert |b| == |multiset(b)| == 0;
    }
  }

  lemma SortedTail(xs: seq<Scored>)
    requires SortedDesc(xs) && xs != []
    ensures SortedDesc(xs[1..])
  {
    forall i | 0 < i < |xs| - 1 ensures Geq(xs[1..][i - 1], xs[1..][i]) {
      assert xs[1..][i - 1] == xs[i] && xs[1..][i] == xs[i + 1];
    }
  }

  /** Sorting any two arrangements of the same pairs gives one result. */
  lemma SortIgnoresArrivalOrder(xs: seq<Scored>, ys: seq<Scored>)
    requires multiset(xs) == multiset(ys)
    ensures SortDesc(xs) == SortDesc(ys)
  {
    SortDescSorted(xs);
    SortDescSorted(ys);
    SortedUnique(SortDesc(xs), SortDesc(ys));
  }

  /** The texts of a sequence of pairs, in order. */
  function Texts(xs: seq<Scored>): (r: seq<string>)
    ensures |r| == |xs|
    ensures forall k | 0 <= k < |xs| :: r[k] == xs[k].text
  {
    if xs == [] then [] else [xs[0].text] + Texts(xs[1..])
  }

  lemma TextsCons(x: Scored, s: seq<Scored>)
    ensures Texts([x] + s) == [x.text] + Texts(s)
  {
    assert ([x] + s)[1..] == s;
  }

  lemma TextsOfInsertStep(x: Scored, s: seq<Scored>)
    requires s != [] && !Geq(x, s[0])
    ensures Texts(Insert(x, s)) == [s[0].text] + Texts(Insert(x, s[1..]))
  {
    assert Insert(x, s) == [s[0]] + Insert(x, s[1..]);
    TextsCons(s[0], Insert(x, s[1..]));
  }

  lemma TextsMultisetHead(s: seq<Scored>)
    requires s != []
    ensures multiset(Texts(s)) == multiset{s[0].text} + multiset(Texts(s[1..]))
  {
    TextsCons(s[0], s[1..]);
    assert [s[0]] + s[1..] == s;
  }

  lemma MultisetConsAdd(a: string, xs: seq<string>, ys: seq<string>, y: string)
    requires multiset(xs) == multiset(ys) + multiset{y}
    ensures multiset([a] + xs) == multiset([a] + ys) + multiset{y}
  {
  }

  /** Inserting a pair adds exactly its text to the texts. */
  lemma {:induction false} InsertTexts(x: Scored, s: seq<Scored>)
    ensures multiset(Texts(Insert(x, s))) == multiset(Texts(s)) + multiset{x.text}
    decreases |s|
  {
    if s == [] {
    } else if Geq(x, s[0]) {
      TextsCons(x, s);
    } else {
      TextsOfInsertStep(x, s);
      InsertTexts(x, s[1..]);
      MultisetConsAdd(s[0].text, Texts(Insert(x, s[1..])), Texts(s[1..]), x.text);
      TextsCons(s[0], s[1..]);
      TextsMultisetHead(s);
    }
  }

  /** Sorting rearranges the texts and changes none of them. */
  lemma {:induction false} SortTexts(xs: seq<Scored>)
    ensures multiset(Texts(SortDesc(xs))) == multiset(Texts(xs))
    decreases |xs|
  {
    if xs != [] {
      SortTexts(xs[1..]);
      InsertTexts(xs[0], SortDesc(xs[1..]));
      assert Texts(xs) == [xs[0].text] + Texts(xs[1..]);
    }
  }

  /** The score `1.0 + 0.3 * w`, in tenths so that it is exact. */
  function ScoreTenths(weight: int): (r: int)
    ensures r > 10 <==> weight > 0
    ensures (r - 10) % 3 == 0 && (r - 10) / 3 == weight
  {
    10 + 3 * weight
  }

  /** Ordering by score is ordering by weight. */
  lemma ScoreOrderIsWeightOrder(v: int, w: int)
    ensures ScoreTenths(v) < ScoreTenths(w) <==> v < w
    ensures ScoreTenths(v) == ScoreTenths(w) <==> v == w
  {
  }
}
