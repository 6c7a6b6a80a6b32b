/** The affinity scorer of the user controller (`add`): how many discrete
    characteristics two users share. Interest relations are compared as
    records (by identity), majors and colleges as groups (by group id), and
    equal classifications add one point. */
module Scoring {
  import opened Common
  import opened Store

  /** How often x occurs in ys. */
  function Occurrences(x: Id, ys: seq<Id>): nat
  {
    if ys == [] then 0 else Occurrences(x, ys[..|ys| - 1]) + (if ys[|ys| - 1] == x then 1 else 0)
  }

  /** The number of index pairs (i, j) with xs[i] == ys[j]: what two nested
      loops that count equal elements arrive at. */
  function PairCount(xs: seq<Id>, ys: seq<Id>): nat
  {
    if xs == [] then 0 else PairCount(xs[..|xs| - 1], ys) + Occurrences(xs[|xs| - 1], ys)
  }

  /** The score of `two` against `one`: the relation records both hold, the
      pairs of equal majors, the pairs of equal colleges, and one more point
      for equal classifications. */
  function Score(one: User, two: User): nat
  {
    |one.interests * two.interests|
      + PairCount(one.majors, two.majors)
      + PairCount(one.colleges, two.colleges)
      + (if one.classification == two.classification then 1 else 0)
  }

  /** `add`: the nested loops over both users' interest records, majors and
      colleges, and the classification check. */
  method Add(one: User, two: User) returns (i: nat)
    ensures i == Score(one, two)
  {
    i := 0;
    var outer := one.interests;
    while outer != {}
      invariant outer <= one.interests
      invariant i == |(one.interests - outer) * two.interests|
      decreases outer
    {
      var r1 :| r1 in outer;
      ghost var before := i;
      var inner := two.interests;
      while inner != {}
        invariant inner <= two.interests
        invariant i == before + (if r1 in two.interests - inner then 1 else 0)
        decreases inner
      {
        var r2 :| r2 in inner;
        if r1 == r2 {
          i := i + 1;
        }
        inner := inner - {r2};
      }
      OneMoreRecordCompared(one.interests, two.interests, outer, r1);
      outer := outer - {r1};
    }
    assert one.interests - outer == one.interests;
    var majors := CountEqualPairs(one.majors, two.majors);
    i := i + majors;
    var colleges := CountEqualPairs(one.colleges, two.colleges);
    i := i + colleges;
    if one.classification == two.classification {
      i := i + 1;
    }
  }

  /** The nested loops of `add` over two group lists. */
  method CountEqualPairs(xs: seq<Id>, ys: seq<Id>) returns (n: nat)
    ensures n == PairCount(xs, ys)
  {
    n := 0;
    for k := 0 to |xs|
      invariant n == PairCount(xs[..k], ys)
    {
      for l := 0 to |ys|
        invariant n == PairCount(xs[..k], ys) + Occurrences(xs[k], ys[..l])
      {
        if xs[k] == ys[l] {
          n := n + 1;
        }
        assert ys[..l + 1][..l] == ys[..l];
      }
      assert ys[..|ys|] == ys;
      assert xs[..k + 1][..k] == xs[..k];
    }
    assert xs[..|xs|] == xs;
  }

  /** Taking one more record r out of the records still to visit adds one
      shared record exactly when the other user holds r. */
  lemma OneMoreRecordCompared(a: set<Id>, b: set<Id>, outer: set<Id>, r: Id)
    requires outer <= a && r in outer
    ensures |(a - (outer - {r})) * b| == |(a - outer) * b| + (if r in b then 1 else 0)
  {
    var done := (a - outer) * b;
    if r in b {
      assert (a - (outer - {r})) * b == done + {r};
    } else {
      assert (a - (outer - {r})) * b == done;
    }
  }

  /** Counting against ys extended by y adds the occurrences of y in xs. */
  lemma {:induction false} PairCountAppendRight(xs: seq<Id>, ys: seq<Id>, y: Id)
    ensures PairCount(xs, ys + [y]) == PairCount(xs, ys) + Occurrences(y, xs)
  {
    if xs != [] {
      var front, x := xs[..|xs| - 1], xs[|xs| - 1];
      PairCountAppendRight(front, ys, y);
      assert (ys + [y])[..|ys|] == ys;
      assert Occurrences(x, ys + [y]) == Occurrences(x, ys) + (if y == x then 1 else 0);
    }
  }

  /** Counting equal pairs does not depend on which list comes first. */
  lemma {:induction false} PairCountSymmetric(xs: seq<Id>, ys: seq<Id>)
    ensures PairCount(xs, ys) == PairCount(ys, xs)
  {
    if ys == [] {
      PairCountNone(xs);
    } else {
      var front, y := ys[..|ys| - 1], ys[|ys| - 1];
      assert ys == front + [y];
      PairCountAppendRight(xs, front, y);
      PairCountSymmetric(xs, front);
    }
  }

  lemma {:induction false} PairCountNone(xs: seq<Id>)
    ensures PairCount(xs, []) == 0
  {
    if xs != [] {
      PairCountNone(xs[..|xs| - 1]);
    }
  }

  /** The score is symmetric. */
  lemma ScoreSymmetric(one: User, two: User)
    ensures Score(one, two) == Score(two, one)
  {
    PairCountSymmetric(one.majors, two.majors);
    PairCountSymmetric(one.colleges, two.colleges);
    assert one.interests * two.interests == two.interests * one.interests;
  }

  lemma {:induction false} OccurrencesPositive(x: Id, ys: seq<Id>)
    requires x in ys
    ensures Occurrences(x, ys) >= 1
  {
    if ys[|ys| - 1] != x {
      assert x in ys[..|ys| - 1];
      OccurrencesPositive(x, ys[..|ys| - 1]);
    }
  }

  /** Two lists that share an element count at least one equal pair. */
  lemma {:induction false} PairCountPositive(xs: seq<Id>, ys: seq<Id>, g: Id)
    requires g in xs && g in ys
    ensures PairCount(xs, ys) >= 1
  {
    if xs[|xs| - 1] == g {
      OccurrencesPositive(g, ys);
    } else {
      assert g in xs[..|xs| - 1];
      PairCountPositive(xs[..|xs| - 1], ys, g);
    }
  }

  /** In a consistent store each interest record names one user, so two
      different users never hold the same record and the interest term of
      their score is 0. */
  lemma DistinctUsersShareNoRecord(users: map<Id, User>, interests: map<Id, Interest>, rels: map<Id, Relation>,
                                   u: Id, v: Id)
    requires InterestsLinked(users, interests, rels)
    requires u in users && v in users && u != v
    ensures users[u].interests * users[v].interests == {}
    ensures Score(users[u], users[v]) ==
              PairCount(users[u].majors, users[v].majors) + PairCount(users[u].colleges, users[v].colleges)
              + (if users[u].classification == users[v].classification then 1 else 0)
  {
    forall rid | rid in users[u].interests ensures rid !in users[v].interests {
      assert rels[rid].user == u;
    }
  }
}
