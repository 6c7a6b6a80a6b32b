/** The match engine of the user controller (`match`): one pass over all
    users that skips the requester, admits a candidate through the gate of the
    chosen axis, scores it, and keeps it only when its score is strictly
    greater than the best so far. */
module Matching {
  import opened Common
  import opened GroupEntities
  import opened Store
  import opened Scoring

  /** Some group id occurs in both lists. */
  predicate Shares(mine: seq<Id>, theirs: seq<Id>)
  {
    exists g :: g in mine && g in theirs
  }

  /** The gate of the axis: the same classification, a shared college or a
      shared major; no other axis admits anyone. */
  predicate Gate(current: User, bob: User, choice: GroupType)
  {
    match choice
    case StudentClass => bob.classification == current.classification
    case College => Shares(current.colleges, bob.colleges)
    case StudentMajor => Shares(current.majors, bob.majors)
    case OtherType => false
  }

  /** What a candidate competes with: its score if it is not the requester
      and passes the gate, 0 otherwise. */
  function GatedScore(current: User, bob: User, choice: GroupType): nat
  {
    if bob.id != current.id && Gate(current, bob, choice) then Score(current, bob) else 0
  }

  /** The highest gated score in the pool (0 for an empty pool). */
  function MaxGated(current: User, pool: seq<User>, choice: GroupType): nat
  {
    if pool == [] then 0
    else
      var m := MaxGated(current, pool[..|pool| - 1], choice);
      var g := GatedScore(current, pool[|pool| - 1], choice);
      if g > m then g else m
  }

  /** The first index whose gated score is v, or |pool| when there is none. */
  function FirstReaching(current: User, pool: seq<User>, choice: GroupType, v: nat): nat
  {
    if pool == [] then 0
    else if GatedScore(current, pool[0], choice) == v then 0
    else 1 + FirstReaching(current, pool[1..], choice, v)
  }

  /** The best match: the first candidate that reaches the highest gated
      score, or none when that score is 0. */
  function BestMatch(current: User, pool: seq<User>, choice: GroupType): Option<User>
  {
    var m := MaxGated(current, pool, choice);
    if m == 0 then None
    else
      MaxIsReached(current, pool, choice);
      Some(pool[FirstReaching(current, pool, choice, m)])
  }

  /** `match`: BAD_REQUEST without an id, NOT_FOUND for an unknown requester,
      otherwise OK with the best match (an empty body when there is none). */
  method Match(db: Database, id: Option<Id>, choice: GroupType) returns (r: Response<User>)
    requires UsersValid(db.users, db.userOrder, db.nextId)
    ensures id.None? ==> r == Response(BadRequest, Empty)
    ensures id.Some? && id.value !in db.users ==> r == Response(NotFound, Empty)
    ensures id.Some? && id.value in db.users ==>
              r.status == Ok &&
              r.body == match BestMatch(db.users[id.value], Pool(db.users, db.userOrder), choice)
                        case None => Empty
                        case Some(best) => Entity(best)
    ensures r.body.Entity? ==> id.Some? && r.body.entity.id != id.value && r.body.entity in db.users.Values
    ensures r.body.Entity? ==> Gate(db.users[id.value], r.body.entity, choice)
  {
    if id.None? {
      return Response(BadRequest, Empty);
    }
    if id.value !in db.users {
      return Response(NotFound, Empty);
    }
    var current := db.users[id.value];
    var all := Pool(db.users, db.userOrder);
    var best := Scan(current, all, choice);
    BestMatchIsFirstMaximum(current, all, choice);
    r := Response(Ok, if best.Some? then Entity(best.value) else Empty);
  }

  /** The loop of `match` over all users: `same` is the best score so far and
      `temp` the user who first reached it; a candidate replaces them only
      with a strictly greater score. */
  method Scan(current: User, all: seq<User>, choice: GroupType) returns (temp: Option<User>)
    ensures temp == BestMatch(current, all, choice)
  {
    var same: nat := 0;
    var t: nat := 0;
    temp := None;
    for i := 0 to |all|
      invariant t <= same
      invariant same == MaxGated(current, all[..i], choice)
      invariant temp == BestMatch(current, all[..i], choice)
    {
      var bob := all[i];
      if bob.id != current.id {
        match choice {
          case StudentClass =>
            if bob.classification == current.classification {
              t := Add(current, bob);
            }
          case College =>
            t := RescoreIfShared(current, bob, current.colleges, bob.colleges, t);
          case StudentMajor =>
            t := RescoreIfShared(current, bob, current.majors, bob.majors, t);
          case OtherType =>
        }
        if t > same {
          same := t;
          temp := Some(bob);
        }
      }
      BestMatchStep(current, all[..i], bob, choice);
      assert all[..i + 1] == all[..i] + [bob];
    }
    assert all[..|all|] == all;
  }

  /** The gate loops of `match` over two group lists: whenever an entry of
      `mine` equals an entry of `theirs`, the candidate is (re)scored;
      otherwise the earlier score `t0` is left as it was. */
  method RescoreIfShared(current: User, bob: User, mine: seq<Id>, theirs: seq<Id>, t0: nat) returns (t: nat)
    ensures t == if Shares(mine, theirs) then Score(current, bob) else t0
  {
    t := t0;
    for k := 0 to |mine|
      invariant t == if Shares(mine[..k], theirs) then Score(current, bob) else t0
    {
      for l := 0 to |theirs|
        invariant t == if Shares(mine[..k], theirs) || mine[k] in theirs[..l] then Score(current, bob) else t0
      {
        if mine[k] == theirs[l] {
          t := Add(current, bob);
        }
        assert theirs[..l + 1] == theirs[..l] + [theirs[l]];
      }
      assert theirs[..|theirs|] == theirs;
      SharesExtended(mine, theirs, k);
    }
    assert mine[..|mine|] == mine;
  }

  lemma SharesExtended(mine: seq<Id>, theirs: seq<Id>, k: nat)
    requires k < |mine|
    ensures Shares(mine[..k + 1], theirs) <==> Shares(mine[..k], theirs) || mine[k] in theirs
  {
    assert mine[..k + 1] == mine[..k] + [mine[k]];
    if mine[k] in theirs {
      assert mine[k] in mine[..k + 1];
    }
    if Shares(mine[..k], theirs) {
      var g :| g in mine[..k] && g in theirs;
      assert g in mine[..k + 1];
    }
  }

  // What the best match is.

  lemma {:induction false} MaxIsUpperBound(current: User, pool: seq<User>, choice: GroupType, i: nat)
    requires i < |pool|
    ensures GatedScore(current, pool[i], choice) <= MaxGated(current, pool, choice)
  {
    if i < |pool| - 1 {
      MaxIsUpperBound(current, pool[..|pool| - 1], choice, i);
    }
  }

  /** A positive highest gated score is reached by some candidate, and the
      first such candidate is found. */
  lemma {:induction false} MaxIsReached(current: User, pool: seq<User>, choice: GroupType)
    requires MaxGated(current, pool, choice) > 0
    ensures FirstReaching(current, pool, choice, MaxGated(current, pool, choice)) < |pool|
  {
    var m := MaxGated(current, pool, choice);
    var k := MaxWitness(current, pool, choice);
    FirstReachingFinds(current, pool, choice, m, k);
  }

  lemma {:induction false} MaxWitness(current: User, pool: seq<User>, choice: GroupType) returns (k: nat)
    requires pool != []
    ensures k < |pool| && GatedScore(current, pool[k], choice) == MaxGated(current, pool, choice)
  {
    var front := pool[..|pool| - 1];
    if front == [] || GatedScore(current, pool[|pool| - 1], choice) > MaxGated(current, front, choice) {
      k := |pool| - 1;
    } else {
      k := MaxWitness(current, front, choice);
    }
  }

  /** FirstReaching finds the first index reaching v when some index k does. */
  lemma {:induction false} FirstReachingFinds(current: User, pool: seq<User>, choice: GroupType, v: nat, k: nat)
    requires k < |pool| && GatedScore(current, pool[k], choice) == v
    ensures FirstReaching(current, pool, choice, v) <= k
    ensures GatedScore(current, pool[FirstReaching(current, pool, choice, v)], choice) == v
    ensures forall j | 0 <= j < FirstReaching(current, pool, choice, v) :: GatedScore(current, pool[j], choice) != v
  {
    if GatedScore(current, pool[0], choice) != v {
      FirstReachingFinds(current, pool[1..], choice, v, k - 1);
    }
  }

  /** An index FirstReaching returns inside the pool reaches v. */
  lemma {:induction false} FirstReachingHit(current: User, pool: seq<User>, choice: GroupType, v: nat)
    requires FirstReaching(current, pool, choice, v) < |pool|
    ensures GatedScore(current, pool[FirstReaching(current, pool, choice, v)], choice) == v
  {
    if GatedScore(current, pool[0], choice) != v {
      FirstReachingHit(current, pool[1..], choice, v);
    }
  }

  /** Extending the pool by one candidate that does not reach v moves the
      first index reaching v only when the pool had none. */
  lemma {:induction false} FirstReachingAppend(current: User, pool: seq<User>, x: User, choice: GroupType, v: nat)
    ensures FirstReaching(current, pool, choice, v) <= |pool|
    ensures FirstReaching(current, pool + [x], choice, v) ==
              if FirstReaching(current, pool, choice, v) < |pool| then FirstReaching(current, pool, choice, v)
              else if GatedScore(current, x, choice) == v then |pool| else |pool| + 1
  {
    if pool != [] {
      assert (pool + [x])[1..] == pool[1..] + [x];
      FirstReachingAppend(current, pool[1..], x, choice, v);
    }
  }

  /** One loop step of `match`: the pool extended by one candidate has the
      candidate as its best match exactly when its gated score beats every
      earlier one. */
  lemma BestMatchStep(current: User, pool: seq<User>, x: User, choice: GroupType)
    ensures MaxGated(current, pool + [x], choice) ==
              if GatedScore(current, x, choice) > MaxGated(current, pool, choice) then GatedScore(current, x, choice)
              else MaxGated(current, pool, choice)
    ensures BestMatch(current, pool + [x], choice) ==
              if GatedScore(current, x, choice) > MaxGated(current, pool, choice) then Some(x)
              else BestMatch(current, pool, choice)
  {
    var p' := pool + [x];
    assert p'[..|pool|] == pool;
    var m, g := MaxGated(current, pool, choice), GatedScore(current, x, choice);
    if g > m {
      FirstReachingAppend(current, pool, x, choice, g);
      if FirstReaching(current, pool, choice, g) < |pool| {
        var k := FirstReaching(current, pool, choice, g);
        FirstReachingHit(current, pool, choice, g);
        MaxIsUpperBound(current, pool, choice, k);
      }
    } else if m > 0 {
      MaxIsReached(current, pool, choice);
      FirstReachingAppend(current, pool, x, choice, m);
    }
  }

  /** The best match is a candidate of the pool other than the requester that
      passes the gate, its score is the highest gated score, and every earlier
      candidate scores strictly less; there is no match exactly when every
      gated score is 0. */
  lemma BestMatchIsFirstMaximum(current: User, pool: seq<User>, choice: GroupType)
    ensures BestMatch(current, pool, choice).None? <==>
              forall i | 0 <= i < |pool| :: GatedScore(current, pool[i], choice) == 0
    ensures BestMatch(current, pool, choice).Some? ==>
              exists k | 0 <= k < |pool| ::
                && pool[k] == BestMatch(current, pool, choice).value
                && pool[k].id != current.id && Gate(current, pool[k], choice)
                && (forall j | 0 <= j < |pool| :: GatedScore(current, pool[j], choice) <= Score(current, pool[k]))
                && (forall j | 0 <= j < k :: GatedScore(current, pool[j], choice) < Score(current, pool[k]))
  {
    var m := MaxGated(current, pool, choice);
    forall i | 0 <= i < |pool| ensures GatedScore(current, pool[i], choice) <= m {
      MaxIsUpperBound(current, pool, choice, i);
    }
    if m > 0 {
      var w := MaxWitness(current, pool, choice);
      var k := FirstReaching(current, pool, choice, m);
      FirstReachingFinds(current, pool, choice, m, w);
      assert pool[k] == BestMatch(current, pool, choice).value;
    } else if pool != [] {
      var w := MaxWitness(current, pool, choice);
    }
  }

  /** A candidate admitted by the gate always scores at least 1: a shared
      classification, college or major is itself counted. */
  lemma GatedCandidateScores(current: User, bob: User, choice: GroupType)
    requires Gate(current, bob, choice)
    ensures Score(current, bob) >= 1
  {
    match choice {
      case StudentClass =>
      case College =>
        var g :| g in current.colleges && g in bob.colleges;
        PairCountPositive(current.colleges, bob.colleges, g);
      case StudentMajor =>
        var g :| g in current.majors && g in bob.majors;
        PairCountPositive(current.majors, bob.majors, g);
    }
  }

  /** Hence there is no match exactly when no candidate other than the
      requester passes the gate (in particular for an empty pool, and for an
      axis other than the three named ones). */
  lemma NoMatchIffNoneAdmitted(current: User, pool: seq<User>, choice: GroupType)
    ensures BestMatch(current, pool, choice).None? <==>
              forall i | 0 <= i < |pool| :: !(pool[i].id != current.id && Gate(current, pool[i], choice))
  {
    BestMatchIsFirstMaximum(current, pool, choice);
    forall i | 0 <= i < |pool| && pool[i].id != current.id && Gate(current, pool[i], choice)
      ensures GatedScore(current, pool[i], choice) > 0
    {
      GatedCandidateScores(current, pool[i], choice);
    }
  }

  /** A worked example. A (SENIOR, major CS, college Engineering, interested in
      Chess), B (SENIOR, major CS, college Business, interested in Chess) and
      C (JUNIOR, major CS, college Engineering, no interests), matched on
      majors. Each interest record names one user, so A and B share no record:
      both B and C score 2, and the one enumerated first wins the tie. */
  const Senior: Classification := 4
  const Junior: Classification := 3
  const ComputerScience: Id := 10
  const Engineering: Id := 20
  const Business: Id := 21
  const UserA := User(1, None, None, None, Senior, {}, {100}, [ComputerScience], [Engineering])
  const UserB := User(2, None, None, None, Senior, {}, {101}, [ComputerScience], [Business])
  const UserC := User(3, None, None, None, Junior, {}, {}, [ComputerScience], [Engineering])

  lemma ExampleScores()
    ensures Score(UserA, UserB) == 2 && Score(UserA, UserC) == 2
  {
    assert UserA.interests * UserB.interests == {} && UserA.interests * UserC.interests == {};
    assert [ComputerScience][..0] == [] && [Engineering][..0] == [];
    assert Occurrences(ComputerScience, [ComputerScience]) == 1;
    assert Occurrences(Engineering, [Engineering]) == 1;
    assert PairCount([ComputerScience], [ComputerScience]) == 1;
    assert PairCount([Engineering], [Engineering]) == 1;
    assert PairCount([Engineering], [Business]) == 0;
  }

  lemma ExampleGatedScores()
    ensures GatedScore(UserA, UserA, StudentMajor) == 0
    ensures GatedScore(UserA, UserB, StudentMajor) == 2 && GatedScore(UserA, UserC, StudentMajor) == 2
  {
    ExampleScores();
    assert ComputerScience in UserA.majors && ComputerScience in UserB.majors && ComputerScience in UserC.majors;
  }

  lemma ExampleBFirst()
    ensures BestMatch(UserA, [UserA, UserB, UserC], StudentMajor) == Some(UserB)
  {
    var a, b, c := UserA, UserB, UserC;
    ExampleGatedScores();
    BestMatchStep(a, [], a, StudentMajor);
    assert [] + [a] == [a];
    BestMatchStep(a, [a], b, StudentMajor);
    assert [a] + [b] == [a, b];
    BestMatchStep(a, [a, b], c, StudentMajor);
    assert [a, b] + [c] == [a, b, c];
  }

  lemma ExampleCFirst()
    ensures BestMatch(UserA, [UserA, UserC, UserB], StudentMajor) == Some(UserC)
  {
    var a, b, c := UserA, UserB, UserC;
    ExampleGatedScores();
    BestMatchStep(a, [], a, StudentMajor);
    assert [] + [a] == [a];
    BestMatchStep(a, [a], c, StudentMajor);
    assert [a] + [c] == [a, c];
    BestMatchStep(a, [a, c], b, StudentMajor);
    assert [a, c] + [b] == [a, c, b];
  }
}
