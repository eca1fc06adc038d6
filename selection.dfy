/** How the strategies choose among legal moves: Python's stable sort by
    distance, the first minimum that `min` returns, the first move on a pile
    nobody else has claimed, and the Priority players' choice built from them. */
module Selection {
  import opened Rules

  datatype Option<T> = None | Some(value: T)

  /** `a` is preferred to `b`: a smaller distance, or the same distance and
      earlier in the enumeration order. */
  predicate Better(a: Move, b: Move)
  {
    a.distance < b.distance || (a.distance == b.distance && EnumBefore(a, b))
  }

  ghost predicate SortedByDistance(ms: seq<Move>)
  {
    forall i, j :: 0 <= i < j < |ms| ==> ms[i].distance <= ms[j].distance
  }

  /** No move scores below the back-step distance. */
  ghost predicate WellScored(ms: seq<Move>)
  {
    forall m :: m in ms ==> m.distance >= BackStepDistance
  }

  ghost predicate StrictlyBetterOrdered(ms: seq<Move>)
  {
    forall i, j :: 0 <= i < j < |ms| ==> Better(ms[i], ms[j])
  }

  /** `r` is a move of `ms` on a pile outside `excluded`, preferred to every
      other such move of `ms`. */
  ghost predicate BestAmong(r: Move, ms: seq<Move>, excluded: set<int>)
  {
    r in ms && r.stackIndex !in excluded &&
    forall m :: m in ms && m.stackIndex !in excluded && m != r ==> Better(r, m)
  }

  /** Insert `m` in front of the first move whose distance is not smaller. */
  function Insert(m: Move, sorted: seq<Move>): (r: seq<Move>)
    ensures |r| == |sorted| + 1
  {
    if sorted == [] || m.distance <= sorted[0].distance then [m] + sorted
    else [sorted[0]] + Insert(m, sorted[1..])
  }

  /** Insertion adds `m` to the moves and nothing else. */
  lemma {:induction false} InsertPermutes(m: Move, sorted: seq<Move>)
    ensures multiset(Insert(m, sorted)) == multiset(sorted) + multiset{m}
  {
    if !(sorted == [] || m.distance <= sorted[0].distance) {
      InsertPermutes(m, sorted[1..]);
      assert sorted == [sorted[0]] + sorted[1..];
    }
  }

  /** Insertion keeps a sorted list sorted. */
  lemma {:induction false} InsertSorts(m: Move, sorted: seq<Move>)
    requires SortedByDistance(sorted)
    ensures SortedByDistance(Insert(m, sorted))
  {
    if !(sorted == [] || m.distance <= sorted[0].distance) {
      var rest := Insert(m, sorted[1..]);
      InsertSorts(m, sorted[1..]);
      InsertPermutes(m, sorted[1..]);
      assert rest[0] == m || rest[0] in sorted[1..] by {
        assert rest[0] in multiset(sorted[1..]) + multiset{m};
      }
    }
  }

  /** Python's `sorted(moves, key=distance)`, as a stable insertion sort. */
  function SortByDistance(ms: seq<Move>): (r: seq<Move>)
    ensures |r| == |ms|
  {
    if ms == [] then [] else Insert(ms[0], SortByDistance(ms[1..]))
  }

  /** Sorting permutes the moves into ascending distance order. */
  lemma {:induction false} SortSpec(ms: seq<Move>)
    ensures multiset(SortByDistance(ms)) == multiset(ms)
    ensures SortedByDistance(SortByDistance(ms))
  {
    if ms != [] {
      SortSpec(ms[1..]);
      InsertPermutes(ms[0], SortByDistance(ms[1..]));
      InsertSorts(ms[0], SortByDistance(ms[1..]));
      assert ms == [ms[0]] + ms[1..];
    }
  }

  lemma {:induction false} InsertBetterOrdered(m: Move, sorted: seq<Move>)
    requires StrictlyBetterOrdered(sorted)
    requires forall y :: y in sorted ==> EnumBefore(m, y)
    ensures StrictlyBetterOrdered(Insert(m, sorted))
  {
    if sorted != [] && m.distance > sorted[0].distance {
      var tail := sorted[1..];
      assert forall k :: 0 <= k < |tail| ==> tail[k] == sorted[k + 1];
      InsertBetterOrdered(m, tail);
      InsertPermutes(m, tail);
      var r := Insert(m, tail);
      forall y | y in r ensures Better(sorted[0], y) {
        assert y in multiset(r);
        if y != m {
          assert y in multiset(tail);
          var k :| 0 <= k < |tail| && tail[k] == y;
        }
      }
      var full := [sorted[0]] + r;
      forall i, j | 0 <= i < j < |full| ensures Better(full[i], full[j]) {
        if i == 0 { assert full[j] in r; }
      }
    }
  }

  /** Stability: sorting a list given in enumeration order by distance leaves
      it ordered by distance first and enumeration order second. */
  lemma {:induction false} SortIsStable(ms: seq<Move>)
    requires EnumOrdered(ms)
    ensures StrictlyBetterOrdered(SortByDistance(ms))
  {
    if ms != [] {
      var tail := ms[1..];
      assert EnumOrdered(tail) by {
        assert forall k :: 0 <= k < |tail| ==> tail[k] == ms[k + 1];
      }
      SortIsStable(tail);
      SortSpec(tail);
      var st := SortByDistance(tail);
      forall y | y in st ensures EnumBefore(ms[0], y) {
        assert y in multiset(st);
        assert y in multiset(tail);
      }
      InsertBetterOrdered(ms[0], st);
    }
  }

  /** The first move on a pile outside `claimed`, scanning in list order. */
  function FirstUnclaimed(ms: seq<Move>, claimed: set<int>): Option<Move>
  {
    if ms == [] then None
    else if ms[0].stackIndex !in claimed then Some(ms[0])
    else FirstUnclaimed(ms[1..], claimed)
  }

  /** The scan finds nothing exactly when every move is on a claimed pile;
      otherwise it returns the move at the first unclaimed position. */
  lemma {:induction false} FirstUnclaimedSpec(ms: seq<Move>, claimed: set<int>)
    ensures var r := FirstUnclaimed(ms, claimed);
      (r.None? <==> forall m :: m in ms ==> m.stackIndex in claimed) &&
      (r.Some? ==> r.value.stackIndex !in claimed) &&
      (r.Some? ==> exists k :: 0 <= k < |ms| && ms[k] == r.value &&
                              forall j :: 0 <= j < k ==> ms[j].stackIndex in claimed)
  {
    if ms != [] && ms[0].stackIndex in claimed {
      var tail := ms[1..];
      FirstUnclaimedSpec(tail, claimed);
      assert forall m :: m in ms ==> m == ms[0] || m in tail;
      var r := FirstUnclaimed(tail, claimed);
      if r.Some? {
        var k :| 0 <= k < |tail| && tail[k] == r.value &&
                 forall j :: 0 <= j < k ==> tail[j].stackIndex in claimed;
        assert ms[k + 1] == r.value;
        assert forall j :: 0 <= j < k + 1 ==> ms[j].stackIndex in claimed by {
          assert forall j :: 1 <= j < k + 1 ==> ms[j] == tail[j - 1];
        }
      }
    } else if ms != [] {
      assert ms[0] == FirstUnclaimed(ms, claimed).value;
    }
  }

  /** The scan of `FirstUnclaimed` stops at the first unclaimed position. */
  lemma FirstUnclaimedAt(ms: seq<Move>, claimed: set<int>, k: int)
    requires 0 <= k < |ms| && ms[k].stackIndex !in claimed
    requires forall j :: 0 <= j < k ==> ms[j].stackIndex in claimed
    ensures FirstUnclaimed(ms, claimed) == Some(ms[k])
  {
    FirstUnclaimedSpec(ms, claimed);
    var r := FirstUnclaimed(ms, claimed);
    assert ms[k] in ms;
    var k' :| 0 <= k' < |ms| && ms[k'] == r.value &&
      forall j :: 0 <= j < k' ==> ms[j].stackIndex in claimed;
    assert k' == k;
  }

  /** `[move for move in moves if move[2] == -1]`: the back-steps, in order. */
  function BackSteps(ms: seq<Move>): (r: seq<Move>)
    ensures forall m :: m in r <==> m in ms && m.distance == BackStepDistance
  {
    if ms == [] then []
    else (if ms[0].distance == BackStepDistance then [ms[0]] else []) + BackSteps(ms[1..])
  }

  /** The Priority players' choice from the sorted moves (main.py:134-142):
      the best move if it is a back-step, else the first move on a pile no
      other player claimed, else the best move all the same. */
  function PriorityPick(sorted: seq<Move>, claimed: set<int>): Move
    requires sorted != []
  {
    if sorted[0].distance == BackStepDistance then sorted[0]
    else
      match FirstUnclaimed(sorted, claimed)
      case Some(m) => m
      case None => sorted[0]
  }

  /** Python's `min(moves, key=distance)`: a left-to-right scan that replaces
      its candidate only by a strictly smaller distance. */
  function FirstMinimum(ms: seq<Move>): Move
    requires ms != []
  {
    if |ms| == 1 then ms[0]
    else
      var b := FirstMinimum(ms[..|ms| - 1]);
      if ms[|ms| - 1].distance < b.distance then ms[|ms| - 1] else b
  }

  /** `min` returns a move of smallest distance, at the first position
      where that distance occurs. */
  lemma {:induction false} FirstMinimumSpec(ms: seq<Move>)
    requires ms != []
    ensures forall m :: m in ms ==> FirstMinimum(ms).distance <= m.distance
    ensures exists k :: 0 <= k < |ms| && ms[k] == FirstMinimum(ms) &&
                        forall j :: 0 <= j < k ==> ms[j].distance > FirstMinimum(ms).distance
  {
    if |ms| > 1 {
      var front := ms[..|ms| - 1];
      FirstMinimumSpec(front);
      assert forall m :: m in ms ==> m in front || m == ms[|ms| - 1];
      assert forall k :: 0 <= k < |front| ==> front[k] == ms[k];
    } else {
      assert ms[0] == FirstMinimum(ms);
    }
  }

  /** The first element of a strictly ordered list is preferred to all others. */
  lemma HeadIsBest(s: seq<Move>)
    requires s != [] && StrictlyBetterOrdered(s)
    ensures BestAmong(s[0], s, {})
  {
    forall m | m in s && m != s[0] ensures Better(s[0], m) {
      var k :| 0 <= k < |s| && s[k] == m;
    }
  }

  /** Sorting keeps exactly the same moves. */
  lemma SortSameMoves(ms: seq<Move>)
    ensures forall m :: m in SortByDistance(ms) <==> m in ms
  {
    var s := SortByDistance(ms);
    SortSpec(ms);
    forall m ensures m in s <==> m in ms {
      assert m in s <==> m in multiset(s);
      assert m in ms <==> m in multiset(ms);
    }
  }

  /** Preference is asymmetric, so a best move is unique. */
  lemma BestIsUnique(a: Move, b: Move, ms: seq<Move>, excluded: set<int>)
    requires BestAmong(a, ms, excluded) && BestAmong(b, ms, excluded)
    ensures a == b
  {
  }

  /** The move `min` returns is the best legal move. */
  lemma FirstMinimumIsBest(ms: seq<Move>)
    requires ms != [] && EnumOrdered(ms)
    ensures BestAmong(FirstMinimum(ms), ms, {})
  {
    FirstMinimumSpec(ms);
    var r := FirstMinimum(ms);
    var k :| 0 <= k < |ms| && ms[k] == r && forall j :: 0 <= j < k ==> ms[j].distance > r.distance;
    forall m | m in ms && m != r ensures Better(r, m) {
      var j :| 0 <= j < |ms| && ms[j] == m;
      assert j != k;
    }
  }

  /** The head of the stable sort of a list in enumeration order is its best move. */
  lemma SortedHeadIsBest(ms: seq<Move>)
    requires ms != [] && EnumOrdered(ms)
    ensures BestAmong(SortByDistance(ms)[0], ms, {})
  {
    var s := SortByDistance(ms);
    SortIsStable(ms);
    HeadIsBest(s);
    SortSameMoves(ms);
  }

  /** Naive's `min` and the head of the stable sort pick the same move: the
      move preferred to every other legal move. */
  lemma NaiveIsSortedHead(ms: seq<Move>)
    requires ms != [] && EnumOrdered(ms)
    ensures BestAmong(FirstMinimum(ms), ms, {})
    ensures FirstMinimum(ms) == SortByDistance(ms)[0]
  {
    FirstMinimumIsBest(ms);
    SortedHeadIsBest(ms);
    BestIsUnique(FirstMinimum(ms), SortByDistance(ms)[0], ms, {});
  }

  /** The first move of a strictly ordered list on a pile outside `claimed`
      is the best such move. */
  lemma FirstUnclaimedIsBest(s: seq<Move>, claimed: set<int>)
    requires StrictlyBetterOrdered(s)
    requires FirstUnclaimed(s, claimed).Some?
    ensures BestAmong(FirstUnclaimed(s, claimed).value, s, claimed)
  {
    FirstUnclaimedSpec(s, claimed);
    var f := FirstUnclaimed(s, claimed).value;
    var k :| 0 <= k < |s| && s[k] == f && forall j :: 0 <= j < k ==> s[j].stackIndex in claimed;
    forall m | m in s && m.stackIndex !in claimed && m != f ensures Better(f, m) {
      var j :| 0 <= j < |s| && s[j] == m;
      assert j != k;
    }
  }

  /** The Priority choice from a strictly ordered list `s` holding the same
      moves as `ms`. */
  lemma PriorityPickOrdered(s: seq<Move>, ms: seq<Move>, claimed: set<int>)
    requires s != [] && StrictlyBetterOrdered(s) && WellScored(ms)
    requires forall m :: m in s <==> m in ms
    ensures PriorityPick(s, claimed) in ms
    ensures (exists m :: m in ms && m.distance == BackStepDistance) ==>
      PriorityPick(s, claimed) == s[0] && s[0].distance == BackStepDistance
    ensures (forall m :: m in ms ==> m.distance != BackStepDistance) &&
            (exists m :: m in ms && m.stackIndex !in claimed) ==>
      BestAmong(PriorityPick(s, claimed), s, claimed)
    ensures (forall m :: m in ms ==> m.stackIndex in claimed) ==>
      PriorityPick(s, claimed) == s[0]
  {
    HeadIsBest(s);
    if exists m :: m in ms && m.distance == BackStepDistance {
      var m :| m in ms && m.distance == BackStepDistance;
      assert s[0].distance <= m.distance by {
        if m != s[0] { assert Better(s[0], m); }
      }
    } else {
      FirstUnclaimedSpec(s, claimed);
      if FirstUnclaimed(s, claimed).Some? {
        FirstUnclaimedIsBest(s, claimed);
      }
    }
  }

  /** What the Priority players play, stated without the sort:
      - a back-step when the hand has one, and then the best move overall;
      - otherwise, when some move is on a pile outside `claimed`, the best of
        those moves;
      - otherwise the best move overall. */
  lemma PriorityPickSpec(ms: seq<Move>, claimed: set<int>)
    requires ms != [] && EnumOrdered(ms) && WellScored(ms)
    ensures PriorityPick(SortByDistance(ms), claimed) in ms
    ensures (exists m :: m in ms && m.distance == BackStepDistance) ==>
      PriorityPick(SortByDistance(ms), claimed).distance == BackStepDistance &&
      BestAmong(PriorityPick(SortByDistance(ms), claimed), ms, {})
    ensures (forall m :: m in ms ==> m.distance != BackStepDistance) &&
            (exists m :: m in ms && m.stackIndex !in claimed) ==>
      BestAmong(PriorityPick(SortByDistance(ms), claimed), ms, claimed)
    ensures (forall m :: m in ms ==> m.stackIndex in claimed) ==>
      BestAmong(PriorityPick(SortByDistance(ms), claimed), ms, {})
  {
    var s := SortByDistance(ms);
    SortIsStable(ms);
    SortSameMoves(ms);
    SortedHeadIsBest(ms);
    PriorityPickOrdered(s, ms, claimed);
  }

  /** Every legal move scores the back-step distance or a positive gap. */
  lemma LegalMovesWellScored(hand: seq<int>, piles: seq<Pile>)
    ensures WellScored(LegalMoves(hand, piles))
  {
    LegalMovesSpec(hand, piles);
  }

  /** Naive plays the legal move preferred to every other one: the smallest
      distance, the earliest in enumeration order among equal distances. */
  lemma NaiveChoice(hand: seq<int>, piles: seq<Pile>)
    requires LegalMoves(hand, piles) != []
    ensures BestAmong(FirstMinimum(LegalMoves(hand, piles)), LegalMoves(hand, piles), {})
    ensures FirstMinimum(LegalMoves(hand, piles)) == SortByDistance(LegalMoves(hand, piles))[0]
  {
    LegalMovesSpec(hand, piles);
    NaiveIsSortedHead(LegalMoves(hand, piles));
  }

  /** The Priority choice over a hand's legal moves: a back-step first, then
      the best move on a pile outside `claimed`, then the best move. */
  lemma PriorityChoice(hand: seq<int>, piles: seq<Pile>, claimed: set<int>)
    requires LegalMoves(hand, piles) != []
    ensures var ms := LegalMoves(hand, piles);
      var r := PriorityPick(SortByDistance(ms), claimed);
      r in ms &&
      ((exists m :: m in ms && m.distance == BackStepDistance) ==>
        r.distance == BackStepDistance && BestAmong(r, ms, {})) &&
      ((forall m :: m in ms ==> m.distance != BackStepDistance) &&
       (exists m :: m in ms && m.stackIndex !in claimed) ==>
        BestAmong(r, ms, claimed)) &&
      ((forall m :: m in ms ==> m.stackIndex in claimed) ==> BestAmong(r, ms, {}))
  {
    LegalMovesSpec(hand, piles);
    LegalMovesWellScored(hand, piles);
    PriorityPickSpec(LegalMoves(hand, piles), claimed);
  }
}
