/** The actions a node raises through the game's dispatch callback. */
module GameActions {
  import opened Story

  datatype Action =
    | Output(passage: Passage)                    // OUTPUT: play this passage's content
    | SetVariables(patch: map<string, Value>)     // SET_VARIABLES: apply a state patch
    | CompletePassage(passageId: string)          // COMPLETE_PASSAGE: passage is done

  /** Position of an action kind in the order a single passage raises them. */
  function Rank(a: Action): nat
  {
    match a
    case Output(_) => 0
    case SetVariables(_) => 1
    case CompletePassage(_) => 2
  }

  /** Each action kind appears at most once, in OUTPUT, SET_VARIABLES,
      COMPLETE_PASSAGE order. */
  predicate StrictlyRanked(acts: seq<Action>)
  {
    forall i, j | 0 <= i < j < |acts| :: Rank(acts[i]) < Rank(acts[j])
  }

  /** In a strictly ranked list an action that follows the head is not the
      head, so it survives in the other list's tail. */
  lemma TailIn(xs: seq<Action>, ys: seq<Action>, a: Action)
    requires StrictlyRanked(xs)
    requires xs != [] && ys != [] && xs[0] == ys[0]
    requires a in xs[1..] && a in ys
    ensures a in ys[1..]
  {
    var k :| 1 <= k < |xs| && xs[k] == a;
    assert Rank(xs[0]) < Rank(xs[k]);
    var m :| 0 <= m < |ys| && ys[m] == a;
    assert ys[1..][m - 1] == a;
  }

  /** Two strictly ranked action lists holding the same actions are the same
      list: the order of a passage's actions is determined by their kinds. */
  lemma {:induction false} RankedEqual(xs: seq<Action>, ys: seq<Action>)
    requires StrictlyRanked(xs) && StrictlyRanked(ys)
    requires forall a :: a in xs <==> a in ys
    ensures xs == ys
  {
    assert xs != [] ==> xs[0] in xs;
    assert ys != [] ==> ys[0] in ys;
    if xs != [] && ys != [] {
      var i :| 0 <= i < |xs| && xs[i] == ys[0];
      var j :| 0 <= j < |ys| && ys[j] == xs[0];
      assert Rank(xs[0]) <= Rank(xs[i]);
      assert Rank(ys[0]) <= Rank(ys[j]);
      assert xs[0] == ys[0];
      forall a
        ensures a in xs[1..] <==> a in ys[1..]
      {
        if a in xs[1..] {
          TailIn(xs, ys, a);
        }
        if a in ys[1..] {
          TailIn(ys, xs, a);
        }
      }
      RankedEqual(xs[1..], ys[1..]);
      assert xs == [xs[0]] + xs[1..];
      assert ys == [ys[0]] + ys[1..];
    }
  }
}
