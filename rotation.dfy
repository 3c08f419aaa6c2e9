/**
 * Storyteller rotation. The source walks `itertools.cycle` over the shuffled
 * roster; here the generator is a cursor that steps through the roster and
 * wraps after the last entry, so turn number k (counting from 0) is told by
 * roster entry k mod n.
 */
module Rotation {
  import opened Base

  /**
   * The roster position of the storyteller of turn `k`: the generator starts
   * at the first entry and each turn moves one step, wrapping after the last.
   */
  function Cursor(k: nat, n: nat): (c: nat)
    requires n > 0
    ensures c < n
  {
    if k == 0 then 0
    else
      var c := Cursor(k - 1, n);
      if c + 1 == n then 0 else c + 1
  }

  /** The storyteller of turn `k`. */
  function StorytellerAt(players: seq<PlayerId>, k: nat): PlayerId
    requires players != []
  {
    players[Cursor(k, |players|)]
  }

  /** The storytellers of the n turns starting at turn `k`. */
  function Round(players: seq<PlayerId>, k: nat): seq<PlayerId>
    requires players != []
  {
    seq(|players|, j requires 0 <= j < |players| => StorytellerAt(players, k + j))
  }

  lemma MulAtLeast(d: int, n: int)
    requires d >= 1 && n > 0
    ensures d * n >= n
  {
  }

  /** Euclidean division has one quotient and one remainder. */
  lemma DivModUnique(a: int, n: int, q: int, r: int)
    requires n > 0 && 0 <= r < n && a == q * n + r
    ensures a % n == r && a / n == q
  {
    var q', r' := a / n, a % n;
    assert a == q' * n + r';
    assert (q - q') * n == r' - r;
    if q - q' >= 1 {
      MulAtLeast(q - q', n);
    } else if q' - q >= 1 {
      MulAtLeast(q' - q, n);
    }
  }

  /** Turn `k` is told by roster entry k mod n. */
  lemma {:induction false} CursorIsMod(k: nat, n: nat)
    requires n > 0
    ensures Cursor(k, n) == k % n
  {
    if k > 0 {
      CursorIsMod(k - 1, n);
      var q, r := (k - 1) / n, (k - 1) % n;
      assert k - 1 == q * n + r;
      if r + 1 < n {
        DivModUnique(k, n, q, r + 1);
      } else {
        DivModUnique(k, n, q + 1, 0);
      }
    }
  }

  /**
   * In any n consecutive turns every player of a roster without repetitions
   * tells, and none tells twice.
   */
  lemma EveryPlayerTellsOncePerRound(players: seq<PlayerId>, k: nat)
    requires players != [] && Distinct(players)
    ensures Elements(Round(players, k)) == Elements(players)
    ensures Distinct(Round(players, k))
  {
    var n := |players|;
    var round := Round(players, k);
    var c := k % n;
    assert k == (k / n) * n + c;
    // turn k + j is told by players[(c + j) mod n]
    forall j | 0 <= j < n
      ensures round[j] == players[if c + j < n then c + j else c + j - n]
    {
      CursorIsMod(k + j, n);
      assert round[j] == players[(k + j) % n];
      if c + j < n {
        DivModUnique(k + j, n, k / n, c + j);
      } else {
        DivModUnique(k + j, n, k / n + 1, c + j - n);
      }
    }
    forall q | q in players
      ensures q in round
    {
      var m :| 0 <= m < n && players[m] == q;
      var j := if m >= c then m - c else m - c + n;
      assert round[j] == q;
    }
    forall i, j | 0 <= i < j < n
      ensures round[i] != round[j]
    {
      var i' := if c + i < n then c + i else c + i - n;
      var j' := if c + j < n then c + j else c + j - n;
      assert i' != j';
    }
  }
}
