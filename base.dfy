/**
 * Shared vocabulary of the Dixit engine: identifiers, the kinds of error the
 * engine raises, result wrappers and a few facts about sequences of ids.
 */
module Base {

  /** Player identifiers are opaque strings (session ids in the web layer). */
  type PlayerId = string

  /** Cards are numbered 1..NB_CARDS. */
  type Card = int

  const NB_CARDS: nat := 84
  const HAND_SIZE: nat := 6
  const MIN_PLAYERS: nat := 4
  const MAX_PLAYERS: nat := 6

  /**
   * The kinds of failure raised by the engine. Several of them are the same
   * Python exception class (ValueError) with different messages; they are
   * kept apart here so that contracts can say which check fired.
   */
  datatype GameError =
    | NumberPlayers           // NumberPlayersError: roster size not 4, 5 or 6
    | GameEnded               // GameEndedError: the pile cannot serve one round
    | NotReadyToVote          // NotReadyToVoteError: table not full yet
    | UnknownPlayer           // ValueError: player not in game
    | CardNotInHand           // ValueError: card not in the player's hand
    | NotStoryteller          // ValueError: only the storyteller can tell
    | StorytellerCannotPlay   // ValueError
    | StorytellerCannotVote   // ValueError
    | CardNotOnTable          // ValueError: voted card is not on the table
    | OwnCardVote             // ValueError: vote for one's own card
    | NotOnTable              // KeyError: voter has no table entry yet
    | CardsMissing            // ValueError: scoring with a table that is not full
    | VotesMissing            // ValueError: scoring before all votes are in
    | OwnerNotUnique          // RuntimeError: a voted card has no unique owner
    | NoPastTurn              // IndexError: no turn has been archived yet

  datatype Option<T> = None | Some(value: T)

  datatype Result<T> = Ok(value: T) | Err(error: GameError)

  datatype Outcome = Pass | Fail(error: GameError)

  /** No id occurs twice. */
  predicate Distinct<T(==)>(s: seq<T>)
  {
    forall i, j :: 0 <= i < j < |s| ==> s[i] != s[j]
  }

  /** The tail of a sequence without repetitions has none either and lacks the head. */
  lemma DistinctTail<T>(s: seq<T>)
    requires s != [] && Distinct(s)
    ensures Distinct(s[1..]) && s[0] !in s[1..]
  {
  }

  /** The set of elements of a sequence. */
  function Elements<T>(s: seq<T>): set<T>
  {
    set x | x in s
  }

  /** A sequence without repetitions has as many elements as its length. */
  lemma {:induction false} DistinctCardinality<T>(s: seq<T>)
    requires Distinct(s)
    ensures |Elements(s)| == |s|
  {
    if s != [] {
      DistinctCardinality(s[1..]);
      assert Elements(s) == {s[0]} + Elements(s[1..]);
      assert s[0] !in Elements(s[1..]);
    }
  }

  /** A subset of a finite set with the same cardinality is the whole set. */
  lemma SameSizeSubset<T>(a: set<T>, b: set<T>)
    requires a <= b && |a| == |b|
    ensures a == b
  {
    var d := b - a;
    assert b == a + d;
    assert a * d == {};
    assert |d| == 0;
  }

  /** Position of the first occurrence of `x` in `s`. */
  function FirstIndex<T(==)>(s: seq<T>, x: T): (k: nat)
    requires x in s
    ensures k < |s| && s[k] == x && x !in s[..k]
  {
    if s[0] == x then 0 else FirstIndex(s[1..], x) + 1
  }

  /**
   * Python's `list.remove(x)`: drop the first occurrence of `x`; the caller
   * has checked that `x` occurs.
   */
  function RemoveFirst<T(==)>(s: seq<T>, x: T): (r: seq<T>)
    requires x in s
    ensures |r| == |s| - 1
    ensures multiset(r) + multiset{x} == multiset(s)
    ensures exists k :: 0 <= k < |s| && s[k] == x && x !in s[..k] && r == s[..k] + s[k + 1..]
  {
    var k := FirstIndex(s, x);
    assert s == s[..k] + [x] + s[k + 1..];
    s[..k] + s[k + 1..]
  }

  /** Removing one occurrence from a sequence without repetitions removes that element and keeps the rest. */
  lemma RemoveFirstElements<T>(s: seq<T>, x: T)
    requires x in s && Distinct(s)
    ensures Distinct(RemoveFirst(s, x))
    ensures Elements(RemoveFirst(s, x)) == Elements(s) - {x}
  {
    var k := FirstIndex(s, x);
    assert RemoveFirst(s, x) == s[..k] + s[k + 1..];
    DropDistinct(s, k);
    DropElements(s, k);
  }

  /** Dropping position `k` of a sequence without repetitions leaves one without repetitions. */
  lemma DropDistinct<T>(s: seq<T>, k: nat)
    requires k < |s| && Distinct(s)
    ensures Distinct(s[..k] + s[k + 1..])
  {
    var r := s[..k] + s[k + 1..];
    forall i, j | 0 <= i < j < |r| ensures r[i] != r[j] {
      var i' := if i < k then i else i + 1;
      var j' := if j < k then j else j + 1;
      assert r[i] == s[i'] && r[j] == s[j'];
    }
  }

  /** Dropping position `k` of a sequence without repetitions drops exactly the element there. */
  lemma DropElements<T>(s: seq<T>, k: nat)
    requires k < |s| && Distinct(s)
    ensures Elements(s[..k] + s[k + 1..]) == Elements(s) - {s[k]}
  {
    var r := s[..k] + s[k + 1..];
    forall y | y in Elements(s) - {s[k]} ensures y in Elements(r) {
      var m :| 0 <= m < |s| && s[m] == y;
      if m < k { assert r[m] == y; } else { assert r[m - 1] == y; }
    }
    forall y | y in Elements(r) ensures y in Elements(s) - {s[k]} {
      var m :| 0 <= m < |r| && r[m] == y;
      if m < k { assert s[m] == y; } else { assert s[m + 1] == y; }
    }
  }
}
