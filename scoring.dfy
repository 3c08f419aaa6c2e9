/**
 * Scoring of one turn (game.py:106-134). The reference definition `Delta`
 * says, for one player, how many points the turn gives; the method
 * `ComputeTurnPoints` is the source's loop that builds the turn's Counter
 * step by step, and is proved to agree with `Delta` for every player.
 *
 * The branch condition is the code's own: all votes name the same card
 * (`Unanimous`). It is not "nobody or everybody found the storyteller's
 * card"; `SplitMissStillPaysStoryteller` shows an input where the two differ.
 */
module Scoring {
  import opened Base
  import opened Counters

  /** The players whose table card is `card` (the comprehension at game.py:129). */
  function Owners(table: map<PlayerId, Card>, card: Card): set<PlayerId>
  {
    set k | k in table && table[k] == card
  }

  /** `len(set(votes.values())) == 1`. */
  predicate Unanimous(votes: map<PlayerId, Card>)
  {
    |votes.Values| == 1
  }

  /** The storyteller is on the table and every other player has voted. */
  predicate Scorable(players: seq<PlayerId>, st: PlayerId, table: map<PlayerId, Card>, votes: map<PlayerId, Card>)
  {
    st in table && forall o :: o in players && o != st ==> o in votes
  }

  /** The voters among `voters` who missed the storyteller's card and picked a card whose only owner is `p`. */
  function Fooled(voters: seq<PlayerId>, st: PlayerId, table: map<PlayerId, Card>, votes: map<PlayerId, Card>,
                  p: PlayerId): set<PlayerId>
    requires st in table && forall o :: o in voters ==> o in votes
  {
    set o | o in voters && votes[o] != table[st] && Owners(table, votes[o]) == {p}
  }

  /** A voter other than the storyteller missed the storyteller's card and picked a card without a unique owner. */
  predicate OwnerFault(players: seq<PlayerId>, st: PlayerId, table: map<PlayerId, Card>, votes: map<PlayerId, Card>)
    requires Scorable(players, st, table, votes)
  {
    !Unanimous(votes) &&
    exists o :: o in players && o != st && votes[o] != table[st] && |Owners(table, votes[o])| != 1
  }

  /**
   * The points player `p` earns this turn. When all votes name one card,
   * every player but the storyteller earns 2. Otherwise the storyteller
   * earns 3, every other player who found the storyteller's card earns 3,
   * and each other vote earns 1 for the owner of the voted card.
   */
  function Delta(players: seq<PlayerId>, st: PlayerId, table: map<PlayerId, Card>, votes: map<PlayerId, Card>,
                 p: PlayerId): nat
    requires Scorable(players, st, table, votes)
  {
    var others := set o | o in players && o != st;
    if Unanimous(votes) then
      (if p in others then 2 else 0)
    else
      (if p == st then 3 else 0)
      + (if p in others && votes[p] == table[st] then 3 else 0)
      + |set o | o in others && votes[o] != table[st] && Owners(table, votes[o]) == {p}|
  }

  /** What the loop has given `p` after visiting `voters` in the non-unanimous branch. */
  ghost function Partial(voters: seq<PlayerId>, st: PlayerId, table: map<PlayerId, Card>, votes: map<PlayerId, Card>,
                         p: PlayerId): nat
    requires st in table && forall o :: o in voters ==> o in votes
  {
    (if p == st then 3 else 0)
    + (if p in voters && votes[p] == table[st] then 3 else 0)
    + |Fooled(voters, st, table, votes, p)|
  }

  /** Visiting one more voter `o` adds exactly what the loop body adds for it. */
  lemma PartialStep(voters: seq<PlayerId>, o: PlayerId, st: PlayerId, table: map<PlayerId, Card>,
                    votes: map<PlayerId, Card>, p: PlayerId)
    requires st in table && o in votes && forall v :: v in voters ==> v in votes
    requires o !in voters && o != st
    ensures Partial(voters + [o], st, table, votes, p)
         == Partial(voters, st, table, votes, p)
            + (if p == o && votes[o] == table[st] then 3 else 0)
            + (if votes[o] != table[st] && Owners(table, votes[o]) == {p} then 1 else 0)
  {
    var before := Fooled(voters, st, table, votes, p);
    var after := Fooled(voters + [o], st, table, votes, p);
    if votes[o] != table[st] && Owners(table, votes[o]) == {p} {
      assert after == before + {o};
      assert o !in before;
    } else {
      assert after == before;
    }
  }

  /** The unanimous branch (game.py:117-119): every voter gets 2. */
  method PayEveryVoter(others: seq<PlayerId>) returns (points: Counter)
    requires Distinct(others)
    ensures Positive(points)
    ensures forall p :: Get(points, p) == if p in others then 2 else 0
  {
    points := map[];
    var i := 0;
    while i < |others|
      invariant 0 <= i <= |others|
      invariant Positive(points)
      invariant forall p :: Get(points, p) == if p in others[..i] then 2 else 0
    {
      assert others[..i + 1] == others[..i] + [others[i]];
      var prev := points;
      points := Inc(points, others[i], 2);
      forall p ensures Get(points, p) == if p in others[..i + 1] then 2 else 0 {
        assert Get(prev, p) == if p in others[..i] then 2 else 0;
        assert p in others[..i + 1] <==> p in others[..i] || p == others[i];
      }
      i := i + 1;
    }
    assert others[..i] == others;
  }

  /**
   * The split branch (game.py:120-132): 3 for the storyteller, 3 for each
   * voter who found the storyteller's card, 1 for the unique owner of each
   * other voted card; stops at the first voted card without a unique owner.
   */
  method PaySplitVotes(others: seq<PlayerId>, st: PlayerId, table: map<PlayerId, Card>, votes: map<PlayerId, Card>)
    returns (r: Result<Counter>)
    requires Distinct(others) && st !in others
    requires st in table && forall o :: o in others ==> o in votes
    ensures r.Err? <==> exists o :: o in others && votes[o] != table[st] && |Owners(table, votes[o])| != 1
    ensures r.Err? ==> r.error == OwnerNotUnique
    ensures r.Ok? ==> Positive(r.value)
    ensures r.Ok? ==> forall p :: Get(r.value, p) == Partial(others, st, table, votes, p)
  {
    var points := Inc(map[], st, 3);
    var i := 0;
    ghost var seen: seq<PlayerId> := [];
    while i < |others|
      invariant 0 <= i <= |others| && seen == others[..i]
      invariant Positive(points)
      invariant forall p :: Get(points, p) == Partial(seen, st, table, votes, p)
      invariant forall j :: 0 <= j < i ==> votes[others[j]] == table[st] || |Owners(table, votes[others[j]])| == 1
    {
      var o := others[i];
      assert o !in seen;
      if votes[o] == table[st] {
        points := Inc(points, o, 3);
      } else {
        var owners := Owners(table, votes[o]);
        if |owners| != 1 {
          return Err(OwnerNotUnique);
        }
        var owner :| owner in owners;
        SingletonOf(owners, owner);
        points := Inc(points, owner, 1);
      }
      forall p ensures Get(points, p) == Partial(seen + [o], st, table, votes, p) {
        PartialStep(seen, o, st, table, votes, p);
      }
      seen := seen + [o];
      assert seen == others[..i + 1];
      i := i + 1;
    }
    assert seen == others;
    return Ok(points);
  }

  /** A set of one element is that element's singleton. */
  lemma SingletonOf<T>(s: set<T>, x: T)
    requires |s| == 1 && x in s
    ensures s == {x}
  {
    var rest := s - {x};
    assert s == rest + {x};
    assert |rest| == 0;
  }

  /**
   * `_update_points_with_current_turn` once its two checks have passed: the
   * voters are the roster without the storyteller (game.py:114-115). It
   * fails exactly on an owner fault and otherwise returns a Counter that
   * gives every player `Delta` points.
   */
  method ComputeTurnPoints(players: seq<PlayerId>, st: PlayerId, table: map<PlayerId, Card>, votes: map<PlayerId, Card>)
    returns (r: Result<Counter>)
    requires Distinct(players) && st in players
    requires Scorable(players, st, table, votes)
    ensures r.Err? <==> OwnerFault(players, st, table, votes)
    ensures r.Err? ==> r.error == OwnerNotUnique
    ensures r.Ok? ==> Positive(r.value)
    ensures r.Ok? ==> forall p :: Get(r.value, p) == Delta(players, st, table, votes, p)
  {
    var others := RemoveFirst(players, st);
    RemoveFirstElements(players, st);
    assert forall o :: o in others <==> o in players && o != st by {
      forall o ensures o in others <==> o in players && o != st {
        assert o in others <==> o in Elements(others);
        assert o in players <==> o in Elements(players);
      }
    }
    if Unanimous(votes) {
      var points := PayEveryVoter(others);
      return Ok(points);
    }
    r := PaySplitVotes(others, st, table, votes);
    if r.Ok? {
      var othersSet := set o | o in players && o != st;
      forall p ensures Get(r.value, p) == Delta(players, st, table, votes, p) {
        var paid := set o | o in othersSet && votes[o] != table[st] && Owners(table, votes[o]) == {p};
        forall o ensures o in Fooled(others, st, table, votes, p) <==> o in paid {
          assert o in others <==> o in othersSet;
        }
        assert Fooled(others, st, table, votes, p) == paid;
        assert p in others <==> p in othersSet;
      }
    }
  }

  /**
   * The storyteller earns nothing when all votes name one card and exactly 3
   * otherwise: a missed vote never names the storyteller's own card.
   */
  lemma StorytellerScore(players: seq<PlayerId>, st: PlayerId, table: map<PlayerId, Card>, votes: map<PlayerId, Card>)
    requires Scorable(players, st, table, votes)
    ensures Delta(players, st, table, votes, st) == if Unanimous(votes) then 0 else 3
  {
    if !Unanimous(votes) {
      var others := set o | o in players && o != st;
      var paid := set o | o in others && votes[o] != table[st] && Owners(table, votes[o]) == {st};
      assert paid == {} by {
        forall o | o in paid ensures st in Owners(table, votes[o]) {
        }
      }
    }
  }

  /**
   * A player other than the storyteller whose table card is theirs alone
   * earns 2 when all votes name one card; otherwise 3 for finding the
   * storyteller's card, plus 1 for every vote naming their own card.
   */
  lemma VoterScore(players: seq<PlayerId>, st: PlayerId, table: map<PlayerId, Card>, votes: map<PlayerId, Card>,
                   p: PlayerId)
    requires Scorable(players, st, table, votes)
    requires p in players && p != st && p in table && Owners(table, table[p]) == {p}
    ensures Unanimous(votes) ==> Delta(players, st, table, votes, p) == 2
    ensures !Unanimous(votes) ==>
      Delta(players, st, table, votes, p)
      == (if votes[p] == table[st] then 3 else 0) + |set o | o in players && o != st && votes[o] == table[p]|
  {
    if !Unanimous(votes) {
      var others := set o | o in players && o != st;
      var paid := set o | o in others && votes[o] != table[st] && Owners(table, votes[o]) == {p};
      var named := set o | o in players && o != st && votes[o] == table[p];
      assert st in Owners(table, table[st]);
      assert table[p] != table[st];
      forall o | o in paid ensures o in named {
        assert p in Owners(table, votes[o]);
      }
      assert paid == named;
    }
  }

  /**
   * When every other player found the storyteller's card, all votes name one
   * card: each of them earns 2 and the storyteller nothing.
   */
  lemma EveryoneFound(players: seq<PlayerId>, st: PlayerId, table: map<PlayerId, Card>, votes: map<PlayerId, Card>)
    requires Scorable(players, st, table, votes)
    requires votes.Keys == (set o | o in players && o != st) && votes.Keys != {}
    requires forall o :: o in votes ==> votes[o] == table[st]
    ensures Unanimous(votes)
    ensures Delta(players, st, table, votes, st) == 0
    ensures forall p :: p in players && p != st ==> Delta(players, st, table, votes, p) == 2
  {
    var o :| o in votes;
    assert votes.Values == {table[st]} by {
      assert votes[o] in votes.Values;
    }
  }

  /**
   * The code's condition differs from "nobody found the storyteller's card":
   * here nobody finds card 1, yet the votes are split, so the storyteller
   * still earns 3.
   */
  lemma SplitMissStillPaysStoryteller()
    ensures var table := map["A" := 1, "B" := 2, "C" := 3, "D" := 4];
            var votes := map["B" := 3, "C" := 2, "D" := 2];
            && Scorable(["A", "B", "C", "D"], "A", table, votes)
            && (forall o :: o in votes ==> votes[o] != table["A"])
            && Delta(["A", "B", "C", "D"], "A", table, votes, "A") == 3
  {
    var table := map["A" := 1, "B" := 2, "C" := 3, "D" := 4];
    var votes := map["B" := 3, "C" := 2, "D" := 2];
    assert votes.Values == {2, 3} by {
      assert votes["B"] == 3 && votes["C"] == 2;
    }
    StorytellerScore(["A", "B", "C", "D"], "A", table, votes);
  }
}
