/** Choosing the artists of a new round (the loop at the end of
    `RoundState.__init__` in pysketch/game.py). The roster doubles as the
    rotation queue: users are popped from its front; those present become
    artists, those away are set aside; afterwards the roster is what was
    not popped, then the set-aside users, then the artists. */
module Selection {
  import opened Users

  /** The users of `s` who are not away, in order. */
  function Present(s: seq<User>, away: set<User>): (r: seq<User>)
    ensures |r| <= |s|
  {
    if |s| == 0 then []
    else Present(s[..|s| - 1], away) + (if s[|s| - 1] !in away then [s[|s| - 1]] else [])
  }

  /** The users of `s` who are away, in order. */
  function Absent(s: seq<User>, away: set<User>): (r: seq<User>)
    ensures |r| <= |s|
  {
    if |s| == 0 then []
    else Absent(s[..|s| - 1], away) + (if s[|s| - 1] in away then [s[|s| - 1]] else [])
  }

  /** Popping one more user extends exactly one of the two lists. */
  lemma PresentGrows(s: seq<User>, u: User, away: set<User>)
    ensures Present(s + [u], away) == Present(s, away) + (if u !in away then [u] else [])
  {
    assert (s + [u])[..|s|] == s;
  }

  lemma AbsentGrows(s: seq<User>, u: User, away: set<User>)
    ensures Absent(s + [u], away) == Absent(s, away) + (if u in away then [u] else [])
  {
    assert (s + [u])[..|s|] == s;
  }

  /** Only present users of `s` are kept. */
  lemma {:induction false} PresentMembers(s: seq<User>, away: set<User>)
    ensures forall u :: u in Present(s, away) ==> u in s && u !in away
    decreases |s|
  {
    if |s| > 0 {
      var init := s[..|s| - 1];
      PresentMembers(init, away);
      assert forall u :: u in init ==> u in s;
    }
  }

  /** Present and away users together are the popped users, reordered. */
  lemma {:induction false} SplitIsPermutation(s: seq<User>, away: set<User>)
    ensures multiset(Present(s, away)) + multiset(Absent(s, away)) == multiset(s)
    decreases |s|
  {
    if |s| > 0 {
      var init, last := s[..|s| - 1], s[|s| - 1];
      SplitIsPermutation(init, away);
      MultisetOfLast(s);
      if last in away {
        assert Present(s, away) == Present(init, away);
        assert Absent(s, away) == Absent(init, away) + [last];
      } else {
        assert Present(s, away) == Present(init, away) + [last];
        assert Absent(s, away) == Absent(init, away);
      }
    }
  }

  lemma MultisetOfLast(s: seq<User>)
    requires |s| > 0
    ensures multiset(s) == multiset(s[..|s| - 1]) + multiset{s[|s| - 1]}
  {
    assert s == s[..|s| - 1] + [s[|s| - 1]];
  }

  /** The loop guard after `m` users were popped: more than one user is left
      counting the set-aside ones, the queue is not empty, and fewer than
      `count` artists were chosen. */
  predicate Continues(users: seq<User>, away: set<User>, count: int, m: nat)
    requires m <= |users|
  {
    (|users| - m) + |Absent(users[..m], away)| > 1
    && m < |users|
    && |Present(users[..m], away)| < count
  }

  /** The number of users the loop pops: the first `m` at which the guard fails. */
  function PopCount(users: seq<User>, away: set<User>, count: int, m: nat): (n: nat)
    requires m <= |users|
    requires forall i :: 0 <= i < m ==> Continues(users, away, count, i)
    ensures m <= n <= |users|
    ensures n > m ==> Continues(users, away, count, n - 1)
    ensures !Continues(users, away, count, n)
    decreases |users| - m
  {
    if Continues(users, away, count, m) then
      GuardExtends(users, away, count, m);
      PopCount(users, away, count, m + 1)
    else m
  }

  /** The guard held before step `m` and holds at `m`: it held before `m + 1`. */
  lemma GuardExtends(users: seq<User>, away: set<User>, count: int, m: nat)
    requires m < |users|
    requires forall i :: 0 <= i < m ==> Continues(users, away, count, i)
    requires Continues(users, away, count, m)
    ensures forall i :: 0 <= i < m + 1 ==> Continues(users, away, count, i)
  {
  }

  /** The loop pops users exactly while its guard holds. */
  lemma {:induction false} PopCountIsFirstStop(users: seq<User>, away: set<User>, count: int, m: nat)
    requires m <= |users|
    requires forall i :: 0 <= i < m ==> Continues(users, away, count, i)
    ensures forall i :: 0 <= i < PopCount(users, away, count, m) ==> Continues(users, away, count, i)
    decreases |users| - m
  {
    if Continues(users, away, count, m) {
      assert forall i :: 0 <= i < m + 1 ==> Continues(users, away, count, i);
      assert PopCount(users, away, count, m) == PopCount(users, away, count, m + 1);
      PopCountIsFirstStop(users, away, count, m + 1);
    }
  }

  datatype Choice = Choice(popped: nat, artists: seq<User>, roster: seq<User>)

  /** What the loop guard says about the state it stops in: no more than
      `count` artists were chosen, and unless the queue started with fewer
      than two users, at least one popped-away or unpopped user is left. */
  lemma StopFacts(users: seq<User>, away: set<User>, count: int, n: nat)
    requires n <= |users|
    requires n > 0 ==> Continues(users, away, count, n - 1)
    ensures |Present(users[..n], away)| <= (if count < 0 then 0 else count)
    ensures |users| >= 2 ==> |users| - n + |Absent(users[..n], away)| >= 1
  {
    if n > 0 {
      assert users[..n] == users[..n - 1] + [users[n - 1]];
      PresentGrows(users[..n - 1], users[n - 1], away);
      AbsentGrows(users[..n - 1], users[n - 1], away);
      assert Continues(users, away, count, n - 1);
    } else {
      assert users[..0] == [];
    }
  }

  /** The roster after popping `n` users is a reordering of the old one. */
  lemma RosterIsPermutation(users: seq<User>, away: set<User>, n: nat)
    requires n <= |users|
    ensures multiset(users[n..] + Absent(users[..n], away) + Present(users[..n], away)) == multiset(users)
  {
    var head, rest := users[..n], users[n..];
    SplitIsPermutation(head, away);
    assert users == head + rest;
  }

  /** The artists and the reordered roster of a new round: the roster is
      reordered, never changed in content; there are at most `count`
      artists; and a roster of two or more always keeps a non-artist. */
  function Choose(users: seq<User>, away: set<User>, count: int): (r: Choice)
    ensures r.popped <= |users|
    ensures multiset(r.roster) == multiset(users)
    ensures |r.artists| <= (if count < 0 then 0 else count)
    ensures |users| >= 2 ==> |r.roster| > |r.artists|
  {
    var n := PopCount(users, away, count, 0);
    var artists, benched := Present(users[..n], away), Absent(users[..n], away);
    RosterIsPermutation(users, away, n);
    StopFacts(users, away, count, n);
    Choice(n, artists, users[n..] + benched + artists)
  }

  /** The roster after the loop: the unpopped users, then those set aside,
      then the artists. */
  lemma ChosenShape(users: seq<User>, away: set<User>, count: int)
    ensures var r := Choose(users, away, count);
      (r.popped > 0 ==> Continues(users, away, count, r.popped - 1))
      && !Continues(users, away, count, r.popped)
      && r.popped == PopCount(users, away, count, 0)
      && r.artists == Present(users[..r.popped], away)
      && r.roster == users[r.popped..] + Absent(users[..r.popped], away) + r.artists
  {
  }

  /** The artists are the present users among those popped from the front,
      in queue order; they are never away; and they move to the back of the
      roster. */
  lemma ChosenArtists(users: seq<User>, away: set<User>, count: int)
    ensures var r := Choose(users, away, count);
      r.artists == Present(users[..r.popped], away)
      && (forall a :: a in r.artists ==> a in users && a !in away)
      && |r.artists| <= |r.roster| && r.roster[|r.roster| - |r.artists|..] == r.artists
  {
    var r := Choose(users, away, count);
    var head := users[..r.popped];
    ChosenShape(users, away, count);
    PresentMembers(head, away);
    assert forall a :: a in head ==> a in users;
    assert r.roster[|r.roster| - |r.artists|..] == r.artists;
  }

  /** With nobody away and one artist per round, the front user draws and
      moves to the back of the queue. */
  lemma RotatesOneStep(users: seq<User>)
    requires |users| >= 2
    ensures Choose(users, {}, 1).artists == [users[0]]
    ensures Choose(users, {}, 1).roster == users[1..] + [users[0]]
  {
    var r := Choose(users, {}, 1);
    ChosenShape(users, {}, 1);
    PopsOnce(users);
    assert users[..1] == [] + [users[0]];
    PresentGrows([], users[0], {});
    AbsentGrows([], users[0], {});
    assert r.roster == users[1..] + [] + [users[0]];
  }

  /** The roster after `k` rounds of one artist each with nobody away, and
      the artists of those rounds in order. */
  datatype Rotation = Rotation(roster: seq<User>, drawn: seq<User>)

  function Rotate(users: seq<User>, k: nat): (r: Rotation)
    ensures |r.drawn| <= k
    decreases k
  {
    if k == 0 then Rotation(users, [])
    else
      var c := Choose(users, {}, 1);
      var after := Rotate(c.roster, k - 1);
      Rotation(after.roster, c.artists + after.drawn)
  }

  /** Over `k <= |users|` rounds with a stable roster and nobody away, the
      first `k` users draw in queue order and move to the back. */
  lemma {:induction false} RotationDrawsEachInTurn(users: seq<User>, k: nat)
    requires |users| >= 2 && k <= |users|
    ensures Rotate(users, k).drawn == users[..k]
    ensures Rotate(users, k).roster == users[k..] + users[..k]
    decreases k
  {
    if k == 0 {
      assert users[..0] == [] && users[0..] == users;
    } else {
      var next := users[1..] + [users[0]];
      RotatedSlices(users, k);
      RotateFirstRound(users, k);
      RotationDrawsEachInTurn(next, k - 1);
    }
  }

  /** After |users| such rounds everyone has drawn exactly once, in queue
      order, and the queue is back where it started. */
  lemma FullRotation(users: seq<User>)
    requires |users| >= 2
    ensures Rotate(users, |users|).drawn == users && Rotate(users, |users|).roster == users
  {
    RotationDrawsEachInTurn(users, |users|);
    assert users[..|users|] == users && users[|users|..] == [];
  }

  /** The first of `k` rounds draws the front user and moves it to the back. */
  lemma RotateFirstRound(users: seq<User>, k: nat)
    requires |users| >= 2 && k > 0
    ensures var after := Rotate(users[1..] + [users[0]], k - 1);
      Rotate(users, k) == Rotation(after.roster, [users[0]] + after.drawn)
  {
    RotatesOneStep(users);
  }

  /** One round moves the front user to the back; `k - 1` more rounds then
      move the next `k - 1`. */
  lemma RotatedSlices(users: seq<User>, k: nat)
    requires 0 < k <= |users|
    ensures var next := users[1..] + [users[0]];
      [users[0]] + next[..k - 1] == users[..k]
      && next[k - 1..] + next[..k - 1] == users[k..] + users[..k]
  {
    var next := users[1..] + [users[0]];
    assert next[..k - 1] == users[1..k];
    assert next[k - 1..] == users[k..] + [users[0]];
    assert users[..k] == [users[0]] + users[1..k];
  }

  /** Such a queue is popped once. */
  lemma PopsOnce(users: seq<User>)
    requires |users| >= 2
    ensures PopCount(users, {}, 1, 0) == 1
  {
    assert users[..0] == [];
    assert Continues(users, {}, 1, 0);
    assert users[..1] == [] + [users[0]];
    PresentGrows([], users[0], {});
    AbsentGrows([], users[0], {});
    assert !Continues(users, {}, 1, 1);
    assert PopCount(users, {}, 1, 1) == 1;
  }

  /** An away user at the front is set aside and the next present user draws
      instead; the away user keeps its place ahead of the artist. */
  lemma SkipsAwayUser(users: seq<User>, away: set<User>)
    requires |users| >= 3 && users[0] in away && users[1] !in away
    ensures Choose(users, away, 1).artists == [users[1]]
    ensures Choose(users, away, 1).roster == users[2..] + [users[0], users[1]]
  {
    var r := Choose(users, away, 1);
    ChosenShape(users, away, 1);
    PopsPastAwayUser(users, away);
    assert users[..2] == [users[0]] + [users[1]];
    PresentGrows([users[0]], users[1], away);
    AbsentGrows([users[0]], users[1], away);
  }

  /** Such a queue is popped twice. */
  lemma PopsPastAwayUser(users: seq<User>, away: set<User>)
    requires |users| >= 3 && users[0] in away && users[1] !in away
    ensures PopCount(users, away, 1, 0) == 2
  {
    assert users[..0] == [];
    assert Continues(users, away, 1, 0);
    assert users[..1] == [] + [users[0]];
    PresentGrows([], users[0], away);
    AbsentGrows([], users[0], away);
    assert Continues(users, away, 1, 1);
    assert users[..2] == [users[0]] + [users[1]];
    PresentGrows([users[0]], users[1], away);
    AbsentGrows([users[0]], users[1], away);
    assert !Continues(users, away, 1, 2);
    assert PopCount(users, away, 1, 2) == 2;
    assert PopCount(users, away, 1, 1) == 2;
  }

  /** When every user is away nobody is chosen to draw. */
  lemma NoArtistWhenAllAway(users: seq<User>, away: set<User>, count: int)
    requires forall i :: 0 <= i < |users| ==> users[i] in away
    ensures Choose(users, away, count).artists == []
  {
    var r := Choose(users, away, count);
    ChosenShape(users, away, count);
    NobodyPresent(users[..r.popped], away);
  }

  lemma {:induction false} NobodyPresent(s: seq<User>, away: set<User>)
    requires forall i :: 0 <= i < |s| ==> s[i] in away
    ensures Present(s, away) == []
    decreases |s|
  {
    if |s| > 0 {
      NobodyPresent(s[..|s| - 1], away);
    }
  }
}
