/** A room's score table, a `collections.defaultdict(lambda: 0)` keyed by
    user name (pysketch/game.py). Reading a missing name yields 0 and, being
    a defaultdict read, also inserts the name; the key set matters because
    the final score board lists every key. */
module Scores {
  import opened Users

  type Table = map<string, int>

  /** `scores[name]` as a value. */
  function Get(t: Table, name: string): int {
    if name in t then t[name] else 0
  }

  /** `scores[name]` for its side effect: the name becomes a key. */
  function Touch(t: Table, name: string): (r: Table)
    ensures r.Keys == t.Keys + {name}
    ensures forall n :: Get(r, n) == Get(t, n)
  {
    if name in t then t else t[name := 0]
  }

  /** `scores[name] += delta`. */
  function Add(t: Table, name: string, delta: int): (r: Table)
    ensures r.Keys == t.Keys + {name}
    ensures Get(r, name) == Get(t, name) + delta
    ensures forall n :: n != name ==> Get(r, n) == Get(t, n)
  {
    t[name := Get(t, name) + delta]
  }

  /** How many users of `us` carry the name `n`. */
  function NameCount(us: seq<User>, n: string): (c: nat)
    ensures c <= |us|
  {
    if |us| == 0 then 0 else (if us[0].name == n then 1 else 0) + NameCount(us[1..], n)
  }

  /** A name counts zero times exactly when no user carries it. */
  lemma {:induction false} NameCountZero(us: seq<User>, n: string)
    ensures NameCount(us, n) == 0 <==> forall i :: 0 <= i < |us| ==> us[i].name != n
    decreases |us|
  {
    if |us| > 0 {
      NameCountZero(us[1..], n);
      assert forall i :: 0 < i < |us| ==> us[i] == us[1..][i - 1];
    }
  }

  /** The names of `us` as a set. */
  function NameSet(us: seq<User>): set<string> {
    set i | 0 <= i < |us| :: us[i].name
  }

  /** `for u in us: scores[u.name] += delta`: every user's name gains
      `delta` once per occurrence; no other name changes. */
  function AddEach(t: Table, us: seq<User>, delta: int): (r: Table)
    ensures r.Keys == t.Keys + NameSet(us)
    ensures forall n :: Get(r, n) == Get(t, n) + delta * NameCount(us, n)
    decreases |us|
  {
    if |us| == 0 then t
    else
      var t1 := Add(t, us[0].name, delta);
      var r := AddEach(t1, us[1..], delta);
      forall n ensures Get(r, n) == Get(t, n) + delta * NameCount(us, n) {
        Distribute(delta, if us[0].name == n then 1 else 0, NameCount(us[1..], n));
      }
      NameSetCons(us);
      r
  }

  lemma NameSetCons(us: seq<User>)
    requires |us| > 0
    ensures NameSet(us) == {us[0].name} + NameSet(us[1..])
  {
    assert forall i :: 0 < i < |us| ==> us[i].name == us[1..][i - 1].name;
    assert forall j :: 0 <= j < |us| - 1 ==> us[1..][j].name == us[j + 1].name;
  }

  lemma Distribute(a: int, b: int, c: int)
    ensures a * (b + c) == a * b + a * c
  {
  }
  /** `scores[u.name]` read for each user: every name becomes a key, no
      value changes. */
  function TouchEach(t: Table, us: seq<User>): (r: Table)
    ensures r.Keys == t.Keys + NameSet(us)
    ensures forall n :: Get(r, n) == Get(t, n)
    decreases |us|
  {
    if |us| == 0 then t
    else
      var r := TouchEach(Touch(t, us[0].name), us[1..]);
      NameSetCons(us);
      r
  }

  /** Points every artist gets for the guesser who finds the word when `k`
      players already had: 10 for the first, 1 each for the next five. */
  function ArtistBonus(k: nat): (p: int)
    ensures 0 <= p <= 10
    ensures p == 10 <==> k == 0
    ensures p == 0 <==> k >= 6
    ensures 1 <= k < 6 ==> p == 1
  {
    if k == 0 then 10 else if k < 6 then 1 else 0
  }

  /** Points the guesser gets when `k` players guessed before: 10, 9, 8, ...
      down to a floor of 5. */
  function GuesserAward(k: nat): (p: int)
    ensures 5 <= p <= 10
    ensures p + k == 10 || (p == 5 && k >= 5)
  {
    if 10 - k > 5 then 10 - k else 5
  }

  /** What an artist collects from the first `n` correct guesses of a round. */
  function ArtistTotal(n: nat): int {
    if n == 0 then 0 else ArtistTotal(n - 1) + ArtistBonus(n - 1)
  }

  /** An artist earns 10 for the first guesser, 1 for each of the next five,
      and nothing after: never more than 15 in a round. */
  lemma {:induction false} ArtistTotalCapped(n: nat)
    ensures ArtistTotal(n) == if n == 0 then 0 else if n <= 6 then 9 + n else 15
  {
    if n > 0 {
      ArtistTotalCapped(n - 1);
    }
  }

  /** What the first `n` guessers of a round collect together. */
  function GuessersTotal(n: nat): int {
    if n == 0 then 0 else GuessersTotal(n - 1) + GuesserAward(n - 1)
  }

  /** The first five guessers earn 10 + 9 + 8 + 7 + 6 = 40; every later one 5. */
  lemma {:induction false} GuessersTotalClosedForm(n: nat)
    ensures GuessersTotal(n) == if n <= 5 then n * (21 - n) / 2 else 40 + 5 * (n - 5)
  {
    if n > 0 {
      GuessersTotalClosedForm(n - 1);
    }
  }
}
