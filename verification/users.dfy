/** Logged-in users. Python compares user objects by identity, and every
    login makes a new object, so a user here carries the serial number of
    the login that made it next to its session id and name: two logins are
    two users even with the same session and name. */
module Users {

  type Sid = nat

  datatype User = User(sid: Sid, name: string, serial: nat)

  /** No user occurs twice. */
  predicate Distinct(us: seq<User>) {
    forall i, j :: 0 <= i < j < |us| ==> us[i] != us[j]
  }

  /** `list.remove(u)`: the first occurrence of `u` is dropped; a list
      without `u` is returned as it is. */
  function Remove(us: seq<User>, u: User): (r: seq<User>)
    ensures u !in us ==> r == us
    ensures multiset(r) == multiset(us) - multiset{u}
  {
    if |us| == 0 then []
    else if us[0] == u then
      assert us == [u] + us[1..];
      us[1..]
    else
      assert us == [us[0]] + us[1..];
      [us[0]] + Remove(us[1..], u)
  }

  /** `list.remove` takes out the first occurrence of `u` and keeps every
      other user in order. */
  lemma {:induction false} RemoveFirstOccurrence(us: seq<User>, u: User)
    requires u in us
    ensures Remove(us, u) == us[..IndexOf(us, u)] + us[IndexOf(us, u) + 1..]
    decreases |us|
  {
    if us[0] == u {
      assert us[..0] == [];
    } else {
      assert u in us[1..] by {
        var k :| 0 <= k < |us| && us[k] == u;
        assert us[1..][k - 1] == u;
      }
      RemoveFirstOccurrence(us[1..], u);
      RemoveStep(us, u, Remove(us[1..], u));
    }
  }

  /** Putting back a head that is not `u` in front of the tail with `u`
      removed removes `u` from the whole list. */
  lemma RemoveStep(us: seq<User>, u: User, rest: seq<User>)
    requires u in us && us[0] != u
    requires rest == us[1..][..IndexOf(us[1..], u)] + us[1..][IndexOf(us[1..], u) + 1..]
    ensures [us[0]] + rest == us[..IndexOf(us, u)] + us[IndexOf(us, u) + 1..]
  {
    var i := IndexOf(us[1..], u);
    assert IndexOf(us, u) == i + 1;
    assert us[..i + 1] == [us[0]] + us[1..][..i];
    assert us[i + 2..] == us[1..][i + 1..];
  }

  /** Where `u` first occurs in `us`, as `list.index` finds it. */
  function IndexOf(us: seq<User>, u: User): (i: nat)
    requires u in us
    ensures i < |us| && us[i] == u && u !in us[..i]
  {
    if us[0] == u then 0
    else
      var i := IndexOf(us[1..], u) + 1;
      assert us[..i] == [us[0]] + us[1..][..i - 1];
      i
  }

  /** Removing from a list without repeats removes the user entirely. */
  lemma RemoveFromDistinct(us: seq<User>, u: User)
    requires Distinct(us)
    ensures Distinct(Remove(us, u)) && u !in Remove(us, u)
  {
    var r := Remove(us, u);
    DistinctIffSingleOccurrences(us);
    DistinctIffSingleOccurrences(r);
    assert multiset(r)[u] == 0;
  }

  function Names(us: seq<User>): (r: seq<string>)
    ensures |r| == |us|
    ensures forall i :: 0 <= i < |us| ==> r[i] == us[i].name
  {
    seq(|us|, i requires 0 <= i < |us| => us[i].name)
  }

  /** A list without repeats is one whose every element occurs once. */
  lemma DistinctIffSingleOccurrences(us: seq<User>)
    ensures Distinct(us) <==> forall u :: multiset(us)[u] <= 1
  {
    if Distinct(us) {
      DistinctCountsOnce(us);
    } else {
      var i, j :| 0 <= i < j < |us| && us[i] == us[j];
      RepeatCountsTwice(us, i, j);
    }
  }

  lemma {:induction false} DistinctCountsOnce(us: seq<User>)
    requires Distinct(us)
    ensures forall u :: multiset(us)[u] <= 1
    decreases |us|
  {
    if |us| > 0 {
      var t := us[1..];
      assert us == [us[0]] + t;
      DistinctCountsOnce(t);
      forall j | 0 <= j < |t| ensures t[j] != us[0] {
        assert t[j] == us[j + 1];
      }
    }
  }

  /** An element at two positions occurs at least twice. */
  lemma RepeatCountsTwice(us: seq<User>, i: nat, j: nat)
    requires i < j < |us| && us[i] == us[j]
    ensures multiset(us)[us[i]] >= 2
  {
    assert us == us[..j] + us[j..];
    assert us[..j][i] == us[i];
    assert us[j..][0] == us[j];
  }

  /** Reordering a list without repeats keeps it without repeats. */
  lemma PermutationKeepsDistinct(a: seq<User>, b: seq<User>)
    requires multiset(a) == multiset(b) && Distinct(a)
    ensures Distinct(b)
  {
    DistinctIffSingleOccurrences(a);
    DistinctIffSingleOccurrences(b);
  }
}
