/** A room's chat history (`MessageLog` in pysketch/game.py and pysketchd.py):
    a deque that keeps only the most recent entries. */
module Chat {

  /** `MessageLog.BACKLOG`, the deque's `maxlen`. */
  const Backlog: nat := 10

  /** One chat entry: its type, text and, when the sender's name is a
      non-empty string, that name. */
  datatype Entry = Entry(kind: string, msg: string, name: string)
  {
    predicate HasName() { name != "" }
  }

  /** `{'type': ..., 'msg': ...}` plus `name` only when it is truthy. */
  function MakeEntry(kind: string, msg: string, name: string): (e: Entry)
    ensures e.kind == kind && e.msg == msg
    ensures e.HasName() <==> name != ""
    ensures e.HasName() ==> e.name == name
  {
    Entry(kind, msg, name)
  }

  /** The log never holds more than the backlog. */
  predicate Valid(log: seq<Entry>) {
    |log| <= Backlog
  }

  /** `append`: the new entry goes last and the oldest falls out once the
      log is full. */
  function Append(log: seq<Entry>, e: Entry): (r: seq<Entry>)
    requires Valid(log)
    ensures Valid(r)
    ensures |r| == if |log| < Backlog then |log| + 1 else Backlog
  {
    if |log| < Backlog then log + [e] else log[1..] + [e]
  }

  /** The appended entry is the newest; before it come the log's entries,
      less the oldest one when the log was full. */
  lemma AppendShape(log: seq<Entry>, e: Entry)
    requires Valid(log)
    ensures var r := Append(log, e);
      |r| > 0 && r[|r| - 1] == e && r[..|r| - 1] == log[|log| + 1 - |r|..]
  {
  }

  /** The last `n` entries of `s` (all of them when there are fewer). */
  function LastN(s: seq<Entry>, n: nat): (r: seq<Entry>)
    ensures |r| == if |s| < n then |s| else n
  {
    if |s| <= n then s else s[|s| - n..]
  }

  function AppendAll(log: seq<Entry>, es: seq<Entry>): (r: seq<Entry>)
    requires Valid(log)
    ensures Valid(r)
    decreases |es|
  {
    if |es| == 0 then log else AppendAll(Append(log, es[0]), es[1..])
  }

  /** After any run of appends the log is exactly the ten most recent entries
      of everything appended, oldest first. */
  lemma {:induction false} AppendAllKeepsMostRecent(log: seq<Entry>, es: seq<Entry>)
    requires Valid(log)
    ensures AppendAll(log, es) == LastN(log + es, Backlog)
    decreases |es|
  {
    if |es| > 0 {
      var l1 := Append(log, es[0]);
      assert AppendAll(log, es) == AppendAll(l1, es[1..]);
      AppendAllKeepsMostRecent(l1, es[1..]);
      AppendThenMore(log, es[0], es[1..]);
      assert log + [es[0]] + es[1..] == log + es by {
        assert es == [es[0]] + es[1..];
      }
    }
  }

  /** Appending one entry and then cutting after more is cutting once. */
  lemma AppendThenMore(log: seq<Entry>, e: Entry, rest: seq<Entry>)
    requires Valid(log)
    ensures LastN(Append(log, e) + rest, Backlog) == LastN(log + [e] + rest, Backlog)
  {
    AppendIsLastN(log, e);
    LastNAppend(log + [e], rest);
  }

  /** One append keeps the last ten of the log extended by the entry. */
  lemma AppendIsLastN(log: seq<Entry>, e: Entry)
    requires Valid(log)
    ensures Append(log, e) == LastN(log + [e], Backlog)
  {
    if |log| == Backlog {
      assert (log + [e])[1..] == log[1..] + [e];
    }
  }

  /** Cutting to the last ten first and again after appending more is the
      same as cutting once at the end. */
  lemma LastNAppend(s: seq<Entry>, t: seq<Entry>)
    ensures LastN(LastN(s, Backlog) + t, Backlog) == LastN(s + t, Backlog)
  {
    var a := LastN(s, Backlog);
    var x := LastN(a + t, Backlog);
    var y := LastN(s + t, Backlog);
    assert |x| == |y|;
    forall i | 0 <= i < |x| ensures x[i] == y[i] {
      var off := |a + t| - |x|;
      if off + i < |a| {
        assert x[i] == a[off + i] == s[|s| - |a| + off + i];
        assert y[i] == (s + t)[|s + t| - |y| + i];
      } else {
        assert x[i] == t[off + i - |a|];
      }
    }
  }
}
