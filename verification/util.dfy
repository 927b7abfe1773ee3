/** Hint redaction, phrase choice and word-list loading (pysketch/util.py). */
module Util {
  import opened Text
  import opened Outcomes

  /** One segment of a hint: its first `len` characters, then one filler
      character for every character of the WHOLE phrase beyond `len`. */
  function Mask(w: string, len: int, total: int): string {
    SlicePrefix(w, len) + Repeat('_', total - len)
  }

  /** `create_hint(phrase, reveal_length)`: the phrase is cut at every literal
      space-plus, every segment is masked against the phrase's full length,
      and the segments are joined with single spaces. */
  function CreateHint(phrase: string, len: int): string {
    JoinWith(MaskAll(SplitPlus(phrase), len, |phrase|), " ")
  }

  /** Every part masked against the same total length. */
  function MaskAll(parts: seq<string>, len: int, total: int): (r: seq<string>)
    ensures |r| == |parts|
    ensures forall k :: 0 <= k < |parts| ==> r[k] == Mask(parts[k], len, total)
  {
    seq(|parts|, k requires 0 <= k < |parts| => Mask(parts[k], len, total))
  }

  /** What a masked segment looks like: the revealed prefix of the segment,
      then only filler, as much of it as the phrase has characters past the
      reveal length. */
  lemma MaskShape(w: string, len: nat, total: int)
    ensures var m := Mask(w, len, total);
      var shown := if len <= |w| then len else |w|;
      && |m| == shown + (if total <= len then 0 else total - len)
      && m[..shown] == w[..shown]
      && forall i :: shown <= i < |m| ==> m[i] == '_'
  {
    var shown := if len <= |w| then len else |w|;
    var m := Mask(w, len, total);
    assert m[..shown] == SlicePrefix(w, len);
  }

  /** The general shape of a hint: one masked segment per space-plus
      separated part of the phrase, joined by single spaces. */
  lemma HintSegments(phrase: string, len: nat)
    ensures var parts := SplitPlus(phrase);
      exists masked: seq<string> ::
        && |masked| == |parts|
        && CreateHint(phrase, len) == JoinWith(masked, " ")
        && forall k :: 0 <= k < |parts| ==>
             var shown := if len <= |parts[k]| then len else |parts[k]|;
             && |masked[k]| == shown + (if |phrase| <= len then 0 else |phrase| - len)
             && masked[k][..shown] == parts[k][..shown]
             && (forall i :: shown <= i < |masked[k]| ==> masked[k][i] == '_')
  {
    var parts := SplitPlus(phrase);
    var masked := MaskAll(parts, len, |phrase|);
    forall k | 0 <= k < |parts|
      ensures var shown := if len <= |parts[k]| then len else |parts[k]|;
             && |masked[k]| == shown + (if |phrase| <= len then 0 else |phrase| - len)
             && masked[k][..shown] == parts[k][..shown]
             && (forall i :: shown <= i < |masked[k]| ==> masked[k][i] == '_')
    {
      MaskShape(parts[k], len, |phrase|);
    }
    assert CreateHint(phrase, len) == JoinWith(masked, " ");
  }

  /** For a phrase without the separator the hint is the first `len`
      characters followed by filler up to the phrase's length. */
  lemma HintSimpleShape(phrase: string, len: nat)
    requires !HasPlusSeparator(phrase)
    requires len <= |phrase|
    ensures CreateHint(phrase, len) == phrase[..len] + Repeat('_', |phrase| - len)
    ensures |CreateHint(phrase, len)| == |phrase|
  {
    SplitPlusSingle(phrase);
  }

  /** For a phrase without the separator, a reveal length at or past its end
      shows the whole phrase: the filler count is not positive. */
  lemma HintSaturates(phrase: string, len: int)
    requires !HasPlusSeparator(phrase)
    requires len >= |phrase|
    ensures CreateHint(phrase, len) == phrase
  {
    SplitPlusSingle(phrase);
  }

  /** Raising the reveal length by one uncovers exactly one more character and
      changes nothing else: the revealed prefix only grows. */
  lemma HintMonotone(phrase: string, len: nat)
    requires !HasPlusSeparator(phrase)
    requires len < |phrase|
    ensures var h, h' := CreateHint(phrase, len), CreateHint(phrase, len + 1);
      && |h| == |h'| == |phrase|
      && h[len] == '_' && h'[len] == phrase[len]
      && (forall i :: 0 <= i < |phrase| && i != len ==> h'[i] == h[i])
      && (forall i :: 0 <= i < |phrase| && h[i] == phrase[i] ==> h'[i] == phrase[i])
  {
    HintSimpleShape(phrase, len);
    HintSimpleShape(phrase, len + 1);
  }

  /** A phrase of two separator-free pieces joined by space-plus gives two
      masked segments joined by one space, each padded against the length
      of the WHOLE phrase rather than its own. */
  lemma HintOfTwoSegments(a: string, b: string, len: int)
    requires !HasPlusSeparator(a) && !HasPlusSeparator(b)
    ensures var total := |a| + 2 + |b|;
      CreateHint(a + " +" + b, len) == Mask(a, len, total) + " " + Mask(b, len, total)
  {
    var phrase := a + " +" + b;
    assert SplitPlus(phrase) == [a, b] by {
      SplitPlusCons(a, b);
      SplitPlusSingle(b);
      assert [a] + [b] == [a, b];
    }
    HintOfTwoParts(phrase, len, a, b, |a| + 2 + |b|);
  }

  /** A phrase that splits into two parts hints as their two masks. */
  lemma HintOfTwoParts(phrase: string, len: int, x: string, y: string, total: int)
    requires SplitPlus(phrase) == [x, y] && total == |phrase|
    ensures CreateHint(phrase, len) == Mask(x, len, total) + " " + Mask(y, len, total)
  {
    var masked := MaskAll([x, y], len, |phrase|);
    assert masked == [Mask(x, len, |phrase|), Mask(y, len, |phrase|)];
    JoinTwo(masked[0], masked[1], " ");
  }

  lemma JoinTwo(x: string, y: string, sep: string)
    ensures JoinWith([x, y], sep) == x + sep + y
  {
    assert [x, y][1..] == [y];
  }

  datatype WordList = WordList(name: string, words: seq<string>)

  datatype EmptyList = EmptyList

  /** `PhraseChooser.next`: `random.choice` over the list; the random draw is
      the supplied `pick`. On an empty list `random.choice` raises. */
  function NextPhrase(list: WordList, pick: nat): (r: Result<string, EmptyList>)
    ensures r.Err? <==> |list.words| == 0
    ensures r.Ok? ==> r.value in list.words
  {
    if |list.words| == 0 then Err(EmptyList) else Ok(list.words[pick % |list.words|])
  }

  /** Every word of the list is a possible choice. */
  lemma EveryWordCanBeChosen(list: WordList, w: string)
    requires w in list.words
    ensures exists pick: nat :: NextPhrase(list, pick) == Ok(w)
  {
    var k :| 0 <= k < |list.words| && list.words[k] == w;
    ModSmall(k, |list.words|);
    assert NextPhrase(list, k) == Ok(w);
  }

  lemma ModSmall(k: nat, n: nat)
    requires k < n
    ensures k % n == k
  {
  }

  /** Characters allowed by `VALID_FILENAME_PATTERN`. */
  predicate ListNameChar(c: char) {
    ('A' <= c <= 'Z') || ('a' <= c <= 'z') || ('0' <= c <= '9')
    || c == '-' || c == '_' || c == ' ' || c == '\''
  }

  /** `re.match` of `^[...]{1,50}` as written: some prefix of 1 to 50
      characters consists of allowed characters; nothing anchors the end. */
  predicate MatchesListNamePattern(name: string) {
    exists k | 1 <= k <= 50 && k <= |name| :: ListNamePrefix(name, k)
  }

  /** The first `k` characters of `name` are all allowed. */
  predicate ListNamePrefix(name: string, k: nat)
    requires k <= |name|
  {
    forall i | 0 <= i < k :: ListNameChar(name[i])
  }

  /** With no end anchor the pattern only checks the first character. */
  lemma ListNamePatternChecksFirstCharOnly(name: string)
    ensures MatchesListNamePattern(name) <==> |name| >= 1 && ListNameChar(name[0])
  {
    if |name| >= 1 && ListNameChar(name[0]) {
      assert ListNamePrefix(name, 1);
    }
    if MatchesListNamePattern(name) {
      var k :| 1 <= k <= 50 && k <= |name| && ListNamePrefix(name, k);
      assert ListNameChar(name[0]);
    }
  }

  /** `f` applied to every string of `ss`. */
  function Each(f: string -> string, ss: seq<string>): (r: seq<string>)
    ensures |r| == |ss|
    ensures forall i :: 0 <= i < |ss| ==> r[i] == f(ss[i])
  {
    seq(|ss|, i requires 0 <= i < |ss| => f(ss[i]))
  }

  lemma EachAppend(f: string -> string, a: seq<string>, b: seq<string>)
    ensures Each(f, a + b) == Each(f, a) + Each(f, b)
  {
    assert forall i :: 0 <= i < |a + b| ==> Each(f, a + b)[i] == (Each(f, a) + Each(f, b))[i];
  }

  /** Every line stripped. */
  function StripAll(lines: seq<string>): (r: seq<string>)
    ensures |r| == |lines|
    ensures forall i :: 0 <= i < |lines| ==> r[i] == Strip(lines[i])
  {
    Each(Strip, lines)
  }

  /** The non-empty strings of `ws`, in order. */
  function NonEmpty(ws: seq<string>): (r: seq<string>)
    ensures |r| <= |ws|
  {
    if |ws| == 0 then [] else (if ws[0] == "" then [] else [ws[0]]) + NonEmpty(ws[1..])
  }

  /** The stripped, non-empty lines of a word-list file, in file order. */
  function KeepWords(lines: seq<string>): (words: seq<string>)
    ensures |words| <= |lines|
  {
    NonEmpty(StripAll(lines))
  }

  /** Stripping twice is stripping once. */
  lemma StripIdempotent(s: string)
    ensures Strip(Strip(s)) == Strip(s)
  {
    var r := Strip(s);
    assert TrimStart(r) == r;
    assert TrimEnd(r) == r;
  }

  /** Dropping the empty strings keeps exactly the non-empty members. */
  lemma {:induction false} NonEmptyMembers(ws: seq<string>)
    ensures forall w :: w in NonEmpty(ws) <==> w != "" && w in ws
  {
    if |ws| > 0 {
      NonEmptyMembers(ws[1..]);
      assert ws == [ws[0]] + ws[1..];
    }
  }

  /** Dropping the empty strings commutes with concatenation. */
  lemma {:induction false} NonEmptyAppend(a: seq<string>, b: seq<string>)
    ensures NonEmpty(a + b) == NonEmpty(a) + NonEmpty(b)
  {
    if |a| == 0 {
      assert a + b == b;
    } else {
      assert (a + b)[1..] == a[1..] + b;
      NonEmptyAppend(a[1..], b);
    }
  }

  /** Every kept word is non-empty and already stripped. */
  lemma KeptWordsAreClean(lines: seq<string>)
    ensures forall w :: w in KeepWords(lines) ==> w != "" && Strip(w) == w
  {
    NonEmptyMembers(StripAll(lines));
    forall w | w in KeepWords(lines) ensures w != "" && Strip(w) == w {
      var k :| 0 <= k < |lines| && StripAll(lines)[k] == w;
      StripIdempotent(lines[k]);
    }
  }

  /** Filtering a file split in two gives the words of the first half
      followed by those of the second: order is kept. */
  lemma KeepWordsAppend(a: seq<string>, b: seq<string>)
    ensures KeepWords(a + b) == KeepWords(a) + KeepWords(b)
  {
    EachAppend(Strip, a, b);
    NonEmptyAppend(StripAll(a), StripAll(b));
  }

  /** A word is kept exactly when some line strips to it and it is not empty. */
  lemma KeepWordsMembership(lines: seq<string>, w: string)
    ensures w in KeepWords(lines) <==> w != "" && exists k :: 0 <= k < |lines| && Strip(lines[k]) == w
  {
    NonEmptyMembers(StripAll(lines));
    if exists k :: 0 <= k < |lines| && Strip(lines[k]) == w {
      var k :| 0 <= k < |lines| && Strip(lines[k]) == w;
      assert StripAll(lines)[k] == w;
    }
  }

  datatype UnknownWordList = UnknownWordList

  /** `DirectoryWordLists.get`: the directory is given as a map from file name
      to that file's lines. A name that fails the pattern, or whose
      `<name>.txt` file is absent, is an unknown list. */
  function GetWordList(files: map<string, seq<string>>, name: string): (r: Result<WordList, UnknownWordList>)
    ensures r.Ok? <==> MatchesListNamePattern(name) && name + ".txt" in files
    ensures r.Ok? ==> r.value.name == name && r.value.words == KeepWords(files[name + ".txt"])
  {
    if MatchesListNamePattern(name) && name + ".txt" in files then
      Ok(WordList(name, KeepWords(files[name + ".txt"])))
    else Err(UnknownWordList)
  }

  /** What a `PhraseChooser` was built over: a `WordList`, as game.py builds
      it, or a bare list of words, as pysketchd.py:538-543 passes its
      stripped lines of words.txt. */
  datatype ChooserInput = OverWordList(list: WordList) | OverBareList(words: seq<string>)

  /** What `PhraseChooser.next` raises: `IndexError` from `random.choice` on
      an empty list, or `AttributeError` from reading `words` off a bare
      list. */
  datatype ChooseError = IndexError | AttributeError

  /** `PhraseChooser.next` over either kind of input. */
  function Next(input: ChooserInput, pick: nat): (r: Result<string, ChooseError>)
    ensures r == Err(AttributeError) <==> input.OverBareList?
    ensures r == Err(IndexError) <==> input.OverWordList? && |input.list.words| == 0
    ensures r.Ok? ==> input.OverWordList? && r.value in input.list.words
  {
    match input
    case OverBareList(_) => Err(AttributeError)
    case OverWordList(list) =>
      match NextPhrase(list, pick)
      case Ok(p) => Ok(p)
      case Err(_) => Err(IndexError)
  }

  /** A phrase drawn from a list the directory loader built is never empty
      and has no surrounding white space, so it never matches every
      message. */
  lemma LoadedPhraseIsClean(files: map<string, seq<string>>, name: string, pick: nat)
    requires GetWordList(files, name).Ok?
    requires Next(OverWordList(GetWordList(files, name).value), pick).Ok?
    ensures var p := Next(OverWordList(GetWordList(files, name).value), pick).value;
      p != "" && Strip(p) == p
  {
    KeptWordsAreClean(files[name + ".txt"]);
  }

  /** A name with a path separator after a valid first character still
      passes the name check, because the pattern has no end anchor. */
  lemma PatternAdmitsPathSeparator(c: char, rest: string)
    requires ListNameChar(c)
    ensures MatchesListNamePattern([c] + "/../" + rest)
  {
    ListNamePatternChecksFirstCharOnly([c] + "/../" + rest);
  }
}
