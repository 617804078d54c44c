/** The Python string operations the chapter analyzer relies on: the
    whitespace test behind `str.split()` and `str.rstrip()`, the word
    characters behind the regular-expression class `\w`, and iteration over
    the lines of a text file. */
module PyText {

  /** `str.isspace()` for one character: Python's whitespace set. */
  predicate IsSpace(c: char)
  {
    ('\t' <= c <= '\r') || ('\U{1C}' <= c <= '\U{1F}') || c == ' ' ||
    c == '\U{85}' || c == '\U{A0}' || c == '\U{1680}' ||
    ('\U{2000}' <= c <= '\U{200A}') || c == '\U{2028}' || c == '\U{2029}' ||
    c == '\U{202F}' || c == '\U{205F}' || c == '\U{3000}'
  }

  /** A character matched by `\w` within Latin-1: the underscore and the
      characters for which `str.isalnum()` holds (letters, digits, and the
      superscripts and fractions Python counts as numeric). */
  predicate IsWordChar(c: char)
  {
    ('a' <= c <= 'z') || ('A' <= c <= 'Z') || ('0' <= c <= '9') || c == '_' ||
    c == '\U{AA}' || c == '\U{B2}' || c == '\U{B3}' || c == '\U{B5}' ||
    c == '\U{B9}' || c == '\U{BA}' || ('\U{BC}' <= c <= '\U{BE}') ||
    ('\U{C0}' <= c <= '\U{FF}' && c != '\U{D7}' && c != '\U{F7}')
  }

  predicate StartsWith(s: string, prefix: string)
  {
    |prefix| <= |s| && s[..|prefix|] == prefix
  }

  /** `s.rstrip()`: the longest prefix of `s` that does not end in
      whitespace; everything cut off is whitespace. */
  function RStrip(s: string): (r: string)
    ensures |r| <= |s| && r == s[..|r|]
    ensures r == [] || !IsSpace(r[|r| - 1])
    ensures forall i | |r| <= i < |s| :: IsSpace(s[i])
  {
    if s != [] && IsSpace(s[|s| - 1]) then RStrip(s[..|s| - 1]) else s
  }

  // ---------------------------------------------------------------------
  // `str.split()` with no argument, and the word count `len(s.split())`.

  /** The length of the longest whitespace-free prefix of `s`. */
  function RunLength(s: string): (n: nat)
    ensures n <= |s|
    ensures forall i | 0 <= i < n :: !IsSpace(s[i])
    ensures n < |s| ==> IsSpace(s[n])
  {
    if s == [] || IsSpace(s[0]) then 0 else 1 + RunLength(s[1..])
  }

  /** The maximal runs of non-whitespace characters of `s`, in order. */
  function Split(s: string): (words: seq<string>)
    ensures forall i | 0 <= i < |words| :: words[i] != []
    ensures forall i, j | 0 <= i < |words| && 0 <= j < |words[i]| :: !IsSpace(words[i][j])
    decreases |s|
  {
    if s == [] then []
    else if IsSpace(s[0]) then Split(s[1..])
    else
      var n := RunLength(s);
      [s[..n]] + Split(s[n..])
  }

  function WordCount(s: string): nat
  {
    |Split(s)|
  }

  /** Reference definition of the word count: the positions where a word
      starts, i.e. a non-whitespace character at the start or after
      whitespace. */
  predicate StartsWord(s: string, i: nat)
    requires i < |s|
  {
    !IsSpace(s[i]) && (i == 0 || IsSpace(s[i - 1]))
  }

  function WordStarts(s: string): nat
  {
    if s == [] then 0 else WordStarts(s[..|s| - 1]) + (if StartsWord(s, |s| - 1) then 1 else 0)
  }

  /** Two texts are glued when the first ends and the second starts with a
      non-whitespace character: their boundary words merge into one. */
  predicate Glued(a: string, b: string)
  {
    a != [] && b != [] && !IsSpace(a[|a| - 1]) && !IsSpace(b[0])
  }

  lemma {:induction false} WordStartsAppend(a: string, b: string)
    ensures WordStarts(a + b) + (if Glued(a, b) then 1 else 0) == WordStarts(a) + WordStarts(b)
    decreases |b|
  {
    if b == [] {
      assert a + b == a;
    } else {
      var b' := b[..|b| - 1];
      assert (a + b)[..|a + b| - 1] == a + b';
      WordStartsAppend(a, b');
    }
  }

  lemma {:induction false} WordStartsOfRun(s: string)
    requires s != []
    requires forall i | 0 <= i < |s| :: !IsSpace(s[i])
    ensures WordStarts(s) == 1
    decreases |s|
  {
    if |s| > 1 {
      WordStartsOfRun(s[..|s| - 1]);
    }
  }

  /** The number of words `split()` yields is the number of word starts. */
  lemma {:induction false} WordCountIsWordStarts(s: string)
    ensures WordCount(s) == WordStarts(s)
    decreases |s|
  {
    if s == [] {
    } else if IsSpace(s[0]) {
      WordCountIsWordStarts(s[1..]);
      assert s == [s[0]] + s[1..];
      WordStartsAppend([s[0]], s[1..]);
    } else {
      var n := RunLength(s);
      WordCountIsWordStarts(s[n..]);
      assert s == s[..n] + s[n..];
      WordStartsAppend(s[..n], s[n..]);
      WordStartsOfRun(s[..n]);
    }
  }

  /** Word count of a concatenation: the counts add up, less one when the
      last word of `a` and the first word of `b` are glued together. */
  lemma WordCountAppend(a: string, b: string)
    ensures WordCount(a + b) + (if Glued(a, b) then 1 else 0) == WordCount(a) + WordCount(b)
  {
    WordCountIsWordStarts(a);
    WordCountIsWordStarts(b);
    WordCountIsWordStarts(a + b);
    WordStartsAppend(a, b);
  }

  /** A text has no words exactly when it is all whitespace. */
  lemma {:induction false} NoWordsIffBlank(s: string)
    ensures WordCount(s) == 0 <==> forall i | 0 <= i < |s| :: IsSpace(s[i])
    decreases |s|
  {
    if s != [] {
      if IsSpace(s[0]) {
        NoWordsIffBlank(s[1..]);
        assert forall i | 1 <= i < |s| :: s[i] == s[1..][i - 1];
      }
    }
  }

  // ---------------------------------------------------------------------
  // Strings joined without separator, and the lines of a text file.

  function Concat(parts: seq<string>): string
  {
    if parts == [] then "" else Concat(parts[..|parts| - 1]) + parts[|parts| - 1]
  }

  function TotalLength(parts: seq<string>): nat
  {
    if parts == [] then 0 else TotalLength(parts[..|parts| - 1]) + |parts[|parts| - 1]|
  }

  lemma {:induction false} ConcatAppend(a: seq<string>, b: seq<string>)
    ensures Concat(a + b) == Concat(a) + Concat(b)
    ensures TotalLength(a + b) == TotalLength(a) + TotalLength(b)
    decreases |b|
  {
    if b == [] {
      assert a + b == a;
    } else {
      var b' := b[..|b| - 1];
      assert (a + b)[..|a + b| - 1] == a + b';
      ConcatAppend(a, b');
    }
  }

  /** A sequence identity kept as its own lemma only to keep proof cost
      down in the callers. */
  lemma Associative(a: string, b: string, c: string)
    ensures a + b + c == a + (b + c)
  {
  }

  /** A sequence identity kept as its own lemma only to keep proof cost
      down in the callers. */
  lemma ConcatSingle(s: string)
    ensures Concat([s]) == s
  {
    assert [s][..0] == [];
  }

  lemma {:induction false} ConcatLength(parts: seq<string>)
    ensures |Concat(parts)| == TotalLength(parts)
    decreases |parts|
  {
    if parts != [] {
      ConcatLength(parts[..|parts| - 1]);
    }
  }

  /** The length of the first line of `t`, its terminating newline included. */
  function LineLength(t: string): (n: nat)
    ensures n <= |t|
    ensures t != [] ==> n > 0
    ensures forall i | 0 <= i < n - 1 :: t[i] != '\n'
    ensures n < |t| ==> t[n - 1] == '\n'
  {
    if t == [] then 0
    else if t[0] == '\n' then 1
    else 1 + LineLength(t[1..])
  }

  /** The lines a Python text file yields when iterated, each keeping its
      newline. */
  function FileLines(t: string): seq<string>
    decreases |t|
  {
    if t == [] then [] else [t[..LineLength(t)]] + FileLines(t[LineLength(t)..])
  }

  /** Joining the lines gives back the text. */
  lemma {:induction false} FileLinesJoin(t: string)
    ensures Concat(FileLines(t)) == t
    decreases |t|
  {
    if t != [] {
      var n := LineLength(t);
      calc {
        Concat(FileLines(t));
        Concat([t[..n]] + FileLines(t[n..]));
        { ConcatAppend([t[..n]], FileLines(t[n..])); }
        Concat([t[..n]]) + Concat(FileLines(t[n..]));
        { ConcatSingle(t[..n]); FileLinesJoin(t[n..]); }
        t[..n] + t[n..];
      }
      assert t[..n] + t[n..] == t;
    }
  }

  /** No line is empty, a newline can only end a line, and every line but
      the last ends in one. */
  lemma {:induction false} FileLinesShape(t: string)
    ensures forall i | 0 <= i < |FileLines(t)| :: FileLines(t)[i] != []
    ensures forall i, j | 0 <= i < |FileLines(t)| && 0 <= j < |FileLines(t)[i]| - 1 :: FileLines(t)[i][j] != '\n'
    ensures forall i | 0 <= i < |FileLines(t)| - 1 :: FileLines(t)[i][|FileLines(t)[i]| - 1] == '\n'
    decreases |t|
  {
    if t != [] {
      var n := LineLength(t);
      FileLinesShape(t[n..]);
      var lines, rest := FileLines(t), FileLines(t[n..]);
      assert lines == [t[..n]] + rest;
      assert rest != [] ==> n < |t|;
      forall i | 0 <= i < |lines|
        ensures lines[i] != []
        ensures forall j | 0 <= j < |lines[i]| - 1 :: lines[i][j] != '\n'
        ensures i < |lines| - 1 ==> lines[i][|lines[i]| - 1] == '\n'
      {
        if i > 0 {
          assert lines[i] == rest[i - 1];
        }
      }
    }
  }
}
