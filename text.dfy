/** String helpers the editor applies to typed names and to the editor text:
    `trim`, `split` on a character, `split` on runs of white space, and the
    filter that drops empty pieces. */
module Text {

  /** The characters matched by the regular-expression class `\s` of
      JavaScript, which are also the characters `String.prototype.trim`
      strips: the WhiteSpace and LineTerminator code points of ECMAScript. */
  predicate IsSpace(c: char)
    ensures IsSpace(c) ==> (c as int) < 0x1_0000
  {
    c == '\t' || c == '\n' || c == '\U{0B}' || c == '\U{0C}' || c == '\r' || c == ' '
    || c == '\U{A0}' || c == '\U{1680}' || ('\U{2000}' <= c <= '\U{200A}')
    || c == '\U{2028}' || c == '\U{2029}' || c == '\U{202F}' || c == '\U{205F}'
    || c == '\U{3000}' || c == '\U{FEFF}'
  }

  predicate AllSpace(s: string)
  {
    forall i :: 0 <= i < |s| ==> IsSpace(s[i])
  }

  /** `s.trimStart()`: `s` without its leading white space. */
  function TrimStart(s: string): (r: string)
    ensures |r| <= |s|
    ensures s != [] && IsSpace(s[0]) ==> |r| < |s|
  {
    if s != [] && IsSpace(s[0]) then TrimStart(s[1..]) else s
  }

  /** `s.trimEnd()`: `s` without its trailing white space. */
  function TrimEnd(s: string): (r: string)
    ensures |r| <= |s|
  {
    if s != [] && IsSpace(s[|s| - 1]) then TrimEnd(s[..|s| - 1]) else s
  }

  /** `TrimStart` keeps a suffix that does not start with white space and
      drops a prefix that is all white space. */
  lemma {:induction false} TrimStartShape(s: string)
    ensures TrimStart(s) == s[|s| - |TrimStart(s)|..]
    ensures TrimStart(s) == [] || !IsSpace(TrimStart(s)[0])
    ensures AllSpace(s[..|s| - |TrimStart(s)|])
  {
    if s != [] && IsSpace(s[0]) {
      var r := TrimStart(s[1..]);
      TrimStartShape(s[1..]);
      assert s[1..][..|s| - 1 - |r|] == s[1..|s| - |r|];
    }
  }

  /** `TrimEnd` keeps a prefix that does not end with white space and drops
      a suffix that is all white space. */
  lemma {:induction false} TrimEndShape(s: string)
    ensures TrimEnd(s) == s[..|TrimEnd(s)|]
    ensures TrimEnd(s) == [] || !IsSpace(TrimEnd(s)[|TrimEnd(s)| - 1])
    ensures AllSpace(s[|TrimEnd(s)|..])
  {
    if s != [] && IsSpace(s[|s| - 1]) {
      var r := TrimEnd(s[..|s| - 1]);
      TrimEndShape(s[..|s| - 1]);
      assert s[..|s| - 1][|r|..] == s[|r|..|s| - 1];
      assert s[|r|..] == s[|r|..|s| - 1] + [s[|s| - 1]];
    }
  }

  /** `s.trim()`. */
  function Trim(s: string): (r: string)
    ensures |r| <= |s|
    ensures r == [] || (!IsSpace(r[0]) && !IsSpace(r[|r| - 1]))
  {
    var t := TrimStart(s);
    TrimStartShape(s);
    TrimEndShape(t);
    assert TrimEnd(t) != [] ==> TrimEnd(t)[0] == t[0];
    TrimEnd(t)
  }

  /** `!s.trim()`: the typed name is empty once trimmed. */
  predicate IsBlank(s: string)
    ensures IsBlank(s) <==> AllSpace(s)
  {
    BlankIffAllSpace(s);
    Trim(s) == []
  }

  /** A name is blank exactly when every character of it is white space. */
  lemma BlankIffAllSpace(s: string)
    ensures Trim(s) == [] <==> AllSpace(s)
  {
    var t := TrimStart(s);
    TrimStartShape(s);
    TrimEndShape(t);
    assert t != [] ==> t[0] == s[|s| - |t|];
    assert s[..|s|] == s;
    assert t[0..] == t;
  }

  /** `s.split(sep)` for a one-character separator: the pieces between
      consecutive separators, including empty ones at either end. */
  function Split(s: string, sep: char): (pieces: seq<string>)
    ensures |pieces| >= 1
  {
    if s == [] then [""]
    else
      var rest := Split(s[1..], sep);
      if s[0] == sep then [""] + rest
      else [[s[0]] + rest[0]] + rest[1..]
  }

  /** `pieces.join(sep)`, the inverse of `Split`. */
  function Join(pieces: seq<string>, sep: char): string
    requires |pieces| >= 1
  {
    if |pieces| == 1 then pieces[0] else pieces[0] + [sep] + Join(pieces[1..], sep)
  }

  /** The number of occurrences of `c` in `s`. */
  function Occurrences(s: string, c: char): nat
  {
    if s == [] then 0 else (if s[0] == c then 1 else 0) + Occurrences(s[1..], c)
  }

  /** Splitting yields one piece more than there are separators. */
  lemma {:induction false} SplitLength(s: string, sep: char)
    ensures |Split(s, sep)| == Occurrences(s, sep) + 1
  {
    if s != [] {
      SplitLength(s[1..], sep);
    }
  }

  /** Joining the pieces with the separator gives back the text. */
  lemma {:induction false} JoinSplit(s: string, sep: char)
    ensures Join(Split(s, sep), sep) == s
  {
    if s != [] {
      var rest := Split(s[1..], sep);
      JoinSplit(s[1..], sep);
      if s[0] == sep {
        assert ([""] + rest)[1..] == rest;
      } else if |rest| > 1 {
        var pieces := [[s[0]] + rest[0]] + rest[1..];
        assert pieces[1..] == rest[1..];
        assert Join(pieces, sep) == [s[0]] + (rest[0] + [sep] + Join(rest[1..], sep));
      }
      assert s == [s[0]] + s[1..];
    }
  }

  /** No piece of a split contains the separator. */
  lemma {:induction false} SplitPiecesFree(s: string, sep: char)
    ensures forall i :: 0 <= i < |Split(s, sep)| ==> sep !in Split(s, sep)[i]
  {
    if s != [] {
      SplitPiecesFree(s[1..], sep);
      var rest := Split(s[1..], sep);
      if s[0] != sep {
        assert sep !in [s[0]] + rest[0];
      }
    }
  }

  /** `s.split(/\s+/)`: the pieces between maximal runs of white space,
      with an empty first (last) piece when `s` starts (ends) with white
      space, and `[""]` for the empty text. */
  function SplitSpaceRuns(s: string): (pieces: seq<string>)
    ensures |pieces| >= 1
    decreases |s|
  {
    if s == [] then [""]
    else if IsSpace(s[0]) then [""] + SplitSpaceRuns(TrimStart(s))
    else
      var rest := SplitSpaceRuns(s[1..]);
      [[s[0]] + rest[0]] + rest[1..]
  }

  /** `pieces.filter(w => w.length > 0)`. */
  function NonEmpty(pieces: seq<string>): (words: seq<string>)
    ensures |words| <= |pieces|
    ensures forall i :: 0 <= i < |words| ==> words[i] != [] && words[i] in pieces
    ensures forall p :: p in pieces && p != [] ==> p in words
  {
    if pieces == [] then []
    else if pieces[0] == [] then NonEmpty(pieces[1..])
    else [pieces[0]] + NonEmpty(pieces[1..])
  }

  /** The filter works piece by piece: filtering a concatenation filters each
      part and keeps them in order, so the kept pieces are the non-empty ones
      in their original order and number. */
  lemma {:induction false} NonEmptyAppend(a: seq<string>, b: seq<string>)
    ensures NonEmpty(a + b) == NonEmpty(a) + NonEmpty(b)
  {
    if a != [] {
      var ab := a + b;
      assert ab != [] && ab[0] == a[0] && ab[1..] == a[1..] + b;
      NonEmptyAppend(a[1..], b);
      if a[0] == [] {
        assert NonEmpty(ab) == NonEmpty(a[1..] + b);
        assert NonEmpty(a) == NonEmpty(a[1..]);
      } else {
        assert NonEmpty(ab) == [a[0]] + NonEmpty(a[1..] + b);
        assert NonEmpty(a) == [a[0]] + NonEmpty(a[1..]);
        assert [a[0]] + (NonEmpty(a[1..]) + NonEmpty(b)) == ([a[0]] + NonEmpty(a[1..])) + NonEmpty(b);
      }
    } else {
      assert a + b == b;
    }
  }

  /** A single piece is kept exactly when it is not empty. */
  lemma NonEmptySingle(p: string)
    ensures NonEmpty([p]) == if p == [] then [] else [p]
  {
    assert [p][1..] == [];
  }

  /** A one-pass scan that counts the characters that begin a word: a
      character that is not white space and comes first or after white
      space. `afterSpace` says whether the previous character was white
      space (or there was none). */
  function WordStarts(s: string, afterSpace: bool): nat
  {
    if s == [] then 0
    else (if afterSpace && !IsSpace(s[0]) then 1 else 0) + WordStarts(s[1..], IsSpace(s[0]))
  }

  /** The number of words of `s`: maximal runs of non-white-space characters. */
  function WordCount(s: string): nat
  {
    WordStarts(s, true)
  }

  lemma {:induction false} WordStartsSkipSpace(s: string)
    ensures WordStarts(TrimStart(s), true) == WordStarts(s, true)
  {
    if s != [] && IsSpace(s[0]) {
      WordStartsSkipSpace(s[1..]);
    }
  }

  /** Dropping the empty pieces of `s.split(/\s+/)` leaves exactly one piece
      per maximal run of non-white-space characters. */
  lemma {:induction false} SplitSpaceRunsWords(s: string)
    ensures |NonEmpty(SplitSpaceRuns(s))| == WordCount(s)
    decreases |s|
  {
    if s == [] {
    } else if IsSpace(s[0]) {
      var t := TrimStart(s);
      SplitSpaceRunsWords(t);
      WordStartsSkipSpace(s);
      assert ([""] + SplitSpaceRuns(t))[1..] == SplitSpaceRuns(t);
    } else {
      var tail := s[1..];
      var rest := SplitSpaceRuns(tail);
      SplitSpaceRunsWords(tail);
      var pieces := [[s[0]] + rest[0]] + rest[1..];
      assert pieces[1..] == rest[1..];
      assert |NonEmpty(pieces)| == 1 + |NonEmpty(rest[1..])|;
      assert |NonEmpty(rest)| == (if rest[0] != [] then 1 else 0) + |NonEmpty(rest[1..])|;
      assert rest[0] != [] <==> tail != [] && !IsSpace(tail[0]);
      assert WordStarts(tail, true) == WordStarts(tail, false) + (if tail != [] && !IsSpace(tail[0]) then 1 else 0);
    }
  }

  /** Pieces of `s.split(/\s+/)` hold no white space. */
  lemma {:induction false} SplitSpaceRunsPiecesFree(s: string)
    ensures forall i :: 0 <= i < |SplitSpaceRuns(s)| ==> !exists k :: 0 <= k < |SplitSpaceRuns(s)[i]| && IsSpace(SplitSpaceRuns(s)[i][k])
    decreases |s|
  {
    if s == [] {
    } else if IsSpace(s[0]) {
      SplitSpaceRunsPiecesFree(TrimStart(s));
    } else {
      SplitSpaceRunsPiecesFree(s[1..]);
      var rest := SplitSpaceRuns(s[1..]);
      var first := [s[0]] + rest[0];
      forall k | 0 <= k < |first| ensures !IsSpace(first[k]) {
        if k > 0 {
          assert first[k] == rest[0][k - 1];
        }
      }
    }
  }
}
