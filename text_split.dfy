/** The two string built-ins the keyword counter relies on:
    `String.prototype.toLowerCase` and `split(/\W+/)`. */
module TextSplit {

  /** The class `\w` of a regular expression without the `u` flag:
      ASCII letters, digits and the underscore. `\W` is its complement. */
  predicate IsWordChar(c: char)
  {
    ('a' <= c <= 'z') || ('A' <= c <= 'Z') || ('0' <= c <= '9') || c == '_'
  }

  predicate AllWordChars(s: string)
  {
    forall i :: 0 <= i < |s| ==> IsWordChar(s[i])
  }

  /** Lower-casing of one character, restricted to the ASCII letters: a
      capital letter becomes the small letter at the same position of the
      alphabet, and every other character is left as it is. */
  function LowerChar(c: char): (r: char)
    ensures 'A' <= c <= 'Z' ==> 'a' <= r <= 'z' && r as int - 'a' as int == c as int - 'A' as int
    ensures !('A' <= c <= 'Z') ==> r == c
    ensures !('A' <= r <= 'Z')
    ensures IsWordChar(r) == IsWordChar(c)
  {
    if 'A' <= c <= 'Z' then (c as int - 'A' as int + 'a' as int) as char else c
  }

  /** `text.toLowerCase()`: each capital letter becomes its small letter,
      every other character stays, and no capital letter is left. */
  function ToLower(s: string): (r: string)
    ensures |r| == |s|
    ensures forall i :: 0 <= i < |s| && 'A' <= s[i] <= 'Z' ==>
      'a' <= r[i] <= 'z' && r[i] as int - 'a' as int == s[i] as int - 'A' as int
    ensures forall i :: 0 <= i < |s| && !('A' <= s[i] <= 'Z') ==> r[i] == s[i]
    ensures forall i :: 0 <= i < |r| ==> !('A' <= r[i] <= 'Z')
    ensures forall i :: 0 <= i < |r| ==> IsWordChar(r[i]) == IsWordChar(s[i])
  {
    seq(|s|, i requires 0 <= i < |s| => LowerChar(s[i]))
  }

  /** Two strings that differ only in the case of their letters. */
  predicate SameUpToCase(s: string, t: string)
  {
    |s| == |t| && forall i :: 0 <= i < |s| ==> LowerChar(s[i]) == LowerChar(t[i])
  }

  lemma SameUpToCaseLowersAlike(s: string, t: string)
    requires SameUpToCase(s, t)
    ensures ToLower(s) == ToLower(t)
  {
  }

  /** Lower-casing twice is lower-casing once. */
  lemma ToLowerIdempotent(s: string)
    ensures ToLower(ToLower(s)) == ToLower(s)
  {
  }

  /** Drops the maximal run of `\W` characters at the front of `s`. */
  function DropSeparators(s: string): (r: string)
    ensures |r| <= |s|
    ensures s != [] && !IsWordChar(s[0]) ==> |r| < |s|
    decreases |s|
  {
    if s != [] && !IsWordChar(s[0]) then DropSeparators(s[1..]) else s
  }

  /** What is dropped is exactly the maximal leading run of separators: the
      result is a suffix, everything before it is a separator, and it is
      empty or starts with a word character. */
  lemma {:induction false} DropSeparatorsDropsLeadingRun(s: string)
    ensures DropSeparators(s) == s[|s| - |DropSeparators(s)|..]
    ensures forall i :: 0 <= i < |s| - |DropSeparators(s)| ==> !IsWordChar(s[i])
    ensures DropSeparators(s) == [] || IsWordChar(DropSeparators(s)[0])
    decreases |s|
  {
    if s != [] && !IsWordChar(s[0]) {
      DropSeparatorsDropsLeadingRun(s[1..]);
      var r := DropSeparators(s);
      assert r == DropSeparators(s[1..]);
      assert s[1..][|s| - 1 - |r|..] == s[|s| - |r|..];
      forall i | 0 <= i < |s| - |r| ensures !IsWordChar(s[i]) {
        if i > 0 {
          assert s[i] == s[1..][i - 1];
        }
      }
    }
  }

  /** `s.split(/\W+/)`: the pieces between maximal runs of `\W` characters.
      A separator run at the very start or end leaves an empty piece there,
      and the empty string splits into one empty piece. */
  function Split(s: string): (pieces: seq<string>)
    ensures |pieces| >= 1
    decreases |s|
  {
    if s == [] then
      [""]
    else if IsWordChar(s[0]) then
      var rest := Split(s[1..]);
      [[s[0]] + rest[0]] + rest[1..]
    else
      [""] + Split(DropSeparators(s))
  }

  /** Every character of `p` occurs in `s`. */
  predicate CharsFrom(p: string, s: string)
  {
    forall j :: 0 <= j < |p| ==> p[j] in s
  }

  /** Every piece consists of word characters only, all taken from the
      input. */
  lemma {:induction false} SplitPiecesAreWords(s: string)
    ensures forall i :: 0 <= i < |Split(s)| ==>
      AllWordChars(Split(s)[i]) && CharsFrom(Split(s)[i], s)
    decreases |s|
  {
    if s == [] {
    } else if IsWordChar(s[0]) {
      SplitPiecesAreWords(s[1..]);
      var rest := Split(s[1..]);
      forall i | 0 <= i < |rest| ensures CharsFrom(rest[i], s) {
        forall j | 0 <= j < |rest[i]| ensures rest[i][j] in s {
          assert rest[i][j] in s[1..];
          var k :| 0 <= k < |s[1..]| && s[1..][k] == rest[i][j];
          assert s[k + 1] == rest[i][j];
        }
      }
      var first := [s[0]] + rest[0];
      assert AllWordChars(first) && CharsFrom(first, s) by {
        forall j | 0 <= j < |first| ensures IsWordChar(first[j]) && first[j] in s {
          if j > 0 {
            assert first[j] == rest[0][j - 1];
          }
        }
      }
    } else {
      var d := DropSeparators(s);
      SplitPiecesAreWords(d);
      DropSeparatorsDropsLeadingRun(s);
      var pieces := Split(d);
      forall i | 0 <= i < |pieces| ensures CharsFrom(pieces[i], s) {
        forall j | 0 <= j < |pieces[i]| ensures pieces[i][j] in s {
          assert pieces[i][j] in d;
          var k :| 0 <= k < |d| && d[k] == pieces[i][j];
          assert s[|s| - |d| + k] == d[k];
        }
      }
      assert Split(s) == [""] + pieces;
    }
  }

  /** A character of `\w` that `toLowerCase` leaves: a small ASCII letter, a
      digit or the underscore. */
  predicate IsLowerWordChar(c: char)
  {
    ('a' <= c <= 'z') || ('0' <= c <= '9') || c == '_'
  }

  /** The tokens the counter walks: `text.toLowerCase().split(/\W+/)`. Each
      token is made of small letters, digits and underscores only. */
  function Tokens(text: string): (words: seq<string>)
    ensures |words| >= 1
    ensures forall i, j :: 0 <= i < |words| && 0 <= j < |words[i]| ==> IsLowerWordChar(words[i][j])
  {
    var lowered := ToLower(text);
    SplitPiecesAreWords(lowered);
    var words := Split(lowered);
    assert forall i, j :: 0 <= i < |words| && 0 <= j < |words[i]| ==> IsLowerWordChar(words[i][j]) by {
      forall i, j | 0 <= i < |words| && 0 <= j < |words[i]| ensures IsLowerWordChar(words[i][j]) {
        assert AllWordChars(words[i]) && CharsFrom(words[i], lowered);
        assert words[i][j] in lowered;
      }
    }
    words
  }

  /** The word characters of `s`, in order. */
  function WordChars(s: string): string
  {
    if s == [] then []
    else if IsWordChar(s[0]) then [s[0]] + WordChars(s[1..])
    else WordChars(s[1..])
  }

  function Concat(pieces: seq<string>): string
  {
    if pieces == [] then [] else pieces[0] + Concat(pieces[1..])
  }

  lemma {:induction false} WordCharsDropSeparators(s: string)
    ensures WordChars(DropSeparators(s)) == WordChars(s)
    decreases |s|
  {
    if s != [] && !IsWordChar(s[0]) {
      WordCharsDropSeparators(s[1..]);
    }
  }

  /** Splitting loses exactly the separators: gluing the pieces back together
      gives the word characters of the input, in order. */
  lemma {:induction false} SplitKeepsWordChars(s: string)
    ensures Concat(Split(s)) == WordChars(s)
    decreases |s|
  {
    if s == [] {
    } else if IsWordChar(s[0]) {
      var rest := Split(s[1..]);
      SplitKeepsWordChars(s[1..]);
      var pieces := [[s[0]] + rest[0]] + rest[1..];
      assert pieces[1..] == rest[1..];
      assert Concat(rest) == rest[0] + Concat(rest[1..]);
      calc {
        Concat(pieces);
        [s[0]] + rest[0] + Concat(rest[1..]);
        [s[0]] + Concat(rest);
        [s[0]] + WordChars(s[1..]);
      }
    } else {
      var d := DropSeparators(s);
      SplitKeepsWordChars(d);
      WordCharsDropSeparators(s);
      assert ([""] + Split(d))[1..] == Split(d);
    }
  }

  /** A word with no separator in it is a single piece. */
  lemma {:induction false} SplitSingleWord(w: string)
    requires AllWordChars(w)
    requires w != []
    ensures Split(w) == [w]
    decreases |w|
  {
    if |w| > 1 {
      SplitSingleWord(w[1..]);
      assert [w[0]] + w[1..] == w;
    } else {
      assert w[1..] == [];
      assert [w[0]] + "" == w;
    }
  }

  /** Splitting a word followed by more text prefixes the word to the first
      piece of the rest. */
  lemma {:induction false} SplitAfterWord(w: string, s: string)
    requires AllWordChars(w)
    ensures Split(w + s) == [w + Split(s)[0]] + Split(s)[1..]
    decreases |w|
  {
    if w == [] {
      assert w + s == s;
      assert w + Split(s)[0] == Split(s)[0];
      assert [Split(s)[0]] + Split(s)[1..] == Split(s);
    } else {
      assert (w + s)[1..] == w[1..] + s;
      SplitAfterWord(w[1..], s);
      assert [w[0]] + (w[1..] + Split(s)[0]) == w + Split(s)[0];
    }
  }

  /** Two words joined by one separator character split into those two
      words. */
  lemma SplitTwoWords(first: string, sep: char, second: string)
    requires AllWordChars(first) && AllWordChars(second)
    requires !IsWordChar(sep) && second != []
    ensures Split(first + [sep] + second) == [first, second]
  {
    var rest := [sep] + second;
    assert first + [sep] + second == first + rest;
    SplitAfterWord(first, rest);
    SplitSingleWord(second);
    assert rest[1..] == second;
    assert DropSeparators(rest) == second;
    var pieces := Split(rest);
    assert pieces == [""] + [second];
    assert first + pieces[0] == first;
    assert pieces[1..] == [second];
  }

  /** The maximal run of `\W` characters at the front of `s`. */
  function LeadingRun(s: string): (run: string)
    ensures s == run + DropSeparators(s)
  {
    DropSeparatorsDropsLeadingRun(s);
    s[..|s| - |DropSeparators(s)|]
  }

  /** A non-empty run of `\W` characters, as one match of `/\W+/`. */
  predicate IsSeparatorRun(run: string)
  {
    run != [] && forall j :: 0 <= j < |run| ==> !IsWordChar(run[j])
  }

  /** The separator runs `split(/\W+/)` removes, in order. */
  function Separators(s: string): seq<string>
    decreases |s|
  {
    if s == [] then []
    else if IsWordChar(s[0]) then Separators(s[1..])
    else [LeadingRun(s)] + Separators(DropSeparators(s))
  }

  /** The pieces put back together with the separator runs between them. */
  function Join(pieces: seq<string>, seps: seq<string>): string
    requires |pieces| == |seps| + 1
  {
    if seps == [] then pieces[0]
    else pieces[0] + seps[0] + Join(pieces[1..], seps[1..])
  }

  lemma JoinPrefixFirst(c: char, pieces: seq<string>, seps: seq<string>)
    requires |pieces| == |seps| + 1
    ensures Join([[c] + pieces[0]] + pieces[1..], seps) == [c] + Join(pieces, seps)
  {
    var moved := [[c] + pieces[0]] + pieces[1..];
    assert moved[1..] == pieces[1..];
  }

  /** Round trip: the input is its pieces joined by the separator runs that
      the split removed, and there is one run fewer than there are pieces. */
  lemma {:induction false} SplitRoundTrip(s: string)
    ensures |Split(s)| == |Separators(s)| + 1
    ensures Join(Split(s), Separators(s)) == s
    decreases |s|
  {
    if s == [] {
    } else if IsWordChar(s[0]) {
      SplitRoundTrip(s[1..]);
      JoinPrefixFirst(s[0], Split(s[1..]), Separators(s[1..]));
      assert [s[0]] + s[1..] == s;
    } else {
      var d := DropSeparators(s);
      SplitRoundTrip(d);
      var pieces := [""] + Split(d);
      var seps := [LeadingRun(s)] + Separators(d);
      assert pieces[1..] == Split(d) && seps[1..] == Separators(d);
      assert Join(pieces, seps) == "" + LeadingRun(s) + Join(Split(d), Separators(d));
    }
  }

  /** Every separator run is non-empty and made of `\W` characters only. */
  lemma {:induction false} SeparatorsAreRuns(s: string)
    ensures forall i :: 0 <= i < |Separators(s)| ==> IsSeparatorRun(Separators(s)[i])
    decreases |s|
  {
    if s == [] {
    } else if IsWordChar(s[0]) {
      SeparatorsAreRuns(s[1..]);
    } else {
      var d := DropSeparators(s);
      SeparatorsAreRuns(d);
      DropSeparatorsDropsLeadingRun(s);
      var run := LeadingRun(s);
      assert IsSeparatorRun(run) by {
        forall j | 0 <= j < |run| ensures !IsWordChar(run[j]) {
          assert run[j] == s[j];
        }
      }
    }
  }

  /** The first piece is empty exactly when the text is empty or starts with
      a `\W` character. */
  lemma SplitFirstPiece(s: string)
    ensures Split(s)[0] == [] <==> (s == [] || !IsWordChar(s[0]))
  {
  }

  /** Only the first and the last piece can be empty: between two separator
      runs there is always at least one word character. */
  lemma {:induction false} SplitInteriorPiecesNonEmpty(s: string)
    ensures forall i :: 0 < i < |Split(s)| - 1 ==> Split(s)[i] != []
    decreases |s|
  {
    if s == [] {
    } else if IsWordChar(s[0]) {
      SplitInteriorPiecesNonEmpty(s[1..]);
      var rest := Split(s[1..]);
      assert forall i :: 0 < i < |rest| ==> Split(s)[i] == rest[i];
    } else {
      var d := DropSeparators(s);
      SplitInteriorPiecesNonEmpty(d);
      DropSeparatorsDropsLeadingRun(s);
      SplitFirstPiece(d);
      var pieces := Split(d);
      assert Split(s) == [""] + pieces;
      forall i | 0 < i < |Split(s)| - 1 ensures Split(s)[i] != [] {
        assert Split(s)[i] == pieces[i - 1];
      }
    }
  }
}
