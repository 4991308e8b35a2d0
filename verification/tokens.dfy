/**
 * Whitespace tokenisation: `line.trim().split(/\s+/)` on a line that is not
 * blank yields exactly the maximal runs of non-whitespace characters, which is
 * what `Words` computes (and `Words` of a blank line is empty).
 */
module Tokens {
  import opened Text
  import opened Delimited

  /** A token: non-empty and free of whitespace. */
  predicate IsWord(w: string) {
    w != [] && forall i :: 0 <= i < |w| ==> !IsSpace(w[i])
  }

  /** The number of non-whitespace characters at the start of `s`. */
  function WordLength(s: string): (n: nat)
    ensures n <= |s|
    ensures forall i :: 0 <= i < n ==> !IsSpace(s[i])
    ensures n < |s| ==> IsSpace(s[n])
    decreases |s|
  {
    if s != [] && !IsSpace(s[0]) then 1 + WordLength(s[1..]) else 0
  }

  /** The maximal runs of non-whitespace characters of `s`, in order. */
  function Words(s: string): (ws: seq<string>)
    ensures forall i :: 0 <= i < |ws| ==> IsWord(ws[i])
    decreases |s|
  {
    var t := TrimStart(s);
    if t == [] then []
    else
      var n := WordLength(t);
      [t[..n]] + Words(t[n..])
  }

  /** Whitespace in front of the text does not change its tokens. */
  lemma SpaceThenWords(c: char, s: string)
    requires IsSpace(c)
    ensures Words([c] + s) == Words(s)
  {
    assert ([c] + s)[1..] == s;
    assert TrimStart([c] + s) == TrimStart(s);
  }

  /** A token followed by whitespace (or by nothing) is the first token. */
  lemma WordsCons(w: string, rest: string)
    requires IsWord(w)
    requires rest == [] || IsSpace(rest[0])
    ensures Words(w + rest) == [w] + Words(rest)
  {
    var s := w + rest;
    assert TrimStart(s) == s;
    WordLengthOf(w, rest);
    assert s[..|w|] == w && s[|w|..] == rest;
  }

  lemma {:induction false} WordLengthOf(w: string, rest: string)
    requires forall i :: 0 <= i < |w| ==> !IsSpace(w[i])
    requires rest == [] || IsSpace(rest[0])
    ensures WordLength(w + rest) == |w|
    decreases |w|
  {
    if w != [] {
      assert (w + rest)[1..] == w[1..] + rest;
      WordLengthOf(w[1..], rest);
    }
  }

  /** Whitespace of any kind and length in front of the text does not change its tokens. */
  lemma {:induction false} BlankThenWords(b: string, s: string)
    requires IsBlank(b)
    ensures Words(b + s) == Words(s)
    decreases |b|
  {
    if b == [] {
      assert b + s == s;
    } else {
      var t := b[1..] + s;
      assert b + s == [b[0]] + t;
      SpaceThenWords(b[0], t);
      BlankThenWords(b[1..], s);
    }
  }

  /** A token, one or more whitespace characters of any kind, then anything: the token is first. */
  lemma WordThenBlank(w: string, gap: string, rest: string)
    requires IsWord(w) && gap != [] && IsBlank(gap)
    ensures Words(w + gap + rest) == [w] + Words(rest)
  {
    assert w + gap + rest == w + (gap + rest);
    WordsCons(w, gap + rest);
    BlankThenWords(gap, rest);
  }

  /** Tokens laid out with the gaps between them: `ws[0] + gaps[0] + ws[1] + ... + ws[|ws| - 1]`. */
  function Spaced(ws: seq<string>, gaps: seq<string>): string
    requires |ws| == |gaps| + 1
    decreases |gaps|
  {
    if gaps == [] then ws[0] else ws[0] + gaps[0] + Spaced(ws[1..], gaps[1..])
  }

  /**
   * Tokens separated by non-empty runs of any whitespace, with any whitespace
   * before and after, tokenise back to exactly those tokens: tab-separated
   * and space-aligned columns alike.
   */
  lemma WordsOfSpaced(lead: string, ws: seq<string>, gaps: seq<string>, trail: string)
    requires |ws| == |gaps| + 1
    requires forall i :: 0 <= i < |ws| ==> IsWord(ws[i])
    requires forall i :: 0 <= i < |gaps| ==> gaps[i] != [] && IsBlank(gaps[i])
    requires IsBlank(lead) && IsBlank(trail)
    ensures Words(lead + Spaced(ws, gaps) + trail) == ws
  {
    assert lead + Spaced(ws, gaps) + trail == lead + (Spaced(ws, gaps) + trail);
    BlankThenWords(lead, Spaced(ws, gaps) + trail);
    SpacedThenBlank(ws, gaps, trail);
  }

  lemma {:induction false} SpacedThenBlank(ws: seq<string>, gaps: seq<string>, trail: string)
    requires |ws| == |gaps| + 1
    requires forall i :: 0 <= i < |ws| ==> IsWord(ws[i])
    requires forall i :: 0 <= i < |gaps| ==> gaps[i] != [] && IsBlank(gaps[i])
    requires IsBlank(trail)
    ensures Words(Spaced(ws, gaps) + trail) == ws
    decreases |gaps|
  {
    if gaps == [] {
      WordsCons(ws[0], trail);
      BlankThenWords(trail, []);
      assert trail + [] == trail;
    } else {
      var tail := Spaced(ws[1..], gaps[1..]) + trail;
      SpacedThenBlank(ws[1..], gaps[1..], trail);
      assert Spaced(ws, gaps) + trail == ws[0] + gaps[0] + tail;
      WordThenBlank(ws[0], gaps[0], tail);
      assert ws == [ws[0]] + ws[1..];
    }
  }

  /** A line has no tokens exactly when it is blank. */
  lemma WordsEmptyIffBlank(s: string)
    ensures Words(s) == [] <==> IsBlank(s)
  {
    var a := LeadingSpaces(s);
    if a < |s| {
      assert !IsSpace(s[a]);
    }
  }

  /** Tokens joined by single spaces tokenise back to themselves. */
  lemma {:induction false} WordsOfJoin(ws: seq<string>)
    requires forall i :: 0 <= i < |ws| ==> IsWord(ws[i])
    ensures Words(Join(ws, " ")) == ws
    decreases |ws|
  {
    if |ws| == 1 {
      assert ws[0] + [] == ws[0];
      WordsCons(ws[0], []);
    } else if |ws| > 1 {
      var rest := ws[1..];
      WordsOfJoin(rest);
      WordThenJoin(ws[0], Join(rest, " "));
      JoinCons(ws[0], rest, " ");
      assert ws == [ws[0]] + rest;
    }
  }

  /** A token, a space, then anything: the token comes first and the rest tokenises on its own. */
  lemma WordThenJoin(w: string, rest: string)
    requires IsWord(w)
    ensures Words(w + " " + rest) == [w] + Words(rest)
  {
    assert w + " " + rest == w + ([' '] + rest);
    WordsCons(w, [' '] + rest);
    SpaceThenWords(' ', rest);
  }

  /**
   * The shape of a label: non-empty, no whitespace at either end, and every
   * whitespace character is a single plain space followed by a non-space.
   */
  ghost predicate Normalized(s: string) {
    && s != []
    && !IsSpace(s[0])
    && !IsSpace(s[|s| - 1])
    && (forall i :: 0 <= i < |s| && IsSpace(s[i]) ==> s[i] == ' ')
    && (forall i, j :: 0 <= i < j < |s| && j == i + 1 && IsSpace(s[i]) ==> !IsSpace(s[j]))
  }

  /** Joining at least one token with single spaces gives a normalized string. */
  lemma {:induction false} JoinNormalized(ws: seq<string>)
    requires |ws| >= 1
    requires forall i :: 0 <= i < |ws| ==> IsWord(ws[i])
    ensures Normalized(Join(ws, " "))
    decreases |ws|
  {
    if |ws| > 1 {
      var w := ws[0];
      var rest := Join(ws[1..], " ");
      JoinNormalized(ws[1..]);
      var s := Join(ws, " ");
      assert s == w + " " + rest;
      forall i | 0 <= i < |s| && IsSpace(s[i])
        ensures s[i] == ' ' && i + 1 < |s| && !IsSpace(s[i + 1])
      {
        if i == |w| {
          assert s[i + 1] == rest[0];
        } else if i > |w| {
          assert s[i] == rest[i - |w| - 1];
          if i + 1 < |s| {
            assert s[i + 1] == rest[i - |w|];
          }
        }
      }
      assert s[|s| - 1] == rest[|rest| - 1];
    }
  }

  /** What follows the first space of a normalized string is normalized. */
  lemma NormalizedTail(s: string, n: nat)
    requires Normalized(s)
    requires n < |s| && IsSpace(s[n])
    ensures Normalized(s[n + 1..])
  {
    var t := s[n + 1..];
    assert t[0] == s[n + 1];
    assert t[|t| - 1] == s[|s| - 1];
    forall i | 0 <= i < |t| && IsSpace(t[i])
      ensures t[i] == ' ' && i + 1 < |t| && !IsSpace(t[i + 1])
    {
      assert t[i] == s[n + 1 + i];
      if i + 1 < |t| {
        assert t[i + 1] == s[n + 2 + i];
      }
    }
  }

  /** The first token of a normalized string, and the single space after it when more follows. */
  lemma FirstWord(s: string, n: nat)
    requires Normalized(s) && n == WordLength(s)
    ensures IsWord(s[..n])
    ensures n < |s| ==> s[n] == ' '
  {
    assert forall i :: 0 <= i < n ==> s[..n][i] == s[i];
  }

  /** A normalized string is the single-space join of its own tokens. */
  lemma {:induction false} NormalizedIsJoinOfWords(s: string)
    requires Normalized(s)
    ensures |Words(s)| >= 1
    ensures Join(Words(s), " ") == s
    decreases |s|
  {
    var n := WordLength(s);
    FirstWord(s, n);
    if n == |s| {
      assert s[..n] == s && s + [] == s;
      WordsCons(s, []);
    } else {
      NormalizedTail(s, n);
      NormalizedIsJoinOfWords(s[n + 1..]);
      PeelWord(s, n);
      JoinAfterSpace(s, n, Words(s[n + 1..]));
    }
  }

  /** A token followed by a space: the token is first, the rest tokenises on its own. */
  lemma PeelWord(s: string, n: nat)
    requires n < |s| && s[n] == ' ' && IsWord(s[..n])
    ensures Words(s) == [s[..n]] + Words(s[n + 1..])
  {
    var w := s[..n];
    var t := s[n + 1..];
    assert s == w + ([' '] + t);
    WordsCons(w, [' '] + t);
    SpaceThenWords(' ', t);
  }

  /** Gluing a token back in front of the single-space join of the rest. */
  lemma JoinAfterSpace(s: string, n: nat, ws: seq<string>)
    requires n < |s| && s[n] == ' '
    requires |ws| >= 1 && Join(ws, " ") == s[n + 1..]
    ensures Join([s[..n]] + ws, " ") == s
  {
    JoinCons(s[..n], ws, " ");
    SplitAround(s, n);
  }

  /** A string is what comes before an index, the character there, and what follows. */
  lemma SplitAround(s: string, n: nat)
    requires n < |s|
    ensures s == s[..n] + [s[n]] + s[n + 1..]
  {
    assert s == s[..n] + s[n..];
    assert s[n..] == [s[n]] + s[n + 1..];
  }
}
