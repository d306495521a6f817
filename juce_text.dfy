/**
 * The two pieces of JUCE string handling the engine depends on: String::trim and
 * StringArray::addTokens with ':' as the only break character.
 */
module JuceText {
  import CStdlib

  /** CharacterFunctions::isWhitespace on the characters it classifies for ASCII text. */
  predicate IsWhitespace(c: char) {
    CStdlib.IsSpace(c)
  }

  predicate AllWhitespace(s: string) {
    forall k | 0 <= k < |s| :: IsWhitespace(s[k])
  }

  /** No white space at either end. */
  predicate IsTrimmed(s: string) {
    s == [] || (!IsWhitespace(s[0]) && !IsWhitespace(s[|s| - 1]))
  }

  function TrimStart(s: string): (r: string)
    ensures |r| <= |s| && r == s[|s| - |r|..]
    ensures AllWhitespace(s[..|s| - |r|])
    ensures r == [] || !IsWhitespace(r[0])
  {
    if |s| > 0 && IsWhitespace(s[0]) then
      var r := TrimStart(s[1..]);
      assert s[..|s| - |r|] == [s[0]] + s[1..][..|s| - 1 - |r|];
      r
    else s
  }

  function TrimEnd(s: string): (r: string)
    ensures |r| <= |s| && r == s[..|r|]
    ensures AllWhitespace(s[|r|..])
    ensures r == [] || !IsWhitespace(r[|r| - 1])
  {
    if |s| > 0 && IsWhitespace(s[|s| - 1]) then
      var r := TrimEnd(s[..|s| - 1]);
      assert s[|r|..] == s[..|s| - 1][|r|..] + [s[|s| - 1]];
      r
    else s
  }

  /** String::trim: the text without the white space at its start and its end. */
  function Trim(s: string): (r: string)
    ensures IsTrimmed(r)
    ensures |r| <= |s|
  {
    TrimEnd(TrimStart(s))
  }

  /** Trim removes exactly the surrounding white space and nothing else. */
  lemma {:induction false} TrimOfPadded(pre: string, core: string, post: string)
    requires AllWhitespace(pre) && AllWhitespace(post) && IsTrimmed(core)
    ensures Trim(pre + core + post) == core
  {
    if core == [] {
      assert pre + core + post == pre + post;
      assert AllWhitespace(pre + post) by {
        forall k | 0 <= k < |pre + post| ensures IsWhitespace((pre + post)[k]) {
          if k >= |pre| {
            assert (pre + post)[k] == post[k - |pre|];
          }
        }
      }
      TrimStartOfPadded(pre + post, []);
      assert pre + post + [] == pre + post;
    } else {
      assert pre + core + post == pre + (core + post);
      TrimStartOfPadded(pre, core + post);
      TrimEndOfPadded(core, post);
    }
  }

  lemma {:induction false} TrimStartOfPadded(pre: string, s: string)
    requires AllWhitespace(pre)
    requires s == [] || !IsWhitespace(s[0])
    ensures TrimStart(pre + s) == s
    decreases |pre|
  {
    if pre != [] {
      assert (pre + s)[1..] == pre[1..] + s;
      TrimStartOfPadded(pre[1..], s);
    } else {
      assert pre + s == s;
    }
  }

  lemma {:induction false} TrimEndOfPadded(s: string, post: string)
    requires AllWhitespace(post)
    requires s == [] || !IsWhitespace(s[|s| - 1])
    ensures TrimEnd(s + post) == s
    decreases |post|
  {
    if post != [] {
      assert (s + post)[..|s + post| - 1] == s + post[..|post| - 1];
      TrimEndOfPadded(s, post[..|post| - 1]);
    } else {
      assert s + post == s;
    }
  }

  /** The position of the first ':' at or after i, or |s| if there is none. */
  function ColonFrom(s: string, i: nat): (j: nat)
    requires i <= |s|
    ensures i <= j <= |s|
    ensures forall k | i <= k < j :: s[k] != ':'
    ensures j < |s| ==> s[j] == ':'
    decreases |s| - i
  {
    if i == |s| || s[i] == ':' then i else ColonFrom(s, i + 1)
  }

  /** The pieces of s between its colons; there is one more piece than there are colons. */
  function Pieces(s: string): (tokens: seq<string>)
    ensures |tokens| > 0
    ensures forall t | t in tokens :: ':' !in t
    decreases |s|
  {
    var j := ColonFrom(s, 0);
    if j == |s| then [s] else [s[..j]] + Pieces(s[j + 1..])
  }

  /** The pieces joined back with ':' between them. */
  function JoinWithColons(tokens: seq<string>): string
    requires |tokens| > 0
  {
    if |tokens| == 1 then tokens[0] else tokens[0] + ":" + JoinWithColons(tokens[1..])
  }

  /**
   * StringArray::addTokens(s, ":", ...) on text without quote characters: an empty
   * text gives no token, any other text its colon-separated pieces (empty ones included).
   */
  function SplitOnColons(s: string): (tokens: seq<string>)
    ensures s == [] <==> tokens == []
    ensures forall t | t in tokens :: ':' !in t
  {
    if s == [] then [] else Pieces(s)
  }

  /** Splitting loses nothing: joining the tokens gives back the text. */
  lemma {:induction false} JoinPieces(s: string)
    ensures JoinWithColons(Pieces(s)) == s
    decreases |s|
  {
    var j := ColonFrom(s, 0);
    if j < |s| {
      JoinPieces(s[j + 1..]);
      assert s == s[..j] + ":" + s[j + 1..];
    }
  }

  /** Joining colon-free tokens and splitting again gives back the tokens. */
  lemma {:induction false} PiecesOfJoin(tokens: seq<string>)
    requires |tokens| > 0
    requires forall k | 0 <= k < |tokens| :: ':' !in tokens[k]
    ensures Pieces(JoinWithColons(tokens)) == tokens
    decreases |tokens|
  {
    var t := tokens[0];
    var s := JoinWithColons(tokens);
    if |tokens| == 1 {
      ColonFreeHasNoColon(t);
    } else {
      var rest := JoinWithColons(tokens[1..]);
      assert s == t + ":" + rest;
      ColonAfterPiece(t, rest);
      assert s[..|t|] == t;
      assert s[|t| + 1..] == rest;
      PiecesOfJoin(tokens[1..]);
    }
  }

  lemma ColonFreeHasNoColon(t: string)
    requires ':' !in t
    ensures ColonFrom(t, 0) == |t|
  {
  }

  lemma ColonAfterPiece(t: string, rest: string)
    requires ':' !in t
    ensures ColonFrom(t + ":" + rest, 0) == |t|
  {
    var s := t + ":" + rest;
    assert s[|t|] == ':';
  }
}
