/** The JavaScript string operations the application relies on:
    `trim`, `toLowerCase`/`toUpperCase` (restricted to ASCII letters),
    `includes` and `split(' ')`. */
module Text {

  /** The characters `String.prototype.trim` removes: the ECMAScript
      WhiteSpace and LineTerminator code points. */
  predicate IsWhitespace(c: char)
  {
    || c == '\t' || c == '\n' || c == '\U{B}' || c == '\U{C}' || c == '\r' || c == ' '
    || c == '\U{A0}' || c == '\U{1680}' || ('\U{2000}' <= c <= '\U{200A}')
    || c == '\U{2028}' || c == '\U{2029}' || c == '\U{202F}' || c == '\U{205F}'
    || c == '\U{3000}' || c == '\U{FEFF}'
  }

  /** A string made of whitespace only (the empty string included). */
  predicate IsBlank(s: string)
  {
    forall i :: 0 <= i < |s| ==> IsWhitespace(s[i])
  }

  /** Leading whitespace removed. */
  function TrimStart(s: string): (r: string)
    ensures |r| <= |s| && r == s[|s| - |r|..]
    ensures forall i :: 0 <= i < |s| - |r| ==> IsWhitespace(s[i])
    ensures r == "" || !IsWhitespace(r[0])
    ensures r == "" <==> IsBlank(s)
  {
    if s != "" && IsWhitespace(s[0]) then TrimStart(s[1..]) else s
  }

  /** Trailing whitespace removed. */
  function TrimEnd(s: string): (r: string)
    ensures |r| <= |s| && r == s[..|r|]
    ensures forall i :: |r| <= i < |s| ==> IsWhitespace(s[i])
    ensures r == "" || !IsWhitespace(r[|r| - 1])
    ensures r == "" <==> IsBlank(s)
  {
    if s != "" && IsWhitespace(s[|s| - 1]) then TrimEnd(s[..|s| - 1]) else s
  }

  /** `s.trim()`: empty exactly for the blank strings, and otherwise a
      piece of `s` that neither starts nor ends with whitespace. */
  function Trim(s: string): (r: string)
    ensures |r| <= |s|
    ensures r == "" <==> IsBlank(s)
    ensures r != "" ==> !IsWhitespace(r[0]) && !IsWhitespace(r[|r| - 1])
    ensures exists a, b :: 0 <= a <= b <= |s| && r == s[a..b] && IsBlank(s[..a]) && IsBlank(s[b..])
  {
    var t := TrimStart(s);
    assert IsBlank(t) ==> t == "";
    assert TrimEnd(t) != "" ==> TrimEnd(t)[0] == t[0];
    TrimIsPiece(s);
    TrimEnd(t)
  }

  /** Trimming cuts a piece out of `s` with only whitespace before and
      after it. */
  lemma TrimIsPiece(s: string)
    ensures var r := TrimEnd(TrimStart(s));
      exists a, b :: 0 <= a <= b <= |s| && r == s[a..b] && IsBlank(s[..a]) && IsBlank(s[b..])
  {
    var t := TrimStart(s);
    BlankFramed(s, t, TrimEnd(t));
  }

  /** A suffix `t` of `s` after blanks, cut down to a prefix `r` before
      blanks, is a piece of `s` framed by blanks. */
  lemma BlankFramed(s: string, t: string, r: string)
    requires |t| <= |s| && t == s[|s| - |t|..] && forall i :: 0 <= i < |s| - |t| ==> IsWhitespace(s[i])
    requires |r| <= |t| && r == t[..|r|] && forall i :: |r| <= i < |t| ==> IsWhitespace(t[i])
    ensures exists a, b :: 0 <= a <= b <= |s| && r == s[a..b] && IsBlank(s[..a]) && IsBlank(s[b..])
  {
    var a := |s| - |t|;
    var b := a + |r|;
    assert r == s[a..b] by {
      assert t[..|r|] == s[a..][..|r|] == s[a..b];
    }
    assert IsBlank(s[..a]);
    assert IsBlank(s[b..]) by {
      forall i | 0 <= i < |s| - b
        ensures IsWhitespace(s[b..][i])
      {
        assert s[b..][i] == t[|r| + i];
      }
    }
  }

  /** ASCII lower-casing of one character. */
  function LowerChar(c: char): char
  {
    if 'A' <= c <= 'Z' then (c as int + 32) as char else c
  }

  /** ASCII upper-casing of one character. */
  function UpperChar(c: char): char
  {
    if 'a' <= c <= 'z' then (c as int - 32) as char else c
  }

  /** `s.toLowerCase()`, ASCII letters only: same length, no upper-case
      letter left, every other character kept. */
  function ToLower(s: string): (r: string)
    ensures |r| == |s|
    ensures forall i :: 0 <= i < |r| ==> !('A' <= r[i] <= 'Z')
    ensures forall i :: 0 <= i < |s| && !('A' <= s[i] <= 'Z') ==> r[i] == s[i]
    ensures forall i :: 0 <= i < |s| && 'A' <= s[i] <= 'Z' ==> r[i] as int == s[i] as int + 32
  {
    seq(|s|, i requires 0 <= i < |s| => LowerChar(s[i]))
  }

  /** `s.toUpperCase()`, ASCII letters only: same length, no lower-case
      letter left, every other character kept. */
  function ToUpper(s: string): (r: string)
    ensures |r| == |s|
    ensures forall i :: 0 <= i < |r| ==> !('a' <= r[i] <= 'z')
    ensures forall i :: 0 <= i < |s| && !('a' <= s[i] <= 'z') ==> r[i] == s[i]
    ensures forall i :: 0 <= i < |s| && 'a' <= s[i] <= 'z' ==> r[i] as int == s[i] as int - 32
  {
    seq(|s|, i requires 0 <= i < |s| => UpperChar(s[i]))
  }

  /** The needle occurs in the haystack starting at position `i`. */
  predicate OccursAt(hay: string, needle: string, i: nat)
  {
    i <= |hay| && needle <= hay[i..]
  }

  /** `hay.includes(needle)`: the needle occurs at some position. */
  function Contains(hay: string, needle: string): (r: bool)
    ensures r <==> exists i: nat :: OccursAt(hay, needle, i)
  {
    if needle <= hay then
      assert OccursAt(hay, needle, 0);
      true
    else if hay == "" then false
    else
      var r := Contains(hay[1..], needle);
      assert forall i: nat :: OccursAt(hay[1..], needle, i) <==> OccursAt(hay, needle, i + 1) by {
        forall i: nat ensures OccursAt(hay[1..], needle, i) <==> OccursAt(hay, needle, i + 1) {
          if i + 1 <= |hay| {
            assert hay[1..][i..] == hay[i + 1..];
          }
        }
      }
      assert OccursAt(hay, needle, 0) == false;
      assert (exists i: nat :: OccursAt(hay, needle, i)) ==> exists i: nat :: OccursAt(hay[1..], needle, i) by {
        if exists i: nat :: OccursAt(hay, needle, i) {
          var i: nat :| OccursAt(hay, needle, i);
          assert i >= 1;
          assert OccursAt(hay[1..], needle, i - 1);
        }
      }
      r
  }

  /** No character of `s` is a space. */
  predicate NoSpace(s: string)
  {
    forall j :: 0 <= j < |s| ==> s[j] != ' '
  }

  /** Position of the first space, or -1. */
  function IndexOfSpace(s: string): (k: int)
    ensures -1 <= k < |s|
    ensures k == -1 <==> NoSpace(s)
    ensures k >= 0 ==> s[k] == ' ' && forall j :: 0 <= j < k ==> s[j] != ' '
  {
    if s == "" then -1
    else if s[0] == ' ' then 0
    else
      var k := IndexOfSpace(s[1..]);
      if k == -1 then -1 else k + 1
  }

  /** Position of the last space, or -1. */
  function LastIndexOfSpace(s: string): (k: int)
    ensures -1 <= k < |s|
    ensures k == -1 <==> NoSpace(s)
    ensures k >= 0 ==> s[k] == ' ' && forall j :: k < j < |s| ==> s[j] != ' '
  {
    if s == "" then -1
    else if s[|s| - 1] == ' ' then |s| - 1
    else LastIndexOfSpace(s[..|s| - 1])
  }

  /** The pieces joined back together with one space between neighbours. */
  function JoinSpace(parts: seq<string>): string
  {
    if |parts| <= 1 then (if parts == [] then "" else parts[0])
    else parts[0] + " " + JoinSpace(parts[1..])
  }

  /** `s.split(' ')`: the pieces between single spaces, empty pieces kept. */
  function SplitSpace(s: string): (parts: seq<string>)
    ensures |parts| >= 1
    decreases |s|
  {
    var k := IndexOfSpace(s);
    if k == -1 then [s] else [s[..k]] + SplitSpace(s[k + 1..])
  }

  /** Splitting at the first space: its piece, then the pieces of the rest. */
  lemma SplitCons(s: string, k: nat)
    requires IndexOfSpace(s) == k
    ensures SplitSpace(s) == [s[..k]] + SplitSpace(s[k + 1..])
  {
  }

  /** Joining a piece in front of at least one more. */
  lemma JoinCons(head: string, rest: seq<string>)
    requires |rest| >= 1
    ensures JoinSpace([head] + rest) == head + " " + JoinSpace(rest)
  {
    assert ([head] + rest)[1..] == rest;
  }

  /** A space with no space before it is the first space. */
  lemma FirstSpaceAt(s: string, j: nat)
    requires j < |s| && s[j] == ' ' && forall i :: 0 <= i < j ==> s[i] != ' '
    ensures IndexOfSpace(s) == j
  {
  }

  /** The text before the first space holds no space. */
  lemma FirstPieceNoSpace(s: string, k: nat)
    requires IndexOfSpace(s) == k
    ensures NoSpace(s[..k])
  {
    forall j | 0 <= j < k
      ensures s[..k][j] != ' '
    {
      assert s[..k][j] == s[j];
    }
  }

  /** The piece at position `i` of `split(' ')` holds no space. */
  lemma {:induction false} SplitPieceNoSpace(s: string, i: nat)
    requires i < |SplitSpace(s)|
    ensures NoSpace(SplitSpace(s)[i])
    decreases |s|
  {
    var k := IndexOfSpace(s);
    if k == -1 {
      assert SplitSpace(s) == [s];
    } else {
      SplitCons(s, k);
      if i == 0 {
        FirstPieceNoSpace(s, k);
      } else {
        SplitPieceNoSpace(s[k + 1..], i - 1);
      }
    }
  }

  /** No piece of `split(' ')` holds a space. */
  lemma SplitPiecesHaveNoSpace(s: string)
    ensures forall i :: 0 <= i < |SplitSpace(s)| ==> NoSpace(SplitSpace(s)[i])
  {
    forall i | 0 <= i < |SplitSpace(s)|
      ensures NoSpace(SplitSpace(s)[i])
    {
      SplitPieceNoSpace(s, i);
    }
  }

  /** Joining the pieces of `split(' ')` with spaces gives the text back. */
  lemma {:induction false} SplitThenJoin(s: string)
    ensures JoinSpace(SplitSpace(s)) == s
    decreases |s|
  {
    var k := IndexOfSpace(s);
    if k >= 0 {
      var t := s[k + 1..];
      SplitThenJoin(t);
      SplitCons(s, k);
      JoinCons(s[..k], SplitSpace(t));
      assert s == s[..k] + " " + t;
    }
  }

  /** Joining space-free pieces with spaces and splitting again gives the
      pieces back. */
  lemma {:induction false} JoinThenSplit(parts: seq<string>)
    requires |parts| >= 1 && forall i :: 0 <= i < |parts| ==> NoSpace(parts[i])
    ensures SplitSpace(JoinSpace(parts)) == parts
    decreases |parts|
  {
    if |parts| > 1 {
      var head, rest := parts[0], parts[1..];
      var tail := JoinSpace(rest);
      var s := head + " " + tail;
      assert parts == [head] + rest;
      JoinCons(head, rest);
      JoinThenSplit(rest);
      forall i | 0 <= i < |head|
        ensures s[i] != ' '
      {
        assert s[i] == head[i];
      }
      FirstSpaceAt(s, |head|);
      SplitCons(s, |head|);
      assert s[..|head|] == head && s[|head| + 1..] == tail;
    }
  }

  /** The text before the first space (all of it when there is none). */
  function FirstWord(s: string): string
  {
    var k := IndexOfSpace(s);
    if k == -1 then s else s[..k]
  }

  /** The text after the last space (all of it when there is none). */
  function LastWord(s: string): string
  {
    s[LastIndexOfSpace(s) + 1..]
  }

  /** `split(' ')` yields one piece exactly when there is no space. */
  lemma SplitSingleIffNoSpace(s: string)
    ensures |SplitSpace(s)| == 1 <==> NoSpace(s)
  {
  }

  /** The first piece of `split(' ')` is the text before the first space. */
  lemma SplitFirst(s: string)
    ensures SplitSpace(s)[0] == FirstWord(s)
  {
  }

  /** A space with no space after it is the last space. */
  lemma LastSpaceUnique(s: string, j: nat)
    requires j < |s| && s[j] == ' ' && forall i :: j < i < |s| ==> s[i] != ' '
    ensures LastIndexOfSpace(s) == j
  {
  }

  /** The last piece of `split(' ')` is the text after the last space. */
  lemma {:induction false} SplitLast(s: string)
    ensures SplitSpace(s)[|SplitSpace(s)| - 1] == LastWord(s)
    decreases |s|
  {
    var k := IndexOfSpace(s);
    if k == -1 {
      assert LastWord(s) == s by {
        assert LastIndexOfSpace(s) == -1;
        assert s[0..] == s;
      }
      assert SplitSpace(s) == [s];
    } else {
      var t := s[k + 1..];
      LastWordAfterFirstSpace(s, k);
      SplitLast(t);
      var rest := SplitSpace(t);
      var parts := SplitSpace(s);
      assert parts == [s[..k]] + rest by {
        assert IndexOfSpace(s) == k;
      }
      assert parts[|parts| - 1] == rest[|rest| - 1] by {
        assert |parts| == |rest| + 1;
        assert parts[|rest|] == rest[|rest| - 1];
      }
    }
  }

  /** The text after a space that has no space after it is the last word. */
  lemma LastWordAt(s: string, j: nat)
    requires j < |s| && s[j] == ' ' && forall i :: j < i < |s| ==> s[i] != ' '
    ensures LastWord(s) == s[j + 1..]
  {
    LastSpaceUnique(s, j);
  }

  /** When nothing after a space is a space, both `s` and the text after
      that space end with that text. */
  lemma NoSpaceAfter(s: string, k: nat)
    requires k < |s| && s[k] == ' ' && NoSpace(s[k + 1..])
    ensures LastWord(s) == s[k + 1..] == LastWord(s[k + 1..])
  {
    var t := s[k + 1..];
    forall i | k < i < |s|
      ensures s[i] != ' '
    {
      assert s[i] == t[i - k - 1];
    }
    LastWordAt(s, k);
    assert LastIndexOfSpace(t) == -1;
    assert t[0..] == t;
  }

  /** The text after the last space is unchanged by dropping everything up
      to and including the first space. */
  lemma LastWordAfterFirstSpace(s: string, k: nat)
    requires k < |s| && s[k] == ' '
    ensures LastWord(s) == LastWord(s[k + 1..])
  {
    var t := s[k + 1..];
    var n := LastIndexOfSpace(t);
    if n >= 0 {
      forall i | k + 1 + n < i < |s|
        ensures s[i] != ' '
      {
        assert s[i] == t[i - k - 1];
      }
      LastWordAt(s, k + 1 + n);
      assert s[k + 1 + n + 1..] == t[n + 1..];
    } else {
      NoSpaceAfter(s, k);
    }
  }
}
