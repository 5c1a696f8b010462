/**
  String helpers shared by the shopping list and the search ranking: ASCII
  lower-casing, substring and prefix tests, `indexOf`, the `\b...\b`
  whole-word test, trimming and splitting on whitespace runs.
*/
module Text {

  predicate IsUpper(c: char) { 'A' <= c <= 'Z' }

  function Lower(c: char): (r: char)
    ensures !IsUpper(r)
    ensures !IsUpper(c) ==> r == c
  {
    if IsUpper(c) then (c as int + 32) as char else c
  }

  /** `toLowerCase` on ASCII letters. */
  function ToLower(s: string): (r: string)
    ensures |r| == |s| && forall k | 0 <= k < |s| :: r[k] == Lower(s[k])
  {
    if |s| == 0 then [] else [Lower(s[0])] + ToLower(s[1..])
  }

  lemma {:induction false} ToLowerIdempotent(s: string)
    ensures ToLower(ToLower(s)) == ToLower(s)
  {
    var once := ToLower(s);
    assert forall k | 0 <= k < |s| :: Lower(once[k]) == once[k];
  }

  /** The regular-expression word characters `[A-Za-z0-9_]`. */
  predicate IsWordChar(c: char) {
    ('a' <= c <= 'z') || ('A' <= c <= 'Z') || ('0' <= c <= '9') || c == '_'
  }

  /** The whitespace of `\s` and `trim` within ASCII: space, tab, line feed, vertical tab, form feed, carriage return. */
  predicate IsSpace(c: char) {
    c == ' ' || c == '\t' || c == '\n' || c == '\U{000B}' || c == '\U{000C}' || c == '\r'
  }

  /** Characters that carry meaning inside a regular expression. */
  predicate IsRegexMeta(c: char) {
    c == '\\' || c == '^' || c == '$' || c == '.' || c == '|' || c == '?' || c == '*' || c == '+'
      || c == '(' || c == ')' || c == '[' || c == ']' || c == '{' || c == '}'
  }

  predicate NoRegexMeta(s: string) {
    forall k | 0 <= k < |s| :: !IsRegexMeta(s[k])
  }

  /** `t` holds `q` at position `i`. */
  predicate MatchAt(t: string, q: string, i: int) {
    0 <= i && i + |q| <= |t| && t[i..i + |q|] == q
  }

  /** `t.includes(q)`. */
  predicate Contains(t: string, q: string) {
    exists i | 0 <= i <= |t| - |q| :: MatchAt(t, q, i)
  }

  /** `t.startsWith(q)`. */
  predicate StartsWith(t: string, q: string) {
    MatchAt(t, q, 0)
  }

  /** A word character at position `p`; positions outside the string are not. */
  predicate WordAt(t: string, p: int) {
    0 <= p < |t| && IsWordChar(t[p])
  }

  /** `\b`: exactly one side of position `p` is a word character. */
  predicate Boundary(t: string, p: int) {
    WordAt(t, p - 1) != WordAt(t, p)
  }

  /** `\bq\b` matches at `i`. */
  predicate WholeWordAt(t: string, q: string, i: int) {
    MatchAt(t, q, i) && Boundary(t, i) && Boundary(t, i + |q|)
  }

  /** The test of `new RegExp("\\b" + q + "\\b", "i")` on a lower-case `t`, for a lower-case `q` free of metacharacters. */
  predicate ContainsWholeWord(t: string, q: string) {
    exists i | 0 <= i <= |t| :: WholeWordAt(t, q, i)
  }

  lemma WholeWordIsContained(t: string, q: string)
    ensures ContainsWholeWord(t, q) ==> Contains(t, q)
  {
  }

  /** A whole string is a whole word of itself when it starts and ends with word characters. */
  lemma WholeWordOfItself(q: string)
    requires |q| > 0 && IsWordChar(q[0]) && IsWordChar(q[|q| - 1])
    ensures ContainsWholeWord(q, q)
  {
    assert WholeWordAt(q, q, 0);
  }

  /** `t.indexOf(q, from)` for a non-empty `q`: the first match at or after `from`, or -1. */
  function IndexOf(t: string, q: string, from: nat): (r: int)
    requires |q| > 0
    ensures r == -1 || (from <= r && MatchAt(t, q, r))
    ensures forall i | from <= i && (r == -1 || i < r) :: !MatchAt(t, q, i)
    decreases |t| - from
  {
    if from + |q| > |t| then -1
    else if t[from..from + |q|] == q then from
    else IndexOf(t, q, from + 1)
  }

  /** The first position at or after `i` that is not whitespace, or the end. */
  function SkipSpaces(s: string, i: nat): (j: nat)
    requires i <= |s|
    ensures i <= j <= |s|
    ensures forall k | i <= k < j :: IsSpace(s[k])
    ensures j < |s| ==> !IsSpace(s[j])
    decreases |s| - i
  {
    if i < |s| && IsSpace(s[i]) then SkipSpaces(s, i + 1) else i
  }

  /** The end of `s[lo..j]` once its trailing whitespace is cut off. */
  function BackSpaces(s: string, lo: nat, j: nat): (e: nat)
    requires lo <= j <= |s|
    ensures lo <= e <= j
    ensures forall k | e <= k < j :: IsSpace(s[k])
    ensures e > lo ==> !IsSpace(s[e - 1])
    decreases j
  {
    if j > lo && IsSpace(s[j - 1]) then BackSpaces(s, lo, j - 1) else j
  }

  /** The string without its leading whitespace. */
  function TrimStart(s: string): (r: string)
    ensures |r| <= |s| && r == s[|s| - |r|..]
    ensures forall k | 0 <= k < |s| - |r| :: IsSpace(s[k])
    ensures |r| > 0 ==> !IsSpace(r[0])
  {
    s[SkipSpaces(s, 0)..]
  }

  /** `r` sits at position `i` of `s` with only whitespace before and after it. */
  predicate TrimmedAt(s: string, r: string, i: int) {
    && 0 <= i <= |s| - |r|
    && r == s[i..i + |r|]
    && (forall k | 0 <= k < i :: IsSpace(s[k]))
    && (forall k | i + |r| <= k < |s| :: IsSpace(s[k]))
  }

  /** `trim`: the middle of `s` left once the whitespace at both ends is cut off. */
  function Trim(s: string): (r: string)
    ensures |r| > 0 ==> !IsSpace(r[0]) && !IsSpace(r[|r| - 1])
    ensures exists i | 0 <= i <= |s| - |r| :: TrimmedAt(s, r, i)
  {
    var i := SkipSpaces(s, 0);
    var e := BackSpaces(s, i, |s|);
    assert TrimmedAt(s, s[i..e], i);
    s[i..e]
  }

  /**
    `s.split(/\s+/)` continued from a piece `cur` already collected: a
    whitespace run ends the piece, the run itself is dropped, and the last
    piece may be empty.
  */
  function SplitFrom(s: string, cur: string): (r: seq<string>)
    decreases |s|
  {
    if |s| == 0 then [cur]
    else if IsSpace(s[0]) then [cur] + SplitFrom(TrimStart(s), "")
    else SplitFrom(s[1..], cur + [s[0]])
  }

  /** `s.split(/\s+/)`. */
  function SplitWhitespace(s: string): seq<string> {
    SplitFrom(s, "")
  }

  predicate NoSpace(w: string) {
    forall k | 0 <= k < |w| :: !IsSpace(w[k])
  }

  predicate AllSpace(w: string) {
    forall k | 0 <= k < |w| :: IsSpace(w[k])
  }

  /** The whitespace runs of `s`, in order: what a split drops between its pieces. */
  function Gaps(s: string): (r: seq<string>)
    decreases |s|
  {
    if |s| == 0 then []
    else if IsSpace(s[0]) then [s[..SkipSpaces(s, 0)]] + Gaps(s[SkipSpaces(s, 0)..])
    else Gaps(s[1..])
  }

  /** Each gap is a non-empty whitespace run. */
  lemma {:induction false} GapsAreSpace(s: string)
    ensures forall k | 0 <= k < |Gaps(s)| :: |Gaps(s)[k]| > 0 && AllSpace(Gaps(s)[k])
    decreases |s|
  {
    if |s| > 0 {
      if IsSpace(s[0]) {
        GapsAreSpace(s[SkipSpaces(s, 0)..]);
      } else {
        GapsAreSpace(s[1..]);
      }
    }
  }

  /** The pieces with the gaps put back between them. */
  function Interleave(pieces: seq<string>, gaps: seq<string>): (r: string)
    requires |pieces| == |gaps| + 1
    decreases |gaps|
  {
    if |gaps| == 0 then pieces[0]
    else pieces[0] + gaps[0] + Interleave(pieces[1..], gaps[1..])
  }

  /** The pieces of a split hold no whitespace, and there is always at least one. */
  lemma {:induction false} SplitFromNoSpace(s: string, cur: string)
    requires NoSpace(cur)
    ensures |SplitFrom(s, cur)| >= 1
    ensures forall k | 0 <= k < |SplitFrom(s, cur)| :: NoSpace(SplitFrom(s, cur)[k])
    decreases |s|
  {
    if |s| == 0 {
    } else if IsSpace(s[0]) {
      SplitFromNoSpace(TrimStart(s), "");
    } else {
      SplitFromNoSpace(s[1..], cur + [s[0]]);
    }
  }

  /**
    Putting the whitespace runs back between the pieces of a split gives the
    input (after the piece `cur` already collected): with the pieces free of
    whitespace and the runs non-empty whitespace, the pieces are the maximal
    whitespace-free runs in order.
  */
  lemma {:induction false} SplitRejoin(s: string, cur: string)
    ensures |SplitFrom(s, cur)| == |Gaps(s)| + 1
    ensures Interleave(SplitFrom(s, cur), Gaps(s)) == cur + s
    decreases |s|
  {
    if |s| == 0 {
      assert cur + s == cur;
    } else if IsSpace(s[0]) {
      SplitRejoin(TrimStart(s), "");
      RejoinAtSpace(s, cur);
    } else {
      SplitRejoin(s[1..], cur + [s[0]]);
      assert cur + [s[0]] + s[1..] == cur + s;
      RejoinAtWord(s, cur);
    }
  }

  lemma RejoinAtSpace(s: string, cur: string)
    requires |s| > 0 && IsSpace(s[0])
    requires |SplitFrom(TrimStart(s), "")| == |Gaps(TrimStart(s))| + 1
    requires Interleave(SplitFrom(TrimStart(s), ""), Gaps(TrimStart(s))) == TrimStart(s)
    ensures |SplitFrom(s, cur)| == |Gaps(s)| + 1
    ensures Interleave(SplitFrom(s, cur), Gaps(s)) == cur + s
  {
    var t := TrimStart(s);
    var gap := s[..SkipSpaces(s, 0)];
    var ps := SplitFrom(s, cur);
    var gs := Gaps(s);
    assert ps == [cur] + SplitFrom(t, "");
    assert gs == [gap] + Gaps(t);
    assert ps[1..] == SplitFrom(t, "") && gs[1..] == Gaps(t);
    assert Interleave(ps, gs) == cur + gap + t;
    JoinSplitAt(cur, s, SkipSpaces(s, 0));
  }

  lemma JoinSplitAt(cur: string, s: string, i: nat)
    requires i <= |s|
    ensures cur + s[..i] + s[i..] == cur + s
  {
    assert s[..i] + s[i..] == s;
  }

  lemma RejoinAtWord(s: string, cur: string)
    requires |s| > 0 && !IsSpace(s[0])
    requires |SplitFrom(s[1..], cur + [s[0]])| == |Gaps(s[1..])| + 1
    requires Interleave(SplitFrom(s[1..], cur + [s[0]]), Gaps(s[1..])) == cur + s
    ensures |SplitFrom(s, cur)| == |Gaps(s)| + 1
    ensures Interleave(SplitFrom(s, cur), Gaps(s)) == cur + s
  {
    assert SplitFrom(s, cur) == SplitFrom(s[1..], cur + [s[0]]);
    assert Gaps(s) == Gaps(s[1..]);
  }

  /** A string with no outer whitespace splits into non-empty pieces only. */
  lemma {:induction false} SplitFromNonEmpty(s: string, cur: string)
    requires |cur| > 0 || (|s| > 0 && !IsSpace(s[0]))
    requires |s| > 0 ==> !IsSpace(s[|s| - 1])
    ensures forall k | 0 <= k < |SplitFrom(s, cur)| :: |SplitFrom(s, cur)[k]| > 0
    decreases |s|
  {
    if |s| == 0 {
    } else if IsSpace(s[0]) {
      var rest := TrimStart(s);
      assert |rest| > 0 by {
        assert !IsSpace(s[|s| - 1]);
      }
      SplitFromNonEmpty(rest, "");
    } else {
      SplitFromNonEmpty(s[1..], cur + [s[0]]);
    }
  }
}
