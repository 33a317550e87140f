/** Python `str` behaviour that the pipeline relies on: `startswith`, the `in`
    substring test, clamped slices, `strip()` and `split()` with no arguments.
    Strings are sequences of Unicode scalar values, as Python's `str` is. */
module PyStr {

  /** `c.isspace()`: the characters Python's `str.strip()` and `str.split()`
      treat as whitespace. */
  predicate IsSpace(c: char) {
    ('\t' <= c <= '\r') || ('\U{1C}' <= c <= '\U{1F}') || c == ' '
    || c == '\U{85}' || c == '\U{A0}' || c == '\U{1680}'
    || ('\U{2000}' <= c <= '\U{200A}') || c == '\U{2028}' || c == '\U{2029}'
    || c == '\U{202F}' || c == '\U{205F}' || c == '\U{3000}'
  }

  predicate AllSpace(s: string) {
    forall k :: 0 <= k < |s| ==> IsSpace(s[k])
  }

  predicate NoSpace(s: string) {
    forall k :: 0 <= k < |s| ==> !IsSpace(s[k])
  }

  /** `s.startswith(p)` */
  predicate StartsWith(s: string, p: string) {
    |p| <= |s| && s[..|p|] == p
  }

  function Min(a: int, b: int): int {
    if a <= b then a else b
  }

  /** `s[lo:hi]` for non-negative bounds: Python clamps both bounds to the
      length, so a slice never fails; on a short string it is shorter or empty. */
  function Slice(s: string, lo: nat, hi: nat): (r: string)
    ensures |r| == if Min(hi, |s|) <= lo then 0 else Min(hi, |s|) - lo
    ensures forall k :: 0 <= k < |r| ==> r[k] == s[lo + k]
  {
    var a := Min(lo, |s|);
    var b := Min(hi, |s|);
    if a < b then s[a..b] else ""
  }

  /** `s[lo:]` for a non-negative bound. */
  function SliceFrom(s: string, lo: nat): (r: string)
    ensures |r| == if |s| <= lo then 0 else |s| - lo
    ensures forall k :: 0 <= k < |r| ==> r[k] == s[lo + k]
  {
    Slice(s, lo, |s|)
  }

  /** `pat in s`, the substring test, scanning from the left. */
  predicate Contains(s: string, pat: string)
    decreases |s|
  {
    StartsWith(s, pat) || (|s| > 0 && Contains(s[1..], pat))
  }

  /** `pat` occurs in `s` starting at index `i`. */
  predicate OccursAt(s: string, pat: string, i: nat) {
    i + |pat| <= |s| && s[i..i + |pat|] == pat
  }

  /** The scan finds every occurrence. */
  lemma {:induction false} OccursThenContains(s: string, pat: string, i: nat)
    requires OccursAt(s, pat, i)
    ensures Contains(s, pat)
    decreases i
  {
    if i == 0 {
      assert s[..|pat|] == s[0..|pat|];
    } else {
      assert s[1..][i - 1..i - 1 + |pat|] == s[i..i + |pat|];
      OccursThenContains(s[1..], pat, i - 1);
    }
  }

  /** What the scan finds is an occurrence. */
  lemma {:induction false} ContainsThenOccurs(s: string, pat: string)
    requires Contains(s, pat)
    ensures exists i: nat :: OccursAt(s, pat, i)
    decreases |s|
  {
    if StartsWith(s, pat) {
      assert s[0..|pat|] == s[..|pat|];
      assert OccursAt(s, pat, 0);
    } else {
      ContainsThenOccurs(s[1..], pat);
      var i: nat :| OccursAt(s[1..], pat, i);
      assert s[1..][i..i + |pat|] == s[i + 1..i + 1 + |pat|];
      assert OccursAt(s, pat, i + 1);
    }
  }

  /** The scan agrees with the textbook definition of "is a substring of". */
  lemma ContainsIffOccurs(s: string, pat: string)
    ensures Contains(s, pat) <==> exists i: nat :: OccursAt(s, pat, i)
  {
    if Contains(s, pat) {
      ContainsThenOccurs(s, pat);
    }
    if i: nat :| OccursAt(s, pat, i) {
      OccursThenContains(s, pat, i);
    }
  }

  /** `s.lstrip()` */
  function TrimLeft(s: string): string {
    if s != [] && IsSpace(s[0]) then TrimLeft(s[1..]) else s
  }

  /** `lstrip` removes exactly the leading whitespace. */
  lemma {:induction false} TrimLeftSpec(s: string)
    ensures |TrimLeft(s)| <= |s| && TrimLeft(s) == s[|s| - |TrimLeft(s)|..]
    ensures AllSpace(s[..|s| - |TrimLeft(s)|])
    ensures TrimLeft(s) == [] || !IsSpace(TrimLeft(s)[0])
  {
    if s != [] && IsSpace(s[0]) {
      var r := TrimLeft(s[1..]);
      TrimLeftSpec(s[1..]);
      assert s[1..][..|s| - 1 - |r|] == s[1..|s| - |r|];
    }
  }

  /** `s.rstrip()` */
  function TrimRight(s: string): string {
    if s != [] && IsSpace(s[|s| - 1]) then TrimRight(s[..|s| - 1]) else s
  }

  /** `rstrip` removes exactly the trailing whitespace. */
  lemma {:induction false} TrimRightSpec(s: string)
    ensures |TrimRight(s)| <= |s| && TrimRight(s) == s[..|TrimRight(s)|]
    ensures AllSpace(s[|TrimRight(s)|..])
    ensures TrimRight(s) == [] || !IsSpace(TrimRight(s)[|TrimRight(s)| - 1])
  {
    if s != [] && IsSpace(s[|s| - 1]) {
      var r := TrimRight(s[..|s| - 1]);
      TrimRightSpec(s[..|s| - 1]);
      assert s[..|s| - 1][|r|..] + [s[|s| - 1]] == s[|r|..];
    }
  }

  /** `s.strip()` */
  function Strip(s: string): string {
    TrimRight(TrimLeft(s))
  }

  /** `r` is `s[i..i + |r|]` and everything around it is whitespace. */
  predicate StrippedAt(s: string, r: string, i: nat) {
    i + |r| <= |s| && r == s[i..i + |r|] && AllSpace(s[..i]) && AllSpace(s[i + |r|..])
  }

  /** `strip` leaves the piece of `s` inside the whitespace on either side,
      and that piece neither starts nor ends with whitespace. */
  lemma StripSpec(s: string)
    ensures |Strip(s)| <= |s|
    ensures exists i: nat :: StrippedAt(s, Strip(s), i)
    ensures Strip(s) == [] || (!IsSpace(Strip(s)[0]) && !IsSpace(Strip(s)[|Strip(s)| - 1]))
  {
    var t := TrimLeft(s);
    var r := TrimRight(t);
    TrimLeftSpec(s);
    TrimRightSpec(t);
    var i := |s| - |t|;
    assert s[i..][..|r|] == s[i..i + |r|];
    assert s[i..][|r|..] == s[i + |r|..];
    assert StrippedAt(s, r, i);
  }

  /** Leading whitespace in front of text that does not start with
      whitespace is exactly what `lstrip` removes. */
  lemma {:induction false} TrimLeftSkips(pre: string, x: string)
    requires AllSpace(pre) && (x == [] || !IsSpace(x[0]))
    ensures TrimLeft(pre + x) == x
    decreases |pre|
  {
    if pre == [] {
      assert pre + x == x;
    } else {
      assert (pre + x)[1..] == pre[1..] + x;
      TrimLeftSkips(pre[1..], x);
    }
  }

  /** Trailing whitespace behind text that does not end with whitespace is
      exactly what `rstrip` removes. */
  lemma {:induction false} TrimRightSkips(x: string, post: string)
    requires AllSpace(post) && (x == [] || !IsSpace(x[|x| - 1]))
    ensures TrimRight(x + post) == x
    decreases |post|
  {
    if post == [] {
      assert x + post == x;
    } else {
      assert (x + post)[..|x + post| - 1] == x + post[..|post| - 1];
      TrimRightSkips(x, post[..|post| - 1]);
    }
  }

  /** Converse of `StripSpec`: text that neither starts nor ends with
      whitespace, padded with whitespace on both sides, strips back to
      itself. */
  lemma StripPadded(pre: string, w: string, post: string)
    requires AllSpace(pre) && AllSpace(post)
    requires w != [] && !IsSpace(w[0]) && !IsSpace(w[|w| - 1])
    ensures Strip(pre + w + post) == w
  {
    assert pre + w + post == pre + (w + post);
    TrimLeftSkips(pre, w + post);
    TrimRightSkips(w, post);
  }

  /** A single character strips to nothing when it is whitespace and to
      itself otherwise. */
  lemma StripChar(c: char)
    ensures Strip([c]) == if IsSpace(c) then "" else [c]
  {
    if IsSpace(c) {
      assert TrimLeft([c]) == TrimLeft([c][1..]) == "";
    } else {
      assert TrimLeft([c]) == [c];
    }
  }

  /** `s.split()`: the maximal runs of non-whitespace characters, left to
      right. */
  function Split(s: string): seq<string> {
    SplitFrom(s, "")
  }

  /** The scan behind `Split`: `word` is the run of non-whitespace characters
      read so far and not yet emitted. */
  function SplitFrom(s: string, word: string): seq<string>
    decreases |s|
  {
    if s == [] then
      (if word == [] then [] else [word])
    else if IsSpace(s[0]) then
      (if word == [] then [] else [word]) + SplitFrom(s[1..], "")
    else
      SplitFrom(s[1..], word + [s[0]])
  }

  /** No token is empty and no token holds whitespace. */
  lemma {:induction false} SplitFromWords(s: string, word: string)
    requires NoSpace(word)
    ensures forall k :: 0 <= k < |SplitFrom(s, word)| ==>
      SplitFrom(s, word)[k] != [] && NoSpace(SplitFrom(s, word)[k])
    decreases |s|
  {
    if s == [] {
    } else if IsSpace(s[0]) {
      SplitFromWords(s[1..], "");
    } else {
      SplitFromWords(s[1..], word + [s[0]]);
    }
  }

  lemma SplitWords(s: string)
    ensures forall k :: 0 <= k < |Split(s)| ==> Split(s)[k] != [] && NoSpace(Split(s)[k])
  {
    SplitFromWords(s, "");
  }

  /** Leading whitespace does not change the split. */
  lemma {:induction false} SplitSkipsSpace(sp: string, s: string)
    requires AllSpace(sp)
    ensures Split(sp + s) == Split(s)
    decreases |sp|
  {
    if sp != [] {
      assert (sp + s)[1..] == sp[1..] + s;
      SplitSkipsSpace(sp[1..], s);
    } else {
      assert sp + s == s;
    }
  }

  /** Whitespace-free characters extend the pending word. */
  lemma {:induction false} SplitFromWord(w: string, s: string, word: string)
    requires NoSpace(w)
    ensures SplitFrom(w + s, word) == SplitFrom(s, word + w)
    decreases |w|
  {
    if w == [] {
      assert w + s == s;
      assert word + w == word;
    } else {
      assert (w + s)[1..] == w[1..] + s;
      SplitFromWord(w[1..], s, word + [w[0]]);
      assert word + [w[0]] + w[1..] == word + w;
    }
  }

  /** A whitespace-free word followed by whitespace (or the end) is split off
      as one token. */
  lemma SplitToken(w: string, s: string)
    requires w != [] && NoSpace(w)
    requires s == [] || IsSpace(s[0])
    ensures Split(w + s) == [w] + Split(s)
  {
    SplitFromWord(w, s, "");
    assert "" + w == w;
  }

  /** A word, one space, then more text: the word is the first token. */
  lemma SplitWordSpace(w: string, rest: string)
    requires w != [] && NoSpace(w)
    ensures Split(w + " " + rest) == [w] + Split(rest)
  {
    assert w + " " + rest == w + (" " + rest);
    SplitToken(w, " " + rest);
    SplitSkipsSpace(" ", rest);
  }

  /** A word, a run of whitespace, then more text: the word is the first
      token and the whitespace separates it from the rest. */
  lemma SplitWordGap(w: string, gap: string, rest: string)
    requires w != [] && NoSpace(w)
    requires gap != [] && AllSpace(gap)
    ensures Split(w + gap + rest) == [w] + Split(rest)
  {
    assert w + gap + rest == w + (gap + rest);
    assert (gap + rest)[0] == gap[0];
    SplitToken(w, gap + rest);
    SplitSkipsSpace(gap, rest);
  }

  /** `" ".join(words)` */
  function JoinSpaced(words: seq<string>): string {
    if words == [] then ""
    else if |words| == 1 then words[0]
    else words[0] + " " + JoinSpaced(words[1..])
  }

  /** Round trip: splitting words joined by single spaces gives the words
      back, when each word is non-empty and holds no whitespace. */
  lemma {:induction false} SplitJoinSpaced(words: seq<string>)
    requires forall k :: 0 <= k < |words| ==> words[k] != [] && NoSpace(words[k])
    ensures Split(JoinSpaced(words)) == words
  {
    if |words| == 1 {
      SplitToken(words[0], "");
      assert words[0] + "" == words[0];
    } else if words != [] {
      var tail := words[1..];
      forall k | 0 <= k < |tail| ensures tail[k] != [] && NoSpace(tail[k]) {
        assert tail[k] == words[k + 1];
      }
      SplitJoinSpaced(tail);
      SplitWordSpace(words[0], JoinSpaced(tail));
      assert [words[0]] + tail == words;
    }
  }
}
