/**
  The parts of Python's `str` that the scripts rely on: whitespace as `str.isspace`
  defines it, `strip`, `split()` on whitespace runs, `split(sep)` on one character,
  `sep.join`, `startswith`, `endswith`, `in` on strings, ASCII case folding and the
  decimal rendering of a natural number.
*/
module PyStr {

  /** `c.isspace()` in Python 3: the characters `str.strip()` and `str.split()` treat as whitespace. */
  predicate IsSpace(c: char) {
    || c == ' '
    || ('\t' <= c <= '\r')
    || ('\U{1c}' <= c <= '\U{1f}')
    || c == '\U{85}' || c == '\U{a0}' || c == '\U{1680}'
    || ('\U{2000}' <= c <= '\U{200a}')
    || c == '\U{2028}' || c == '\U{2029}' || c == '\U{202f}' || c == '\U{205f}' || c == '\U{3000}'
  }

  /** No character of `s` is whitespace. */
  predicate NoSpace(s: string) {
    forall i :: 0 <= i < |s| ==> !IsSpace(s[i])
  }

  /** Every character of `s` is whitespace (so `s.strip()` is empty). */
  predicate AllSpace(s: string) {
    forall i :: 0 <= i < |s| ==> IsSpace(s[i])
  }

  /** Neither end of `s` is whitespace: the shape of a `strip()` result. */
  predicate Stripped(s: string) {
    s == [] || (!IsSpace(s[0]) && !IsSpace(s[|s| - 1]))
  }

  /** `s.lstrip()`: the suffix left after the leading whitespace. */
  function LStrip(s: string): (r: string)
    ensures |r| <= |s| && r == s[|s| - |r|..]
    ensures r == [] || !IsSpace(r[0])
  {
    if s != [] && IsSpace(s[0]) then LStrip(s[1..]) else s
  }

  /** What `lstrip` takes off is whitespace. */
  lemma {:induction false} LStripDropsSpace(s: string)
    ensures AllSpace(s[..|s| - |LStrip(s)|])
  {
    if s != [] && IsSpace(s[0]) {
      LStripDropsSpace(s[1..]);
      var n := |s| - |LStrip(s)|;
      forall i | 0 <= i < n
        ensures IsSpace(s[..n][i])
      {
        if i > 0 {
          assert s[..n][i] == s[1..][..n - 1][i - 1];
        }
      }
    }
  }

  /** `s.rstrip()`: the prefix left before the trailing whitespace. */
  function RStrip(s: string): (r: string)
    ensures |r| <= |s| && r == s[..|r|]
    ensures r == [] || !IsSpace(r[|r| - 1])
  {
    if s != [] && IsSpace(s[|s| - 1]) then RStrip(s[..|s| - 1]) else s
  }

  /** What `rstrip` takes off is whitespace. */
  lemma {:induction false} RStripDropsSpace(s: string)
    ensures AllSpace(s[|RStrip(s)|..])
  {
    if s != [] && IsSpace(s[|s| - 1]) {
      var init := s[..|s| - 1];
      RStripDropsSpace(init);
      var n := |RStrip(s)|;
      forall i | 0 <= i < |s| - n
        ensures IsSpace(s[n..][i])
      {
        if i < |s| - 1 - n {
          assert s[n..][i] == init[n..][i];
        }
      }
    }
  }

  /** `s.strip()`: the middle of `s` once whitespace is taken off both ends. */
  function Strip(s: string): (r: string)
    ensures |r| <= |s|
  {
    RStrip(LStrip(s))
  }

  /** A stripped text has no whitespace at either end, and is empty exactly when the text is all whitespace. */
  lemma StripShape(s: string)
    ensures Stripped(Strip(s))
    ensures Strip(s) == [] <==> AllSpace(s)
  {
    var l := LStrip(s);
    var r := RStrip(l);
    LStripDropsSpace(s);
    RStripDropsSpace(l);
    assert l != [] ==> r != [] by {
      if l != [] { assert !IsSpace(l[0]); }
    }
    assert r == [] ==> AllSpace(s) by {
      if r == [] {
        assert s[..|s| - |l|] == s;
      }
    }
  }

  /** Strip takes off exactly the whitespace at both ends: what it keeps is a slice of `s` with only whitespace around it. */
  lemma StripIsSlice(s: string)
    ensures var r := Strip(s);
      exists i :: 0 <= i <= |s| - |r| && s[i..i + |r|] == r && AllSpace(s[..i]) && AllSpace(s[i + |r|..])
  {
    var l := LStrip(s);
    var r := RStrip(l);
    var i := |s| - |l|;
    LStripDropsSpace(s);
    RStripDropsSpace(l);
    assert s[i..] == l;
    assert s[i..i + |r|] == l[..|r|] == r;
    assert s[i + |r|..] == l[|r|..];
  }

  /** Stripping twice is stripping once. */
  lemma StripIdempotent(s: string)
    ensures Strip(Strip(s)) == Strip(s)
  {
    var r := Strip(s);
    assert LStrip(r) == r;
    assert RStrip(r) == r;
  }

  /** ASCII lower-casing of one character (`str.lower` restricted to A-Z). */
  function LowerChar(c: char): (d: char)
    ensures 'A' <= c <= 'Z' ==> 'a' <= d <= 'z'
    ensures !('A' <= c <= 'Z') ==> d == c
  {
    if 'A' <= c <= 'Z' then (c as int - 'A' as int + 'a' as int) as char else c
  }

  /** `s.lower()` on ASCII letters. */
  function Lower(s: string): (r: string)
    ensures |r| == |s|
    ensures forall i :: 0 <= i < |s| ==> r[i] == LowerChar(s[i])
  {
    seq(|s|, i requires 0 <= i < |s| => LowerChar(s[i]))
  }

  /** `s.startswith(p)`. */
  predicate StartsWith(s: string, p: string) {
    |p| <= |s| && s[..|p|] == p
  }

  /** `s.endswith(p)`. */
  predicate EndsWith(s: string, p: string) {
    |p| <= |s| && s[|s| - |p|..] == p
  }

  /** `needle` occurs in `hay` starting at index `i`. */
  predicate OccursAt(hay: string, needle: string, i: nat) {
    i + |needle| <= |hay| && hay[i..i + |needle|] == needle
  }

  /** `needle in hay` for strings: `needle` occurs somewhere in `hay`. */
  function Contains(hay: string, needle: string): (b: bool)
    ensures b <==> exists i: nat :: OccursAt(hay, needle, i)
    decreases |hay|
  {
    if StartsWith(hay, needle) then
      assert OccursAt(hay, needle, 0);
      true
    else if hay == [] then
      assert forall i: nat :: !OccursAt(hay, needle, i);
      false
    else
      var b := Contains(hay[1..], needle);
      assert b ==> exists i: nat :: OccursAt(hay, needle, i) by {
        if b {
          var j: nat :| OccursAt(hay[1..], needle, j);
          assert hay[j + 1..j + 1 + |needle|] == hay[1..][j..j + |needle|];
          assert OccursAt(hay, needle, j + 1);
        }
      }
      assert (exists i: nat :: OccursAt(hay, needle, i)) ==> b by {
        if exists i: nat :: OccursAt(hay, needle, i) {
          var i: nat :| OccursAt(hay, needle, i);
          assert i != 0;
          assert hay[1..][i - 1..i - 1 + |needle|] == hay[i..i + |needle|];
          assert OccursAt(hay[1..], needle, i - 1);
        }
      }
      b
  }

  /** `sep.join(parts)`. */
  function Join(sep: string, parts: seq<string>): string
  {
    if |parts| == 0 then ""
    else if |parts| == 1 then parts[0]
    else parts[0] + sep + Join(sep, parts[1..])
  }

  /** The index of the first `c` in `s`, or `|s|` when there is none. */
  function Find(s: string, c: char): (i: nat)
    ensures i <= |s|
    ensures c !in s[..i]
    ensures i < |s| ==> s[i] == c
  {
    if s == [] then 0
    else if s[0] == c then 0
    else
      var j := Find(s[1..], c);
      assert s[..j + 1] == [s[0]] + s[1..][..j];
      j + 1
  }

  /** `s.split(c)` for a one-character separator: the pieces between separators, empty ones kept. */
  function SplitOn(s: string, c: char): (r: seq<string>)
    ensures |r| >= 1
    decreases |s|
  {
    var i := Find(s, c);
    if i == |s| then [s]
    else [s[..i]] + SplitOn(s[i + 1..], c)
  }

  /** Splitting on `c` and joining with `c` gives the text back. */
  lemma {:induction false} JoinSplitOn(s: string, c: char)
    ensures Join([c], SplitOn(s, c)) == s
    decreases |s|
  {
    var i := Find(s, c);
    if i < |s| {
      var piece, tail := s[..i], s[i + 1..];
      var rest := SplitOn(tail, c);
      JoinSplitOn(tail, c);
      SplitOnAt(s, c, i);
      JoinCons([c], piece, rest);
      Around(s, i);
    }
  }

  /** `Find` returns the first occurrence: any index holding `c` with no `c` before it. */
  lemma {:induction false} FindIs(s: string, c: char, i: nat)
    requires i < |s| && s[i] == c && c !in s[..i]
    ensures Find(s, c) == i
  {
    if i > 0 {
      assert s[0] in s[..i];
      assert s[1..][..i - 1] == s[1..i];
      assert forall x :: x in s[1..i] ==> x in s[..i];
      FindIs(s[1..], c, i - 1);
    }
  }

  /** A text without `c` splits into itself. */
  lemma SplitOnNoSep(a: string, c: char)
    requires c !in a
    ensures SplitOn(a, c) == [a]
  {
    assert a[..Find(a, c)] == a;
  }

  /** A text is what comes before position `i`, the character there, and what follows. */
  lemma Around(s: string, i: nat)
    requires i < |s|
    ensures s == s[..i] + [s[i]] + s[i + 1..]
  {
  }

  /** At the first separator, the split is the piece before it and the split of what follows. */
  lemma SplitOnAt(s: string, c: char, i: nat)
    requires i < |s| && s[i] == c && c !in s[..i]
    ensures SplitOn(s, c) == [s[..i]] + SplitOn(s[i + 1..], c)
  {
    FindIs(s, c, i);
  }

  /** Splitting at a separator splits each side. */
  lemma {:induction false} SplitOnAppend(a: string, b: string, c: char)
    ensures SplitOn(a + [c] + b, c) == SplitOn(a, c) + SplitOn(b, c)
    decreases |a|
  {
    var s := a + [c] + b;
    var j := Find(a, c);
    if j == |a| {
      SplitOnAppendFirst(a, b, c);
    } else {
      var rest, head := a[j + 1..], a[..j];
      JoinedBefore(a, c, b, j);
      assert s[..j] == head && s[j] == c && s[j + 1..] == rest + [c] + b;
      SplitOnAt(s, c, j);
      SplitOnAt(a, c, j);
      SplitOnAppend(rest, b, c);
      var l, r := SplitOn(rest, c), SplitOn(b, c);
      var hl := [head] + l;
      assert SplitOn(a, c) == hl;
      var whole := [head] + (l + r);
      assert SplitOn(s, c) == whole;
      forall k | 0 <= k < |whole|
        ensures whole[k] == (hl + r)[k]
      {
      }
      assert whole == hl + r;
    }
  }

  /** When `a` holds no separator, the added one is the first cut. */
  lemma SplitOnAppendFirst(a: string, b: string, c: char)
    requires Find(a, c) == |a|
    ensures SplitOn(a + [c] + b, c) == SplitOn(a, c) + SplitOn(b, c)
  {
    JoinedAt(a, c, b);
    assert a[..|a|] == a;
    SplitOnAt(a + [c] + b, c, |a|);
    SplitOnNoSep(a, c);
  }

  lemma JoinedAt(a: string, c: char, b: string)
    ensures (a + [c] + b)[..|a|] == a && (a + [c] + b)[|a|] == c && (a + [c] + b)[|a| + 1..] == b
  {
  }

  /** The pieces of `a + [c] + b` around a position `j` inside `a`. */
  lemma JoinedBefore(a: string, c: char, b: string, j: nat)
    requires j < |a|
    ensures var s := a + [c] + b;
      s[..j] == a[..j] && s[j] == a[j] && s[j + 1..] == a[j + 1..] + [c] + b
  {
  }

  /** Joining a list of two or more: its head, the separator, the join of the rest. */
  lemma JoinCons(sep: string, x: string, xs: seq<string>)
    requires xs != []
    ensures Join(sep, [x] + xs) == x + sep + Join(sep, xs)
  {
    assert ([x] + xs)[1..] == xs;
  }

  /** Joining two non-empty lists puts one separator between their joins. */
  lemma {:induction false} JoinAppend(sep: string, a: seq<string>, b: seq<string>)
    requires a != [] && b != []
    ensures Join(sep, a + b) == Join(sep, a) + sep + Join(sep, b)
  {
    assert (a + b)[0] == a[0];
    assert (a + b)[1..] == a[1..] + b;
    if |a| > 1 {
      JoinAppend(sep, a[1..], b);
    }
  }

  /** The length of the leading run of non-whitespace characters of `s`. */
  function WordEnd(s: string): (k: nat)
    ensures k <= |s|
    ensures NoSpace(s[..k])
    ensures k < |s| ==> IsSpace(s[k])
  {
    if s == [] || IsSpace(s[0]) then 0
    else
      var k := WordEnd(s[1..]);
      assert s[..k + 1] == [s[0]] + s[1..][..k];
      k + 1
  }

  /** `s.split()`: the maximal runs of non-whitespace characters, in order. */
  function SplitWs(s: string): seq<string>
    decreases |s|
  {
    var t := LStrip(s);
    if t == [] then []
    else [t[..WordEnd(t)]] + SplitWs(t[WordEnd(t)..])
  }

  /** The words of a split are non-empty and hold no whitespace. */
  lemma {:induction false} SplitWsWords(s: string)
    ensures AreWords(SplitWs(s))
    decreases |s|
  {
    var t := LStrip(s);
    if t != [] {
      var k := WordEnd(t);
      assert k != 0 by {
        assert !IsSpace(t[0]);
      }
      SplitWsWords(t[k..]);
      AreWordsCons(t[..k], SplitWs(t[k..]));
    }
  }

  /** Every element is a non-empty run of non-whitespace characters. */
  predicate AreWords(ws: seq<string>) {
    forall j :: 0 <= j < |ws| ==> ws[j] != [] && NoSpace(ws[j])
  }

  /** A word in front of words. */
  lemma AreWordsCons(w: string, ws: seq<string>)
    requires w != [] && NoSpace(w) && AreWords(ws)
    ensures AreWords([w] + ws)
  {
    var r := [w] + ws;
    forall j | 1 <= j < |r|
      ensures r[j] != [] && NoSpace(r[j])
    {
      assert r[j] == ws[j - 1];
    }
  }

  /** Joining non-empty whitespace-free words with single spaces and splitting on whitespace gives the words back. */
  lemma {:induction false} SplitWsJoin(words: seq<string>)
    requires AreWords(words)
    ensures SplitWs(Join(" ", words)) == words
  {
    if |words| == 1 {
      assert words == [words[0]];
      SplitWsWord(words[0]);
    } else if |words| > 1 {
      var w, more := words[0], words[1..];
      assert words == [w] + more;
      AreWordsTail(words);
      SplitWsJoin(more);
      SplitWsJoinStep(w, more);
    }
  }

  /** The words after the first are words. */
  lemma AreWordsTail(ws: seq<string>)
    requires ws != [] && AreWords(ws)
    ensures AreWords(ws[1..])
  {
    assert forall k :: 0 <= k < |ws| - 1 ==> ws[1..][k] == ws[k + 1];
  }

  /** One step of `SplitWsJoin`: a first word in front of words that split back. */
  lemma SplitWsJoinStep(w: string, more: seq<string>)
    requires w != [] && NoSpace(w) && more != []
    requires SplitWs(Join(" ", more)) == more
    ensures SplitWs(Join(" ", [w] + more)) == [w] + more
  {
    var rest := Join(" ", more);
    JoinCons(" ", w, more);
    SplitWsSpaced(w, rest);
  }

  /** A single word splits into itself. */
  lemma SplitWsWord(w: string)
    requires w != [] && NoSpace(w)
    ensures SplitWs(w) == [w]
  {
    assert w + [] == w;
    SplitWsCons(w, []);
  }

  /** A word, a space and a text split into the word followed by the text's words. */
  lemma SplitWsSpaced(w: string, rest: string)
    requires w != [] && NoSpace(w)
    ensures SplitWs(w + " " + rest) == [w] + SplitWs(rest)
  {
    var tail := " " + rest;
    assert w + " " + rest == w + tail;
    assert IsSpace(tail[0]);
    SplitWsCons(w, tail);
    SplitWsLeadingSpace(rest);
  }

  /** A leading word followed by nothing or by whitespace is the first word of the split. */
  lemma SplitWsCons(w: string, tail: string)
    requires w != [] && NoSpace(w)
    requires tail == [] || IsSpace(tail[0])
    ensures SplitWs(w + tail) == [w] + SplitWs(tail)
  {
    var s := w + tail;
    assert LStrip(s) == s;
    WordEndOfWord(w, tail);
    assert s[..|w|] == w;
    assert s[|w|..] == tail;
  }

  /** A leading space does not change the split. */
  lemma SplitWsLeadingSpace(t: string)
    ensures SplitWs(" " + t) == SplitWs(t)
  {
    assert (" " + t)[1..] == t;
    assert LStrip(" " + t) == LStrip(t);
  }

  /** The first word of `w + tail` ends where `w` ends, when `w` has no whitespace and `tail` is empty or starts with some. */
  lemma {:induction false} WordEndOfWord(w: string, tail: string)
    requires NoSpace(w) && (tail == [] || IsSpace(tail[0]))
    ensures WordEnd(w + tail) == |w|
  {
    if w != [] {
      assert (w + tail)[1..] == w[1..] + tail;
      WordEndOfWord(w[1..], tail);
    } else {
      assert w + tail == tail;
    }
  }

  /** The decimal digits of `n`, as Python's `str(n)` writes a non-negative int. */
  function NatToString(n: nat): (s: string)
    ensures s != []
    ensures forall i :: 0 <= i < |s| ==> '0' <= s[i] <= '9'
  {
    var d := ['0' + (n % 10) as char];
    if n < 10 then d else NatToString(n / 10) + d
  }
}
