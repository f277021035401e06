/**
  The recording-file name grammar of the status updater. A full name is
  `DATE_SPEAKER_DOMAIN_krd_<digits>_<letters>.wav`, matched case-insensitively from the
  start, where the speaker may itself contain underscores. When the full grammar does
  not match, the parser falls back to the leftmost `krd_<digits>_<letters>` anywhere in
  the name. Character classes are the ASCII ones.
*/
module FilenameParser {
  import opened Wrappers
  import opened PyStr

  /** What `parse_filename` returns: the groups of the full match, or only the sentence id. */
  datatype Parsed = Parsed(date: Option<string>, speakerId: Option<string>, domain: Option<string>, sentenceId: string)

  /** `\d`. */
  predicate IsDigit(c: char) {
    '0' <= c <= '9'
  }

  predicate IsLetter(c: char) {
    ('a' <= c <= 'z') || ('A' <= c <= 'Z')
  }

  /** `[A-Za-z0-9_]`. */
  predicate IsSpeakerChar(c: char) {
    IsLetter(c) || IsDigit(c) || c == '_'
  }

  /** `[a-z-]` under IGNORECASE. */
  predicate IsDomainChar(c: char) {
    IsLetter(c) || c == '-'
  }

  /** Every character of `s` is in the class `p`. */
  predicate AllOf(s: string, p: char -> bool) {
    forall i :: 0 <= i < |s| ==> p(s[i])
  }

  /** The length of the longest prefix of `s` in the class `p`: what a greedy `p+` or `p*` consumes. */
  function Run(s: string, p: char -> bool): (n: nat)
    ensures n <= |s|
    ensures AllOf(s[..n], p)
    ensures n < |s| ==> !p(s[n])
  {
    if s == [] || !p(s[0]) then 0
    else
      var k := Run(s[1..], p);
      assert s[..k + 1] == [s[0]] + s[1..][..k];
      k + 1
  }

  /** A run over `a` stops where `a` stops when the next character is outside the class. */
  lemma {:induction false} RunOfAll(a: string, b: string, p: char -> bool)
    requires AllOf(a, p)
    requires b == [] || !p(b[0])
    ensures Run(a + b, p) == |a|
  {
    if a == [] {
      assert a + b == b;
    } else {
      assert (a + b)[1..] == a[1..] + b;
      RunOfAll(a[1..], b, p);
    }
  }

  /** `\d+_[a-z-]+` matches the whole of `r`; the digits must be the whole leading run, as `_` is not a digit. */
  predicate IsIdTail(r: string) {
    var d := Run(r, IsDigit);
    1 <= d && d + 1 < |r| && r[d] == '_' && AllOf(r[d + 1..], IsDomainChar)
  }

  /** `krd_\d+_[a-z-]+` (IGNORECASE) matches the whole of `t`. */
  predicate IsSentenceId(t: string) {
    |t| >= 4 && Lower(t[..4]) == "krd_" && IsIdTail(t[4..])
  }

  /** `krd` in any case, a run of digits and a run of domain letters, joined by `_`, is a sentence id. */
  lemma SentenceIdSpelled(k: string, n: string, l: string)
    requires |k| == 3 && Lower(k) == "krd"
    requires n != [] && AllOf(n, IsDigit)
    requires l != [] && AllOf(l, IsDomainChar)
    ensures IsSentenceId(Join("_", [k, n, l]))
  {
    JoinCons("_", n, [l]);
    JoinCons("_", k, [n, l]);
    var t := Join("_", [k, n, l]);
    assert t == (k + "_") + (n + ("_" + l));
    assert t[..4] == k + "_";
    assert Lower(k + "_") == "krd_" by {
      assert Lower(k + "_")[..3] == Lower(k);
    }
    assert t[4..] == n + ("_" + l);
    RunOfAll(n, "_" + l, IsDigit);
    assert t[4..][|n| + 1..] == l;
  }

  /** `s` with one trailing newline removed: Python's `$` also matches just before it. */
  function DropNewline(s: string): (r: string)
    ensures r == s || s == r + "\n"
  {
    if s != [] && s[|s| - 1] == '\n' then s[..|s| - 1] else s
  }

  /** The groups of a full match are of the shapes the pattern gives them. */
  predicate ValidGroups(date: string, speaker: string, domain: string, sentenceId: string) {
    && |date| == 8 && AllOf(date, IsDigit)
    && speaker != [] && AllOf(speaker, IsSpeakerChar)
    && domain != [] && AllOf(domain, IsDomainChar)
    && IsSentenceId(sentenceId)
  }

  /**
    `FILENAME_PATTERN.match(filename)`. Only the speaker group may hold underscores, so
    the four underscores after it are the last four before the extension, and the match
    is unique.
  */
  function FullMatch(filename: string): (r: Option<Parsed>)
    ensures r.Some? ==> r.value.date.Some? && r.value.speakerId.Some? && r.value.domain.Some?
  {
    var s := DropNewline(filename);
    if |s| < 13 || !AllOf(s[..8], IsDigit) || s[8] != '_' || Lower(s[|s| - 4..]) != ".wav" then None
    else
      var parts := SplitOn(s[9..|s| - 4], '_');
      var n := |parts|;
      if n < 5 then None
      else
        var speaker := Join("_", parts[..n - 4]);
        var domain, krd, num, letters := parts[n - 4], parts[n - 3], parts[n - 2], parts[n - 1];
        if && speaker != [] && AllOf(speaker, IsSpeakerChar)
           && domain != [] && AllOf(domain, IsDomainChar)
           && Lower(krd) == "krd"
           && num != [] && AllOf(num, IsDigit)
           && letters != [] && AllOf(letters, IsDomainChar)
        then Some(Parsed(Some(s[..8]), Some(speaker), Some(domain), Join("_", [krd, num, letters])))
        else None
  }

  /** The date, the speaker, and the rest, joined by `_`. */
  lemma JoinFour(date: string, speaker: string, domain: string, t: string)
    ensures Join("_", [date, speaker, domain, t]) == date + "_" + Join("_", [speaker, domain, t])
    ensures Join("_", [speaker, domain, t]) == speaker + "_" + Join("_", [domain, t])
    ensures Join("_", [domain, t]) == domain + "_" + t
  {
    JoinCons("_", date, [speaker, domain, t]);
    JoinCons("_", speaker, [domain, t]);
    JoinCons("_", domain, [t]);
  }

  /** A text with at least five `_`-pieces: the join of all but the last four, then the fourth-last, then the last three. */
  lemma SplitShape(body: string)
    requires |SplitOn(body, '_')| >= 5
    ensures var parts := SplitOn(body, '_');
      var n := |parts|;
      body == Join("_", parts[..n - 4]) + "_" + (parts[n - 4] + "_" + Join("_", parts[n - 3..]))
  {
    var parts := SplitOn(body, '_');
    var n := |parts|;
    JoinSplitOn(body, '_');
    assert parts == parts[..n - 4] + parts[n - 4..];
    JoinAppend("_", parts[..n - 4], parts[n - 4..]);
    assert parts[n - 4..] == [parts[n - 4]] + parts[n - 3..];
    JoinCons("_", parts[n - 4], parts[n - 3..]);
  }

  /** The groups of a full match have the shapes of their parts of the pattern. */
  lemma FullMatchGroups(filename: string)
    requires FullMatch(filename).Some?
    ensures var p := FullMatch(filename).value;
      ValidGroups(p.date.value, p.speakerId.value, p.domain.value, p.sentenceId)
  {
    var s := DropNewline(filename);
    var parts := SplitOn(s[9..|s| - 4], '_');
    var n := |parts|;
    SentenceIdSpelled(parts[n - 3], parts[n - 2], parts[n - 1]);
  }

  /** A name cut as the full match cuts it is the date, speaker, domain and id joined by `_`, then the extension. */
  lemma CutSpelling(s: string)
    requires |s| >= 13 && s[8] == '_' && |SplitOn(s[9..|s| - 4], '_')| >= 5
    ensures var parts := SplitOn(s[9..|s| - 4], '_');
      var n := |parts|;
      s == Join("_", [s[..8], Join("_", parts[..n - 4]), parts[n - 4], Join("_", parts[n - 3..])]) + s[|s| - 4..]
  {
    var body := s[9..|s| - 4];
    var parts := SplitOn(body, '_');
    var n := |parts|;
    var speaker, domain, t := Join("_", parts[..n - 4]), parts[n - 4], Join("_", parts[n - 3..]);
    SplitShape(body);
    assert body == speaker + "_" + (domain + "_" + t);
    JoinFour(s[..8], speaker, domain, t);
    assert Join("_", [speaker, domain, t]) == body;
    assert Join("_", [s[..8], speaker, domain, t]) == s[..8] + "_" + body;
    CutAt(s, 8, |s| - 4);
  }

  /** A string is its part before `i`, its character at `i`, the part up to `j`, and the rest. */
  lemma CutAt(s: string, i: nat, j: nat)
    requires i < j <= |s|
    ensures s == s[..i] + [s[i]] + s[i + 1..j] + s[j..]
  {
  }

  /**
    Soundness of the full match: without its trailing newline, the name is the date,
    speaker, domain and sentence id joined by `_`, then `.wav` in some case; each group has
    the shape of its part of the pattern.
  */
  lemma FullMatchSound(filename: string)
    requires FullMatch(filename).Some?
    ensures var p := FullMatch(filename).value;
      var s := DropNewline(filename);
      && ValidGroups(p.date.value, p.speakerId.value, p.domain.value, p.sentenceId)
      && |s| >= 4 && Lower(s[|s| - 4..]) == ".wav"
      && s == Join("_", [p.date.value, p.speakerId.value, p.domain.value, p.sentenceId]) + s[|s| - 4..]
  {
    FullMatchGroups(filename);
    var s := DropNewline(filename);
    var parts := SplitOn(s[9..|s| - 4], '_');
    var n := |parts|;
    assert parts[n - 3..] == [parts[n - 3], parts[n - 2], parts[n - 1]];
    CutSpelling(s);
  }

  /** A character that lower-cases to `_` is `_`. */
  lemma LowerUnderscore(c: char)
    requires LowerChar(c) == '_'
    ensures c == '_'
  {
  }

  /** A string whose lower-cased form has no `_` has none itself. */
  lemma LowerKeepsUnderscores(s: string)
    requires '_' !in Lower(s)
    ensures '_' !in s
  {
    forall i | 0 <= i < |s| ensures s[i] != '_' {
      assert Lower(s)[i] == LowerChar(s[i]);
    }
  }

  /** A class without `_` leaves no `_` in a string of that class. */
  lemma NoUnderscore(s: string, p: char -> bool)
    requires AllOf(s, p) && !p('_')
    ensures '_' !in s
  {
    forall i | 0 <= i < |s| ensures s[i] != '_' {
      assert p(s[i]);
    }
  }

  /** A sentence id is `krd` (some case), its digits and its letters, joined by `_`; none of them holds `_`. */
  lemma SentenceIdPieces(t: string)
    requires IsSentenceId(t)
    ensures var rest := t[4..];
      var d := Run(rest, IsDigit);
      && t == Join("_", [t[..3], rest[..d], rest[d + 1..]])
      && |t[..3]| == 3 && Lower(t[..3]) == "krd"
      && rest[..d] != [] && AllOf(rest[..d], IsDigit)
      && rest[d + 1..] != [] && AllOf(rest[d + 1..], IsDomainChar)
      && '_' !in t[..3] && '_' !in rest[..d] && '_' !in rest[d + 1..]
  {
    var rest := t[4..];
    var d := Run(rest, IsDigit);
    var k, n, l := t[..3], rest[..d], rest[d + 1..];
    KrdPrefix(t);
    IdTailPieces(rest);
    var nl := Join("_", [n, l]);
    JoinCons("_", n, [l]);
    assert nl == n + "_" + l;
    JoinCons("_", k, [n, l]);
    assert Join("_", [k, n, l]) == k + "_" + nl;
    assert rest == nl;
    assert t == k + "_" + rest;
  }

  /** A sentence id starts with `krd` in some case, then `_`. */
  lemma KrdPrefix(t: string)
    requires |t| >= 4 && Lower(t[..4]) == "krd_"
    ensures t == t[..3] + "_" + t[4..]
    ensures Lower(t[..3]) == "krd" && '_' !in t[..3]
  {
    var k := t[..3];
    assert Lower(t[..4])[3] == '_';
    LowerUnderscore(t[3]);
    assert Lower(k) == Lower(t[..4])[..3];
    LowerKeepsUnderscores(k);
    assert t == t[..4] + t[4..];
    assert t[..4] == k + "_";
  }

  /** The tail of a sentence id is its digits, `_`, its letters; neither part holds `_`. */
  lemma IdTailPieces(r: string)
    requires IsIdTail(r)
    ensures var d := Run(r, IsDigit);
      && r == r[..d] + ("_" + r[d + 1..])
      && r[..d] != [] && AllOf(r[..d], IsDigit)
      && r[d + 1..] != [] && AllOf(r[d + 1..], IsDomainChar)
      && '_' !in r[..d] && '_' !in r[d + 1..]
  {
    var d := Run(r, IsDigit);
    NoUnderscore(r[..d], IsDigit);
    NoUnderscore(r[d + 1..], IsDomainChar);
    assert r == r[..d] + [r[d]] + r[d + 1..];
  }

  /** A sentence id splits on `_` into `krd`, its digits and its letters. */
  lemma SplitId(t: string)
    requires IsSentenceId(t)
    ensures var rest := t[4..];
      var d := Run(rest, IsDigit);
      SplitOn(t, '_') == [t[..3], rest[..d], rest[d + 1..]]
  {
    var rest := t[4..];
    var d := Run(rest, IsDigit);
    SentenceIdPieces(t);
    var k, n, l := t[..3], rest[..d], rest[d + 1..];
    JoinCons("_", n, [l]);
    JoinCons("_", k, [n, l]);
    assert t == k + ['_'] + (n + ['_'] + l);
    SplitOnAppend(n, l, '_');
    SplitOnNoSep(n, '_');
    SplitOnNoSep(l, '_');
    assert SplitOn(n + ['_'] + l, '_') == [n, l];
    SplitOnAppend(k, n + ['_'] + l, '_');
    SplitOnNoSep(k, '_');
  }

  /** Splitting the speaker, domain and sentence id on `_`: the speaker's pieces, the domain, the id's three pieces. */
  lemma SplitBody(speaker: string, domain: string, t: string)
    requires '_' !in domain && IsSentenceId(t)
    ensures var rest := t[4..];
      var d := Run(rest, IsDigit);
      SplitOn(Join("_", [speaker, domain, t]), '_') == SplitOn(speaker, '_') + [domain, t[..3], rest[..d], rest[d + 1..]]
  {
    var rest := t[4..];
    var d := Run(rest, IsDigit);
    var ids := SplitOn(t, '_');
    SplitId(t);
    assert ids == [t[..3], rest[..d], rest[d + 1..]];
    JoinFour(speaker, speaker, domain, t);
    var tail := Join("_", [domain, t]);
    assert tail == domain + ['_'] + t;
    SplitOnAppend(domain, t, '_');
    SplitOnNoSep(domain, '_');
    var pieces := [domain] + ids;
    assert SplitOn(tail, '_') == pieces;
    assert pieces == [domain, t[..3], rest[..d], rest[d + 1..]];
    assert Join("_", [speaker, domain, t]) == speaker + ['_'] + tail;
    SplitOnAppend(speaker, tail, '_');
  }

  /** Where the full match cuts a name spelled from its groups: the date, `_`, the rest of the groups, the extension. */
  lemma CutOf(date: string, speaker: string, domain: string, t: string, ext: string)
    requires |date| == 8 && |ext| == 4
    ensures var s := Join("_", [date, speaker, domain, t]) + ext;
      && |s| >= 13 && s[..8] == date && s[8] == '_'
      && s[9..|s| - 4] == Join("_", [speaker, domain, t]) && s[|s| - 4..] == ext
  {
    JoinFour(date, speaker, domain, t);
    var body := Join("_", [speaker, domain, t]);
    var s := Join("_", [date, speaker, domain, t]) + ext;
    assert s == date + "_" + body + ext;
  }

  /** The pieces the full match takes from the speaker, domain and id joined by `_`. */
  lemma PiecesOf(speaker: string, domain: string, t: string)
    requires domain != [] && AllOf(domain, IsDomainChar) && IsSentenceId(t)
    ensures var parts := SplitOn(Join("_", [speaker, domain, t]), '_');
      var n := |parts|;
      && n >= 5
      && Join("_", parts[..n - 4]) == speaker && parts[n - 4] == domain
      && Lower(parts[n - 3]) == "krd"
      && parts[n - 2] != [] && AllOf(parts[n - 2], IsDigit)
      && parts[n - 1] != [] && AllOf(parts[n - 1], IsDomainChar)
      && Join("_", [parts[n - 3], parts[n - 2], parts[n - 1]]) == t
  {
    NoUnderscore(domain, IsDomainChar);
    SplitBody(speaker, domain, t);
    SentenceIdPieces(t);
    var parts := SplitOn(Join("_", [speaker, domain, t]), '_');
    var sp := SplitOn(speaker, '_');
    var n := |parts|;
    assert parts[..n - 4] == sp;
    JoinSplitOn(speaker, '_');
  }

  /** A name ending in `.wav` in some case loses only the optional newline after it. */
  lemma NewlineDropped(s: string, ext: string, nl: string)
    requires |ext| == 4 && Lower(ext) == ".wav" && |s| >= 4 && s[|s| - 4..] == ext
    requires nl == "" || nl == "\n"
    ensures DropNewline(s + nl) == s
  {
    assert Lower(ext)[3] == 'v';
    assert s[|s| - 1] == ext[3];
    if nl == "" {
      assert s + nl == s;
    } else {
      assert (s + nl)[..|s|] == s;
    }
  }

  /**
    Completeness of the full match: every name of the pattern's shape, with `.wav` in any
    case and at most one trailing newline, is matched, and the groups are the parts it was
    built from.
  */
  lemma FullMatchComplete(date: string, speaker: string, domain: string, t: string, ext: string, nl: string)
    requires ValidGroups(date, speaker, domain, t)
    requires |ext| == 4 && Lower(ext) == ".wav"
    requires nl == "" || nl == "\n"
    ensures FullMatch(Join("_", [date, speaker, domain, t]) + ext + nl)
      == Some(Parsed(Some(date), Some(speaker), Some(domain), t))
  {
    var s := Join("_", [date, speaker, domain, t]) + ext;
    NewlineDropped(s, ext, nl);
    var body := Join("_", [speaker, domain, t]);
    CutOf(date, speaker, domain, t, ext);
    assert s[9..|s| - 4] == body && s[..8] == date && s[|s| - 4..] == ext;
    PiecesOf(speaker, domain, t);
    var parts := SplitOn(body, '_');
    var n := |parts|;
    var krd, num, letters := parts[n - 3], parts[n - 2], parts[n - 1];
    assert Join("_", parts[..n - 4]) == speaker && parts[n - 4] == domain;
    assert Join("_", [krd, num, letters]) == t;
  }

  /** The length of what `\d+_[a-z-]+` matches at the start of `r`, or 0 when it does not match there. */
  function IdTailLength(r: string): (n: nat)
    ensures n <= |r|
  {
    var d := Run(r, IsDigit);
    if d == 0 || d >= |r| || r[d] != '_' then 0
    else
      var l := Run(r[d + 1..], IsDomainChar);
      if l == 0 then 0 else d + 1 + l
  }

  /** What `IdTailLength` measures matches, and the next character cannot extend it. */
  lemma IdTailSound(r: string)
    requires IdTailLength(r) > 0
    ensures var n := IdTailLength(r);
      IsIdTail(r[..n]) && (n == |r| || !IsDomainChar(r[n]))
  {
    var d := Run(r, IsDigit);
    var tail := r[d + 1..];
    var l := Run(tail, IsDomainChar);
    var n := d + 1 + l;
    assert r[..n] == r[..d] + r[d..n];
    RunOfAll(r[..d], r[d..n], IsDigit);
    assert r[..n][d + 1..] == tail[..l];
  }

  /** Any prefix of `r` that `\d+_[a-z-]+` matches is no longer than what `IdTailLength` measures. */
  lemma IdTailComplete(r: string, m: nat)
    requires m <= |r| && IsIdTail(r[..m])
    ensures IdTailLength(r) >= m
  {
    var p := r[..m];
    var d := Run(p, IsDigit);
    assert r == p[..d] + r[d..];
    assert r[d] == p[d];
    RunOfAll(p[..d], r[d..], IsDigit);
    var tail := r[d + 1..];
    var ptail := p[d + 1..];
    assert tail == ptail + r[m..];
  }

  /**
    A sentence id starting at `i`, as `ID_PATTERN` matches there: `krd_` in any case, the
    whole run of digits, `_`, the whole run of domain letters.
  */
  function IdAt(s: string, i: nat): (r: Option<string>)
    requires i <= |s|
  {
    if i + 4 <= |s| && Lower(s[i..i + 4]) == "krd_" && IdTailLength(s[i + 4..]) > 0
    then Some(s[i..i + 4 + IdTailLength(s[i + 4..])])
    else None
  }

  /** What `IdAt` finds is a sentence id at `i` that the next character cannot extend. */
  lemma IdAtSound(s: string, i: nat)
    requires i <= |s| && IdAt(s, i).Some?
    ensures var t := IdAt(s, i).value;
      && OccursAt(s, t, i) && IsSentenceId(t)
      && (i + |t| == |s| || !IsDomainChar(s[i + |t|]))
  {
    var r := s[i + 4..];
    var n := IdTailLength(r);
    IdTailSound(r);
    var t := s[i..i + 4 + n];
    assert t[..4] == s[i..i + 4];
    assert t[4..] == r[..n];
    if i + |t| < |s| {
      assert s[i + |t|] == r[n];
    }
  }

  /** Where any sentence id starts at `i`, `IdAt` finds one at least as long: the match is greedy. */
  lemma IdAtComplete(s: string, i: nat, j: nat)
    requires i <= j <= |s| && IsSentenceId(s[i..j])
    ensures IdAt(s, i).Some? && i + |IdAt(s, i).value| >= j
  {
    var t := s[i..j];
    assert t[..4] == s[i..i + 4];
    assert t[4..] == s[i + 4..][..j - i - 4];
    IdTailComplete(s[i + 4..], j - i - 4);
  }

  /** The first position from `from` on where a sentence id starts. */
  function FirstIdFrom(s: string, from: nat): (r: Option<nat>)
    requires from <= |s|
    ensures r.Some? ==> from <= r.value <= |s| && IdAt(s, r.value).Some?
    ensures r.Some? ==> forall j :: from <= j < r.value ==> IdAt(s, j).None?
    ensures r.None? ==> forall j :: from <= j <= |s| ==> IdAt(s, j).None?
    decreases |s| - from
  {
    if IdAt(s, from).Some? then Some(from)
    else if from == |s| then None
    else FirstIdFrom(s, from + 1)
  }

  /** `ID_PATTERN.search(s)`: the leftmost sentence id, taken greedily. */
  function SearchId(s: string): (r: Option<string>)
    ensures r.Some? ==> IsSentenceId(r.value) && exists i :: 0 <= i <= |s| && OccursAt(s, r.value, i)
  {
    match FirstIdFrom(s, 0)
    case None => None
    case Some(i) =>
      IdAtSound(s, i);
      IdAt(s, i)
  }

  /** With no position where `IdAt` finds an id, no substring is one. */
  lemma NoIdAnywhere(s: string)
    requires forall j :: 0 <= j <= |s| ==> IdAt(s, j).None?
    ensures forall i, j :: 0 <= i <= j <= |s| ==> !IsSentenceId(s[i..j])
  {
    forall i, j | 0 <= i <= j <= |s| ensures !IsSentenceId(s[i..j]) {
      if IsSentenceId(s[i..j]) {
        IdAtComplete(s, i, j);
      }
    }
  }

  /** The search finds nothing exactly when no substring of `s` is a sentence id. */
  lemma SearchIdNone(s: string)
    ensures SearchId(s).None? <==> forall i, j :: 0 <= i <= j <= |s| ==> !IsSentenceId(s[i..j])
  {
    var first := FirstIdFrom(s, 0);
    if first.None? {
      assert SearchId(s).None?;
      NoIdAnywhere(s);
    } else {
      var i := first.value;
      assert SearchId(s) == IdAt(s, i);
      IdAtSound(s, i);
      var t := IdAt(s, i).value;
      assert s[i..i + |t|] == t;
      assert IsSentenceId(s[i..i + |t|]);
    }
  }

  /**
    What the search finds is a sentence id occurring in `s` that the next character cannot
    extend, and no sentence id starts anywhere before it.
  */
  lemma SearchIdFound(s: string)
    requires SearchId(s).Some?
    ensures var t := SearchId(s).value;
      exists i: nat :: i <= |s| && OccursAt(s, t, i) && IsSentenceId(t)
        && (i + |t| == |s| || !IsDomainChar(s[i + |t|]))
        && forall i', j :: 0 <= i' < i && i' <= j <= |s| ==> !IsSentenceId(s[i'..j])
  {
    var i := FirstIdFrom(s, 0).value;
    IdAtSound(s, i);
    forall i', j | 0 <= i' < i && i' <= j <= |s| ensures !IsSentenceId(s[i'..j]) {
      if IsSentenceId(s[i'..j]) {
        IdAtComplete(s, i', j);
      }
    }
  }

  /** `parse_filename`: the full match when there is one, else the fallback sentence id, else nothing. */
  function ParseFilename(filename: string): (r: Option<Parsed>)
    ensures r.Some? ==> IsSentenceId(r.value.sentenceId)
    ensures r.Some? ==> (r.value.date.Some? <==> FullMatch(filename).Some?)
    ensures r.Some? && r.value.date.None? ==> r.value.speakerId.None? && r.value.domain.None?
    ensures FullMatch(filename).Some? ==> r == FullMatch(filename)
    ensures FullMatch(filename).None? ==> (r.Some? <==> SearchId(filename).Some?)
    ensures FullMatch(filename).None? && r.Some? ==> r.value == Parsed(None, None, None, SearchId(filename).value)
  {
    match FullMatch(filename)
    case Some(p) =>
      FullMatchGroups(filename);
      Some(p)
    case None =>
      match SearchId(filename)
      case Some(id) => Some(Parsed(None, None, None, id))
      case None => None
  }

  /** The sentence id of a full match is a substring of the name, right before the extension. */
  lemma FullMatchIdOccurs(filename: string)
    requires FullMatch(filename).Some?
    ensures var p := FullMatch(filename).value;
      var k := |Join("_", [p.date.value, p.speakerId.value, p.domain.value, p.sentenceId])| - |p.sentenceId|;
      k >= 0 && OccursAt(filename, p.sentenceId, k) && IsSentenceId(p.sentenceId)
  {
    FullMatchSound(filename);
    var p := FullMatch(filename).value;
    var s := DropNewline(filename);
    GroupsIdOccurs(filename, p.date.value, p.speakerId.value, p.domain.value, p.sentenceId, s[|s| - 4..]);
  }

  /** In a name that is four groups joined by `_` and an extension, the last group sits right before the extension. */
  lemma GroupsIdOccurs(filename: string, date: string, speaker: string, domain: string, t: string, ext: string)
    requires DropNewline(filename) == Join("_", [date, speaker, domain, t]) + ext
    ensures |Join("_", [date, speaker, domain, t])| >= |t|
    ensures OccursAt(filename, t, |Join("_", [date, speaker, domain, t])| - |t|)
  {
    JoinFour(date, speaker, domain, t);
    var pre := date + "_" + (speaker + "_" + (domain + "_"));
    var joined := Join("_", [date, speaker, domain, t]);
    assert joined == pre + t;
    var s := DropNewline(filename);
    assert s[..|joined|] == joined;
    OccursInPrefix(filename, s, joined, pre, t);
  }

  /** A text right after `pre` at the start of `joined`, itself at the start of `s`, occurs in `s` or `s + "\n"` right after `pre`. */
  lemma OccursInPrefix(f: string, s: string, joined: string, pre: string, t: string)
    requires f == s || f == s + "\n"
    requires |joined| <= |s| && s[..|joined|] == joined
    requires joined == pre + t
    ensures OccursAt(f, t, |pre|)
  {
    assert f[..|s|] == s;
    assert f[|pre|..|pre| + |t|] == s[|pre|..|pre| + |t|];
    assert s[|pre|..|pre| + |t|] == joined[|pre|..];
  }

  /** A name with no sentence id anywhere in it does not parse. */
  lemma ParseNeedsSentenceId(filename: string)
    requires forall i, j :: 0 <= i <= j <= |filename| ==> !IsSentenceId(filename[i..j])
    ensures ParseFilename(filename).None?
  {
    SearchIdNone(filename);
    if FullMatch(filename).Some? {
      FullMatchIdOccurs(filename);
    }
  }

  /** A name holding a sentence id anywhere parses, through one branch or the other. */
  lemma ParsesWithSentenceId(filename: string, i: nat, j: nat)
    requires i <= j <= |filename| && IsSentenceId(filename[i..j])
    ensures ParseFilename(filename).Some?
  {
    if FullMatch(filename).None? {
      SearchIdNone(filename);
    }
  }
}
