/**
  Appending new prompt sentences to the metadata CSV. The metadata file is a sequence of
  CSV rows whose first row is the header. The text file is a sequence of lines. A line
  is taken, stripped, when it is not empty and not already a transcription or an earlier
  taken line. Each taken sentence becomes one 12-column row at the end of the file.
*/
module AppendToCsv {
  import opened Wrappers
  import opened PyStr

  /** `TARGET_COLUMN`: the header the transcriptions sit under, once cleaned. */
  const TargetColumn: string := "kirundi_transcription"

  /** `DOMAIN`: the domain used when the caller gives none. */
  const DefaultDomain: string := "proverbs"

  /** `[h.strip().lower() for h in header]`. */
  function CleanHeader(header: seq<string>): (r: seq<string>)
    ensures |r| == |header|
    ensures forall i :: 0 <= i < |r| ==> r[i] == Lower(Strip(header[i]))
    ensures forall i :: 0 <= i < |r| ==> Stripped(r[i])
    ensures forall i, k :: 0 <= i < |r| && 0 <= k < |r[i]| ==> !('A' <= r[i][k] <= 'Z')
  {
    var r := seq(|header|, i requires 0 <= i < |header| => Lower(Strip(header[i])));
    forall i | 0 <= i < |header|
      ensures Stripped(r[i])
      ensures forall k :: 0 <= k < |r[i]| ==> !('A' <= r[i][k] <= 'Z')
    {
      CleanCell(header[i]);
    }
    r
  }

  /** One header cell, stripped then lower-cased, is still stripped and holds no capital letter. */
  lemma CleanCell(h: string)
    ensures Stripped(Lower(Strip(h)))
    ensures forall k :: 0 <= k < |Lower(Strip(h))| ==> !('A' <= Lower(Strip(h))[k] <= 'Z')
  {
    var s := Strip(h);
    StripShape(h);
    LowerStripped(s);
  }

  /** Lower-casing keeps a stripped text stripped and leaves no capital letter. */
  lemma LowerStripped(s: string)
    requires Stripped(s)
    ensures Stripped(Lower(s))
    ensures forall k :: 0 <= k < |Lower(s)| ==> !('A' <= Lower(s)[k] <= 'Z')
  {
    var l := Lower(s);
    if s != [] {
      var first, last := s[0], s[|s| - 1];
      assert l[0] == LowerChar(first) && !IsSpace(LowerChar(first));
      assert l[|l| - 1] == LowerChar(last) && !IsSpace(LowerChar(last));
    }
    forall k | 0 <= k < |l|
      ensures !('A' <= l[k] <= 'Z')
    {
      assert l[k] == LowerChar(s[k]);
    }
  }

  /** `xs.index(x)`: the first position of `x`, or `None` where Python raises ValueError. */
  function ColumnIndex(xs: seq<string>, x: string): (r: Option<nat>)
    ensures r.None? <==> x !in xs
    ensures r.Some? ==> r.value < |xs| && xs[r.value] == x && x !in xs[..r.value]
  {
    if xs == [] then None
    else if xs[0] == x then Some(0)
    else match ColumnIndex(xs[1..], x)
      case None => None
      case Some(i) =>
        assert xs[..i + 1] == [xs[0]] + xs[1..][..i];
        Some(i + 1)
  }

  /** The non-empty cells at position `idx` of the data rows long enough to have one. */
  function Existing(data: seq<seq<string>>, idx: nat): (r: set<string>)
    ensures "" !in r
  {
    if data == [] then {}
    else
      var last := data[|data| - 1];
      Existing(data[..|data| - 1], idx) + (if |last| > idx && last[idx] != "" then {last[idx]} else {})
  }

  /** A sentence is already present exactly when some long-enough data row holds it, non-empty, at `idx`. */
  lemma {:induction false} ExistingMembers(data: seq<seq<string>>, idx: nat, x: string)
    ensures x in Existing(data, idx) <==>
      x != "" && exists k :: 0 <= k < |data| && |data[k]| > idx && data[k][idx] == x
  {
    if data != [] {
      var init := data[..|data| - 1];
      ExistingMembers(init, idx, x);
      if x in Existing(init, idx) {
        var k :| 0 <= k < |init| && |init[k]| > idx && init[k][idx] == x;
        assert data[k] == init[k];
      }
      if exists k :: 0 <= k < |data| && |data[k]| > idx && data[k][idx] == x {
        var k :| 0 <= k < |data| && |data[k]| > idx && data[k][idx] == x;
        if k < |init| {
          assert init[k] == data[k];
        }
      }
    }
  }

  /** The sentences of rows appended after others are added to theirs. */
  lemma {:induction false} ExistingAppend(a: seq<seq<string>>, b: seq<seq<string>>, idx: nat)
    ensures Existing(a + b, idx) == Existing(a, idx) + Existing(b, idx)
    decreases |b|
  {
    if b == [] {
      assert a + b == a;
    } else {
      assert (a + b)[..|a + b| - 1] == a + b[..|b| - 1];
      ExistingAppend(a, b[..|b| - 1], idx);
    }
  }

  /** The text's lines, each stripped: the candidates the loop looks at. */
  function StripLines(lines: seq<string>): (r: seq<string>)
    ensures |r| == |lines|
    ensures forall k :: 0 <= k < |lines| ==> r[k] == Strip(lines[k])
  {
    seq(|lines|, k requires 0 <= k < |lines| => Strip(lines[k]))
  }

  /** The candidates the loop over the text file takes, given the sentences already present. */
  function Selected(cands: seq<string>, existing: set<string>): (r: seq<string>)
    ensures |r| <= |cands|
    ensures forall x :: x in r ==> x != "" && x !in existing
  {
    if cands == [] then []
    else
      var prev := Selected(cands[..|cands| - 1], existing);
      var s := cands[|cands| - 1];
      if s != "" && s !in existing && s !in prev then prev + [s] else prev
  }

  /** The position of the first candidate equal to `x`, or the number of candidates. */
  function FirstLine(cands: seq<string>, x: string): (k: nat)
    ensures k <= |cands|
    ensures k < |cands| ==> cands[k] == x
    ensures forall j :: 0 <= j < k ==> cands[j] != x
  {
    if cands == [] then 0
    else if cands[0] == x then 0
    else 1 + FirstLine(cands[1..], x)
  }

  /** A taken sentence is a non-empty candidate that was not already present. */
  lemma {:induction false} SelectedSound(cands: seq<string>, existing: set<string>)
    ensures forall x :: x in Selected(cands, existing) ==> x != "" && x !in existing && FirstLine(cands, x) < |cands|
  {
    if cands != [] {
      var init := cands[..|cands| - 1];
      SelectedSound(init, existing);
      var prev := Selected(init, existing);
      forall x | x in prev ensures FirstLine(cands, x) < |cands| {
        var k := FirstLine(init, x);
        assert cands[k] == init[k];
      }
    }
  }

  /** No sentence is taken twice. */
  lemma {:induction false} SelectedDistinct(cands: seq<string>, existing: set<string>)
    ensures forall i, j :: 0 <= i < j < |Selected(cands, existing)| ==> Selected(cands, existing)[i] != Selected(cands, existing)[j]
  {
    if cands != [] {
      var init := cands[..|cands| - 1];
      var prev := Selected(init, existing);
      var c := cands[|cands| - 1];
      SelectedDistinct(init, existing);
      if c != "" && c !in existing && c !in prev {
        var r := prev + [c];
        forall i, j | 0 <= i < j < |r| ensures r[i] != r[j] {
          if j == |prev| {
            assert r[i] in prev;
          } else {
            assert r[i] == prev[i] && r[j] == prev[j];
          }
        }
      }
    }
  }

  /** Every non-empty candidate ends up taken or was already present. */
  lemma {:induction false} SelectedComplete(cands: seq<string>, existing: set<string>)
    ensures forall k :: 0 <= k < |cands| && cands[k] != "" ==> cands[k] in existing || cands[k] in Selected(cands, existing)
  {
    if cands != [] {
      var init := cands[..|cands| - 1];
      var prev := Selected(init, existing);
      SelectedComplete(init, existing);
      assert forall x :: x in prev ==> x in Selected(cands, existing);
      forall k | 0 <= k < |cands| - 1 ensures cands[k] == init[k] {
      }
    }
  }

  /** The first candidate equal to `x` does not move when a candidate is added, once there is one. */
  lemma FirstLineOfPrefix(init: seq<string>, c: string, x: string)
    requires FirstLine(init, x) < |init|
    ensures FirstLine(init + [c], x) == FirstLine(init, x)
  {
    var cands := init + [c];
    var a := FirstLine(init, x);
    assert cands[a] == init[a];
    assert forall j :: 0 <= j < a ==> cands[j] == init[j];
  }

  /** The taken sentences come in the order of their first occurrences. */
  lemma {:induction false} SelectedInOrder(cands: seq<string>, existing: set<string>)
    ensures forall i, j :: 0 <= i < j < |Selected(cands, existing)| ==>
      FirstLine(cands, Selected(cands, existing)[i]) < FirstLine(cands, Selected(cands, existing)[j])
  {
    if cands != [] {
      var init := cands[..|cands| - 1];
      var c := cands[|cands| - 1];
      var prev := Selected(init, existing);
      SelectedInOrder(init, existing);
      SelectedSound(init, existing);
      assert init + [c] == cands;
      forall x | x in prev ensures FirstLine(cands, x) == FirstLine(init, x) {
        FirstLineOfPrefix(init, c, x);
      }
      if c != "" && c !in existing && c !in prev {
        SelectedComplete(init, existing);
        forall k | 0 <= k < |init| ensures init[k] != c {
        }
        assert FirstLine(cands, c) == |init|;
        var r := prev + [c];
        forall i, j | 0 <= i < j < |r| ensures FirstLine(cands, r[i]) < FirstLine(cands, r[j]) {
          assert r[i] == prev[i] && r[i] in prev;
          if j < |prev| {
            assert r[j] == prev[j] && r[j] in prev;
          }
        }
      } else {
        forall i, j | 0 <= i < j < |prev| ensures FirstLine(cands, prev[i]) < FirstLine(cands, prev[j]) {
          assert prev[i] in prev && prev[j] in prev;
        }
      }
    }
  }

  /** With every candidate present already, nothing is taken. */
  lemma {:induction false} SelectedNothing(cands: seq<string>, existing: set<string>)
    requires forall k :: 0 <= k < |cands| && cands[k] != "" ==> cands[k] in existing
    ensures Selected(cands, existing) == []
  {
    if cands != [] {
      var init := cands[..|cands| - 1];
      assert forall k :: 0 <= k < |init| ==> init[k] == cands[k];
      SelectedNothing(init, existing);
    }
  }

  /** The appended row: the sentence as `Kirundi_Transcription`, the domain as `Domain`, every other column empty. */
  function LayoutRow(sentence: string, domain: string): (r: seq<string>)
    ensures |r| == 12 && r[1] == sentence && r[4] == domain
    ensures forall k :: 0 <= k < 12 && k != 1 && k != 4 ==> r[k] == ""
  {
    ["", sentence, "", "", domain, "", "", "", "", "", "", ""]
  }

  /** One layout row per sentence, in order. */
  function LayoutRows(sentences: seq<string>, domain: string): (r: seq<seq<string>>)
    ensures |r| == |sentences|
  {
    seq(|sentences|, j requires 0 <= j < |sentences| => LayoutRow(sentences[j], domain))
  }

  /** `domain`, or `DOMAIN` when the caller passed none. */
  function DomainOf(domain: Option<string>): (d: string)
    ensures domain.None? ==> d == DefaultDomain
    ensures domain.Some? ==> d == domain.value
  {
    if domain.None? then DefaultDomain else domain.value
  }

  /** The position of the transcription column in the cleaned header of `rows`, if it has one. */
  function TranscriptionIndex(rows: seq<seq<string>>): Option<nat>
  {
    if rows == [] then None else ColumnIndex(CleanHeader(rows[0]), TargetColumn)
  }

  /** The sentences a run over the metadata `rows` and the text `lines` takes. */
  function Selection(rows: seq<seq<string>>, lines: seq<string>): (r: seq<string>)
    requires TranscriptionIndex(rows).Some?
    ensures forall x :: x in r ==> x != "" && Stripped(x) && x !in Existing(rows[1..], TranscriptionIndex(rows).value)
  {
    var existing := Existing(rows[1..], TranscriptionIndex(rows).value);
    SelectedStripped(lines, existing);
    Selected(StripLines(lines), existing)
  }

  /** The taken sentences are stripped lines. */
  lemma SelectedStripped(lines: seq<string>, existing: set<string>)
    ensures forall x :: x in Selected(StripLines(lines), existing) ==> Stripped(x)
  {
    var cands := StripLines(lines);
    forall k | 0 <= k < |cands|
      ensures Stripped(cands[k])
    {
      StripShape(lines[k]);
    }
    SelectedSound(cands, existing);
    forall x | x in Selected(cands, existing)
      ensures Stripped(x)
    {
      var k := FirstLine(cands, x);
      assert cands[k] == x;
    }
  }

  /** The sentences of layout rows, read at position 1, are the sentences themselves. */
  lemma {:induction false} ExistingOfLayout(sentences: seq<string>, domain: string)
    requires forall x :: x in sentences ==> x != ""
    ensures forall x :: x in sentences ==> x in Existing(LayoutRows(sentences, domain), 1)
  {
    forall x | x in sentences ensures x in Existing(LayoutRows(sentences, domain), 1) {
      var j :| 0 <= j < |sentences| && sentences[j] == x;
      ExistingMembers(LayoutRows(sentences, domain), 1, x);
      assert LayoutRows(sentences, domain)[j] == LayoutRow(x, domain);
    }
  }

  /**
    Once the rows of the taken sentences are appended, with the transcriptions read at
    position 1, a second pass over the same text takes nothing.
  */
  lemma SecondPassTakesNothing(data: seq<seq<string>>, lines: seq<string>, domain: string)
    ensures Selected(StripLines(lines),
      Existing(data + LayoutRows(Selected(StripLines(lines), Existing(data, 1)), domain), 1)) == []
  {
    var cands := StripLines(lines);
    var existing := Existing(data, 1);
    var taken := Selected(cands, existing);
    var existing' := Existing(data + LayoutRows(taken, domain), 1);
    ExistingAppend(data, LayoutRows(taken, domain), 1);
    SelectedSound(cands, existing);
    ExistingOfLayout(taken, domain);
    SelectedComplete(cands, existing);
    SelectedNothing(cands, existing');
  }

  /**
    When the transcription column is the second one, as the appended layout assumes,
    running the append again over the same text takes nothing.
  */
  lemma RerunTakesNothing(rows: seq<seq<string>>, lines: seq<string>, domain: string)
    requires TranscriptionIndex(rows) == Some(1)
    ensures TranscriptionIndex(rows + LayoutRows(Selection(rows, lines), domain)) == Some(1)
    ensures Selection(rows + LayoutRows(Selection(rows, lines), domain), lines) == []
  {
    var data := rows[1..];
    var taken := Selected(StripLines(lines), Existing(data, 1));
    assert Selection(rows, lines) == taken;
    var more := LayoutRows(taken, domain);
    HeaderKept(rows, more);
    SecondPassTakesNothing(data, lines, domain);
    assert Selection(rows + more, lines) == Selected(StripLines(lines), Existing(data + more, 1));
  }

  /** Appending rows below a header leaves the header's transcription column where it was. */
  lemma HeaderKept(rows: seq<seq<string>>, more: seq<seq<string>>)
    requires rows != []
    ensures TranscriptionIndex(rows + more) == TranscriptionIndex(rows)
    ensures (rows + more)[1..] == rows[1..] + more
  {
    assert (rows + more)[0] == rows[0];
    assert (rows + more)[1..] == rows[1..] + more;
  }

  /**
    With the transcription column first, the appended rows put the sentence where the
    next run does not look, and that run takes the same sentence again.
  */
  lemma RerunRepeatsElsewhere()
    ensures TranscriptionIndex([[TargetColumn]]) == Some(0)
    ensures Selection([[TargetColumn]], ["a"]) == ["a"]
    ensures TranscriptionIndex([[TargetColumn]] + LayoutRows(["a"], DefaultDomain)) == Some(0)
    ensures Selection([[TargetColumn]] + LayoutRows(["a"], DefaultDomain), ["a"]) == ["a"]
  {
    CleanTarget();
    HeaderKept([[TargetColumn]], LayoutRows(["a"], DefaultDomain));
    SelectLetter({});
    LayoutNotAtZero("a", DefaultDomain);
  }

  /** The header cell `kirundi_transcription` is already clean. */
  lemma CleanTarget()
    ensures CleanHeader([TargetColumn]) == [TargetColumn]
  {
    StripTarget();
    LowerTarget();
  }

  /** `kirundi_transcription` has no surrounding whitespace. */
  lemma StripTarget()
    ensures Strip(TargetColumn) == TargetColumn
  {
    var t := TargetColumn;
    assert !IsSpace(t[0]);
    assert LStrip(t) == t;
    assert !IsSpace(t[|t| - 1]);
    assert RStrip(t) == t;
  }

  /** `kirundi_transcription` has no upper-case letter. */
  lemma LowerTarget()
    ensures Lower(TargetColumn) == TargetColumn
  {
    var t := TargetColumn;
    LowerFixed(t[..10]);
    LowerFixed(t[10..]);
    assert t == t[..10] + t[10..];
    LowerAppend(t[..10], t[10..]);
  }

  /** A string without upper-case letters is its own lower case. */
  lemma LowerFixed(s: string)
    requires forall i :: 0 <= i < |s| ==> 'a' <= s[i] <= 'z' || s[i] == '_'
    ensures Lower(s) == s
  {
  }

  /** Lower-casing goes piece by piece. */
  lemma LowerAppend(a: string, b: string)
    ensures Lower(a + b) == Lower(a) + Lower(b)
  {
  }

  /** A text holding the single line `a` yields `a` when nothing is present yet. */
  lemma SelectLetter(existing: set<string>)
    requires existing == {}
    ensures Selected(StripLines(["a"]), existing) == ["a"]
  {
    assert LStrip("a") == "a";
    assert RStrip("a") == "a";
    var cands := StripLines(["a"]);
    assert cands == ["a"];
    assert cands[..0] == [];
  }

  /** A layout row has nothing in its first cell. */
  lemma LayoutNotAtZero(sentence: string, domain: string)
    ensures Existing(LayoutRows([sentence], domain), 0) == {}
  {
    var rows := LayoutRows([sentence], domain);
    assert rows[..0] == [];
  }

  /** What `append_from_txt_to_csv` did. */
  datatype Outcome =
    | MetadataMissing
    | SourceMissing
    | MetadataEmpty
    | ColumnMissing
    | NothingNew
    | Appended(count: nat)

  /** The metadata file: whether it exists, and its rows, header first. */
  class MetadataCsv {
    var present: bool
    var rows: seq<seq<string>>

    constructor(present: bool, rows: seq<seq<string>>)
      ensures this.present == present && this.rows == rows
    {
      this.present := present;
      this.rows := rows;
    }

    /** The loop that writes one layout row per taken sentence at the end of the file. */
    method WriteRows(taken: seq<string>, domain: string)
      modifies this
      ensures present == old(present)
      ensures rows == old(rows) + LayoutRows(taken, domain)
    {
      for j := 0 to |taken|
        invariant present == old(present)
        invariant rows == old(rows) + LayoutRows(taken[..j], domain)
      {
        assert LayoutRows(taken[..j + 1], domain) == LayoutRows(taken[..j], domain) + [LayoutRow(taken[j], domain)];
        rows := rows + [LayoutRow(taken[j], domain)];
      }
      assert taken[..|taken|] == taken;
    }

    /**
      `append_from_txt_to_csv`: the checks in order, then the rows of the taken
      sentences appended; every early return leaves the file as it was.
    */
    method AppendFromTxtToCsv(domain: Option<string>, sourceExists: bool, lines: seq<string>) returns (outcome: Outcome)
      modifies this
      ensures present == old(present)
      ensures !present ==> outcome == MetadataMissing
      ensures present && !sourceExists ==> outcome == SourceMissing
      ensures present && sourceExists && old(rows) == [] ==> outcome == MetadataEmpty
      ensures present && sourceExists && old(rows) != [] && TranscriptionIndex(old(rows)).None? ==> outcome == ColumnMissing
      ensures present && sourceExists && TranscriptionIndex(old(rows)).Some? ==>
        var taken := Selection(old(rows), lines);
        && (taken == [] ==> outcome == NothingNew)
        && (taken != [] ==> outcome == Appended(|taken|) && rows == old(rows) + LayoutRows(taken, DomainOf(domain)))
      ensures !outcome.Appended? ==> rows == old(rows)
    {
      var d := DomainOf(domain);
      if !present {
        return MetadataMissing;
      }
      if !sourceExists {
        return SourceMissing;
      }
      if rows == [] {
        return MetadataEmpty;
      }
      var header := CleanHeader(rows[0]);
      var found := ColumnIndex(header, TargetColumn);
      if found.None? {
        return ColumnMissing;
      }
      var idx := found.value;
      var existing := ReadExisting(rows[1..], idx);
      var taken := TakeNew(lines, existing);
      if taken == [] {
        return NothingNew;
      }
      WriteRows(taken, d);
      return Appended(|taken|);
    }
  }

  /** The loop over the data rows that fills `existing_sentences`. */
  method ReadExisting(data: seq<seq<string>>, idx: nat) returns (existing: set<string>)
    ensures existing == Existing(data, idx)
  {
    existing := {};
    for k := 0 to |data|
      invariant existing == Existing(data[..k], idx)
    {
      assert data[..k + 1][..k] == data[..k];
      var row := data[k];
      if |row| > idx && row[idx] != "" {
        existing := existing + {row[idx]};
      }
    }
    assert data[..|data|] == data;
  }

  /** One more line of text: its stripped form is taken when non-empty and new. */
  lemma SelectedStep(lines: seq<string>, i: nat, existing: set<string>)
    requires i < |lines|
    ensures var prev, s := Selected(StripLines(lines[..i]), existing), Strip(lines[i]);
      Selected(StripLines(lines[..i + 1]), existing) == if s != "" && s !in existing && s !in prev then prev + [s] else prev
  {
    var cands := StripLines(lines[..i + 1]);
    assert cands[..i] == StripLines(lines[..i]);
    assert cands[i] == Strip(lines[i]);
  }

  /** The loop over the text's lines that fills `new_sentences_to_add`, adding each to the set as it goes. */
  method TakeNew(lines: seq<string>, existing: set<string>) returns (taken: seq<string>)
    ensures taken == Selected(StripLines(lines), existing)
  {
    taken := [];
    var seen := existing;
    for i := 0 to |lines|
      invariant taken == Selected(StripLines(lines[..i]), existing)
      invariant forall x :: x in seen <==> x in existing || x in taken
    {
      SelectedStep(lines, i, existing);
      var sentence := Strip(lines[i]);
      if sentence != "" && sentence !in seen {
        taken := taken + [sentence];
        seen := seen + {sentence};
      }
    }
    assert lines[..|lines|] == lines;
  }

  /**
    The sentences a run takes: stripped, non-empty lines of the text not already
    present, none twice, in the order the text first has them; every other non-empty
    stripped line was already present.
  */
  lemma TakenSpec(lines: seq<string>, existing: set<string>)
    ensures var r := Selected(StripLines(lines), existing);
      && (forall i :: 0 <= i < |r| ==> r[i] != "" && Stripped(r[i]) && r[i] !in existing)
      && (forall i :: 0 <= i < |r| ==> exists k :: 0 <= k < |lines| && Strip(lines[k]) == r[i])
      && (forall i, j :: 0 <= i < j < |r| ==> r[i] != r[j])
      && (forall i, j :: 0 <= i < j < |r| ==> FirstLine(StripLines(lines), r[i]) < FirstLine(StripLines(lines), r[j]))
      && (forall k :: 0 <= k < |lines| && Strip(lines[k]) != "" ==> Strip(lines[k]) in existing || Strip(lines[k]) in r)
  {
    var cands := StripLines(lines);
    var r := Selected(cands, existing);
    SelectedSound(cands, existing);
    SelectedDistinct(cands, existing);
    SelectedInOrder(cands, existing);
    SelectedComplete(cands, existing);
    forall i | 0 <= i < |r| ensures r[i] != "" && Stripped(r[i]) && r[i] !in existing && exists k :: 0 <= k < |lines| && Strip(lines[k]) == r[i] {
      assert r[i] in r;
      var k := FirstLine(cands, r[i]);
      assert cands[k] == Strip(lines[k]);
      StripShape(lines[k]);
    }
    forall k | 0 <= k < |lines| && Strip(lines[k]) != "" ensures Strip(lines[k]) in existing || Strip(lines[k]) in r {
      assert cands[k] == Strip(lines[k]);
    }
  }
}
