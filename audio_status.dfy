/**
  The recording-status bookkeeping of the dataset. The dataset is split over CSV shards
  named `final_dataset_part_*.csv`. A shard is a sequence of rows, and a row maps each
  column to a cell. An index maps every sentence id to the shard and row where it last
  occurs. Recording a clip sets the path, the status and, when known, the duration and
  the speaker on every row of the indexed shard that carries the clip's id. Reviews move a
  status to `validated` or `rejected`, and the summary counts the four known statuses.
*/
module AudioStatus {
  import opened Wrappers
  import opened PyStr
  import opened Seqs
  import opened Paths
  import opened FilenameParser

  /** One CSV cell as pandas reads it: text, a number, or an empty cell (NaN). */
  datatype Cell = Str(text: string) | Num(x: real) | Missing

  /** A row maps column names to cells; a column a row does not have reads as empty. */
  type Row = map<string, Cell>

  function Get(row: Row, column: string): Cell {
    if column in row then row[column] else Missing
  }

  /** `row['ID']`. */
  function IdOf(row: Row): Cell {
    Get(row, "ID")
  }

  // ---------------------------------------------------------------- shards

  /** The glob `final_dataset_part_*.csv` on one file name. */
  predicate IsShardName(name: string) {
    |name| >= 23 && StartsWith(name, "final_dataset_part_") && EndsWith(name, ".csv")
  }

  /** `sorted(SPLITS_DIR.glob("final_dataset_part_*.csv"))` over the names in the folder. */
  function ShardNames(listing: seq<string>): (r: seq<string>)
    ensures Sorted(r)
    ensures forall n :: n in r <==> n in listing && IsShardName(n)
    ensures multiset(r) == multiset(Filter(listing, IsShardName))
  {
    FilterMembers(listing, IsShardName);
    var r := Sort(Filter(listing, IsShardName));
    assert forall n :: n in r <==> n in multiset(r);
    r
  }

  /** Where `load_all_csvs` last saw an id: the shard's name and the row's position in it. */
  datatype Location = Location(path: string, row: nat)

  /** The position of the last row of `rows` whose id is `id`, or -1. */
  function LastRow(rows: seq<Row>, id: Cell): (i: int)
    ensures -1 <= i < |rows|
    ensures i >= 0 ==> IdOf(rows[i]) == id
    ensures forall k :: i < k < |rows| ==> IdOf(rows[k]) != id
  {
    if rows == [] then -1
    else if IdOf(rows[|rows| - 1]) == id then |rows| - 1
    else LastRow(rows[..|rows| - 1], id)
  }

  /** Some row of `rows` has the id: `mask.any()` for `mask = df['ID'] == id`. */
  predicate AnyRow(rows: seq<Row>, id: Cell) {
    exists i :: 0 <= i < |rows| && IdOf(rows[i]) == id
  }

  /** The position in `names` of the last shard holding a row with the id, or -1. */
  function LastShard(names: seq<string>, files: map<string, seq<Row>>, id: Cell): (a: int)
    requires forall n :: n in names ==> n in files
    ensures -1 <= a < |names|
    ensures a >= 0 ==> LastRow(files[names[a]], id) >= 0
    ensures forall b :: a < b < |names| ==> LastRow(files[names[b]], id) < 0
  {
    if names == [] then -1
    else if LastRow(files[names[|names| - 1]], id) >= 0 then |names| - 1
    else LastShard(names[..|names| - 1], files, id)
  }

  /** The inner loop of `load_all_csvs`: each row of one shard, in order, overwrites its id's entry. */
  function AddRows(index: map<Cell, Location>, path: string, rows: seq<Row>): (r: map<Cell, Location>)
    ensures forall id :: id in r ==>
      || (id in index && r[id] == index[id])
      || (r[id].path == path && r[id].row < |rows| && IdOf(rows[r[id].row]) == id)
  {
    if rows == [] then index
    else AddRows(index, path, rows[..|rows| - 1])[IdOf(rows[|rows| - 1]) := Location(path, |rows| - 1)]
  }

  /** `load_all_csvs` over the shards `names`, visited in order. */
  function IndexOf(names: seq<string>, files: map<string, seq<Row>>): (r: map<Cell, Location>)
    requires forall n :: n in names ==> n in files
    ensures forall id :: id in r ==> r[id].path in names
    ensures forall id :: id in r ==>
      r[id].row < |files[r[id].path]| && IdOf(files[r[id].path][r[id].row]) == id
  {
    if names == [] then map[]
    else
      var last := names[|names| - 1];
      AddRows(IndexOf(names[..|names| - 1], files), last, files[last])
  }

  /** After one shard, an id of that shard points to its last row there, and any other id keeps its entry. */
  lemma {:induction false} AddRowsLookup(index: map<Cell, Location>, path: string, rows: seq<Row>, id: Cell)
    ensures id in AddRows(index, path, rows) <==> id in index || LastRow(rows, id) >= 0
    ensures LastRow(rows, id) >= 0 ==> AddRows(index, path, rows)[id] == Location(path, LastRow(rows, id))
    ensures LastRow(rows, id) < 0 && id in index ==> AddRows(index, path, rows)[id] == index[id]
  {
    if rows != [] {
      AddRowsLookup(index, path, rows[..|rows| - 1], id);
    }
  }

  /**
    The index holds exactly the ids that occur in some shard, and each points to the
    last row holding it in the last shard holding it: the last occurrence wins.
  */
  lemma {:induction false} IndexLookup(names: seq<string>, files: map<string, seq<Row>>, id: Cell)
    requires forall n :: n in names ==> n in files
    ensures id in IndexOf(names, files) <==> LastShard(names, files, id) >= 0
    ensures id in IndexOf(names, files) ==>
      var a := LastShard(names, files, id);
      IndexOf(names, files)[id] == Location(names[a], LastRow(files[names[a]], id))
  {
    if names != [] {
      var init := names[..|names| - 1];
      var last := names[|names| - 1];
      IndexLookup(init, files, id);
      AddRowsLookup(IndexOf(init, files), last, files[last], id);
    }
  }

  /** An indexed id has a row carrying it in the shard the index names. */
  lemma IndexedIdHasRow(names: seq<string>, files: map<string, seq<Row>>, id: Cell)
    requires forall n :: n in names ==> n in files
    requires id in IndexOf(names, files)
    ensures IndexOf(names, files)[id].path in files
    ensures AnyRow(files[IndexOf(names, files)[id].path], id)
  {
    IndexLookup(names, files, id);
    var a := LastShard(names, files, id);
    var i := LastRow(files[names[a]], id);
    assert IdOf(files[names[a]][i]) == id;
  }

  /** Two shards whose rows carry the same ids add the same entries. */
  lemma {:induction false} AddRowsSameIds(index: map<Cell, Location>, path: string, rows: seq<Row>, rows': seq<Row>)
    requires |rows| == |rows'|
    requires forall i :: 0 <= i < |rows| ==> IdOf(rows[i]) == IdOf(rows'[i])
    ensures AddRows(index, path, rows) == AddRows(index, path, rows')
  {
    if rows != [] {
      AddRowsSameIds(index, path, rows[..|rows| - 1], rows'[..|rows'| - 1]);
    }
  }

  /** The index depends on the shards only through the ids of their rows. */
  lemma {:induction false} IndexSameIds(names: seq<string>, files: map<string, seq<Row>>, files': map<string, seq<Row>>)
    requires forall n :: n in names ==> n in files && n in files'
    requires forall n :: n in names ==> |files[n]| == |files'[n]|
    requires forall n, i :: n in names && 0 <= i < |files[n]| ==> IdOf(files[n][i]) == IdOf(files'[n][i])
    ensures IndexOf(names, files) == IndexOf(names, files')
  {
    if names != [] {
      var last := names[|names| - 1];
      IndexSameIds(names[..|names| - 1], files, files');
      AddRowsSameIds(IndexOf(names[..|names| - 1], files), last, files[last], files'[last]);
    }
  }

  // ---------------------------------------------------------------- row updates

  /** `df.loc[df['ID'] == id, col] = value` for every `col, value` of `updates`. */
  function Patch(rows: seq<Row>, id: Cell, updates: map<string, Cell>): (r: seq<Row>)
    ensures |r| == |rows|
    ensures forall i, col :: 0 <= i < |rows| ==>
      Get(r[i], col) == if IdOf(rows[i]) == id && col in updates then updates[col] else Get(rows[i], col)
  {
    seq(|rows|, i requires 0 <= i < |rows| => if IdOf(rows[i]) == id then rows[i] + updates else rows[i])
  }

  /** Updates that leave the id column alone leave every row's id, and so the index, as it was. */
  lemma PatchKeepsIndex(names: seq<string>, files: map<string, seq<Row>>, path: string, id: Cell, updates: map<string, Cell>)
    requires forall n :: n in names ==> n in files
    requires path in files && "ID" !in updates
    ensures IndexOf(names, files[path := Patch(files[path], id, updates)]) == IndexOf(names, files)
  {
    var files' := files[path := Patch(files[path], id, updates)];
    forall n, i | n in names && 0 <= i < |files'[n]| ensures IdOf(files'[n][i]) == IdOf(files[n][i]) {
      if n == path {
        assert Get(files'[n][i], "ID") == Get(files[n][i], "ID");
      }
    }
    IndexSameIds(names, files', files);
  }

  /** Applying the same updates twice changes nothing the first application did not. */
  lemma PatchIdempotent(rows: seq<Row>, id: Cell, updates: map<string, Cell>)
    requires "ID" !in updates
    ensures Patch(Patch(rows, id, updates), id, updates) == Patch(rows, id, updates)
  {
    var once := Patch(rows, id, updates);
    var twice := Patch(once, id, updates);
    forall i | 0 <= i < |rows| ensures twice[i] == once[i] {
      assert IdOf(once[i]) == IdOf(rows[i]) by {
        assert Get(once[i], "ID") == Get(rows[i], "ID");
      }
      if IdOf(rows[i]) == id {
        assert once[i] + updates == once[i];
      }
    }
  }

  /** With no row carrying the id, nothing changes. */
  lemma PatchNoMatch(rows: seq<Row>, id: Cell, updates: map<string, Cell>)
    requires !AnyRow(rows, id)
    ensures Patch(rows, id, updates) == rows
  {
    var r := Patch(rows, id, updates);
    forall i | 0 <= i < |rows| ensures r[i] == rows[i] {
      assert IdOf(rows[i]) != id;
    }
  }

  /** Setting one column after others, on the same rows, is one update with all of them. */
  lemma PatchThen(rows: seq<Row>, id: Cell, updates: map<string, Cell>, col: string, value: Cell)
    requires "ID" !in updates && col != "ID"
    ensures Patch(Patch(rows, id, updates), id, map[col := value]) == Patch(rows, id, updates[col := value])
  {
    var once := Patch(rows, id, updates);
    var a := Patch(once, id, map[col := value]);
    var b := Patch(rows, id, updates[col := value]);
    forall i | 0 <= i < |rows| ensures a[i] == b[i] {
      var row := rows[i];
      if IdOf(row) == id {
        assert once[i] == row + updates;
        assert IdOf(row + updates) == id by {
          assert Get(row + updates, "ID") == Get(row, "ID");
        }
        assert a[i] == (row + updates) + map[col := value];
        assert b[i] == row + updates[col := value];
        UpdateThenSet(row, updates, col, value);
      } else {
        assert once[i] == row;
      }
    }
  }

  /** Merging updates and then setting one more column is merging the updates with that column set. */
  lemma UpdateThenSet(row: Row, updates: map<string, Cell>, col: string, value: Cell)
    ensures (row + updates) + map[col := value] == row + updates[col := value]
  {
  }

  /** The loop `for col, value in updates.items(): df.loc[mask, col] = value`. */
  method ApplyUpdates(rows: seq<Row>, id: Cell, updates: seq<(string, Cell)>) returns (r: seq<Row>)
    requires forall k :: 0 <= k < |updates| ==> updates[k].0 != "ID"
    ensures r == Patch(rows, id, AsMap(updates))
  {
    r := rows;
    assert Patch(rows, id, map[]) == rows by {
      forall i | 0 <= i < |rows| ensures Patch(rows, id, map[])[i] == rows[i] {
        assert rows[i] + map[] == rows[i];
      }
    }
    for k := 0 to |updates|
      invariant r == Patch(rows, id, AsMap(updates[..k]))
    {
      assert updates[..k + 1][..k] == updates[..k];
      AsMapKeys(updates[..k]);
      PatchThen(rows, id, AsMap(updates[..k]), updates[k].0, updates[k].1);
      r := Patch(r, id, map[updates[k].0 := updates[k].1]);
    }
    assert updates[..|updates|] == updates;
  }

  // ---------------------------------------------------------------- recording a clip

  /** What `scan_clips_folder` records of one clip. */
  datatype AudioInfo = AudioInfo(relativePath: string, filename: string, parsed: Option<Parsed>, duration: Option<real>)

  /** The `updates` dictionary of `update_csv_with_audio`, in insertion order. */
  function UpdateList(info: AudioInfo): (r: seq<(string, Cell)>)
    requires info.parsed.Some?
    ensures forall k :: 0 <= k < |r| ==> r[k].0 != "ID"
  {
    var speaker := info.parsed.value.speakerId;
    [("File_Path", Str(info.relativePath)), ("Audio_Status", Str("recorded"))]
    + (if info.duration.Some? then [("Duration", Num(info.duration.value))] else [])
    + (if speaker.Some? && speaker.value != "" then [("Speaker_id", Str(speaker.value))] else [])
  }

  /** The dictionary an ordered list of assignments builds: a later entry for a column wins. */
  function AsMap(entries: seq<(string, Cell)>): map<string, Cell>
  {
    if entries == [] then map[]
    else
      var last := entries[|entries| - 1];
      AsMap(entries[..|entries| - 1])[last.0 := last.1]
  }

  /** The dictionary has a column exactly when some assignment sets it. */
  lemma {:induction false} AsMapKeys(entries: seq<(string, Cell)>)
    ensures forall col :: col in AsMap(entries) <==> exists k :: 0 <= k < |entries| && entries[k].0 == col
  {
    if entries != [] {
      var init := entries[..|entries| - 1];
      AsMapKeys(init);
      assert forall k :: 0 <= k < |init| ==> entries[k] == init[k];
    }
  }

  /**
    The columns a recording sets: always the path and the `recorded` status, the
    duration only when it is known, the speaker only when it is a non-empty name, and
    never the id.
  */
  lemma UpdatesOf(info: AudioInfo)
    requires info.parsed.Some?
    ensures var u := AsMap(UpdateList(info));
      var speaker := info.parsed.value.speakerId;
      && u.Keys == {"File_Path", "Audio_Status"}
           + (if info.duration.Some? then {"Duration"} else {})
           + (if speaker.Some? && speaker.value != "" then {"Speaker_id"} else {})
      && u["File_Path"] == Str(info.relativePath)
      && u["Audio_Status"] == Str("recorded")
      && ("Duration" in u ==> u["Duration"] == Num(info.duration.value))
      && ("Speaker_id" in u ==> u["Speaker_id"] == Str(speaker.value))
      && "ID" !in u
  {
    var l := UpdateList(info);
    var speaker := info.parsed.value.speakerId;
    var e0, e1 := ("File_Path", Str(info.relativePath)), ("Audio_Status", Str("recorded"));
    var b := if info.duration.Some? then [("Duration", Num(info.duration.value))] else [];
    var c := if speaker.Some? && speaker.value != "" then [("Speaker_id", Str(speaker.value))] else [];
    var a := [e0, e1];
    assert l == a + b + c;
    AsMapSnoc([], e0);
    assert [] + [e0] == [e0];
    AsMapSnoc([e0], e1);
    assert [e0] + [e1] == a;
    var ma := map[e0.0 := e0.1, e1.0 := e1.1];
    assert AsMap(a) == ma;
    var mb := if b == [] then ma else ma[b[0].0 := b[0].1];
    if b != [] {
      AsMapSnoc(a, b[0]);
      assert a + b == a + [b[0]];
    } else {
      assert a + b == a;
    }
    assert AsMap(a + b) == mb;
    var u := AsMap(l);
    if c != [] {
      AsMapSnoc(a + b, c[0]);
      assert l == (a + b) + [c[0]];
      assert u == mb["Speaker_id" := Str(speaker.value)];
    } else {
      assert l == a + b;
      assert u == mb;
    }
    assert mb.Keys == {"File_Path", "Audio_Status"} + (if info.duration.Some? then {"Duration"} else {});
  }

  /** One more assignment sets its column on top of the earlier ones. */
  lemma AsMapSnoc(entries: seq<(string, Cell)>, e: (string, Cell))
    ensures AsMap(entries + [e]) == AsMap(entries)[e.0 := e.1]
  {
    assert (entries + [e])[..|entries|] == entries;
  }

  /**
    The shard `update_csv_with_audio` would rewrite for a clip, or `None` when it returns
    `False`: the name did not parse, the id is not in the index, or no row of the shard
    carries the id.
  */
  function RecordingTarget(info: AudioInfo, index: map<Cell, Location>, files: map<string, seq<Row>>): (r: Option<string>)
    requires forall c :: c in index ==> index[c].path in files
    ensures r.Some? ==> info.parsed.Some? && Str(info.parsed.value.sentenceId) in index
    ensures r.Some? ==> r.value == index[Str(info.parsed.value.sentenceId)].path && AnyRow(files[r.value], Str(info.parsed.value.sentenceId))
  {
    if info.parsed.None? then None
    else
      var id := Str(info.parsed.value.sentenceId);
      if id !in index then None
      else
        var path := index[id].path;
        if AnyRow(files[path], id) then Some(path) else None
  }

  /** With an index fresh from the shards, a recording fails only for an unparsed name or an unknown id. */
  lemma RecordingFailsOnlyEarly(info: AudioInfo, names: seq<string>, files: map<string, seq<Row>>)
    requires forall n :: n in names ==> n in files
    ensures forall c :: c in IndexOf(names, files) ==> IndexOf(names, files)[c].path in files
    ensures RecordingTarget(info, IndexOf(names, files), files).None? <==>
      info.parsed.None? || Str(info.parsed.value.sentenceId) !in IndexOf(names, files)
  {
    forall c | c in IndexOf(names, files) ensures IndexOf(names, files)[c].path in files {
      IndexedIdHasRow(names, files, c);
    }
    if info.parsed.Some? && Str(info.parsed.value.sentenceId) in IndexOf(names, files) {
      IndexedIdHasRow(names, files, Str(info.parsed.value.sentenceId));
    }
  }

  /** What `update_status` did. */
  datatype StatusOutcome =
    | UnknownId      // returned False
    | NoMatchingRow  // `values[0]` on an empty selection raised IndexError before anything was saved
    | Updated        // returned True

  /** With an index fresh from the shards, a review never meets a shard without the id. */
  lemma ReviewNeverMissesRow(names: seq<string>, files: map<string, seq<Row>>, id: string)
    requires forall n :: n in names ==> n in files
    requires Str(id) in IndexOf(names, files)
    ensures IndexOf(names, files)[Str(id)].path in files
    ensures AnyRow(files[IndexOf(names, files)[Str(id)].path], Str(id))
  {
    IndexedIdHasRow(names, files, Str(id));
  }

  // ---------------------------------------------------------------- the summary

  /** The statuses `print_summary` counts, in its order. */
  const KnownStatuses: seq<string> := ["pending", "recorded", "validated", "rejected"]

  /** `(df['Audio_Status'] == status).sum()`. */
  function CountStatus(rows: seq<Row>, status: string): (n: nat)
    ensures n <= |rows|
  {
    if rows == [] then 0
    else CountStatus(rows[..|rows| - 1], status) + (if Get(rows[|rows| - 1], "Audio_Status") == Str(status) then 1 else 0)
  }

  /** The count of one status over the shards `names`. */
  function CountAcross(names: seq<string>, files: map<string, seq<Row>>, status: string): nat
    requires forall n :: n in names ==> n in files
  {
    if names == [] then 0
    else CountAcross(names[..|names| - 1], files, status) + CountStatus(files[names[|names| - 1]], status)
  }

  /** The four counts over the shards `names`, in the order of `KnownStatuses`. */
  function Totals(names: seq<string>, files: map<string, seq<Row>>): (r: seq<nat>)
    requires forall n :: n in names ==> n in files
    ensures |r| == 4
  {
    seq(4, k requires 0 <= k < 4 => CountAcross(names, files, KnownStatuses[k]))
  }

  /** The outer loop of `print_summary`: the counts of every shard, in order. */
  method CountShards(names: seq<string>, files: map<string, seq<Row>>) returns (counts: seq<nat>)
    requires forall n :: n in names ==> n in files
    ensures counts == Totals(names, files)
  {
    counts := [0, 0, 0, 0];
    for i := 0 to |names|
      invariant counts == Totals(names[..i], files)
    {
      assert names[..i + 1][..i] == names[..i];
      counts := AddCounts(counts, files[names[i]]);
    }
    assert names[..|names|] == names;
  }

  /** A row's status is one of the four known ones. */
  predicate HasKnownStatus(row: Row) {
    exists k :: 0 <= k < |KnownStatuses| && Get(row, "Audio_Status") == Str(KnownStatuses[k])
  }

  /** The rows of `rows` with a known status. */
  function KnownRows(rows: seq<Row>): (n: nat)
    ensures n <= |rows|
  {
    if rows == [] then 0
    else KnownRows(rows[..|rows| - 1]) + (if HasKnownStatus(rows[|rows| - 1]) then 1 else 0)
  }

  function Sum(counts: seq<nat>): nat {
    if counts == [] then 0 else Sum(counts[..|counts| - 1]) + counts[|counts| - 1]
  }

  /** The sum of four counts, written out. */
  lemma Sum4(c: seq<nat>)
    requires |c| == 4
    ensures Sum(c) == c[0] + c[1] + c[2] + c[3]
  {
    assert Sum(c[..1]) == c[0] by {
      assert c[..1][..0] == [];
    }
    assert Sum(c[..2]) == c[0] + c[1] by {
      assert c[..2][..1] == c[..1];
    }
    assert Sum(c[..3]) == c[0] + c[1] + c[2] by {
      assert c[..3][..2] == c[..2];
    }
  }

  /** The four counts of `rows`, in the order of `KnownStatuses`. */
  function StatusCounts(rows: seq<Row>): (r: seq<nat>)
    ensures |r| == 4
  {
    seq(4, k requires 0 <= k < 4 => CountStatus(rows, KnownStatuses[k]))
  }

  /** Summing the four counts counts each row with a known status once and the others not at all. */
  lemma {:induction false} CountsSumKnown(rows: seq<Row>)
    ensures Sum(StatusCounts(rows)) == KnownRows(rows)
  {
    if rows != [] {
      var init := rows[..|rows| - 1];
      var last := rows[|rows| - 1];
      CountsSumKnown(init);
      var a, b := StatusCounts(init), StatusCounts(rows);
      Sum4(a);
      Sum4(b);
      assert rows[..|rows| - 1] == init;
      var st := Get(last, "Audio_Status");
      forall k | 0 <= k < 4 ensures b[k] == a[k] + Hit(st, KnownStatuses[k]) {
      }
      KnownOnce(last);
    } else {
      Sum4(StatusCounts(rows));
    }
  }

  /** 1 when the cell holds `status`, else 0: what one row adds to the count of `status`. */
  function Hit(cell: Cell, status: string): nat {
    if cell == Str(status) then 1 else 0
  }

  /** The four statuses are distinct, so a row adds one to exactly one count when its status is known, and to none otherwise. */
  lemma KnownOnce(row: Row)
    ensures var st := Get(row, "Audio_Status");
      Hit(st, KnownStatuses[0]) + Hit(st, KnownStatuses[1]) + Hit(st, KnownStatuses[2]) + Hit(st, KnownStatuses[3])
        == if HasKnownStatus(row) then 1 else 0
  {
    var st := Get(row, "Audio_Status");
    assert "recorded"[2] != "rejected"[2];
    if st == Str(KnownStatuses[0]) {
      assert HasKnownStatus(row);
    } else if st == Str(KnownStatuses[1]) {
      assert HasKnownStatus(row);
    } else if st == Str(KnownStatuses[2]) {
      assert HasKnownStatus(row);
    } else if st == Str(KnownStatuses[3]) {
      assert HasKnownStatus(row);
    } else {
      assert !HasKnownStatus(row);
    }
  }

  /** The shards' rows with a known status. */
  function KnownAcross(names: seq<string>, files: map<string, seq<Row>>): nat
    requires forall n :: n in names ==> n in files
  {
    if names == [] then 0
    else KnownAcross(names[..|names| - 1], files) + KnownRows(files[names[|names| - 1]])
  }

  /** The four totals over all shards add up to the rows with a known status. */
  lemma {:induction false} TotalIsKnownRows(names: seq<string>, files: map<string, seq<Row>>)
    requires forall n :: n in names ==> n in files
    ensures Sum(Totals(names, files)) == KnownAcross(names, files)
  {
    var t := Totals(names, files);
    Sum4(t);
    if names != [] {
      var init := names[..|names| - 1];
      var rows := files[names[|names| - 1]];
      TotalIsKnownRows(init, files);
      CountsSumKnown(rows);
      var t0 := Totals(init, files);
      var c := StatusCounts(rows);
      Sum4(t0);
      Sum4(c);
    }
  }

  /** What the percentage lines of `print_summary` do, as written. */
  datatype Printed =
    | DivisionByZero             // `total` is still the Python int 0: ZeroDivisionError
    | NotANumber                 // `total` is a numpy int64 0: 0/0 is nan, printed as `nan%`
    | Percents(values: seq<real>)

  /**
    The percentages `print_summary` prints, as written: every one divides by the total.
    The counts start as Python ints and become numpy int64 once a shard has been read,
    so a zero total raises only when no shard was read, and gives nan otherwise.
  */
  function SharesAsWritten(counts: seq<nat>, shardsRead: nat): (r: Printed)
    ensures r == DivisionByZero <==> Sum(counts) == 0 && shardsRead == 0
    ensures r == NotANumber <==> Sum(counts) == 0 && shardsRead > 0
    ensures r.Percents? ==> |r.values| == |counts|
    ensures r.Percents? ==> forall k :: 0 <= k < |counts| ==> r.values[k] * Sum(counts) as real == 100.0 * counts[k] as real
  {
    var total := Sum(counts);
    if total == 0 then (if shardsRead == 0 then DivisionByZero else NotANumber)
    else Percents(seq(|counts|, k requires 0 <= k < |counts| => 100.0 * counts[k] as real / total as real))
  }

  /** An empty splits folder is enough to make the summary raise. */
  lemma EmptySplitsHaveNoShares(files: map<string, seq<Row>>)
    ensures SharesAsWritten(Totals([], files), 0) == DivisionByZero
  {
    Sum4(Totals([], files));
  }

  /** Shards without a row of a known status make the summary print `nan%`. */
  lemma NoKnownStatusPrintsNan(names: seq<string>, files: map<string, seq<Row>>)
    requires forall n :: n in names ==> n in files
    requires names != [] && KnownAcross(names, files) == 0
    ensures SharesAsWritten(Totals(names, files), |names|) == NotANumber
  {
    TotalIsKnownRows(names, files);
  }

  /** The percentages with the empty case guarded: all zero when there is nothing to count. */
  function Shares(counts: seq<nat>): (r: seq<real>)
    ensures |r| == |counts|
    ensures Sum(counts) > 0 ==> forall n: nat :: SharesAsWritten(counts, n) == Percents(r)
    ensures forall k :: 0 <= k < |r| ==> 0.0 <= r[k] <= 100.0
  {
    var total := Sum(counts);
    if total == 0 then seq(|counts|, k => 0.0)
    else
      forall k | 0 <= k < |counts| ensures 0.0 <= 100.0 * counts[k] as real / total as real <= 100.0 {
        CountInSum(counts, k);
        PercentBound(counts[k] as real, total as real);
      }
      seq(|counts|, k requires 0 <= k < |counts| => 100.0 * counts[k] as real / total as real)
  }

  /** Every count is at most the total. */
  lemma {:induction false} CountInSum(counts: seq<nat>, k: nat)
    requires k < |counts|
    ensures counts[k] <= Sum(counts)
  {
    if k < |counts| - 1 {
      CountInSum(counts[..|counts| - 1], k);
    }
  }

  /** A part of a positive whole is between 0 and 100 percent of it. */
  lemma PercentBound(c: real, t: real)
    requires 0.0 <= c <= t && 0.0 < t
    ensures 0.0 <= 100.0 * c / t <= 100.0
  {
    assert 100.0 * c / t == (100.0 / t) * c;
    assert (100.0 / t) * c <= (100.0 / t) * t;
  }

  /** When anything is counted, the four percentages add up to 100. */
  lemma SharesAddUp(counts: seq<nat>)
    requires |counts| == 4 && Sum(counts) > 0
    ensures var r := Shares(counts); r[0] + r[1] + r[2] + r[3] == 100.0
  {
    var t := Sum(counts) as real;
    Sum4(counts);
    var r := Shares(counts);
    var c0, c1, c2, c3 := counts[0] as real, counts[1] as real, counts[2] as real, counts[3] as real;
    assert t == c0 + c1 + c2 + c3;
    assert r[0] == 100.0 * c0 / t && r[1] == 100.0 * c1 / t && r[2] == 100.0 * c2 / t && r[3] == 100.0 * c3 / t;
    PercentsAddUp(c0, c1, c2, c3);
  }

  /** Four parts of a positive whole, each as a percentage of it, add up to 100. */
  lemma PercentsAddUp(c0: real, c1: real, c2: real, c3: real)
    requires c0 + c1 + c2 + c3 > 0.0
    ensures var t := c0 + c1 + c2 + c3;
      100.0 * c0 / t + 100.0 * c1 / t + 100.0 * c2 / t + 100.0 * c3 / t == 100.0
  {
    var t := c0 + c1 + c2 + c3;
    assert 100.0 * c0 / t + 100.0 * c1 / t + 100.0 * c2 / t + 100.0 * c3 / t == 100.0 * t / t;
  }

  /** The loop `for status in status_counts: status_counts[status] += (df['Audio_Status'] == status).sum()`. */
  method AddCounts(counts: seq<nat>, rows: seq<Row>) returns (r: seq<nat>)
    requires |counts| == 4
    ensures |r| == 4
    ensures forall m :: 0 <= m < 4 ==> r[m] == counts[m] + CountStatus(rows, KnownStatuses[m])
  {
    r := counts;
    for k := 0 to 4
      invariant |r| == 4
      invariant forall m :: 0 <= m < 4 ==> r[m] == counts[m] + (if m < k then CountStatus(rows, KnownStatuses[m]) else 0)
    {
      r := r[k := r[k] + CountStatus(rows, KnownStatuses[k])];
    }
  }

  // ---------------------------------------------------------------- scanning clips

  /** One entry under `clips/` as `rglob('*')` lists it. */
  datatype ClipEntry = ClipEntry(relativePath: string, name: string, isFile: bool)

  /** `audio_extensions` of `scan_clips_folder`. */
  const ClipExtensions: set<string> := {".wav", ".mp3", ".flac"}

  /** The extension test of `scan_clips_folder`. */
  predicate IsClipName(name: string) {
    Lower(Suffix(name)) in ClipExtensions
  }

  /** An entry `scan_clips_folder` keeps. */
  predicate IsClip(e: ClipEntry) {
    IsClipName(e.name) && e.isFile && e.name != ".gitkeep"
  }

  /** `.gitkeep` has no suffix, so the extension test already rejects it and the explicit skip never fires. */
  lemma GitkeepIsNoClip(e: ClipEntry)
    requires e.name == ".gitkeep"
    ensures IsClipName(e.name) == IsClip(e)
  {
    var s := ".gitkeep";
    assert s[0] == '.';
    assert forall k :: 1 <= k < |s| ==> s[k] != '.';
    assert RFind(s, '.') == 0;
  }

  /** The record `scan_clips_folder` makes of a kept entry; the duration lookup is a parameter. */
  function InfoOf(e: ClipEntry, duration: string -> Option<real>): AudioInfo {
    AudioInfo(e.relativePath, e.name, ParseFilename(e.name), duration(e.relativePath))
  }

  /** The records of the entries `es`, in order. */
  function InfosOf(es: seq<ClipEntry>, duration: string -> Option<real>): seq<AudioInfo>
  {
    seq(|es|, k requires 0 <= k < |es| => InfoOf(es[k], duration))
  }

  /** The records of the kept entries, one entry further. */
  lemma InfosNext(entries: seq<ClipEntry>, i: nat, duration: string -> Option<real>)
    requires i < |entries|
    ensures InfosOf(Filter(entries[..i + 1], IsClip), duration)
      == InfosOf(Filter(entries[..i], IsClip), duration) + (if IsClip(entries[i]) then [InfoOf(entries[i], duration)] else [])
  {
    assert entries[..i + 1][..i] == entries[..i];
  }

  /**
    `scan_clips_folder`: nothing when the folder is missing, otherwise one record per
    audio file, in listing order.
  */
  method ScanClipsFolder(clipsExists: bool, entries: seq<ClipEntry>, duration: string -> Option<real>)
    returns (infos: seq<AudioInfo>)
    ensures !clipsExists ==> infos == []
    ensures clipsExists ==> infos == InfosOf(Filter(entries, IsClip), duration)
  {
    if !clipsExists {
      return [];
    }
    infos := [];
    for i := 0 to |entries|
      invariant infos == InfosOf(Filter(entries[..i], IsClip), duration)
    {
      InfosNext(entries, i, duration);
      if IsClip(entries[i]) {
        infos := infos + [InfoOf(entries[i], duration)];
      }
    }
    assert entries[..|entries|] == entries;
  }

  // ---------------------------------------------------------------- the splits folder

  /** The splits folder: the names in it, and the rows of each CSV shard among them. */
  class Splits {
    var listing: seq<string>
    var files: map<string, seq<Row>>

    /** Every shard the glob finds has contents. */
    ghost predicate Valid()
      reads this
    {
      forall n :: n in listing && IsShardName(n) ==> n in files
    }

    /** The shards, in the order the scripts visit them. */
    function Shards(): (r: seq<string>)
      reads this
      requires Valid()
      ensures forall n :: n in r ==> n in files
    {
      ShardNames(listing)
    }

    /** An index pointing into these shards. */
    ghost predicate Points(index: map<Cell, Location>)
      reads this
    {
      forall c :: c in index ==> index[c].path in files
    }

    constructor(listing: seq<string>, files: map<string, seq<Row>>)
      requires forall n :: n in listing && IsShardName(n) ==> n in files
      ensures Valid() && this.listing == listing && this.files == files
    {
      this.listing := listing;
      this.files := files;
    }

    /** `load_all_csvs`: every id's location, the last occurrence winning. */
    method LoadAllCsvs() returns (index: map<Cell, Location>)
      requires Valid()
      ensures index == IndexOf(Shards(), files)
      ensures Points(index)
    {
      var names := Shards();
      index := map[];
      for i := 0 to |names|
        invariant index == IndexOf(names[..i], files)
      {
        var rows := files[names[i]];
        for j := 0 to |rows|
          invariant index == AddRows(IndexOf(names[..i], files), names[i], rows[..j])
        {
          assert rows[..j + 1][..j] == rows[..j];
          index := index[IdOf(rows[j]) := Location(names[i], j)];
        }
        assert rows[..|rows|] == rows;
        assert names[..i + 1][..i] == names[..i];
      }
      assert names[..|names|] == names;
      forall c | c in index ensures index[c].path in files {
        IndexedIdHasRow(names, files, c);
      }
    }

    /**
      `update_csv_with_audio`: `False` and no change when the name did not parse, the id
      is unknown or no row carries it; otherwise `True`, and unless this is a dry run
      the shard's matching rows get the recording's columns.
    */
    method UpdateCsvWithAudio(info: AudioInfo, index: map<Cell, Location>, dryRun: bool) returns (ok: bool)
      requires Valid() && Points(index)
      modifies this
      ensures Valid() && listing == old(listing) && files.Keys == old(files).Keys
      ensures ok <==> RecordingTarget(info, index, old(files)).Some?
      ensures !ok || dryRun ==> files == old(files)
      ensures ok && !dryRun ==>
        var path := RecordingTarget(info, index, old(files)).value;
        files == old(files)[path := Patch(old(files)[path], Str(info.parsed.value.sentenceId), AsMap(UpdateList(info)))]
    {
      if info.parsed.None? {
        return false;
      }
      var id := Str(info.parsed.value.sentenceId);
      if id !in index {
        return false;
      }
      var path := index[id].path;
      var rows := files[path];
      if !AnyRow(rows, id) {
        return false;
      }
      var updates := UpdateList(info);
      if dryRun {
        return true;
      }
      rows := ApplyUpdates(rows, id, updates);
      files := files[path := rows];
      return true;
    }

    /**
      `update_status`: an unknown id changes nothing; otherwise every row of the indexed
      shard carrying the id gets the new status and nothing else changes.
    */
    method UpdateStatus(id: string, newStatus: string, index: map<Cell, Location>) returns (outcome: StatusOutcome)
      requires Valid() && Points(index)
      modifies this
      ensures Valid() && listing == old(listing) && files.Keys == old(files).Keys
      ensures outcome == UnknownId <==> Str(id) !in index
      ensures outcome == NoMatchingRow <==> Str(id) in index && !AnyRow(old(files)[index[Str(id)].path], Str(id))
      ensures outcome != Updated ==> files == old(files)
      ensures outcome == Updated ==>
        var path := index[Str(id)].path;
        files == old(files)[path := Patch(old(files)[path], Str(id), map["Audio_Status" := Str(newStatus)])]
    {
      if Str(id) !in index {
        return UnknownId;
      }
      var path := index[Str(id)].path;
      var rows := files[path];
      if !AnyRow(rows, Str(id)) {
        return NoMatchingRow;
      }
      files := files[path := Patch(rows, Str(id), map["Audio_Status" := Str(newStatus)])];
      return Updated;
    }

    /**
      The counting in `print_summary`: per status, the rows of every shard with that
      status; the total is their sum. `printed` is what the percentage lines do as
      written (a division by zero with no shard, `nan` for a zero total after some
      shard); `shares` is the corrected percentages, guarded against an empty total.
    */
    method PrintSummary() returns (counts: seq<nat>, total: nat, printed: Printed, shares: seq<real>)
      requires Valid()
      ensures |counts| == 4
      ensures counts == Totals(Shards(), files)
      ensures total == Sum(counts) && total == KnownAcross(Shards(), files)
      ensures printed == SharesAsWritten(counts, |Shards()|)
      ensures printed == DivisionByZero <==> Shards() == []
      ensures shares == Shares(counts)
    {
      var names := Shards();
      counts := CountShards(names, files);
      total := counts[0] + counts[1] + counts[2] + counts[3];
      Sum4(counts);
      TotalIsKnownRows(names, files);
      printed := SharesAsWritten(counts, |names|);
      if names == [] {
        EmptySplitsHaveNoShares(files);
      }
      shares := Shares(counts);
    }
  }
}
