# Kirundi dataset tooling, modelled in Dafny

This project models the data-handling core of the Kirundi speech dataset tooling. It
covers four scripts:

- **Audio preparation** (`scripts/process_audio.py`). One recording goes through
  denoising, then silence trimming, then peak normalisation, each of which can be
  switched off, and is written as 16 kHz mono WAV. A batch processes every audio file
  of a folder in sorted order, records a failure and carries on, and counts the
  successes. Module `ProcessAudio`.
- **Recording-status bookkeeping** (`scripts/update_audio_status.py`). Clip file names
  are parsed with a full `DATE_SPEAKER_DOMAIN_krd_<n>_<domain>.wav` grammar. When that
  fails, the parser falls back to the leftmost sentence id anywhere in the name. This is
  module `FilenameParser`.
  - The dataset is split over CSV shards. An index maps each sentence id to the shard
    where it last occurs.
  - A recorded clip sets the path, the `recorded` status, the duration and the speaker on
    the matching rows.
  - A review sets a new status.
  - A summary counts the four known statuses and prints their percentages.

  Module `AudioStatus`, whose class `Splits` holds the shard listing and contents.
- **Prompt import** (`scripts/append_to_csv.py`). The stripped, non-empty lines of a
  text file that are not yet transcriptions in the metadata CSV are appended as new
  12-column rows. Module `AppendToCsv`, whose class `MetadataCsv` holds the file.
- **OCR of the law PDFs** (`lois/extract_ocr.py`). Recognised pages are assembled into
  one text with a header per page. Each line is cleaned before it goes into the text
  PDF. The program decides where the `.txt` and `_text.pdf` outputs go and which PDFs
  of the folder are inputs. Module `ExtractOcr`.

Shared helpers model Python's string operations (`PyStr`: `strip`, `split`, `join`,
`find`, …, and `lower` restricted to ASCII letters), path stems and suffixes (`Paths`), and sequence utilities (`Seqs`:
filter, map, sort). `Wrappers` supplies `Option` and `Result`.

Everything the scripts call but do not define is a parameter of the model, and none of
its behaviour is assumed:

- audio decoding, trimming, noise reduction and the file system's answers (the
  `ProcessAudio.Env` record);
- the OCR engine (a page-number → optional-text function);
- the PDF layout engine's acceptance of a line;
- the duration lookup.

Where the script and its documentation disagree, the model follows the code:

- The docstring of `parse_filename` gives `…_krd_000001.wav` as an example. The pattern
  it compiles also requires `_<domain>` after the digits, so that example name only
  matches through the fallback search.
- The import reads existing sentences at the column the header names. It writes new
  rows with the transcription hard-coded as the second cell. The two agree only when the
  header's transcription column is the second one (`AppendToCsv.RerunTakesNothing`).
  Otherwise a rerun imports the same lines again (`AppendToCsv.RerunRepeatsElsewhere`).

## Model

| member | source | states |
|---|---|---|
| ProcessAudio.Peak | scripts/process_audio.py:133 | the peak bounds every sample's magnitude and some sample reaches it |
| ProcessAudio.Clip | scripts/process_audio.py:149 | the result lies in [-1, 1] and values already inside are unchanged |
| ProcessAudio.Normalize | scripts/process_audio.py:119-153 | fails exactly on empty audio (`np.max` raises); otherwise the same length with every sample in [-1, 1] |
| ProcessAudio.NormalizeSilent | scripts/process_audio.py:135-137 | an all-zero recording is returned unchanged |
| ProcessAudio.NormalizeScales | scripts/process_audio.py:142-149 | with a non-zero peak, each sample is multiplied by target/peak and clipped |
| ProcessAudio.NormalizeReachesTarget | scripts/process_audio.py:133-149 | for a target in (0, 1], nothing is clipped and the output's peak is exactly the target level |
| ProcessAudio.ScaleWithoutClipping | scripts/process_audio.py:143-149 | scaling by target/peak keeps every sample within the target, so the clip does not change it |
| ProcessAudio.TruncToInt | scripts/process_audio.py:177 | `int()` of a float truncates toward zero: the magnitude drops by less than one and the sign is kept |
| ProcessAudio.NoiseReference | scripts/process_audio.py:177-184 | the whole audio when it is shorter than twice the profile, else the first n samples, with Python slice semantics for negative n |
| ProcessAudio.DefaultNoiseReference | scripts/process_audio.py:156-184 | with the defaults (0.5 s at 16 kHz), any recording of at least 16000 samples uses its first 8000 samples as the noise profile |
| ProcessAudio.Denoise | scripts/process_audio.py:170-193 | a no-op when noise reduction is unavailable, otherwise noise reduction against that reference |
| ProcessAudio.Pipeline | scripts/process_audio.py:243-250 | fails exactly when normalisation is on and the audio reaching it is empty; without normalisation the result is the earlier stages' output; with it every sample lies in [-1, 1] |
| ProcessAudio.PipelineAllOff | scripts/process_audio.py:243-250 | with every stage off, the written audio is the loaded audio |
| ProcessAudio.PipelineNormalizedLast | scripts/process_audio.py:243-250 | with normalisation on: failure only on empty audio; every written sample lies in [-1, 1]; a non-silent input peaks at the target |
| ProcessAudio.OutputPath | scripts/process_audio.py:226-230 | the given output path, or else the input's name inside the clips folder |
| ProcessAudio.FailureOf | scripts/process_audio.py:222-261 | the error is FileNotFound exactly when the input is missing, and a write error only when the output is not writable |
| ProcessAudio.FileEffects | scripts/process_audio.py:233-261 | a missing input has no effect; otherwise the first effect is making the output folder; a successful run then writes exactly once; any write is the output path with the pipeline's samples at 16 kHz |
| ProcessAudio.ProcessAudioFile | scripts/process_audio.py:200-267 | a missing input raises before anything is created; otherwise the output folder is made first; success exactly when every step succeeds, returning the output path and `len/16000` |
| ProcessAudio.EntryShape | scripts/process_audio.py:296-311 | a batch entry is a success exactly when processing succeeds, and then records the output and the duration; a failure records neither |
| ProcessAudio.EntriesAt | scripts/process_audio.py:293-311 | one entry per file, the i-th for the i-th file |
| ProcessAudio.CountSuccess | scripts/process_audio.py:314 | the success count never exceeds the number of entries |
| ProcessAudio.CountSuccessBounds | scripts/process_audio.py:314 | the success count equals the number of files exactly when all succeed, and is zero exactly when all fail |
| ProcessAudio.BatchWrites | scripts/process_audio.py:293-311 | a batch writes exactly the outputs of the files that succeed, and only those |
| ProcessAudio.ProcessBatchFile | scripts/process_audio.py:295-311 | one loop iteration produces that file's entry and its file-system actions |
| ProcessAudio.ProcessFiles | scripts/process_audio.py:293-311 | the loop yields the entries and the actions of every file, in order |
| ProcessAudio.CountSuccesses | scripts/process_audio.py:314 | the loop counts the successful entries |
| ProcessAudio.ProcessBatch | scripts/process_audio.py:270-319 | no audio file gives no result and no action; otherwise the output folder is made, then the sorted files are processed with the defaults into `stem.wav` |
| ProcessAudio.BatchFiles | scripts/process_audio.py:282-294 | the batch processes the listing's audio files, sorted, each as often as listed |
| FilenameParser.FullMatch | scripts/update_audio_status.py:57-60 | a full match always yields a date, a speaker and a domain |
| FilenameParser.FullMatchSound | scripts/update_audio_status.py:57-60 | a full match is the date, speaker, domain and id joined by `_`, then `.wav` in any case; each group has its pattern's shape |
| FilenameParser.FullMatchComplete | scripts/update_audio_status.py:57-60 | every name of that shape, with an optional trailing newline, matches with exactly those groups |
| FilenameParser.FullMatchIdOccurs | scripts/update_audio_status.py:97-104 | the id of a full match is a sentence id occurring in the name just before the extension |
| FilenameParser.SearchId | scripts/update_audio_status.py:63 | a found id is a sentence id occurring in the name |
| FilenameParser.SearchIdNone | scripts/update_audio_status.py:63 | the fallback search fails exactly when no substring is a sentence id |
| FilenameParser.SearchIdFound | scripts/update_audio_status.py:63 | the search finds a sentence id that the next character cannot extend, and no id starts earlier |
| FilenameParser.ParseNeedsSentenceId | scripts/update_audio_status.py:86-116 | a name containing no sentence id does not parse |
| FilenameParser.ParseFilename | scripts/update_audio_status.py:86-116 | a full match is returned with exactly its groups; otherwise the name parses exactly when the fallback search finds an id, giving that id with no date, speaker or domain; the id is always a sentence id |
| FilenameParser.ParsesWithSentenceId | scripts/update_audio_status.py:86-116 | a name holding a sentence id anywhere always parses |
| AudioStatus.ShardNames | scripts/update_audio_status.py:128 | the shards are exactly the listing's names matching the glob, sorted |
| AudioStatus.IndexOf | scripts/update_audio_status.py:119-140 | every indexed id points into a listed shard, at a row that carries that id |
| AudioStatus.IndexLookup | scripts/update_audio_status.py:119-140 | the index holds exactly the ids that occur in some shard; each points at its last row in the last shard holding it |
| AudioStatus.IndexedIdHasRow | scripts/update_audio_status.py:130-138 | an indexed id has a row carrying it in the shard the index names |
| AudioStatus.Patch | scripts/update_audio_status.py:243-244 | the same number of rows; on a row carrying the id each updated column takes its new value, every other cell is unchanged |
| AudioStatus.PatchKeepsIndex | scripts/update_audio_status.py:243-244 | updates that leave the ID column alone leave the index unchanged |
| AudioStatus.PatchIdempotent | scripts/update_audio_status.py:243-244 | applying the same updates twice equals applying them once |
| AudioStatus.PatchNoMatch | scripts/update_audio_status.py:243-244 | with no row carrying the id, nothing changes |
| AudioStatus.PatchThen | scripts/update_audio_status.py:243-244 | setting one more column after the others equals one update with all of them |
| AudioStatus.ApplyUpdates | scripts/update_audio_status.py:243-244 | the loop over the updates sets every column of the resulting dictionary on the matching rows |
| AudioStatus.UpdateList | scripts/update_audio_status.py:219-228 | no entry of the update list sets the ID column |
| AudioStatus.UpdatesOf | scripts/update_audio_status.py:219-228 | a recording always sets the path and `recorded`; the duration only when known; the speaker only when non-empty; never the id |
| AudioStatus.RecordingFailsOnlyEarly | scripts/update_audio_status.py:192-212 | with a fresh index, a recording fails only for an unparsed name or an unknown id |
| AudioStatus.ReviewNeverMissesRow | scripts/update_audio_status.py:265-277 | with a fresh index, a known id always has a row in its shard, so `values[0]` does not raise |
| AudioStatus.CountShards | scripts/update_audio_status.py:296-299 | the loop over the shards yields the four per-status totals |
| AudioStatus.AddCounts | scripts/update_audio_status.py:298-299 | each status count grows by that status's rows in one shard |
| AudioStatus.CountsSumKnown | scripts/update_audio_status.py:298-301 | a shard's four counts sum to its rows with a known status, each counted once |
| AudioStatus.TotalIsKnownRows | scripts/update_audio_status.py:296-301 | the total is the number of rows with a known status across all shards |
| AudioStatus.SharesAsWritten | scripts/update_audio_status.py:294-310 | the percentages as written: ZeroDivisionError exactly when the total is zero and no shard was read; `nan` exactly when the total is zero after some shard was read; otherwise each percentage times the total is 100 times its count |
| AudioStatus.EmptySplitsHaveNoShares | scripts/update_audio_status.py:294-310 | a splits folder with no shard makes the summary divide by zero |
| AudioStatus.NoKnownStatusPrintsNan | scripts/update_audio_status.py:296-310 | shards read with no row of a known status make every percentage `nan` |
| AudioStatus.Shares | scripts/update_audio_status.py:307-310 | guarded percentages: each is in [0, 100] and equals the written one whenever the total is positive |
| AudioStatus.SharesAddUp | scripts/update_audio_status.py:307-310 | with a positive total, the four percentages add up to 100 |
| AudioStatus.GitkeepIsNoClip | scripts/update_audio_status.py:159-162 | `.gitkeep` already fails the extension test, so the explicit skip never fires |
| AudioStatus.ScanClipsFolder | scripts/update_audio_status.py:143-177 | a missing folder yields nothing; otherwise one record per kept audio file, in listing order |
| AudioStatus.Splits.LoadAllCsvs | scripts/update_audio_status.py:119-140 | the index built over the sorted shards, pointing into them |
| AudioStatus.Splits.UpdateCsvWithAudio | scripts/update_audio_status.py:180-250 | returns True exactly when the name parsed, the id is indexed and a row carries it; only then, outside a dry run, the matching rows of that one shard are patched and nothing else changes |
| AudioStatus.Splits.UpdateStatus | scripts/update_audio_status.py:253-286 | an unknown id changes nothing; an indexed shard without the id is the `values[0]` error; otherwise exactly the status of the matching rows changes |
| AudioStatus.Splits.PrintSummary | scripts/update_audio_status.py:289-311 | the four per-status counts over the sorted shards, their sum equal to the known-status rows; the percentages as printed (a division by zero exactly when there is no shard, `nan` for a zero total after some shard) and the corrected, guarded percentages |
| AppendToCsv.CleanHeader | scripts/append_to_csv.py:65 | one cell per header cell, that cell stripped then lower-cased; each result is stripped and free of capital letters |
| AppendToCsv.ColumnIndex | scripts/append_to_csv.py:68-74 | `list.index`: absent exactly when the column is missing, otherwise its first position |
| AppendToCsv.ExistingMembers | scripts/append_to_csv.py:77-79 | a sentence is present exactly when some long-enough data row holds it, non-empty, at the column |
| AppendToCsv.Existing | scripts/append_to_csv.py:77-79 | the empty cell is never an existing sentence |
| AppendToCsv.ReadExisting | scripts/append_to_csv.py:77-79 | the loop collects exactly those sentences |
| AppendToCsv.TakeNew | scripts/append_to_csv.py:88-95 | the loop over the lines takes the selection below |
| AppendToCsv.TakenSpec | scripts/append_to_csv.py:88-95 | taken sentences are stripped, non-empty lines not already present, none twice, in first-occurrence order; every other non-empty line was already present |
| AppendToCsv.Selected | scripts/append_to_csv.py:88-95 | at most one sentence per line; every taken sentence is non-empty and not already present |
| AppendToCsv.Selection | scripts/append_to_csv.py:77-95 | every sentence a run takes is non-empty, stripped and not yet under the transcription column |
| AppendToCsv.SelectedSound | scripts/append_to_csv.py:92-95 | a taken sentence is non-empty, new, and one of the lines |
| AppendToCsv.SelectedDistinct | scripts/append_to_csv.py:93-95 | no sentence is taken twice |
| AppendToCsv.SelectedComplete | scripts/append_to_csv.py:92-95 | every non-empty line is taken or was already present |
| AppendToCsv.SelectedInOrder | scripts/append_to_csv.py:91-94 | sentences are taken in the order of their first occurrence |
| AppendToCsv.LayoutRow | scripts/append_to_csv.py:111-114 | 12 cells: the sentence second, the domain fifth, all others empty |
| AppendToCsv.DomainOf | scripts/append_to_csv.py:36-37 | the given domain, or `proverbs` |
| AppendToCsv.RerunTakesNothing | scripts/append_to_csv.py:65-114 | when the transcription column is the second one, an immediate rerun over the same text takes nothing |
| AppendToCsv.RerunRepeatsElsewhere | scripts/append_to_csv.py:69-114 | when the transcription column is the first one, the appended row hides the sentence from the next run, which takes it again |
| AppendToCsv.MetadataCsv.WriteRows | scripts/append_to_csv.py:107-114 | appends one layout row per taken sentence, in order |
| AppendToCsv.MetadataCsv.AppendFromTxtToCsv | scripts/append_to_csv.py:28-120 | the early exits in order (missing metadata, missing source, empty file, missing column, nothing new), each leaving the file unchanged; otherwise exactly the selection's rows are appended |
| ExtractOcr.PageHeader | lois/extract_ocr.py:83 | a header starts with `--- Page ` and has no newline |
| ExtractOcr.ImagePagesMembers | lois/extract_ocr.py:50-63 | the pages that count are exactly those in range that yield an image |
| ExtractOcr.BlocksOfPages | lois/extract_ocr.py:50-83 | one block per page with an image, in page order, each its header and the stripped OCR text |
| ExtractOcr.FullText | lois/extract_ocr.py:46-88 | the text is empty exactly when no page yields an image; otherwise it starts with a page header |
| ExtractOcr.ExtractTextFromPdf | lois/extract_ocr.py:30-93 | the page loop returns the blocks joined by blank lines |
| ExtractOcr.BlankIffNoImage | lois/extract_ocr.py:61-88 | the text is blank exactly when no page yields an image |
| ExtractOcr.Latin1Char | lois/extract_ocr.py:126 | latin-1 characters survive the round trip; all others become a latin-1 character |
| ExtractOcr.Truncate | lois/extract_ocr.py:129 | a word is cut to its first 80 characters only when it is longer |
| ExtractOcr.SanitizeLine | lois/extract_ocr.py:126-130 | splitting the cleaned line on whitespace gives back exactly its truncated words, so no word of it is longer than 80 |
| ExtractOcr.SanitizedWords | lois/extract_ocr.py:126-130 | the truncated words are words, one per word of the line, each at most 80 long, a prefix of its original word, and that word itself when it was short |
| ExtractOcr.RenderLine | lois/extract_ocr.py:118-135 | a header line becomes a heading verbatim; any other line becomes its cleaned form exactly when the layout accepts that form, and is skipped otherwise |
| ExtractOcr.RenderLines | lois/extract_ocr.py:118-135 | at most one laid-out line per text line; every body line has only words of at most 80 characters |
| ExtractOcr.RenderedOrigins | lois/extract_ocr.py:118-135 | every laid-out line is a header of the text or the cleaned form, with short words, of one of its lines |
| ExtractOcr.HeadingsKept | lois/extract_ocr.py:120-123 | every header line of the text is set as a heading |
| ExtractOcr.BodiesKept | lois/extract_ocr.py:124-135 | every other line of the text whose cleaned form the layout accepts is set as a body line |
| ExtractOcr.SaveTextPdf | lois/extract_ocr.py:105-139 | the text split on newlines, laid out line by line |
| ExtractOcr.EveryPageHeaded | lois/extract_ocr.py:83-88 | in the text PDF, every page that yielded an image has its header as a heading |
| ExtractOcr.Outputs | lois/extract_ocr.py:142-168 | a blank text writes nothing; otherwise `stem.txt`, then `stem_text.pdf` unless txt-only, both next to the input |
| ExtractOcr.NoOutputIffNoImage | lois/extract_ocr.py:152-156 | a PDF gets no output exactly when none of its pages yields an image |
| ExtractOcr.ProcessPdf | lois/extract_ocr.py:142-168 | writes exactly those outputs for the extracted text |
| ExtractOcr.Containing | lois/extract_ocr.py:191-196 | the filter keeps exactly the names containing the target, and keeps them sorted |
| ExtractOcr.InputPdfs | lois/extract_ocr.py:174-177 | the inputs are the listing's `.pdf` names whose stem does not end in `_text` or `_ocr`, sorted |
| ExtractOcr.SelectPdfs | lois/extract_ocr.py:174-196 | the run stops exactly when no input PDF is left after filtering; otherwise the list is non-empty, sorted, and holds exactly the matching inputs |
| ExtractOcr.OutputsNotSelected | lois/extract_ocr.py:148-149 | neither output of a run is taken as an input by the next one |
| ExtractOcr.OutputsDistinct | lois/extract_ocr.py:145-149 | different input PDFs get different output paths |

## Left out

- Audio decoding and resampling (`librosa.load`), silence trimming, `noisereduce` and
  `soundfile` are opaque parameters. Only what the scripts do around them is modelled.
- Samples are reals. The dB-to-linear conversion `10 ** (dB / 20)` is the parameter
  `peakLinear`. The logged dB figures and the 16-bit quantisation of the WAV writer are
  not modelled.
- `ProcessAudio.ProcessBatch`: an input that is listed but is not a regular file is
  treated like any other name.
- `ProcessAudio.ProcessAudioFile`: trimming, noise reduction and making the output
  folder are modelled as never raising (`Env.trim` and `Env.reduceNoise` are total and
  `MkDir` always succeeds). In `scripts/process_audio.py`, an exception from
  `librosa.effects.trim`, from `nr.reduce_noise` (line 187) or from `mkdir` (line 233)
  becomes an error entry of `process_batch` (lines 305-311). `r.Ok? <==> Succeeds`,
  `ProcessAudio.FileEffects` and `ProcessAudio.BatchWrites` hold only under that
  assumption.
- `ExtractOcr.RenderLine`: headings are always accepted. In `lois/extract_ocr.py` the
  heading's `pdf.cell` (line 122) is outside the `try`. A header line holding a
  character the built-in font cannot encode can abort `save_text_pdf`; the model always
  emits the heading.
- `get_audio_duration` is a parameter returning an optional duration. Its rounding to
  two decimals belongs to that parameter.
- CSV parsing and writing, pandas' column types and NaN handling, and the UTF-8 BOM are
  not modelled. A shard is a sequence of rows, each a map from column to cell; the
  metadata file is a sequence of rows of cells.
- `AudioStatus.Splits.UpdateStatus`: the IndexError raised at line 277 of
  `scripts/update_audio_status.py` is the `NoMatchingRow` outcome, with no change to the
  shards.
- The FPDF layout engine (fonts, cells, page breaks) is modelled as the list of lines
  handed to it. Whether it accepts a body line is the parameter `fits`.
- Page rasterisation and the OCR engine are a per-page function returning optional
  text. The page count is a parameter.
- `ExtractOcr.OutputsDistinct` requires input names longer than `.pdf`. A file named
  exactly `.pdf` has that whole name as its stem, so `.pdf` and `.pdf.pdf` would share
  the output `.pdf.txt`.
- Logging, printing, timing, progress figures and the sizes reported for written files
  are not modelled.
- The command-line entry points are not modelled beyond input selection. This covers
  argument parsing, the per-PDF loop of `lois/extract_ocr.py` main, the main of
  `scripts/update_audio_status.py` (its loops over clips and reviews), and the truncation
  of the source text file after `scripts/append_to_csv.py` runs.
- `FilenameParser.IsDigit`, `FilenameParser.IsLetter`, `FilenameParser.IsSpeakerChar`,
  `FilenameParser.IsDomainChar`, `PyStr.LowerChar` and `PyStr.Lower` are ASCII-only.
  Python's `\d` also matches other Unicode decimal digits. `re.IGNORECASE` also matches
  letters such as `ſ`, `ı`, `İ` and the Kelvin sign. `str.lower` lower-cases all of
  Unicode. Names and headers outside ASCII may therefore parse or compare differently.
- `AudioStatus.Get` reads a column missing from a row as the empty cell `Missing`.
  pandas raises KeyError instead, on `row['ID']` (line 134 of
  `scripts/update_audio_status.py`), `df['ID']` (lines 209 and 276),
  `df.loc[mask, 'Audio_Status']` and `df.loc[mask, 'File_Path']` (lines 215-216) and
  `df['Audio_Status']` (line 299). The model does not capture that `load_all_csvs`,
  `update_csv_with_audio`, `update_status` and `print_summary` crash on a shard without
  these columns.
- I/O exceptions while reading or writing a file (a locked file, a decode error) are
  not modelled, apart from the audio write failure.

## Findings

| source | as written | input that shows it | evidently intended | confidence | as-written member | corrected member |
|---|---|---|---|---|---|---|
| scripts/update_audio_status.py:294-307 | the summary divides every status count by `total` | a splits folder with no shard: `total` is still the Python int 0 and the first percentage raises ZeroDivisionError | print 0.0 % for every status when nothing is counted | not executed | AudioStatus.EmptySplitsHaveNoShares | AudioStatus.Shares |
| scripts/update_audio_status.py:296-310 | the summary divides every status count by `total` | a splits folder whose shards hold no row with a known status: `total` is a numpy int64 0, so each percentage is 0/0, printed as `nan%` | print 0.0 % for every status when nothing is counted | not executed | AudioStatus.NoKnownStatusPrintsNan | AudioStatus.Shares |

`AudioStatus.SharesAsWritten` models the percentages as written, with both outcomes.
`AudioStatus.EmptySplitsHaveNoShares` exhibits the division by zero on an empty folder,
and `AudioStatus.NoKnownStatusPrintsNan` the `nan` percentages when shards were read.
`AudioStatus.SharesAddUp` proves that the guarded percentages add up to 100 whenever
anything is counted. `AudioStatus.Splits.PrintSummary` returns both the percentages as
written and the guarded version.
