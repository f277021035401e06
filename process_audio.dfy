/**
  The audio pipeline of `scripts/process_audio.py`: peak normalisation, the choice of
  the noise reference for denoising, the single-file pipeline (denoise, then trim,
  then normalize, each switchable) and batch processing of a folder.

  Samples are reals. The audio libraries are opaque functions gathered in `Env`:
  decoding with resampling to 16 kHz mono, silence trimming, noise reduction, whether
  a path exists and whether writing to it succeeds. The file system is not state
  here: each operation returns the ordered trace of what it creates and writes.
*/
module ProcessAudio {
  import opened Wrappers
  import opened Paths
  import PyStr
  import Seqs

  /** TARGET_SAMPLE_RATE: `librosa.load` always returns audio at this rate. */
  const TargetSampleRate: int := 16000
  /** `abs(SILENCE_THRESHOLD_DB)`, the `top_db` given to the trimmer. */
  const TrimTopDb: real := 30.0
  /** The default `noise_sample_duration` of `denoise_audio`, in seconds. */
  const NoiseSampleSeconds: real := 0.5
  /** CLIPS_DIR, the default output folder. */
  const ClipsDir: string := "clips"
  /** The suffixes `process_batch` accepts, compared after lower-casing. */
  const AudioExtensions: set<string> := {".wav", ".mp3", ".flac", ".ogg", ".m4a"}

  type Samples = seq<real>

  /** The libraries and the environment the pipeline calls into; none of their behaviour is assumed. */
  datatype Env = Env(
    present: Path -> bool,                          // Path.exists()
    load: Path -> Option<Samples>,                  // librosa.load(sr=16000, mono=True); None when decoding fails
    trim: (Samples, real) -> Samples,               // librosa.effects.trim(audio, top_db)
    reduceNoise: (Samples, int, Samples) -> Samples,  // noisereduce.reduce_noise(y, sr, y_noise)
    denoiseAvailable: bool,                         // NOISEREDUCE_AVAILABLE
    writable: Path -> bool,                         // sf.write to this path succeeds
    peakLinear: real)                               // 10 ** (PEAK_NORMALIZE_DB / 20)

  /** Which stages run (`do_trim`, `do_normalize`, `do_denoise`). */
  datatype Toggles = Toggles(trim: bool, normalize: bool, denoise: bool)

  /** The defaults of `process_audio`, which batch mode always uses. */
  const Defaults := Toggles(true, true, true)

  function Abs(x: real): real {
    if x < 0.0 then -x else x
  }

  /** `np.max(np.abs(audio))`: the largest magnitude of a non-empty array. */
  function Peak(audio: Samples): (p: real)
    requires |audio| > 0
    ensures forall i :: 0 <= i < |audio| ==> Abs(audio[i]) <= p
    ensures exists i :: 0 <= i < |audio| && Abs(audio[i]) == p
  {
    if |audio| == 1 then Abs(audio[0])
    else
      var rest := Peak(audio[1..]);
      assert forall i :: 1 <= i < |audio| ==> audio[i] == audio[1..][i - 1];
      var j :| 0 <= j < |audio[1..]| && Abs(audio[1..][j]) == rest;
      assert Abs(audio[j + 1]) == rest;
      if Abs(audio[0]) >= rest then Abs(audio[0]) else rest
  }

  /** `np.clip(x, -1.0, 1.0)`. */
  function Clip(x: real): (y: real)
    ensures -1.0 <= y <= 1.0
    ensures -1.0 <= x <= 1.0 ==> y == x
  {
    if x < -1.0 then -1.0 else if x > 1.0 then 1.0 else x
  }

  /**
    `normalize_audio` with the linear target level `targetLinear`. `None` stands for the
    ValueError `np.max` raises on an empty array; a silent input comes back unchanged;
    otherwise every sample is scaled by `targetLinear / peak` and clipped.
  */
  function Normalize(audio: Samples, targetLinear: real): (r: Option<Samples>)
    ensures r.None? <==> |audio| == 0
    ensures r.Some? ==> |r.value| == |audio|
    ensures r.Some? ==> forall i :: 0 <= i < |r.value| ==> -1.0 <= r.value[i] <= 1.0
  {
    if |audio| == 0 then None
    else
      var peak := Peak(audio);
      if peak == 0.0 then
        assert forall i :: 0 <= i < |audio| ==> audio[i] == 0.0;
        Some(audio)
      else
        Some(Scale(audio, Gain(audio, targetLinear)))
  }

  /** `target_linear / current_peak`. */
  function Gain(audio: Samples, targetLinear: real): real
    requires |audio| > 0 && Peak(audio) != 0.0
  {
    targetLinear / Peak(audio)
  }

  /** One sample multiplied by the gain. */
  function Amplify(x: real, gain: real): real {
    x * gain
  }

  /** `np.clip(audio * gain, -1.0, 1.0)`. */
  function Scale(audio: Samples, gain: real): (r: Samples)
    ensures |r| == |audio|
    ensures forall i :: 0 <= i < |r| ==> r[i] == Clip(Amplify(audio[i], gain)) && -1.0 <= r[i] <= 1.0
  {
    seq(|audio|, i requires 0 <= i < |audio| => Clip(Amplify(audio[i], gain)))
  }

  /** A silent recording (every sample 0) is returned unchanged. */
  lemma NormalizeSilent(audio: Samples, targetLinear: real)
    requires |audio| > 0
    requires forall i :: 0 <= i < |audio| ==> audio[i] == 0.0
    ensures Normalize(audio, targetLinear) == Some(audio)
  {
    var j :| 0 <= j < |audio| && Abs(audio[j]) == Peak(audio);
  }

  /** With a non-zero peak, each output sample is the input sample scaled by `targetLinear / peak` and clipped. */
  lemma NormalizeScales(audio: Samples, targetLinear: real)
    requires |audio| > 0 && Peak(audio) != 0.0
    ensures var r := Normalize(audio, targetLinear);
      && r.Some? && |r.value| == |audio|
      && forall i :: 0 <= i < |audio| ==> r.value[i] == Clip(Amplify(audio[i], Gain(audio, targetLinear)))
  {
  }

  /**
    For a target level in (0, 1] and a non-silent input, nothing is clipped: every sample
    is exactly the scaled input, and the peak of the output is the target level.
  */
  lemma NormalizeReachesTarget(audio: Samples, targetLinear: real)
    requires |audio| > 0 && Peak(audio) != 0.0
    requires 0.0 < targetLinear <= 1.0
    ensures var r := Normalize(audio, targetLinear);
      && r.Some? && |r.value| == |audio|
      && (forall i :: 0 <= i < |audio| ==> r.value[i] == Amplify(audio[i], Gain(audio, targetLinear)))
      && Peak(r.value) == targetLinear
  {
    var peak := Peak(audio);
    var gain := Gain(audio, targetLinear);
    assert Normalize(audio, targetLinear) == Some(Scale(audio, gain));
    var j :| 0 <= j < |audio| && Abs(audio[j]) == peak;
    ScaleWithoutClipping(audio, gain, peak, targetLinear);
    ScaleReachesTarget(audio, gain, peak, targetLinear, j);
  }

  /** When sample `j` has the largest magnitude `peak`, scaling by `target / peak` gives a peak of `target`. */
  lemma ScaleReachesTarget(audio: Samples, gain: real, peak: real, target: real, j: int)
    requires peak > 0.0 && 0.0 < target <= 1.0 && gain == target / peak
    requires 0 <= j < |audio| && Abs(audio[j]) == peak
    requires forall i :: 0 <= i < |audio| ==> Abs(audio[i]) <= peak
    ensures Peak(Scale(audio, gain)) == target
  {
    var r := Scale(audio, gain);
    ScaleWithoutClipping(audio, gain, peak, target);
    ScaledPeak(audio[j], gain, peak, target);
    PeakIsBound(r, j, target);
  }

  /** The loudest sample, scaled by `target / peak`, has magnitude `target`. */
  lemma ScaledPeak(x: real, gain: real, peak: real, target: real)
    requires peak > 0.0 && target > 0.0 && gain == target / peak && Abs(x) == peak
    ensures Abs(x * gain) == target
  {
    assert peak * (target / peak) == target;
    if x < 0.0 {
      assert x * gain == -(peak * gain);
    } else {
      assert x * gain == peak * gain;
    }
  }

  /** Scaling samples of magnitude at most `peak` by `target / peak` clips nothing and stays within `target`. */
  lemma ScaleWithoutClipping(audio: Samples, gain: real, peak: real, target: real)
    requires peak > 0.0 && 0.0 < target <= 1.0 && gain == target / peak
    requires forall i :: 0 <= i < |audio| ==> Abs(audio[i]) <= peak
    ensures forall i :: 0 <= i < |audio| ==> Scale(audio, gain)[i] == Amplify(audio[i], gain)
    ensures forall i :: 0 <= i < |audio| ==> Abs(Scale(audio, gain)[i]) <= target
  {
    forall i | 0 <= i < |audio|
      ensures Scale(audio, gain)[i] == Amplify(audio[i], gain)
      ensures Abs(Scale(audio, gain)[i]) <= target
    {
      ScaledMagnitude(audio[i], gain, peak, target);
    }
  }

  /** A bound on every magnitude that one sample reaches is the peak. */
  lemma PeakIsBound(r: Samples, j: int, bound: real)
    requires 0 <= j < |r| && Abs(r[j]) == bound
    requires forall i :: 0 <= i < |r| ==> Abs(r[i]) <= bound
    ensures Peak(r) == bound
  {
    var k :| 0 <= k < |r| && Abs(r[k]) == Peak(r);
  }

  /** Scaling a sample of magnitude at most `peak` by `target / peak` gives magnitude at most `target`. */
  lemma ScaledMagnitude(x: real, gain: real, peak: real, target: real)
    requires peak > 0.0 && 0.0 < target <= 1.0 && gain == target / peak
    requires Abs(x) <= peak
    ensures Abs(x * gain) == Abs(x) * gain
    ensures Abs(x * gain) <= target
    ensures Clip(x * gain) == x * gain
  {
    assert gain > 0.0;
    assert Abs(x) * gain <= peak * gain;
    assert peak * (target / peak) == target;
  }

  /** `int(x)` for a float: truncation toward zero. */
  function TruncToInt(x: real): (n: int)
    ensures Abs(n as real) <= Abs(x) < Abs(n as real) + 1.0
    ensures x >= 0.0 ==> n >= 0
    ensures x <= 0.0 ==> n <= 0
  {
    if x >= 0.0 then x.Floor else -((-x).Floor)
  }

  /** `int(noise_sample_duration * sr)`: the number of samples the noise profile should span. */
  function NoiseSampleLength(seconds: real, sr: int): int {
    TruncToInt(seconds * sr as real)
  }

  /**
    The noise reference of `denoise_audio` for a profile length of `n` samples: the whole
    audio when it is shorter than `2 * n`, else `audio[:n]` with Python's slice rules
    (a negative `n` drops the last `-n` samples).
  */
  function NoiseReference(audio: Samples, n: int): (ref: Samples)
    ensures |ref| <= |audio| && ref == audio[..|ref|]
    ensures |audio| < 2 * n ==> ref == audio
    ensures 0 <= n && 2 * n <= |audio| ==> |ref| == n
    ensures n < 0 ==> |ref| == if |audio| + n < 0 then 0 else |audio| + n
  {
    if |audio| < 2 * n then audio
    else if n >= 0 then audio[..n]
    else if |audio| + n >= 0 then audio[..|audio| + n]
    else []
  }

  /** With the defaults (0.5 s at 16 kHz) the profile spans the first 8000 samples of any recording of at least 16000. */
  lemma DefaultNoiseReference(audio: Samples)
    requires |audio| >= 16000
    ensures NoiseReference(audio, NoiseSampleLength(NoiseSampleSeconds, TargetSampleRate)) == audio[..8000]
  {
    assert NoiseSampleSeconds * TargetSampleRate as real == 8000.0;
  }

  /** `denoise_audio`: a no-op when noise reduction is unavailable, otherwise noise reduction against the reference above. */
  function Denoise(env: Env, audio: Samples, sr: int, seconds: real): (r: Samples)
    ensures !env.denoiseAvailable ==> r == audio
    ensures env.denoiseAvailable ==>
      r == env.reduceNoise(audio, sr, NoiseReference(audio, NoiseSampleLength(seconds, sr)))
  {
    if !env.denoiseAvailable then audio
    else env.reduceNoise(audio, sr, NoiseReference(audio, NoiseSampleLength(seconds, sr)))
  }

  /**
    The audio `process_audio` writes for the loaded samples: denoise, then trim, then
    normalize, each only when its toggle is on. `None` when normalizing raises.
  */
  function Pipeline(env: Env, loaded: Samples, t: Toggles): (r: Option<Samples>)
    ensures r.None? <==> t.normalize && |BeforeNormalize(env, loaded, t)| == 0
    ensures !t.normalize ==> r == Some(BeforeNormalize(env, loaded, t))
    ensures t.normalize && r.Some? ==> forall i :: 0 <= i < |r.value| ==> -1.0 <= r.value[i] <= 1.0
  {
    var trimmed := BeforeNormalize(env, loaded, t);
    if t.normalize then Normalize(trimmed, env.peakLinear) else Some(trimmed)
  }

  /** The audio just before normalization: denoised and trimmed as toggled. */
  function BeforeNormalize(env: Env, loaded: Samples, t: Toggles): Samples
  {
    var denoised := if t.denoise then Denoise(env, loaded, TargetSampleRate, NoiseSampleSeconds) else loaded;
    if t.trim then env.trim(denoised, TrimTopDb) else denoised
  }

  /** With every stage off the pipeline writes what it loaded, whatever the libraries do. */
  lemma PipelineAllOff(env: Env, loaded: Samples)
    ensures Pipeline(env, loaded, Toggles(false, false, false)) == Some(loaded)
  {
  }

  /**
    Normalizing last: whatever denoising and trimming did, with normalization on, the
    written audio stays within [-1, 1] and, when what reached the normalizer is not
    silent and the target is in (0, 1], its peak is the target level. Only an empty
    input to the normalizer makes the pipeline fail.
  */
  lemma PipelineNormalizedLast(env: Env, loaded: Samples, t: Toggles)
    requires t.normalize
    ensures var before := BeforeNormalize(env, loaded, t);
      && (Pipeline(env, loaded, t).None? <==> |before| == 0)
      && (Pipeline(env, loaded, t).Some? ==>
            forall i :: 0 <= i < |Pipeline(env, loaded, t).value| ==> -1.0 <= Pipeline(env, loaded, t).value[i] <= 1.0)
      && (|before| > 0 && Peak(before) != 0.0 && 0.0 < env.peakLinear <= 1.0 ==>
            Pipeline(env, loaded, t).Some? && Peak(Pipeline(env, loaded, t).value) == env.peakLinear)
  {
    var before := BeforeNormalize(env, loaded, t);
    assert Pipeline(env, loaded, t) == Normalize(before, env.peakLinear);
    if |before| > 0 && Peak(before) != 0.0 && 0.0 < env.peakLinear <= 1.0 {
      NormalizeReachesTarget(before, env.peakLinear);
    }
  }

  /** Why a file failed. */
  datatype AudioError =
    | FileNotFound   // the input path does not exist
    | DecodeError    // librosa.load raised
    | EmptyAudio     // np.max raised on an empty array in normalize_audio
    | WriteError     // sf.write raised

  /** A file-system action, in the order the run performs it. */
  datatype Effect =
    | MkDir(dir: string)                                  // mkdir(parents=True, exist_ok=True)
    | WriteWav(path: Path, samples: Samples, rate: int)   // sf.write(..., subtype='PCM_16')

  /** What `process_audio` returns: the output path and the duration in seconds. */
  datatype Processed = Processed(output: Path, duration: real)

  /** The output path: the given one, or the input's name inside CLIPS_DIR. */
  function OutputPath(input: Path, output: Option<Path>): (p: Path)
    ensures output.Some? ==> p == output.value
    ensures output.None? ==> p.parent == ClipsDir && p.name == input.name
  {
    match output
    case None => Path(ClipsDir, input.name)
    case Some(p) => p
  }

  /** Every step of `process_audio` succeeds for this input and output. */
  predicate Succeeds(env: Env, input: Path, output: Option<Path>, t: Toggles) {
    && env.present(input)
    && env.load(input).Some?
    && Pipeline(env, env.load(input).value, t).Some?
    && env.writable(OutputPath(input, output))
  }

  /** The samples written for an input whose pipeline succeeds. */
  function Written(env: Env, input: Path, t: Toggles): Samples
    requires env.load(input).Some? && Pipeline(env, env.load(input).value, t).Some?
  {
    Pipeline(env, env.load(input).value, t).value
  }

  /** The error `process_audio` stops at, taking its checks in order. */
  function FailureOf(env: Env, input: Path, output: Option<Path>, t: Toggles): (e: AudioError)
    requires !Succeeds(env, input, output, t)
    ensures e == FileNotFound <==> !env.present(input)
    ensures e == WriteError ==> !env.writable(OutputPath(input, output))
  {
    if !env.present(input) then FileNotFound
    else if env.load(input).None? then DecodeError
    else if Pipeline(env, env.load(input).value, t).None? then EmptyAudio
    else WriteError
  }

  /** The file-system actions of one `process_audio` call. */
  function FileEffects(env: Env, input: Path, output: Option<Path>, t: Toggles): (r: seq<Effect>)
    ensures !env.present(input) ==> r == []
    ensures env.present(input) ==> r != [] && r[0] == MkDir(OutputPath(input, output).parent)
    ensures Succeeds(env, input, output, t) ==> |r| == 2 && r[1].WriteWav?
    ensures forall e :: e in r && e.WriteWav? ==>
      Succeeds(env, input, output, t) && e == WriteWav(OutputPath(input, output), Written(env, input, t), TargetSampleRate)
  {
    var out := OutputPath(input, output);
    if !env.present(input) then []
    else if Succeeds(env, input, output, t) then [MkDir(out.parent), WriteWav(out, Written(env, input, t), TargetSampleRate)]
    else [MkDir(out.parent)]
  }

  /**
    `process_audio`: check the input exists, make the output folder, load, run the
    enabled stages in order, write, and report the duration `len(audio) / sr`.
  */
  method ProcessAudioFile(env: Env, input: Path, output: Option<Path>, t: Toggles)
    returns (r: Result<Processed, AudioError>, effects: seq<Effect>)
    ensures !env.present(input) ==> r == Err(FileNotFound) && effects == []
    ensures env.present(input) ==> |effects| >= 1 && effects[0] == MkDir(OutputPath(input, output).parent)
    ensures r.Ok? <==> Succeeds(env, input, output, t)
    ensures r.Ok? ==>
      var w := Written(env, input, t);
      && r.value == Processed(OutputPath(input, output), |w| as real / TargetSampleRate as real)
      && effects == [MkDir(OutputPath(input, output).parent), WriteWav(OutputPath(input, output), w, TargetSampleRate)]
    ensures r.Err? ==> r.error == FailureOf(env, input, output, t) && forall e :: e in effects ==> e.MkDir?
    ensures effects == FileEffects(env, input, output, t)
  {
    if !env.present(input) {
      return Err(FileNotFound), [];
    }
    var out := OutputPath(input, output);
    effects := [MkDir(out.parent)];
    var loaded := env.load(input);
    if loaded.None? {
      return Err(DecodeError), effects;
    }
    var audio := loaded.value;
    if t.denoise {
      audio := Denoise(env, audio, TargetSampleRate, NoiseSampleSeconds);
    }
    if t.trim {
      audio := env.trim(audio, TrimTopDb);
    }
    if t.normalize {
      var normalized := Normalize(audio, env.peakLinear);
      if normalized.None? {
        return Err(EmptyAudio), effects;
      }
      audio := normalized.value;
    }
    assert Pipeline(env, loaded.value, t) == Some(audio);
    if !env.writable(out) {
      return Err(WriteError), effects;
    }
    effects := effects + [WriteWav(out, audio, TargetSampleRate)];
    r := Ok(Processed(out, |audio| as real / TargetSampleRate as real));
  }

  /** The outcome of one file of a batch (the dictionaries of `results`). */
  datatype Status = Success | Failed(error: AudioError)
  datatype FileResult = FileResult(input: Path, output: Option<Path>, duration: Option<real>, status: Status)

  /** What `process_batch` returns, with the success count its summary reports. */
  datatype BatchReport = BatchReport(results: seq<FileResult>, successes: nat)

  /** `f.suffix.lower() in audio_extensions`. */
  predicate IsAudioFile(name: string) {
    PyStr.Lower(Suffix(name)) in AudioExtensions
  }

  /** The audio files of a folder listing, in listing order. */
  function AudioFiles(listing: seq<string>): seq<string> {
    Seqs.Filter(listing, IsAudioFile)
  }

  /** `output_folder / f"{audio_file.stem}.wav"`. */
  function BatchOutput(outputFolder: string, name: string): Path {
    Path(outputFolder, Stem(name) + ".wav")
  }

  /** Processing `name` of the batch succeeds. */
  predicate BatchSucceeds(env: Env, inputFolder: string, outputFolder: string, name: string) {
    Succeeds(env, Path(inputFolder, name), Some(BatchOutput(outputFolder, name)), Defaults)
  }

  /** The entry `process_batch` records for `name`. */
  function Entry(env: Env, inputFolder: string, outputFolder: string, name: string): FileResult
  {
    var input := Path(inputFolder, name);
    var output := Some(BatchOutput(outputFolder, name));
    if Succeeds(env, input, output, Defaults) then
      FileResult(input, output, Some(|Written(env, input, Defaults)| as real / TargetSampleRate as real), Success)
    else
      FileResult(input, None, None, Failed(FailureOf(env, input, output, Defaults)))
  }

  /**
    An entry names its input; it is a success exactly when processing succeeds, and then
    records the output path and the duration of what was written; a failure records neither.
  */
  lemma EntryShape(env: Env, inputFolder: string, outputFolder: string, name: string)
    ensures var r := Entry(env, inputFolder, outputFolder, name);
      && r.input == Path(inputFolder, name)
      && (r.status == Success <==> BatchSucceeds(env, inputFolder, outputFolder, name))
      && (r.status == Success ==>
        && r.output == Some(BatchOutput(outputFolder, name))
        && r.duration == Some(|Written(env, r.input, Defaults)| as real / TargetSampleRate as real))
      && (r.status != Success ==> r.output == None && r.duration == None)
  {
  }

  /** The entries of a batch, one per file, in order. */
  function Entries(env: Env, inputFolder: string, outputFolder: string, names: seq<string>): seq<FileResult>
  {
    Seqs.Map(names, (name: string) => Entry(env, inputFolder, outputFolder, name))
  }

  /** A batch has one entry per file, and the i-th entry is the entry of the i-th file. */
  lemma EntriesAt(env: Env, inputFolder: string, outputFolder: string, names: seq<string>)
    ensures |Entries(env, inputFolder, outputFolder, names)| == |names|
    ensures forall i :: 0 <= i < |names| ==>
      Entries(env, inputFolder, outputFolder, names)[i] == Entry(env, inputFolder, outputFolder, names[i])
  {
    Seqs.MapAt(names, (name: string) => Entry(env, inputFolder, outputFolder, name));
  }

  /** `sum(1 for r in results if r['status'] == 'success')`. */
  function CountSuccess(results: seq<FileResult>): (n: nat)
    ensures n <= |results|
  {
    if results == [] then 0
    else CountSuccess(results[..|results| - 1]) + (if results[|results| - 1].status == Success then 1 else 0)
  }

  /** The success count reaches the number of files exactly when every file succeeded, and is zero exactly when all failed. */
  lemma {:induction false} CountSuccessBounds(results: seq<FileResult>)
    ensures CountSuccess(results) == |results| <==> forall i :: 0 <= i < |results| ==> results[i].status == Success
    ensures CountSuccess(results) == 0 <==> forall i :: 0 <= i < |results| ==> results[i].status != Success
  {
    if results != [] {
      var init := results[..|results| - 1];
      CountSuccessBounds(init);
      assert forall i :: 0 <= i < |init| ==> init[i] == results[i];
    }
  }

  /** The write `process_audio` performs for `name` in a batch. */
  predicate WroteOutputOf(env: Env, e: Effect, inputFolder: string, outputFolder: string, name: string) {
    var input := Path(inputFolder, name);
    && BatchSucceeds(env, inputFolder, outputFolder, name)
    && e == WriteWav(BatchOutput(outputFolder, name), Written(env, input, Defaults), TargetSampleRate)
  }

  /** The file-system actions of processing `name` in a batch: it writes its output exactly when it succeeds. */
  function FileEffectsOf(env: Env, inputFolder: string, outputFolder: string, name: string): (r: seq<Effect>)
    ensures forall k :: 0 <= k < |r| && r[k].WriteWav? ==> WroteOutputOf(env, r[k], inputFolder, outputFolder, name)
    ensures BatchSucceeds(env, inputFolder, outputFolder, name) ==> |r| == 2 && WroteOutputOf(env, r[1], inputFolder, outputFolder, name)
  {
    var r := FileEffects(env, Path(inputFolder, name), Some(BatchOutput(outputFolder, name)), Defaults);
    assert forall k :: 0 <= k < |r| ==> r[k] in r;
    r
  }

  /** The file-system actions of the per-file calls of a batch, in order. */
  function BatchEffects(env: Env, inputFolder: string, outputFolder: string, names: seq<string>): seq<Effect>
  {
    Seqs.FlatMap(names, (name: string) => FileEffectsOf(env, inputFolder, outputFolder, name))
  }

  /**
    A batch writes exactly the outputs of its files that succeed: every write is the
    output of one of the files, and every file that succeeds has its output written.
  */
  lemma BatchWrites(env: Env, inputFolder: string, outputFolder: string, names: seq<string>)
    ensures forall e :: e in BatchEffects(env, inputFolder, outputFolder, names) && e.WriteWav? ==>
      exists i :: 0 <= i < |names| && WroteOutputOf(env, e, inputFolder, outputFolder, names[i])
    ensures forall i :: 0 <= i < |names| && BatchSucceeds(env, inputFolder, outputFolder, names[i]) ==>
      exists e :: e in BatchEffects(env, inputFolder, outputFolder, names) && WroteOutputOf(env, e, inputFolder, outputFolder, names[i])
  {
    var f := (name: string) => FileEffectsOf(env, inputFolder, outputFolder, name);
    var es := Seqs.FlatMap(names, f);
    Seqs.FlatMapFrom(names, f);
    Seqs.FlatMapHas(names, f);
    forall e | e in es && e.WriteWav?
      ensures exists i :: 0 <= i < |names| && WroteOutputOf(env, e, inputFolder, outputFolder, names[i])
    {
      var k :| 0 <= k < |es| && es[k] == e;
      assert Seqs.ComesFrom(names, f, es[k]);
      var i, j :| 0 <= i < |names| && 0 <= j < |f(names[i])| && es[k] == f(names[i])[j];
      assert f(names[i]) == FileEffectsOf(env, inputFolder, outputFolder, names[i]);
    }
    forall i | 0 <= i < |names| && BatchSucceeds(env, inputFolder, outputFolder, names[i])
      ensures exists e :: e in es && WroteOutputOf(env, e, inputFolder, outputFolder, names[i])
    {
      var r := FileEffectsOf(env, inputFolder, outputFolder, names[i]);
      assert f(names[i]) == r;
      assert r[1] in es;
    }
  }

  /** One iteration of `process_batch`: process `name` into `output_folder/stem.wav` and record the outcome. */
  method ProcessBatchFile(env: Env, inputFolder: string, outputFolder: string, name: string)
    returns (entry: FileResult, effects: seq<Effect>)
    ensures entry == Entry(env, inputFolder, outputFolder, name)
    ensures effects == FileEffectsOf(env, inputFolder, outputFolder, name)
  {
    var input := Path(inputFolder, name);
    var output := Some(BatchOutput(outputFolder, name));
    var r;
    r, effects := ProcessAudioFile(env, input, output, Defaults);
    if r.Ok? {
      assert Succeeds(env, input, output, Defaults);
      entry := FileResult(input, Some(r.value.output), Some(r.value.duration), Success);
    } else {
      assert !Succeeds(env, input, output, Defaults);
      entry := FileResult(input, None, None, Failed(r.error));
    }
  }

  /** The loop of `process_batch`: process each file in order, recording its entry. */
  method ProcessFiles(env: Env, inputFolder: string, files: seq<string>, outputFolder: string)
    returns (results: seq<FileResult>, effects: seq<Effect>)
    ensures results == Entries(env, inputFolder, outputFolder, files)
    ensures effects == BatchEffects(env, inputFolder, outputFolder, files)
  {
    results, effects := [], [];
    for k := 0 to |files|
      invariant results == Entries(env, inputFolder, outputFolder, files[..k])
      invariant effects == BatchEffects(env, inputFolder, outputFolder, files[..k])
    {
      var entry, fileEffects := ProcessBatchFile(env, inputFolder, outputFolder, files[k]);
      assert files[..k + 1][..k] == files[..k];
      results := results + [entry];
      effects := effects + fileEffects;
    }
    assert files[..|files|] == files;
  }

  /** Count the entries that succeeded, as the summary does. */
  method CountSuccesses(results: seq<FileResult>) returns (successes: nat)
    ensures successes == CountSuccess(results)
  {
    successes := 0;
    for k := 0 to |results|
      invariant successes == CountSuccess(results[..k])
    {
      assert results[..k + 1][..k] == results[..k];
      if results[k].status == Success {
        successes := successes + 1;
      }
    }
    assert results[..|results|] == results;
  }

  /**
    `process_batch`: take the audio files of the listing, return `None` when there are
    none; otherwise make the output folder and process each file in sorted order with
    the default stages into `output_folder/stem.wav`, recording a failure and carrying
    on, then count the successes.
  */
  method ProcessBatch(env: Env, inputFolder: string, listing: seq<string>, outputFolder: string)
    returns (report: Option<BatchReport>, effects: seq<Effect>)
    ensures AudioFiles(listing) == [] <==> report.None?
    ensures report.None? ==> effects == []
    ensures report.Some? ==>
      var files := Seqs.Sort(AudioFiles(listing));
      var rs := report.value.results;
      && rs == Entries(env, inputFolder, outputFolder, files)
      && report.value.successes == CountSuccess(rs)
      && effects == [MkDir(outputFolder)] + BatchEffects(env, inputFolder, outputFolder, files)
  {
    var audioFiles := AudioFiles(listing);
    if audioFiles == [] {
      return None, [];
    }
    var results, fileEffects := ProcessFiles(env, inputFolder, Seqs.Sort(audioFiles), outputFolder);
    effects := [MkDir(outputFolder)] + fileEffects;
    var successes := CountSuccesses(results);
    report := Some(BatchReport(results, successes));
  }

  /**
    The files a batch processes are the audio files of the listing, each as often as it
    is listed, in sorted order.
  */
  lemma BatchFiles(listing: seq<string>)
    ensures var files := Seqs.Sort(AudioFiles(listing));
      && Seqs.Sorted(files)
      && multiset(files) == multiset(AudioFiles(listing))
      && (forall f :: f in files <==> f in listing && IsAudioFile(f))
  {
    var files := Seqs.Sort(AudioFiles(listing));
    Seqs.FilterMembers(listing, IsAudioFile);
    forall f ensures f in files <==> f in AudioFiles(listing) {
      assert f in files <==> f in multiset(files);
      assert f in AudioFiles(listing) <==> f in multiset(AudioFiles(listing));
    }
  }
}
