/**
 * The whisper.cpp wrapper on the transcription server: the WAV file name an
 * input is converted to, the whisper.cpp argument list with its defaults and
 * conditional flags, the command line, and the sequence of checks, commands
 * and cleanup that `transcribe` performs.
 */
module Whisper {
  import opened Wrappers
  import Text

  // ---------------------------------------------------------------------------
  // Options and defaults
  // ---------------------------------------------------------------------------

  /** The thread count is capped at this many cores. */
  const MaxThreads: nat := 20
  /** Defaults used when an option is absent. Numbers appear in their rendered form. */
  const DefaultBeamSize: string := "6"
  const DefaultBestOf: string := "6"
  const DefaultEntropyThold: string := "2.6"
  const DefaultWordThold: string := "0.001"
  const DefaultMaxLen: string := "2048"
  const DefaultLanguage: string := "pl"

  datatype Task = Transcription | Translation

  /** The output formats `text`, `srt` and `vtt`. */
  datatype OutputFormat = Txt | Srt | Vtt

  /**
   * `WhisperOptions`. Optional fields are `Option`s; numeric options hold the
   * text JavaScript renders the number as.
   */
  datatype WhisperOptions = WhisperOptions(
    modelPath: string,
    binaryPath: string,
    language: Option<string>,
    task: Option<Task>,
    format: Option<OutputFormat>,
    timestamps: Option<bool>,
    wordTimestamps: Option<bool>,
    beamSize: Option<string>,
    bestOf: Option<string>,
    entropyThold: Option<string>,
    wordThold: Option<string>,
    maxLen: Option<string>,
    splitOnWord: Option<bool>,
    debug: Option<bool>,
    flashAttn: Option<bool>)

  /** Only the model and binary paths set; every other option absent. */
  function MinimalOptions(modelPath: string, binaryPath: string): WhisperOptions {
    WhisperOptions(modelPath, binaryPath, None, None, None, None, None, None, None, None, None, None, None, None, None)
  }

  /** `DEFAULT_THREADS`: the number of cores, but at most 20. */
  function Threads(cpuCount: nat): (n: nat)
    ensures n <= MaxThreads && n <= cpuCount
    ensures n == MaxThreads || n == cpuCount
  {
    if cpuCount < MaxThreads then cpuCount else MaxThreads
  }

  /** `formatToFlag`: the whisper.cpp output flag for each format. */
  function FormatFlag(format: OutputFormat): (flag: string)
    ensures |flag| == 12 && flag[..9] == "--output-"
  {
    match format
    case Txt => "--output-txt"
    case Srt => "--output-srt"
    case Vtt => "--output-vtt"
  }

  /** Reads a format back from its flag. */
  function FormatOfFlag(flag: string): Option<OutputFormat> {
    if flag == "--output-txt" then Some(Txt)
    else if flag == "--output-srt" then Some(Srt)
    else if flag == "--output-vtt" then Some(Vtt)
    else None
  }

  /** Every format has its own flag: reading the flag back recovers the format. */
  lemma FormatFlagRoundTrip(format: OutputFormat)
    ensures FormatOfFlag(FormatFlag(format)) == Some(format)
  {
    match format
    case Txt =>
    case Srt =>
      assert FormatFlag(format)[9] == 's';
    case Vtt =>
      assert FormatFlag(format)[9] == 'v';
  }

  /** JavaScript truthiness of an optional boolean. */
  predicate Truthy(b: Option<bool>) {
    b == Some(true)
  }

  // ---------------------------------------------------------------------------
  // The argument list and the command line
  // ---------------------------------------------------------------------------

  /** The model, input file and language entries, which are never empty. */
  function HeadArgs(options: WhisperOptions, inputFile: string): seq<string> {
    [ "-m \"" + options.modelPath + "\"",
      "-f \"" + inputFile + "\"",
      "-l " + options.language.GetOr(DefaultLanguage) ]
  }

  /** The translation flag, empty unless the task is translation. */
  function TranslateArg(options: WhisperOptions): string {
    if options.task == Some(Translation) then "--translate" else ""
  }

  /** Threads, beam size, best-of, entropy threshold and maximum length, each with its default. */
  function TuningArgs(options: WhisperOptions, cpuCount: nat): seq<string> {
    [ "-t " + Text.NatToString(Threads(cpuCount)),
      "-bs " + options.beamSize.GetOr(DefaultBeamSize),
      "-bo " + options.bestOf.GetOr(DefaultBestOf),
      "-et " + options.entropyThold.GetOr(DefaultEntropyThold),
      "-ml " + options.maxLen.GetOr(DefaultMaxLen) ]
  }

  /** The timestamp switches, the output format flag and the three optional switches. */
  function TailArgs(options: WhisperOptions): seq<string> {
    [ if options.timestamps == Some(false) then "--no-timestamps" else "",
      if Truthy(options.wordTimestamps) then "-wt " + options.wordThold.GetOr(DefaultWordThold) else "",
      FormatFlag(options.format.GetOr(Txt)),
      if Truthy(options.splitOnWord) then "-sow" else "",
      if Truthy(options.debug) then "-debug" else "",
      if Truthy(options.flashAttn) then "-fa" else "" ]
  }

  /** The argument array before filtering: fifteen entries in source order, some of them empty. */
  function RawArgs(options: WhisperOptions, inputFile: string, cpuCount: nat): (raw: seq<string>)
    ensures |raw| == 15
  {
    HeadArgs(options, inputFile) + [TranslateArg(options)] + TuningArgs(options, cpuCount) + TailArgs(options)
  }

  /** `a` is `b` with some elements removed and the rest in their original order. */
  predicate IsSubsequence<T(==)>(a: seq<T>, b: seq<T>)
    decreases |b|
  {
    a == [] || (b != [] && (if a[0] == b[0] then IsSubsequence(a[1..], b[1..]) else IsSubsequence(a, b[1..])))
  }

  /** `.filter(Boolean)` on strings: drops the empty ones and keeps the rest in order. */
  function FilterNonEmpty(s: seq<string>): (r: seq<string>)
    ensures forall x :: x in r <==> x in s && x != ""
    ensures IsSubsequence(r, s)
  {
    if s == [] then []
    else
      var rest := FilterNonEmpty(s[1..]);
      if s[0] == "" then
        assert rest == [] || rest[0] in rest;
        rest
      else [s[0]] + rest
  }

  /** Filtering a concatenation filters each part. */
  lemma {:induction false} FilterConcat(a: seq<string>, b: seq<string>)
    ensures FilterNonEmpty(a + b) == FilterNonEmpty(a) + FilterNonEmpty(b)
  {
    if a == [] {
      assert a + b == b;
    } else {
      assert (a + b)[0] == a[0];
      assert (a + b)[1..] == a[1..] + b;
      FilterConcat(a[1..], b);
    }
  }

  /** A list with no empty string is kept whole. */
  lemma {:induction false} FilterKeepsNonEmpty(s: seq<string>)
    requires forall x :: x in s ==> x != ""
    ensures FilterNonEmpty(s) == s
  {
    if s != [] {
      assert s[0] in s;
      assert forall x :: x in s[1..] ==> x in s;
      FilterKeepsNonEmpty(s[1..]);
    }
  }

  /** The whisper.cpp arguments after filtering. */
  function Args(options: WhisperOptions, inputFile: string, cpuCount: nat): (args: seq<string>)
    ensures forall a :: a in args ==> a != ""
    ensures IsSubsequence(args, RawArgs(options, inputFile, cpuCount))
  {
    FilterNonEmpty(RawArgs(options, inputFile, cpuCount))
  }

  /** The quoted binary path followed by the arguments joined by single spaces. */
  function Command(options: WhisperOptions, inputFile: string, cpuCount: nat): string {
    "\"" + options.binaryPath + "\" " + Text.Join(Args(options, inputFile, cpuCount), " ")
  }

  /**
   * No argument is empty, and the list always opens with the model, the input
   * file and the language (default `pl`), followed by either `--translate` or
   * the thread count.
   */
  lemma ArgsShape(options: WhisperOptions, inputFile: string, cpuCount: nat)
    ensures var args := Args(options, inputFile, cpuCount);
            && (forall a :: a in args ==> a != "")
            && |args| >= 9
            && args[0] == "-m \"" + options.modelPath + "\""
            && args[1] == "-f \"" + inputFile + "\""
            && args[2] == "-l " + options.language.GetOr(DefaultLanguage)
            && args[3] == (if options.task == Some(Translation) then "--translate"
                           else "-t " + Text.NatToString(Threads(cpuCount)))
  {
    ArgsGroups(options, inputFile, cpuCount);
    var tail := TailArgs(options);
    assert tail[2] in FilterNonEmpty(tail);
    assert FilterNonEmpty([TranslateArg(options)]) == if TranslateArg(options) == "" then [] else [TranslateArg(options)];
  }

  /** Filtering a list of empty strings leaves nothing. */
  lemma {:induction false} FilterDropsEmpty(s: seq<string>)
    requires forall x :: x in s ==> x == ""
    ensures FilterNonEmpty(s) == []
  {
    if s != [] {
      assert s[0] in s;
      assert forall x :: x in s[1..] ==> x in s;
      FilterDropsEmpty(s[1..]);
    }
  }

  /** The only raw entries whose second character is `-` are the translate, no-timestamps and format flags. */
  lemma LongFlagEntries(options: WhisperOptions, inputFile: string, cpuCount: nat, x: string)
    requires x in RawArgs(options, inputFile, cpuCount) && |x| >= 2 && x[1] == '-'
    ensures x == TranslateArg(options) || x == TailArgs(options)[0] || x == TailArgs(options)[2]
  {
    var head, tuning, tail := HeadArgs(options, inputFile), TuningArgs(options, cpuCount), TailArgs(options);
    assert x in head || x == TranslateArg(options) || x in tuning || x in tail;
    assert head[0][1] == 'm' && head[1][1] == 'f' && head[2][1] == 'l';
    assert tuning[0][1] == 't' && tuning[1][1] == 'b' && tuning[2][1] == 'b' && tuning[3][1] == 'e' && tuning[4][1] == 'm';
    assert tail[1] == "" || tail[1][1] == 'w';
    assert tail[3] == "" || tail[3][1] == 's';
    assert tail[4] == "" || tail[4][1] == 'd';
    assert tail[5] == "" || tail[5][1] == 'f';
  }

  /** The only raw entry whose second character is `w` is the word-threshold entry. */
  lemma WordFlagEntry(options: WhisperOptions, inputFile: string, cpuCount: nat, x: string)
    requires x in RawArgs(options, inputFile, cpuCount) && |x| >= 2 && x[1] == 'w'
    ensures x == TailArgs(options)[1]
  {
    var head, tuning, tail := HeadArgs(options, inputFile), TuningArgs(options, cpuCount), TailArgs(options);
    assert x in head || x == TranslateArg(options) || x in tuning || x in tail;
    assert head[0][1] == 'm' && head[1][1] == 'f' && head[2][1] == 'l';
    assert tuning[0][1] == 't' && tuning[1][1] == 'b' && tuning[2][1] == 'b' && tuning[3][1] == 'e' && tuning[4][1] == 'm';
    assert TranslateArg(options) == "" || TranslateArg(options)[1] == '-';
    assert tail[0] == "" || tail[0][1] == '-';
    assert tail[2][1] == '-';
    assert tail[3] == "" || tail[3][1] == 's';
    assert tail[4] == "" || tail[4][1] == 'd';
    assert tail[5] == "" || tail[5][1] == 'f';
  }

  /** `--translate` is passed exactly when the task is translation. */
  lemma TranslateIff(options: WhisperOptions, inputFile: string, cpuCount: nat)
    ensures "--translate" in Args(options, inputFile, cpuCount) <==> options.task == Some(Translation)
  {
    var x := "--translate";
    var raw := RawArgs(options, inputFile, cpuCount);
    if options.task == Some(Translation) {
      assert raw[3] == TranslateArg(options) == x;
    }
    if x in Args(options, inputFile, cpuCount) {
      LongFlagEntries(options, inputFile, cpuCount, x);
      assert |x| == 11;
      assert |TailArgs(options)[0]| != 11;
      assert |TailArgs(options)[2]| == 12;
    }
  }

  /** `--no-timestamps` is passed exactly when timestamps are explicitly `false`, not when absent. */
  lemma NoTimestampsIff(options: WhisperOptions, inputFile: string, cpuCount: nat)
    ensures "--no-timestamps" in Args(options, inputFile, cpuCount) <==> options.timestamps == Some(false)
  {
    var x := "--no-timestamps";
    var raw := RawArgs(options, inputFile, cpuCount);
    if options.timestamps == Some(false) {
      assert raw[9] == TailArgs(options)[0] == x;
    }
    if x in Args(options, inputFile, cpuCount) {
      LongFlagEntries(options, inputFile, cpuCount, x);
      assert |x| == 15;
      assert |TranslateArg(options)| != 15;
      assert |TailArgs(options)[2]| == 12;
    }
  }

  /**
   * The word threshold `-wt <wordThold, default 0.001>` is passed exactly when
   * word timestamps are requested, and no argument starts with `-wt` otherwise.
   */
  lemma WordThresholdIff(options: WhisperOptions, inputFile: string, cpuCount: nat)
    ensures var args := Args(options, inputFile, cpuCount);
            && (Truthy(options.wordTimestamps) ==> "-wt " + options.wordThold.GetOr(DefaultWordThold) in args)
            && (!Truthy(options.wordTimestamps) ==> forall a :: a in args ==> |a| < 3 || a[..3] != "-wt")
  {
    var args := Args(options, inputFile, cpuCount);
    if Truthy(options.wordTimestamps) {
      assert TailArgs(options)[1] in RawArgs(options, inputFile, cpuCount);
    } else {
      forall a | a in args && |a| >= 3
        ensures a[..3] != "-wt"
      {
        if a[..3] == "-wt" {
          assert a[1] == 'w';
          WordFlagEntry(options, inputFile, cpuCount, a);
        }
      }
    }
  }

  /** The only raw entry that starts like `--o` is the output format flag. */
  lemma OutputFlagEntry(options: WhisperOptions, inputFile: string, cpuCount: nat, x: string)
    requires |x| >= 3 && x[1] == '-' && x[2] == 'o'
    ensures x in RawArgs(options, inputFile, cpuCount) ==> x == TailArgs(options)[2]
  {
    if x in RawArgs(options, inputFile, cpuCount) {
      LongFlagEntries(options, inputFile, cpuCount, x);
      assert TranslateArg(options) == "" || TranslateArg(options)[2] == 't';
      assert TailArgs(options)[0] == "" || TailArgs(options)[0][2] == 'n';
    }
  }

  /** The output flag of the chosen format (default text) is passed, and no other output flag. */
  lemma FormatFlagPassed(options: WhisperOptions, inputFile: string, cpuCount: nat, other: OutputFormat)
    ensures FormatFlag(options.format.GetOr(Txt)) in Args(options, inputFile, cpuCount)
    ensures other != options.format.GetOr(Txt) ==> FormatFlag(other) !in Args(options, inputFile, cpuCount)
  {
    var tail := TailArgs(options);
    assert tail[2] in RawArgs(options, inputFile, cpuCount);
    var x := FormatFlag(other);
    assert x[..9] == "--output-";
    assert x[1] == '-' && x[2] == 'o';
    OutputFlagEntry(options, inputFile, cpuCount, x);
    FormatFlagRoundTrip(other);
    FormatFlagRoundTrip(options.format.GetOr(Txt));
  }

  /** With every option absent, the head and tuning groups hold the defaults and the tail only the text flag. */
  lemma DefaultGroups(modelPath: string, binaryPath: string, inputFile: string, cpuCount: nat)
    ensures var options := MinimalOptions(modelPath, binaryPath);
            && HeadArgs(options, inputFile) == [ "-m \"" + modelPath + "\"", "-f \"" + inputFile + "\"", "-l pl" ]
            && TranslateArg(options) == ""
            && TuningArgs(options, cpuCount) == [ "-t " + Text.NatToString(Threads(cpuCount)), "-bs 6", "-bo 6", "-et 2.6", "-ml 2048" ]
            && TailArgs(options) == ["", "", "--output-txt", "", "", ""]
  {
    var options := MinimalOptions(modelPath, binaryPath);
    assert "-l " + options.language.GetOr(DefaultLanguage) == "-l " + "pl" == "-l pl";
    assert "-bs " + options.beamSize.GetOr(DefaultBeamSize) == "-bs " + "6" == "-bs 6";
    assert "-bo " + options.bestOf.GetOr(DefaultBestOf) == "-bo " + "6" == "-bo 6";
    assert "-et " + options.entropyThold.GetOr(DefaultEntropyThold) == "-et " + "2.6" == "-et 2.6";
    assert "-ml " + options.maxLen.GetOr(DefaultMaxLen) == "-ml " + "2048" == "-ml 2048";
  }

  /** Filtering keeps the head and tuning groups whole and drops empty entries from the rest. */
  lemma ArgsGroups(options: WhisperOptions, inputFile: string, cpuCount: nat)
    ensures Args(options, inputFile, cpuCount)
            == HeadArgs(options, inputFile) + FilterNonEmpty([TranslateArg(options)])
               + TuningArgs(options, cpuCount) + FilterNonEmpty(TailArgs(options))
  {
    var head, tuning := HeadArgs(options, inputFile), TuningArgs(options, cpuCount);
    assert forall x :: x in head ==> x != "";
    assert forall x :: x in tuning ==> x != "";
    FilterGroups(head, [TranslateArg(options)], tuning, TailArgs(options));
  }

  /** Filtering four groups whose first and third hold no empty string keeps those two whole. */
  lemma FilterGroups(a: seq<string>, b: seq<string>, c: seq<string>, d: seq<string>)
    requires forall x :: x in a ==> x != ""
    requires forall x :: x in c ==> x != ""
    ensures FilterNonEmpty(a + b + c + d) == a + FilterNonEmpty(b) + c + FilterNonEmpty(d)
  {
    assert a + b + c + d == a + (b + (c + d));
    FilterConcat(c, d);
    FilterKeepsNonEmpty(c);
    FilterConcat(b, c + d);
    FilterConcat(a, b + (c + d));
    FilterKeepsNonEmpty(a);
  }

  /** With every option absent the arguments are exactly the defaults, text output. */
  lemma DefaultArgs(modelPath: string, binaryPath: string, inputFile: string, cpuCount: nat)
    ensures Args(MinimalOptions(modelPath, binaryPath), inputFile, cpuCount)
            == [ "-m \"" + modelPath + "\"", "-f \"" + inputFile + "\"", "-l pl",
                 "-t " + Text.NatToString(Threads(cpuCount)),
                 "-bs 6", "-bo 6", "-et 2.6", "-ml 2048", "--output-txt" ]
  {
    var options := MinimalOptions(modelPath, binaryPath);
    ArgsGroups(options, inputFile, cpuCount);
    DefaultGroups(modelPath, binaryPath, inputFile, cpuCount);
    assert FilterNonEmpty([""]) == [];
    assert FilterNonEmpty(["", "", "--output-txt", "", "", ""]) == ["--output-txt"];
  }

  /** `join` of a list with at least three parts: the first two parts, each followed by the separator, then the rest joined. */
  lemma JoinFirstTwo(parts: seq<string>, sep: string)
    requires |parts| >= 3
    ensures Text.Join(parts, sep) == parts[0] + sep + (parts[1] + sep + Text.Join(parts[2..], sep))
  {
    assert parts[1..][1..] == parts[2..];
  }

  /** The command line opens with the quoted binary, the quoted model and the quoted input file. */
  lemma CommandShape(options: WhisperOptions, inputFile: string, cpuCount: nat)
    ensures var args := Args(options, inputFile, cpuCount);
            && |args| >= 9
            && Command(options, inputFile, cpuCount)
            == "\"" + options.binaryPath + "\" "
               + ("-m \"" + options.modelPath + "\"" + " "
                  + ("-f \"" + inputFile + "\"" + " " + Text.Join(args[2..], " ")))
  {
    ArgsShape(options, inputFile, cpuCount);
    JoinFirstTwo(Args(options, inputFile, cpuCount), " ");
  }

  // ---------------------------------------------------------------------------
  // The WAV file name
  // ---------------------------------------------------------------------------

  /** The last position holding `c`, or -1. */
  function LastIndexOf(s: string, c: char): (i: int)
    ensures -1 <= i < |s|
    ensures i >= 0 ==> s[i] == c
    ensures forall j :: i < j < |s| ==> s[j] != c
  {
    if |s| == 0 then -1
    else if s[|s| - 1] == c then |s| - 1
    else LastIndexOf(s[..|s| - 1], c)
  }

  /** The path without its trailing separators. */
  function TrimTrailingSlashes(p: string): (r: string)
    ensures r <= p
    ensures r == [] || r[|r| - 1] != '/'
    ensures forall k :: |r| <= k < |p| ==> p[k] == '/'
  {
    if p != [] && p[|p| - 1] == '/' then TrimTrailingSlashes(p[..|p| - 1]) else p
  }

  /** `path.basename(p)` (POSIX): the last segment, ignoring trailing separators. */
  function Basename(p: string): (r: string)
    ensures '/' !in r
  {
    var core := TrimTrailingSlashes(p);
    core[LastIndexOf(core, '/') + 1..]
  }

  /**
   * `path.extname(p)` (POSIX): from the last `.` of the last segment, unless
   * there is none, it opens the segment (a dot-file) or the segment is `..`.
   */
  function Extname(p: string): (e: string)
    ensures var base := Basename(p);
            e == [] || (e[0] == '.' && |e| < |base| && base[|base| - |e|..] == e)
    ensures var base := Basename(p);
            e == [] <==> base == ".." || forall k :: 0 < k < |base| ==> base[k] != '.'
    ensures forall k :: 0 < k < |e| ==> e[k] != '.'
  {
    var base := Basename(p);
    LastDotInside(base);
    var dot := LastIndexOf(base, '.');
    if dot <= 0 || base == ".." then "" else base[dot..]
  }

  /** The last `.` of a name lies after its first character exactly when some `.` does. */
  lemma LastDotInside(name: string)
    ensures LastIndexOf(name, '.') >= 1 <==> exists k :: 0 < k < |name| && name[k] == '.'
  {
    var dot := LastIndexOf(name, '.');
    if exists k :: 0 < k < |name| && name[k] == '.' {
      var k :| 0 < k < |name| && name[k] == '.';
      assert k <= dot;
    }
  }

  /** `path.basename(p, path.extname(p))`: the last segment without its extension. */
  function Stem(p: string): (r: string)
    ensures '/' !in r
    ensures Basename(p) == r + Extname(p)
  {
    var base := Basename(p);
    var r := base[..|base| - |Extname(p)|];
    assert base == r + base[|base| - |Extname(p)|..];
    r
  }

  /** `path.dirname(p)` (POSIX): everything before the last segment, `.` or `/` when that is empty. */
  function Dirname(p: string): string {
    var core := TrimTrailingSlashes(p);
    var slash := LastIndexOf(core, '/');
    if p == "" then "."
    else if core == "" then "/"
    else if slash == -1 then "."
    else if slash == 0 then "/"
    else if slash == 1 && core[0] == '/' then "//"
    else core[..slash]
  }

  /** `path.join(dir, name)` for a plain file name: `.` disappears and separators are not doubled. */
  function JoinPath(dir: string, name: string): (r: string)
    ensures r == name || (|r| > |name| && r[|r| - |name| - 1..] == "/" + name)
    ensures Text.EndsWith(r, name)
  {
    if dir == "." then name else TrimTrailingSlashes(dir) + "/" + name
  }

  /** The converted file: the input's directory and stem with the extension `.wav`. */
  function WavPath(audioPath: string): (r: string)
    ensures Text.EndsWith(r, ".wav")
  {
    var r := JoinPath(Dirname(audioPath), Stem(audioPath) + ".wav");
    Text.EndsWithTail(r, Stem(audioPath), ".wav");
    r
  }

  /** Whether the name ends in `.wav` in any letter case. */
  predicate IsWavName(p: string) {
    Text.EndsWith(Text.ToLower(p), ".wav")
  }

  /** The file handed to whisper.cpp: the input itself when it is a WAV file, else its conversion. */
  function InputFile(audioPath: string): string {
    if IsWavName(audioPath) then audioPath else WavPath(audioPath)
  }

  /** A plain file name joined onto any directory is the last segment of the result. */
  lemma BasenameOfJoin(dir: string, name: string)
    requires name != [] && '/' !in name
    ensures Basename(JoinPath(dir, name)) == name
  {
    var w := JoinPath(dir, name);
    assert w[|w| - |name|..] == name;
    assert w[|w| - 1] == name[|name| - 1];
    assert TrimTrailingSlashes(w) == w;
    if w != name {
      var cut := |w| - |name| - 1;
      assert w[cut..] == "/" + name;
      forall j | cut < j < |w|
        ensures w[j] != '/'
      {
        assert w[j] == name[j - cut - 1];
      }
      LastIndexOfAt(w, '/', cut);
      assert w[cut + 1..] == name;
    }
  }

  /** The converted file is named after the input's stem, in whichever directory it lands. */
  lemma WavPathBasename(audioPath: string)
    ensures Basename(WavPath(audioPath)) == Stem(audioPath) + ".wav"
  {
    var stem := Stem(audioPath);
    NoSlashInConcat(stem, ".wav");
    BasenameOfJoin(Dirname(audioPath), stem + ".wav");
  }

  /** Two strings without `/` joined hold no `/`. */
  lemma NoSlashInConcat(a: string, b: string)
    requires '/' !in a && '/' !in b
    ensures '/' !in a + b
  {
    forall k | 0 <= k < |a + b|
      ensures (a + b)[k] != '/'
    {
      if k < |a| {
        assert (a + b)[k] == a[k];
      } else {
        assert (a + b)[k] == b[k - |a|];
      }
    }
  }

  /** Lower-casing keeps a `.wav` ending. */
  lemma LowerKeepsWav(w: string)
    requires Text.EndsWith(w, ".wav")
    ensures Text.EndsWith(Text.ToLower(w), ".wav")
  {
    var lw := Text.ToLower(w);
    var n := |w|;
    assert w[n - 4..] == ".wav";
    assert w[n - 4] == '.' && w[n - 3] == 'w' && w[n - 2] == 'a' && w[n - 1] == 'v';
    assert lw[n - 4] == '.' && lw[n - 3] == 'w' && lw[n - 2] == 'a' && lw[n - 1] == 'v';
    assert lw[n - 4..] == ".wav";
  }

  /**
   * The file handed to whisper.cpp always has a WAV name, and it differs from
   * the input exactly when a conversion was needed: so the temporary file is
   * deleted exactly when one was made.
   */
  lemma InputFileIsWav(audioPath: string)
    ensures IsWavName(InputFile(audioPath))
    ensures InputFile(audioPath) != audioPath <==> !IsWavName(audioPath)
  {
    LowerKeepsWav(WavPath(audioPath));
  }

  /** The last `c` is at `i` when `s[i]` is `c` and nothing after it is. */
  lemma LastIndexOfAt(s: string, c: char, i: nat)
    requires i < |s| && s[i] == c
    requires forall k :: i < k < |s| ==> s[k] != c
    ensures LastIndexOf(s, c) == i
  {
  }

  /**
   * A path `dir/name` whose directory is not empty and does not end in `/`,
   * and whose name is non-empty and holds no `/`, has that directory and that
   * last segment.
   */
  lemma SplitAtLastSlash(p: string, slash: nat)
    requires 0 < slash < |p| - 1 && p[slash] == '/' && p[slash - 1] != '/'
    requires forall k :: slash < k < |p| ==> p[k] != '/'
    ensures Basename(p) == p[slash + 1..]
    ensures Dirname(p) == p[..slash]
  {
    assert p[|p| - 1] != '/';
    assert TrimTrailingSlashes(p) == p;
    LastIndexOfAt(p, '/', slash);
  }

  /** A last segment whose last `.` is at `dot` (not its first character) has the stem before it. */
  lemma StemAtLastDot(p: string, dot: nat)
    requires 0 < dot < |Basename(p)| && Basename(p)[dot] == '.' && Basename(p) != ".."
    requires forall k :: dot < k < |Basename(p)| ==> Basename(p)[k] != '.'
    ensures Stem(p) == Basename(p)[..dot]
  {
    LastIndexOfAt(Basename(p), '.', dot);
  }

  /** A plain file name joined under a directory that does not end in `/` splits back into the two. */
  lemma JoinSplits(dir: string, name: string)
    requires dir != "" && dir[|dir| - 1] != '/'
    requires name != "" && '/' !in name
    ensures Basename(dir + "/" + name) == name
    ensures Dirname(dir + "/" + name) == dir
  {
    var p := dir + "/" + name;
    var slash := |dir|;
    forall k | slash < k < |p|
      ensures p[k] != '/'
    {
      assert p[k] == name[k - slash - 1];
    }
    SplitAtLastSlash(p, slash);
    assert p[slash + 1..] == name;
    assert p[..slash] == dir;
  }

  /** A last segment `stem.ext`, where the extension holds no further dot, has stem `stem`. */
  lemma StemOfName(p: string, stem: string, ext: string)
    requires Basename(p) == stem + ext
    requires stem != "" && |ext| >= 1 && ext[0] == '.' && '.' !in ext[1..]
    requires stem + ext != ".."
    ensures Stem(p) == stem
  {
    var name := stem + ext;
    forall k | |stem| < k < |name|
      ensures name[k] != '.'
    {
      assert name[k] == ext[1..][k - |stem| - 1];
    }
    StemAtLastDot(p, |stem|);
    assert name[..|stem|] == stem;
  }

  /**
   * A file `stem.ext` inside a directory is converted in that same directory,
   * keeping its stem: `dir/stem.ext` becomes `dir/stem.wav`.
   */
  lemma WavPathKeepsDirectory(dir: string, stem: string, ext: string)
    requires dir != "" && dir != "." && dir[|dir| - 1] != '/'
    requires stem != "" && '/' !in stem
    requires |ext| >= 1 && ext[0] == '.' && '/' !in ext && '.' !in ext[1..]
    requires stem + ext != ".."
    ensures WavPath(dir + "/" + (stem + ext)) == dir + "/" + (stem + ".wav")
  {
    var name := stem + ext;
    assert '/' !in name by {
      forall k | 0 <= k < |name|
        ensures name[k] != '/'
      {
        if k < |stem| {
          assert name[k] == stem[k];
        } else {
          assert name[k] == ext[k - |stem|];
        }
      }
    }
    JoinSplits(dir, name);
    StemOfName(dir + "/" + name, stem, ext);
    assert TrimTrailingSlashes(dir) == dir;
  }

  /**
   * A file without an extension (no `.` after its first character, as in `abc`
   * or the dot-file `.env`) inside a directory is converted in that directory
   * with `.wav` appended to its whole name.
   */
  lemma WavPathNoExtension(dir: string, name: string)
    requires dir != "" && dir != "." && dir[|dir| - 1] != '/'
    requires name != "" && '/' !in name
    requires forall k :: 0 < k < |name| ==> name[k] != '.'
    ensures WavPath(dir + "/" + name) == dir + "/" + (name + ".wav")
  {
    var p := dir + "/" + name;
    JoinSplits(dir, name);
    assert Extname(p) == [];
    assert Stem(p) + [] == Stem(p);
    assert TrimTrailingSlashes(dir) == dir;
  }

  /** `uploads/abc` is `abc` under `uploads`; `abc.wav` under `uploads` is `uploads/abc.wav`. */
  lemma UploadsAbcParts()
    ensures "uploads/abc" == "uploads" + "/" + "abc"
    ensures "uploads" + "/" + ("abc" + ".wav") == "uploads/abc.wav"
  {
  }

  /** A name without an extension keeps its whole name: `uploads/abc` becomes `uploads/abc.wav`. */
  lemma WavPathWithoutExtension(p: string)
    requires p == "uploads/abc"
    ensures WavPath(p) == "uploads/abc.wav"
  {
    UploadsAbcParts();
    WavPathNoExtension("uploads", "abc");
  }

  /** `.env` holds no `/` and no `.` after its first character; with `.wav` appended it is `.env.wav`. */
  lemma DotFileParts()
    ensures '/' !in ".env"
    ensures forall k :: 0 < k < |".env"| ==> ".env"[k] != '.'
    ensures ".env" + ".wav" == ".env.wav"
  {
  }

  /** A dot-file has no extension: `.env` becomes `.env.wav`, next to itself. */
  lemma WavPathDotFile(q: string)
    requires q == ".env"
    ensures WavPath(q) == ".env.wav"
  {
    DotFileParts();
    BareName(q);
    assert Extname(q) == [];
    assert Stem(q) + [] == Stem(q);
    WavPathOfBareName(q);
  }

  /** `uploads/song.MP3` is `song.MP3` under `uploads`; `song.wav` under `uploads` is `uploads/song.wav`. */
  lemma UploadsSongParts()
    ensures "uploads/song.MP3" == "uploads" + "/" + ("song" + ".MP3")
    ensures "uploads" + "/" + ("song" + ".wav") == "uploads/song.wav"
  {
  }

  /** `song.MP3` in `uploads` becomes `uploads/song.wav`. */
  lemma WavPathInDirectory(p: string)
    requires p == "uploads/song.MP3"
    ensures WavPath(p) == "uploads/song.wav"
  {
    UploadsSongParts();
    WavPathKeepsDirectory("uploads", "song", ".MP3");
  }

  /** A name without a directory part is its own last segment, with directory `.`. */
  lemma BareName(p: string)
    requires '/' !in p
    ensures Basename(p) == p && Dirname(p) == "."
  {
    assert p == [] || p[|p| - 1] in p;
    assert TrimTrailingSlashes(p) == p;
  }

  /** A name without a directory part is converted next to itself: its stem plus `.wav`. */
  lemma WavPathOfBareName(p: string)
    requires '/' !in p
    ensures WavPath(p) == Stem(p) + ".wav"
  {
    assert p == [] || p[|p| - 1] in p;
    assert TrimTrailingSlashes(p) == p;
    assert Dirname(p) == ".";
  }

  /** `clip.ogg` is `clip` then `.ogg`; `clip` then `.wav` is `clip.wav`. */
  lemma ClipNameParts()
    ensures "clip.ogg" == "clip" + ".ogg" && '/' !in "clip.ogg"
    ensures "clip" + ".wav" == "clip.wav"
  {
  }

  /** `clip.ogg` becomes `clip.wav`. */
  lemma WavPathBareName(q: string)
    requires q == "clip.ogg"
    ensures WavPath(q) == "clip.wav"
  {
    ClipNameParts();
    BareName(q);
    StemOfName(q, "clip", ".ogg");
    WavPathOfBareName(q);
  }

  /** `/tmp/a.b.m4a` is `a.b.m4a` under `/tmp`; `a.b.wav` under `/tmp` is `/tmp/a.b.wav`. */
  lemma TmpNameParts()
    ensures "/tmp/a.b.m4a" == "/tmp" + "/" + ("a.b" + ".m4a")
    ensures "/tmp" + "/" + ("a.b" + ".wav") == "/tmp/a.b.wav"
  {
  }

  /** Only the last extension goes: `/tmp/a.b.m4a` becomes `/tmp/a.b.wav`. */
  lemma WavPathLastExtension(r: string)
    requires r == "/tmp/a.b.m4a"
    ensures WavPath(r) == "/tmp/a.b.wav"
  {
    TmpNameParts();
    WavPathKeepsDirectory("/tmp", "a.b", ".m4a");
  }

  /** A name that ends in `.WAV` is used as it is. */
  lemma UppercaseWavKept()
    ensures InputFile("rec/take1.WAV") == "rec/take1.WAV"
  {
    var lw := Text.ToLower("rec/take1.WAV");
    assert lw[9] == '.' && lw[10] == 'w' && lw[11] == 'a' && lw[12] == 'v';
    assert lw[9..] == ".wav";
  }

  /** `ffmpeg` converting to 16 kHz mono 16-bit PCM, overwriting the target. */
  function FfmpegCommand(audioPath: string, wavFile: string): string {
    "ffmpeg -y -i \"" + audioPath + "\" -ar 16000 -ac 1 -c:a pcm_s16le \"" + wavFile + "\""
  }

  // ---------------------------------------------------------------------------
  // transcribe
  // ---------------------------------------------------------------------------

  /** The outcome of running a shell command. */
  datatype ExecResult = Completed(stdout: string, stderr: string) | Failed(error: string)

  /** What the file system and the shell answer: which paths are accessible, what each command yields. */
  datatype Environment = Environment(accessible: string -> bool, run: string -> ExecResult)

  /** Why a transcription was abandoned (the original error is passed on). */
  datatype TranscribeError = NotAccessible(path: string) | ConversionFailed(error: string) | WhisperFailed(error: string)

  /** The first of the audio file, the model and the binary that cannot be accessed, if any. */
  function FirstInaccessible(audioPath: string, options: WhisperOptions, env: Environment): (r: Option<string>)
    ensures r.None? <==> env.accessible(audioPath) && env.accessible(options.modelPath) && env.accessible(options.binaryPath)
    ensures r.Some? ==> !env.accessible(r.value)
  {
    if !env.accessible(audioPath) then Some(audioPath)
    else if !env.accessible(options.modelPath) then Some(options.modelPath)
    else if !env.accessible(options.binaryPath) then Some(options.binaryPath)
    else None
  }

  /** What `transcribe` makes of whisper.cpp's outcome: the trimmed output, or the error passed on. */
  function WhisperOutcome(output: ExecResult): (r: Result<string, TranscribeError>)
    ensures output.Completed? <==> r.Success?
    ensures r.Success? ==> r.value == Text.Trim(output.stdout)
    ensures r.Failure? ==> r.error == WhisperFailed(output.error)
  {
    match output
    case Completed(stdout, _) => Success(Text.Trim(stdout))
    case Failed(error) => Failure(WhisperFailed(error))
  }

  /**
   * `transcribe`: check the three paths, convert a non-WAV input with ffmpeg,
   * run whisper.cpp on the (converted) file and return its trimmed standard
   * output, deleting the converted file afterwards whatever whisper.cpp did.
   * `executed` lists the commands run, in order; `deleted` the file removed.
   */
  method Transcribe(audioPath: string, options: WhisperOptions, cpuCount: nat, env: Environment)
    returns (result: Result<string, TranscribeError>, executed: seq<string>, deleted: Option<string>)
    ensures FirstInaccessible(audioPath, options, env).Some? ==>
              result == Failure(NotAccessible(FirstInaccessible(audioPath, options, env).value))
              && executed == [] && deleted == None
    ensures FirstInaccessible(audioPath, options, env).None? && !IsWavName(audioPath) ==>
              |executed| >= 1 && executed[0] == FfmpegCommand(audioPath, WavPath(audioPath))
    ensures FirstInaccessible(audioPath, options, env).None? && !IsWavName(audioPath)
            && env.run(FfmpegCommand(audioPath, WavPath(audioPath))).Failed? ==>
              result == Failure(ConversionFailed(env.run(FfmpegCommand(audioPath, WavPath(audioPath))).error))
              && |executed| == 1 && deleted == None
    ensures FirstInaccessible(audioPath, options, env).None?
            && (IsWavName(audioPath) || env.run(FfmpegCommand(audioPath, WavPath(audioPath))).Completed?) ==>
              && executed == (if IsWavName(audioPath) then [] else [FfmpegCommand(audioPath, WavPath(audioPath))])
                             + [Command(options, InputFile(audioPath), cpuCount)]
              && result == WhisperOutcome(env.run(Command(options, InputFile(audioPath), cpuCount)))
              && deleted == (if IsWavName(audioPath) then None else Some(WavPath(audioPath)))
    ensures deleted.Some? ==> !IsWavName(audioPath) && deleted.value == WavPath(audioPath) && deleted.value != audioPath
  {
    executed := [];
    deleted := None;
    var missing := FirstInaccessible(audioPath, options, env);
    if missing.Some? {
      return Failure(NotAccessible(missing.value)), executed, deleted;
    }
    var inputFile := audioPath;
    ghost var conversion: seq<string> := [];
    if !IsWavName(audioPath) {
      var wavFile := WavPath(audioPath);
      var ffmpegCmd := FfmpegCommand(audioPath, wavFile);
      executed := executed + [ffmpegCmd];
      var converted := env.run(ffmpegCmd);
      if converted.Failed? {
        return Failure(ConversionFailed(converted.error)), executed, deleted;
      }
      inputFile := wavFile;
      conversion := [ffmpegCmd];
    }
    assert executed == conversion;
    InputFileIsWav(audioPath);
    assert inputFile == InputFile(audioPath);
    var command := Command(options, inputFile, cpuCount);
    executed := executed + [command];
    assert executed == conversion + [Command(options, InputFile(audioPath), cpuCount)];
    result := WhisperOutcome(env.run(command));
    if inputFile != audioPath {
      deleted := Some(inputFile);
    }
  }
}
