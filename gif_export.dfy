/** The GIF export: option defaults, the quality preset, the two ffmpeg
    filter chains and command lines, and how the two ffmpeg processes settle
    the export's promise. */
module GifExport {
  import opened Wrappers
  import opened JsStrings
  import opened JsNumber

  datatype Quality = High | Medium | Low

  /** A crop rectangle in source pixels. */
  datatype Crop = Crop(x: Num, y: Num, width: Num, height: Num)

  /** `GifExportOptions`; the optional members are `undefined` when absent. */
  datatype GifExportOptions = GifExportOptions(
    inputPath: string,
    startTime: Num,
    endTime: Num,
    width: Option<Num>,
    fps: Option<Num>,
    quality: Option<Quality>,
    crop: Option<Crop>)

  /** What the save dialog returned. */
  datatype SaveDialogResult = SaveDialogResult(canceled: bool, filePath: Option<string>)

  /** The two ffmpeg command lines. The first (`args` in the source) renders
      the palette and writes it as PNG to its stdout; the second
      (`paletteArgs`) reads that palette from its stdin and encodes the GIF. */
  datatype ExportPlan = ExportPlan(paletteGeneration: seq<string>, gifEncoding: seq<string>)

  // ---------------------------------------------------------------------------
  // Defaults and quality presets
  // ---------------------------------------------------------------------------

  function Width(o: GifExportOptions): Num {
    o.width.GetOr(Fin(480.0))
  }

  function Fps(o: GifExportOptions): Num {
    o.fps.GetOr(Fin(15.0))
  }

  function QualityOf(o: GifExportOptions): Quality {
    o.quality.GetOr(Medium)
  }

  /** Palette size and Bayer dither scale of a quality level. */
  datatype QualityPreset = QualityPreset(colors: nat, bayerScale: nat)

  /** The presets lie within what ffmpeg accepts: `palettegen` takes 2 to 256
      colours and the Bayer dither a scale of 0 to 5. */
  function Preset(q: Quality): (p: QualityPreset)
    ensures 2 <= p.colors <= 256 && p.bayerScale <= 5
  {
    match q
    case High => QualityPreset(256, 5)
    case Medium => QualityPreset(128, 3)
    case Low => QualityPreset(64, 1)
  }

  function Dither(p: QualityPreset): string {
    "bayer:bayer_scale=" + NatText(p.bayerScale)
  }

  // ---------------------------------------------------------------------------
  // Filter stages, given the texts of the numbers that go into them
  // ---------------------------------------------------------------------------

  function FpsStage(fps: string): string {
    "fps=" + fps
  }

  /** Note the order: width, height, x, y. */
  function CropStage(width: string, height: string, x: string, y: string): string {
    "crop=" + width + ":" + height + ":" + x + ":" + y
  }

  function ScaleStage(width: string): string {
    "scale=" + width + ":-1:flags=lanczos"
  }

  function PalettegenStage(colors: string): string {
    "palettegen=max_colors=" + colors + ":reserve_transparent=0"
  }

  function PaletteuseStage(dither: string): string {
    "[v][1:v]paletteuse=dither=" + dither + ":diff_mode=rectangle"
  }

  /** `${crop.width}:${crop.height}:${crop.x}:${crop.y}` */
  function CropOf(c: Crop): string {
    CropStage(ToText(c.width), ToText(c.height), ToText(c.x), ToText(c.y))
  }

  /** The stages both passes apply to the clip: frame rate, the crop when one
      is given, and the scale. */
  function SharedStages(o: GifExportOptions): seq<string> {
    [FpsStage(ToText(Fps(o)))]
      + (match o.crop case Some(c) => [CropOf(c)] case None => [])
      + [ScaleStage(ToText(Width(o)))]
  }

  /** The palette pass: the shared stages and one `palettegen` stage. */
  function PaletteChain(o: GifExportOptions): seq<string> {
    SharedStages(o) + [PalettegenStage(NatText(Preset(QualityOf(o)).colors))]
  }

  /** The encoder's filter graph: the shared stages on the clip, labelled
      `[v]`, then `paletteuse` on `[v]` and the piped palette. */
  function FilterComplex(o: GifExportOptions): string {
    Join(["[0:v]" + Join(SharedStages(o), ',') + "[v]",
          PaletteuseStage(Dither(Preset(QualityOf(o))))], ';')
  }

  // ---------------------------------------------------------------------------
  // The command lines
  // ---------------------------------------------------------------------------

  /** The palette pass's arguments, given the texts that go into them. */
  function PaletteCommand(start: string, duration: string, input: string, filters: string): seq<string> {
    ["-y", "-ss", start, "-t", duration, "-i", input, "-vf", filters,
     "-f", "image2pipe", "-vcodec", "png", "-"]
  }

  /** The encoder's arguments, given the texts that go into them. */
  function EncoderCommand(start: string, duration: string, input: string, graph: string, output: string)
    : seq<string>
  {
    ["-y", "-ss", start, "-t", duration, "-i", input, "-i", "-", "-filter_complex", graph, output]
  }

  function PaletteGenerationArgs(o: GifExportOptions): seq<string> {
    PaletteCommand(ToText(o.startTime), ToText(Sub(o.endTime, o.startTime)), o.inputPath,
                   Join(PaletteChain(o), ','))
  }

  function GifEncodingArgs(o: GifExportOptions, outputPath: string): seq<string> {
    EncoderCommand(ToText(o.startTime), ToText(Sub(o.endTime, o.startTime)), o.inputPath,
                   FilterComplex(o), outputPath)
  }

  predicate Cancelled(dialog: SaveDialogResult) {
    dialog.canceled || dialog.filePath == None || dialog.filePath == Some("")
  }

  /** The part of `exportToGif` before any process starts: a cancelled dialog
      rejects with "Export cancelled"; otherwise the two filter chains are
      pushed stage by stage, the palette chain ending in `palettegen` and
      the encoder's in the scale, and the two command lines laid out. */
  method PlanGifExport(o: GifExportOptions, dialog: SaveDialogResult)
    returns (r: Result<ExportPlan, string>)
    ensures Cancelled(dialog) ==> r == Err("Export cancelled")
    ensures !Cancelled(dialog) ==> r == Ok(ExportPlan(PaletteGenerationArgs(o),
                                                      GifEncodingArgs(o, dialog.filePath.value)))
  {
    if dialog.canceled || dialog.filePath == None || dialog.filePath.value == "" {
      return Err("Export cancelled");
    }
    var outputPath := dialog.filePath.value;
    var width, fps := Width(o), Fps(o);
    var preset := Preset(QualityOf(o));
    var start, duration := ToText(o.startTime), ToText(Sub(o.endTime, o.startTime));

    var videoFilters := [FpsStage(ToText(fps))];
    if o.crop.Some? {
      videoFilters := videoFilters + [CropOf(o.crop.value)];
    }
    videoFilters := videoFilters + [ScaleStage(ToText(width))];
    var finalVideoFilters := videoFilters;
    videoFilters := videoFilters + [PalettegenStage(NatText(preset.colors))];
    assert finalVideoFilters == SharedStages(o);
    assert videoFilters == PaletteChain(o);
    var args := PaletteCommand(start, duration, o.inputPath, Join(videoFilters, ','));

    var graph := Join(["[0:v]" + Join(finalVideoFilters, ',') + "[v]", PaletteuseStage(Dither(preset))], ';');
    var paletteArgs := EncoderCommand(start, duration, o.inputPath, graph, outputPath);
    return Ok(ExportPlan(args, paletteArgs));
  }

  // ---------------------------------------------------------------------------
  // Properties of the presets, chains and command lines
  // ---------------------------------------------------------------------------

  function Rank(q: Quality): nat {
    match q
    case Low => 0
    case Medium => 1
    case High => 2
  }

  /** Better quality means a larger palette and a larger Bayer scale. */
  lemma PresetsOrdered(a: Quality, b: Quality)
    requires Rank(a) < Rank(b)
    ensures Preset(a).colors < Preset(b).colors && Preset(a).bayerScale < Preset(b).bayerScale
  {
  }

  /** Both chains start with the frame rate; the crop sits right after it
      exactly when one is given; the shared part ends with the scale, and the
      palette chain is the shared chain and one `palettegen` stage. */
  lemma ChainShape(o: GifExportOptions)
    ensures var c := SharedStages(o);
      && c[0] == FpsStage(ToText(Fps(o)))
      && c[|c| - 1] == ScaleStage(ToText(Width(o)))
      && (|c| == 3 <==> o.crop.Some?)
      && (o.crop.Some? ==> c[1] == CropOf(o.crop.value))
      && |c| >= 2
      && |c| == (if o.crop.Some? then 3 else 2)
    ensures o.crop.None? ==> SharedStages(o) == [FpsStage(ToText(Fps(o))), ScaleStage(ToText(Width(o)))]
    ensures PaletteChain(o)[..|SharedStages(o)|] == SharedStages(o)
    ensures |PaletteChain(o)| == |SharedStages(o)| + 1
    ensures PaletteChain(o)[|SharedStages(o)|] == PalettegenStage(NatText(Preset(QualityOf(o)).colors))
  {
  }

  /** `s` holds none of the filter-graph delimiters. */
  predicate Plain(s: string) {
    ',' !in s && ';' !in s
  }

  predicate AllPlain(parts: seq<string>) {
    forall i :: 0 <= i < |parts| ==> Plain(parts[i])
  }

  lemma PlainConcat(a: string, b: string)
    requires Plain(a) && Plain(b)
    ensures Plain(a + b)
  {
  }

  lemma FpsStageIsPlain(fps: string)
    requires Plain(fps)
    ensures Plain(FpsStage(fps))
  {
    assert Plain("fps=");
    PlainConcat("fps=", fps);
  }

  lemma ScaleStageIsPlain(width: string)
    requires Plain(width)
    ensures Plain(ScaleStage(width))
  {
    assert Plain("scale=") && Plain(":-1:flags=lanczos");
    PlainConcat("scale=", width);
    PlainConcat("scale=" + width, ":-1:flags=lanczos");
  }

  lemma CropStageIsPlain(width: string, height: string, x: string, y: string)
    requires Plain(width) && Plain(height) && Plain(x) && Plain(y)
    ensures Plain(CropStage(width, height, x, y))
  {
    assert Plain("crop=") && Plain(":");
    PlainConcat("crop=", width);
    PlainConcat("crop=" + width, ":");
    PlainConcat("crop=" + width + ":", height);
    PlainConcat("crop=" + width + ":" + height, ":");
    PlainConcat("crop=" + width + ":" + height + ":", x);
    PlainConcat("crop=" + width + ":" + height + ":" + x, ":");
    PlainConcat("crop=" + width + ":" + height + ":" + x + ":", y);
  }

  lemma PalettegenStageIsPlain(colors: string)
    requires Plain(colors)
    ensures Plain(PalettegenStage(colors))
  {
    assert Plain("palettegen=max_colors=") && Plain(":reserve_transparent=0");
    PlainConcat("palettegen=max_colors=", colors);
    PlainConcat("palettegen=max_colors=" + colors, ":reserve_transparent=0");
  }

  lemma PaletteuseStageIsPlain(dither: string)
    requires Plain(dither)
    ensures Plain(PaletteuseStage(dither))
  {
    assert Plain("[v][1:v]paletteuse=dither=") && Plain(":diff_mode=rectangle");
    PlainConcat("[v][1:v]paletteuse=dither=", dither);
    PlainConcat("[v][1:v]paletteuse=dither=" + dither, ":diff_mode=rectangle");
  }

  lemma DigitsArePlain(s: string)
    requires AllDigits(s)
    ensures Plain(s)
  {
  }

  lemma NumberTextIsPlain(n: Num)
    ensures Plain(ToText(n))
  {
    TextHasNoSeparator(n);
  }

  lemma DitherIsPlain(p: QualityPreset)
    ensures Plain(Dither(p))
  {
    DigitsArePlain(NatText(p.bayerScale));
    assert Plain("bayer:bayer_scale=");
    PlainConcat("bayer:bayer_scale=", NatText(p.bayerScale));
  }

  lemma CropIsPlain(c: Crop)
    ensures Plain(CropOf(c))
  {
    NumberTextIsPlain(c.width);
    NumberTextIsPlain(c.height);
    NumberTextIsPlain(c.x);
    NumberTextIsPlain(c.y);
    CropStageIsPlain(ToText(c.width), ToText(c.height), ToText(c.x), ToText(c.y));
  }

  lemma FpsOfIsPlain(fps: Num)
    ensures Plain(FpsStage(ToText(fps)))
  {
    NumberTextIsPlain(fps);
    FpsStageIsPlain(ToText(fps));
  }

  lemma ScaleOfIsPlain(width: Num)
    ensures Plain(ScaleStage(ToText(width)))
  {
    NumberTextIsPlain(width);
    ScaleStageIsPlain(ToText(width));
  }

  lemma SharedStagesArePlain(o: GifExportOptions)
    ensures AllPlain(SharedStages(o))
  {
    var fps, scale := FpsStage(ToText(Fps(o))), ScaleStage(ToText(Width(o)));
    FpsOfIsPlain(Fps(o));
    ScaleOfIsPlain(Width(o));
    if o.crop.Some? {
      CropIsPlain(o.crop.value);
      assert SharedStages(o) == [fps, CropOf(o.crop.value), scale];
    } else {
      assert SharedStages(o) == [fps, scale];
    }
  }

  lemma PaletteChainIsPlain(o: GifExportOptions)
    ensures AllPlain(PaletteChain(o))
  {
    SharedStagesArePlain(o);
    var colors := NatText(Preset(QualityOf(o)).colors);
    DigitsArePlain(colors);
    PalettegenStageIsPlain(colors);
  }

  lemma {:induction false} NoSemicolonInJoin(parts: seq<string>)
    requires AllPlain(parts)
    ensures ';' !in Join(parts, ',')
  {
    if |parts| > 1 {
      NoSemicolonInJoin(parts[1..]);
    }
  }

  /** ffmpeg reads the `-vf` text back as exactly the palette chain. */
  lemma PaletteFiltersDecode(o: GifExportOptions)
    ensures Split(Join(PaletteChain(o), ','), ',') == PaletteChain(o)
  {
    PaletteChainIsPlain(o);
    SplitJoin(PaletteChain(o), ',');
  }

  /** ffmpeg reads the encoder's filter graph back as the shared chain,
      labelled, and the `paletteuse` stage, and the labelled part back as
      exactly the shared chain. */
  lemma FilterGraphDecodes(o: GifExportOptions)
    ensures Split(FilterComplex(o), ';')
         == ["[0:v]" + Join(SharedStages(o), ',') + "[v]",
             PaletteuseStage(Dither(Preset(QualityOf(o))))]
    ensures Split(Join(SharedStages(o), ','), ',') == SharedStages(o)
  {
    var shared := SharedStages(o);
    SharedStagesArePlain(o);
    SplitJoin(shared, ',');
    NoSemicolonInJoin(shared);
    var labelled := "[0:v]" + Join(shared, ',') + "[v]";
    assert ';' !in labelled;
    var use := PaletteuseStage(Dither(Preset(QualityOf(o))));
    assert Plain(use) by {
      DitherIsPlain(Preset(QualityOf(o)));
      PaletteuseStageIsPlain(Dither(Preset(QualityOf(o))));
    }
    SplitJoin([labelled, use], ';');
  }

  /** Both command lines start the same way: overwrite, the same start, the
      same duration and the same input. The palette pass ends by writing PNG
      to its stdout; the encoder takes the pipe as its second input and
      writes to the chosen path, last. */
  lemma CommandLayout(start: string, duration: string, input: string, filters: string,
                      graph: string, output: string)
    ensures PaletteCommand(start, duration, input, filters)[..7]
         == EncoderCommand(start, duration, input, graph, output)[..7]
         == ["-y", "-ss", start, "-t", duration, "-i", input]
    ensures PaletteCommand(start, duration, input, filters)[7..9] == ["-vf", filters]
    ensures PaletteCommand(start, duration, input, filters)[9..] == ["-f", "image2pipe", "-vcodec", "png", "-"]
    ensures EncoderCommand(start, duration, input, graph, output)[7..] == ["-i", "-", "-filter_complex", graph, output]
  {
  }

  /** The two argument lists of one export share the overwrite flag, the
      start, the duration and the input; the palette pass filters with the
      palette chain, and the encoder applies the filter graph and writes to
      the chosen path, last. */
  lemma ArgumentsAgree(o: GifExportOptions, outputPath: string)
    ensures PaletteGenerationArgs(o)[..7] == GifEncodingArgs(o, outputPath)[..7]
         == ["-y", "-ss", ToText(o.startTime), "-t", ToText(Sub(o.endTime, o.startTime)), "-i", o.inputPath]
    ensures PaletteGenerationArgs(o)[7..9] == ["-vf", Join(PaletteChain(o), ',')]
    ensures GifEncodingArgs(o, outputPath)[9..] == ["-filter_complex", FilterComplex(o), outputPath]
  {
    CommandLayout(ToText(o.startTime), ToText(Sub(o.endTime, o.startTime)), o.inputPath,
                  Join(PaletteChain(o), ','), FilterComplex(o), outputPath);
  }

  /** The start and duration texts read back as the numbers they came from.
      Nothing checks that the end lies after the start: an inverted range
      gives a negative duration, written with a leading minus sign. */
  lemma TimesReadBack(start: real, end: real)
    requires IsShortDecimal(start) && IsShortDecimal(end - start)
    ensures Number(ToText(Fin(start))) == Fin(start)
    ensures Number(ToText(Sub(Fin(end), Fin(start)))) == Fin(end - start)
    ensures end < start ==> ToText(Sub(Fin(end), Fin(start)))[0] == '-'
  {
    NumberAfterText(end - start);
    NumberAfterText(start);
    SubFinite(end, start);
    if end < start {
      NegativeText(end - start);
    }
  }

  lemma DefaultFpsText()
    ensures ToText(Fin(15.0)) == "15"
  {
    IntegerText(15);
    assert NatText(15) == "15";
  }

  lemma DefaultWidthText()
    ensures ToText(Fin(480.0)) == "480"
  {
    IntegerText(480);
    assert NatText(48) == "48";
    assert NatText(480) == NatText(48) + "0";
  }

  lemma DefaultColorsText()
    ensures NatText(Preset(Medium).colors) == "128"
  {
    assert NatText(12) == "12";
    assert NatText(128) == NatText(12) + "8";
  }

  lemma DefaultDither()
    ensures Dither(Preset(Medium)) == "bayer:bayer_scale=3"
  {
    assert NatText(3) == "3";
  }

  /** The high preset's texts: 256 colours and a Bayer scale of 5. */
  lemma HighPresetTexts()
    ensures PalettegenStage(NatText(Preset(High).colors))
         == "palettegen=max_colors=256:reserve_transparent=0"
    ensures Dither(Preset(High)) == "bayer:bayer_scale=5"
  {
    assert NatText(2) == "2";
    assert NatText(25) == NatText(2) + "5";
    assert NatText(256) == NatText(25) + "6";
    assert NatText(5) == "5";
  }

  /** The low preset's texts: 64 colours and a Bayer scale of 1. */
  lemma LowPresetTexts()
    ensures PalettegenStage(NatText(Preset(Low).colors))
         == "palettegen=max_colors=64:reserve_transparent=0"
    ensures Dither(Preset(Low)) == "bayer:bayer_scale=1"
  {
    assert NatText(6) == "6";
    assert NatText(64) == NatText(6) + "4";
    assert NatText(1) == "1";
  }

  /** Omitted options give 15 frames per second, 480 pixels wide, a 128
      colour palette and a Bayer dither of scale 3. */
  lemma ExportDefaults(o: GifExportOptions)
    requires o.width == None && o.fps == None && o.quality == None
    ensures SharedStages(o)[0] == FpsStage("15")
    ensures SharedStages(o)[|SharedStages(o)| - 1] == ScaleStage("480")
    ensures PaletteChain(o)[|PaletteChain(o)| - 1] == PalettegenStage("128")
    ensures Dither(Preset(QualityOf(o))) == "bayer:bayer_scale=3"
  {
    ChainShape(o);
    DefaultFpsText();
    DefaultWidthText();
    DefaultColorsText();
    DefaultDither();
  }

  // ---------------------------------------------------------------------------
  // How the two processes settle the promise
  // ---------------------------------------------------------------------------

  /** What the handlers of the two ffmpeg processes observe, in order; a
      `close` code is absent when the process was ended by a signal. */
  datatype ProcessEvent =
    | PaletteStderr(chunk: string)
    | GifStderr(chunk: string)
    | PaletteError(message: string)
    | GifError(message: string)
    | PaletteClose(code: Option<int>)
    | GifClose(code: Option<int>)

  /** Events whose handler resolves or rejects; the palette process's `close`
      has no handler. */
  predicate Settles(e: ProcessEvent) {
    e.PaletteError? || e.GifError? || e.GifClose?
  }

  /** `${code}`: a number, or "null". */
  function CodeText(code: Option<int>): string {
    match code
    case Some(c) => IntText(c)
    case None => "null"
  }

  /** The value a settling event gives the promise, given the stderr text
      seen so far. Only a clean exit of the encoder resolves, and a failed
      exit carries all that stderr text. */
  function Settlement(e: ProcessEvent, errorOutput: string, outputPath: string): (r: Result<string, string>)
    requires Settles(e)
    ensures r.Ok? <==> e == GifClose(Some(0))
    ensures r.Ok? ==> r.value == outputPath
    ensures e.GifClose? && r.Err? ==> EndsWith(r.error, errorOutput)
  {
    if e.PaletteError? then Err("Palette generation failed: " + e.message)
    else if e.GifError? then Err("GIF creation failed: " + e.message)
    else if e.code == Some(0) then Ok(outputPath)
    else
      var msg := "FFmpeg process failed with code " + CodeText(e.code) + ". Error: " + errorOutput;
      assert msg[|msg| - |errorOutput|..] == errorOutput;
      Err(msg)
  }

  /** The promise after the handlers have run over `events`, `errorOutput`
      holding the stderr text gathered so far: absent while pending. */
  function Outcome(events: seq<ProcessEvent>, errorOutput: string, outputPath: string)
    : Option<Result<string, string>>
  {
    if events == [] then None
    else
      var e := events[0];
      if Settles(e) then Some(Settlement(e, errorOutput, outputPath))
      else if e.PaletteStderr? || e.GifStderr? then Outcome(events[1..], errorOutput + e.chunk, outputPath)
      else Outcome(events[1..], errorOutput, outputPath)
  }

  /** All stderr text in `events`, from both processes, in arrival order. */
  function StderrText(events: seq<ProcessEvent>): string {
    if events == [] then ""
    else if events[0].PaletteStderr? || events[0].GifStderr? then events[0].chunk + StderrText(events[1..])
    else StderrText(events[1..])
  }

  /** The first settling event decides the promise, with all stderr text
      that arrived before it; nothing after it matters. */
  lemma {:induction false} FirstSettlementDecides(
    pre: seq<ProcessEvent>, e: ProcessEvent, post: seq<ProcessEvent>, errorOutput: string, outputPath: string)
    requires forall i :: 0 <= i < |pre| ==> !Settles(pre[i])
    requires Settles(e)
    ensures Outcome(pre + [e] + post, errorOutput, outputPath)
         == Some(Settlement(e, errorOutput + StderrText(pre), outputPath))
  {
    var events := pre + [e] + post;
    if pre == [] {
      assert events[0] == e;
      assert errorOutput + StderrText(pre) == errorOutput;
    } else {
      assert events[1..] == pre[1..] + [e] + post;
      var p := pre[0];
      if p.PaletteStderr? || p.GifStderr? {
        FirstSettlementDecides(pre[1..], e, post, errorOutput + p.chunk, outputPath);
        assert errorOutput + p.chunk + StderrText(pre[1..]) == errorOutput + StderrText(pre);
      } else {
        FirstSettlementDecides(pre[1..], e, post, errorOutput, outputPath);
      }
    }
  }

  /** Without a settling event the export stays pending. */
  lemma {:induction false} PendingWithoutSettlement(events: seq<ProcessEvent>, errorOutput: string, outputPath: string)
    requires forall i :: 0 <= i < |events| ==> !Settles(events[i])
    ensures Outcome(events, errorOutput, outputPath) == None
  {
    if events != [] {
      assert !Settles(events[0]);
      PendingWithoutSettlement(events[1..], errorOutput + (if events[0].PaletteStderr? || events[0].GifStderr? then events[0].chunk else ""), outputPath);
      if !(events[0].PaletteStderr? || events[0].GifStderr?) {
        assert errorOutput + "" == errorOutput;
      }
    }
  }
}
