# Video utilities of the GIF-making desktop app, modelled in Dafny

This project models the data-shaping parts of `src/main/video_utils.ts`:

- **`processStreamData`** turns one ffprobe stream record into the
  `VideoMetadata` the renderer receives. It computes:
  - the frame rate from the `r_frame_rate` fraction, falling back to 30;
  - width and height, swapped on a rotation tag of 90 or 270;
  - the duration, from the record's `duration` or else from the Matroska
    `DURATION` tag.
- **The plan half of `exportToGif`** covers:
  - the option defaults (480 px wide, 15 fps, medium quality);
  - the quality preset table;
  - the two ffmpeg filter chains;
  - the two ffmpeg command lines. One renders a palette to a pipe. The other
    encodes the GIF with that palette.

  It also covers how the events of the two ffmpeg processes settle the
  export's promise.
- **The pure parts of `generateThumbnails`** cover:
  - the interval clamp;
  - the single ffmpeg command line writing `thumb-%06d.jpg` frames;
  - filtering the directory listing to `.jpg` names, sorting them and turning
    each file into a `data:image/jpg;base64,` URL.

The JavaScript runtime behaviour the code relies on is modelled explicitly in
two supporting modules, because the results depend on it:

- `JsNumber` holds numbers with NaN and the infinities, the arithmetic the
  code uses, `Number(text)` and `String(number)`.
- `JsStrings` holds `split`, `join`, `endsWith` and the default
  `Array.prototype.sort` order.

Modules:

- `wrappers.dfy`: `Option` and `Result`.
- `js_strings.dfy` (`JsStrings`): decimal digits, `Split` and `Join` and their
  round trips, `EndsWith`, and the string order `StrLe` with an insertion
  `Sort`. The sort is proved ascending, a permutation, and the only ascending
  permutation.
- `js_number.dfy` (`JsNumber`): `Num` (NaN, ±Infinity, finite reals) with
  `Add`, `Sub`, `Mul`, `Div`, `Floor` and `Max`. It also holds
  `Number(text)` and `ToText` (`String(n)`), with the round trip
  `Number(String(x)) == x` for every finite x with at most 20 fractional
  digits.
- `stream_metadata.dfy` (`StreamMetadata`): `processStreamData`, as written
  and as evidently intended.
- `gif_export.dfy` (`GifExport`): the export plan and the event trace.
- `thumbnails.dfy` (`Thumbnails`): thumbnail planning and collection.

Behaviours of the code worth knowing, all modelled as written:

- A "0/0" frame rate gives NaN, not 30 (`ZeroOverZeroFrameRate`).
- A stream record without a `tags` object makes `processStreamData` throw a
  TypeError; `ProcessStreamData` returns an error for it.
- Nothing checks that the end time is after the start; `TimesReadBack` shows
  the negative duration text that results.
- Every finite interval below 2 becomes 1, and so does −Infinity; NaN passes
  through the clamp (`SafeIntervalSpecialCases`).
- The `DURATION` tag fallback concatenates instead of adding (see Findings).

## Model

| member | source | states |
|---|---|---|
| StreamMetadata.ProcessStreamData | src/main/video_utils.ts:67-96 | A record without `tags` fails with the TypeError of reading `rotate`, and only such a record fails; otherwise the file path and aspect ratio are passed through, width and height trade places exactly when the rotation is switched and are kept otherwise, and the frame rate and duration are those of the three steps |
| StreamMetadata.MissingTagsError | src/main/video_utils.ts:77 | The TypeError message of reading `rotate` from an undefined `tags` |
| StreamMetadata.Truthy | src/main/video_utils.ts:81 | Computes JavaScript truthiness of an optional string: defined and not empty |
| StreamMetadata.At | src/main/video_utils.ts:85 | Computes `a[i]`: the piece when i is in range, undefined past the end |
| StreamMetadata.Rotation | src/main/video_utils.ts:77 | Computes the rotation tag read by Number, an absent tag read as "0" |
| StreamMetadata.OrientationSwitched | src/main/video_utils.ts:78 | Computes whether the rotation is exactly 90 or exactly 270 |
| StreamMetadata.TagDurationText | src/main/video_utils.ts:83-85 | Computes the text the tag fallback builds: the text of the number H·60·60 + M·60 followed by the text of the seconds read as a number |
| StreamMetadata.FrameRate | src/main/video_utils.ts:71-75 | A frame-rate text without '/' gives exactly 30 |
| StreamMetadata.FrameRateOfFraction | src/main/video_utils.ts:71-75 | "N/D" gives Number(N) divided by Number(D) |
| StreamMetadata.FrameRateIgnoresExtraPieces | src/main/video_utils.ts:71-75 | Pieces after the second '/'-separated one are ignored |
| StreamMetadata.FrameRateOfDigits | src/main/video_utils.ts:71-75 | Decimal N over a non-zero decimal D gives exactly the real N/D |
| StreamMetadata.ZeroOverZeroFrameRate | src/main/video_utils.ts:71-75 | "0/0" gives NaN rather than the default 30 |
| StreamMetadata.RotationOfDigits | src/main/video_utils.ts:77-78 | A decimal rotation tag switches the orientation if and only if it denotes 90 or 270 |
| StreamMetadata.AbsentRotationKeepsOrientation | src/main/video_utils.ts:77-78 | An absent rotation tag reads as 0 and keeps the dimensions |
| StreamMetadata.Duration | src/main/video_utils.ts:80-93 | A non-empty duration field is read through Number; an absent field without a tag gives NaN; an empty field without a tag gives 0 |
| StreamMetadata.SecondsRead | src/main/video_utils.ts:85 | A seconds field reads as its decimal value, which has a short decimal expansion, and holds no ':' |
| StreamMetadata.HmsFields | src/main/video_utils.ts:83-85 | For "h:m:s" the three ':'-separated fields read as the hours, the minutes and the seconds |
| StreamMetadata.TagDurationTextOfHms | src/main/video_utils.ts:85 | The fallback's text is the decimal text of H·3600+M·60 followed by the text of the seconds |
| StreamMetadata.DurationTagConcatenates | src/main/video_utils.ts:80-93 | The tag fallback yields H·3600+M·60 shifted left by the number of whole-second digits, plus the seconds |
| StreamMetadata.DurationTagExample | src/main/video_utils.ts:80-93 | The tag "01:02:03" yields 37203 seconds |
| StreamMetadata.ProcessStreamDataIntended | src/main/video_utils.ts:84-85 | The normaliser with the summed duration: it fails exactly when ProcessStreamData does, with the same error, and otherwise every other field is as in ProcessStreamData |
| StreamMetadata.IntendedDuration | src/main/video_utils.ts:80-86 | Computes the duration with the tag's three fields added as numbers, as the comment at line 84 describes |
| StreamMetadata.IntendedDurationSumsFields | src/main/video_utils.ts:84-85 | The intended fallback yields H·3600+M·60+S |
| StreamMetadata.IntendedDurationExample | src/main/video_utils.ts:84-85 | The intended fallback gives 3723 seconds for "01:02:03" |
| StreamMetadata.DurationAgreesOnlyWithoutHoursOrMinutes | src/main/video_utils.ts:85 | The written and the intended fallback agree if and only if hours and minutes are both zero |
| GifExport.Width | src/main/video_utils.ts:120 | Computes the width option, 480 when absent |
| GifExport.Fps | src/main/video_utils.ts:121 | Computes the frame-rate option, 15 when absent |
| GifExport.QualityOf | src/main/video_utils.ts:122 | Computes the quality option, medium when absent |
| GifExport.Dither | src/main/video_utils.ts:141-143 | Computes a preset's dither text, "bayer:bayer_scale=" and the scale |
| GifExport.FpsStage | src/main/video_utils.ts:149 | Computes the stage "fps=" followed by the frame-rate text (also line 181) |
| GifExport.CropStage | src/main/video_utils.ts:153 | Computes "crop=" and the width, height, x and y texts in that order, ':' between them (also lines 185-187) |
| GifExport.CropOf | src/main/video_utils.ts:185-187 | Computes the crop stage of a crop record from the String text of each of its four numbers |
| GifExport.ScaleStage | src/main/video_utils.ts:157 | Computes "scale=", the width text and ":-1:flags=lanczos" (also line 191) |
| GifExport.PalettegenStage | src/main/video_utils.ts:160 | Computes "palettegen=max_colors=", the colour count and ":reserve_transparent=0" |
| GifExport.PaletteuseStage | src/main/video_utils.ts:206 | Computes "[v][1:v]paletteuse=dither=", the dither text and ":diff_mode=rectangle" |
| GifExport.PaletteCommand | src/main/video_utils.ts:163-178 | Computes the palette pass's 14 arguments from the start, duration, input and filter texts, ending with PNG over image2pipe to "-" |
| GifExport.EncoderCommand | src/main/video_utils.ts:193-209 | Computes the encoder's 12 arguments from the start, duration, input, filter-graph and output texts, "-" as its second input |
| GifExport.Cancelled | src/main/video_utils.ts:132 | Computes whether the dialog was cancelled or gave no path, an empty path counting as none |
| GifExport.SharedStages | src/main/video_utils.ts:181-191 | Computes the encoder's chain: the fps stage, the crop stage when a crop is given, and the scale stage |
| GifExport.PaletteChain | src/main/video_utils.ts:149-160 | Computes the palette chain: the shared stages and the palettegen stage |
| GifExport.FilterComplex | src/main/video_utils.ts:204-207 | Computes the encoder's filter graph: the labelled shared chain and the paletteuse stage, joined with ';' |
| GifExport.PaletteGenerationArgs | src/main/video_utils.ts:163-178 | Computes the palette pass's arguments (`args` in the source) |
| GifExport.GifEncodingArgs | src/main/video_utils.ts:193-209 | Computes the encoder's arguments (`paletteArgs` in the source) |
| GifExport.Preset | src/main/video_utils.ts:140-146 | Every preset has 2 to 256 colours and a Bayer scale of at most 5 |
| GifExport.PresetsOrdered | src/main/video_utils.ts:140-144 | Higher quality means strictly more colours and a strictly larger Bayer scale |
| GifExport.PlanGifExport | src/main/video_utils.ts:116-209 | A cancelled dialog or an empty path rejects with "Export cancelled"; otherwise the chains pushed stage by stage give exactly the palette and encoder command lines |
| GifExport.ChainShape | src/main/video_utils.ts:149-191 | Both chains start with the frame-rate stage; the crop stage follows it if and only if a crop is given, and with no crop the shared chain is exactly the fps and scale stages; the shared chain ends with the scale stage; the palette chain is the shared chain plus one palettegen stage |
| GifExport.SharedStagesArePlain | src/main/video_utils.ts:149-191 | No stage of the shared chain contains ',' or ';' |
| GifExport.PaletteChainIsPlain | src/main/video_utils.ts:149-160 | No stage of the palette chain contains ',' or ';' |
| GifExport.PaletteFiltersDecode | src/main/video_utils.ts:149-172 | Splitting the -vf text at ',' gives back exactly the palette chain |
| GifExport.FilterGraphDecodes | src/main/video_utils.ts:181-207 | The -filter_complex text splits at ';' into the labelled shared chain and the paletteuse stage, and the labelled part's chain splits back into the shared stages |
| GifExport.CommandLayout | src/main/video_utils.ts:163-209 | Both command lines begin with the same overwrite flag, start, duration and input; the palette pass writes PNG to stdout; the encoder reads the pipe as its second input, then the filter graph, and ends with the output path |
| GifExport.ArgumentsAgree | src/main/video_utils.ts:163-209 | For every option record and output path, both argument lists start with "-y", "-ss", the start text, "-t", the duration text, "-i" and the input; the palette pass filters with the joined palette chain; the encoder ends with the filter graph and the output path |
| GifExport.TimesReadBack | src/main/video_utils.ts:137-198 | The start and duration texts read back as the start and as end minus start; an end before the start gives a duration text with a leading minus sign |
| GifExport.DefaultFpsText | src/main/video_utils.ts:121 | The default frame rate is written "15" |
| GifExport.DefaultWidthText | src/main/video_utils.ts:120 | The default width is written "480" |
| GifExport.DefaultColorsText | src/main/video_utils.ts:142 | The medium preset's palette size is written "128" |
| GifExport.DefaultDither | src/main/video_utils.ts:142 | The medium preset's dither is "bayer:bayer_scale=3" |
| GifExport.HighPresetTexts | src/main/video_utils.ts:141 | The high preset writes "palettegen=max_colors=256:reserve_transparent=0" and "bayer:bayer_scale=5" |
| GifExport.LowPresetTexts | src/main/video_utils.ts:143 | The low preset writes "palettegen=max_colors=64:reserve_transparent=0" and "bayer:bayer_scale=1" |
| GifExport.ExportDefaults | src/main/video_utils.ts:120-160 | Omitted options give the stages fps=15, scale=480, palettegen with 128 colours and the scale-3 Bayer dither |
| GifExport.Settlement | src/main/video_utils.ts:229-247 | A settling event resolves if and only if it is the encoder closing with code 0, and then with the output path; a failed close's message ends with all stderr text gathered |
| GifExport.Settles | src/main/video_utils.ts:229-247 | Computes whether an event has a settling handler: either process's error, or the encoder's close |
| GifExport.CodeText | src/main/video_utils.ts:243 | Computes `${code}`: the exit code's decimal text, or "null" when the process ended by a signal |
| GifExport.Outcome | src/main/video_utils.ts:219-247 | Computes the promise's state after a trace of process events: stderr chunks are appended, the first error or encoder close settles it, and nothing else does |
| GifExport.StderrText | src/main/video_utils.ts:221-227 | Computes all stderr text of a trace, from both processes, in arrival order |
| GifExport.FirstSettlementDecides | src/main/video_utils.ts:211-248 | The first settling event decides the promise, with the stderr text before it; later events do not matter |
| GifExport.PendingWithoutSettlement | src/main/video_utils.ts:211-248 | Without an error or an encoder close the promise stays pending |
| Thumbnails.SafeInterval | src/main/video_utils.ts:254-260 | Computes Math.max(1, Math.floor(interval)), the interval defaulting to 5 |
| Thumbnails.ThumbnailFilter | src/main/video_utils.ts:265-267 | Computes the -vf text: "fps=1/" and the interval's text, then the fast 320-pixel scale |
| Thumbnails.OutPattern | src/main/video_utils.ts:264 | Computes the output pattern: the directory, '/', and "thumb-%06d.jpg" |
| Thumbnails.ThumbnailArgs | src/main/video_utils.ts:258-293 | Computes the ffmpeg arguments from the clamped interval and the output pattern |
| Thumbnails.ThumbnailCommand | src/main/video_utils.ts:269-293 | Computes the 23 ffmpeg arguments from the input path, the filter text and the output pattern |
| Thumbnails.ScaleExpression | src/main/video_utils.ts:266 | The scale stage "scale=320:-1:flags=fast_bilinear" |
| Thumbnails.DataUrl | src/main/video_utils.ts:313 | Computes a data URL: the JPEG base64 prefix followed by the base64 text |
| Thumbnails.DataUrlPrefix | src/main/video_utils.ts:313 | The prefix "data:image/jpg;base64," |
| Thumbnails.WholeSeconds | src/main/video_utils.ts:260 | The clamped interval is at least 1, is the interval rounded down when that is 1 or more, and is 1 for every interval below 2 |
| Thumbnails.SafeIntervalOfFinite | src/main/video_utils.ts:254-260 | A finite interval is clamped to its whole number of seconds, at least one |
| Thumbnails.SafeIntervalSpecialCases | src/main/video_utils.ts:254-260 | An absent interval gives 5; an integer of 1 or more is kept; −Infinity gives 1; NaN and +Infinity pass through |
| Thumbnails.SafeIntervalIdempotent | src/main/video_utils.ts:260 | Clamping a clamped interval changes nothing |
| Thumbnails.FilterStages | src/main/video_utils.ts:265-267 | The filter splits at ',' into the frame-rate stage and the scale stage |
| Thumbnails.FilterOfFiniteInterval | src/main/video_utils.ts:260-267 | For a finite interval the filter holds the clamped whole seconds as digits |
| Thumbnails.CommandLayout | src/main/video_utils.ts:269-293 | The command has 23 arguments; audio is off; the input follows -i and the filter -vf; the quality is 31; the output pattern comes last |
| Thumbnails.Padded | src/main/video_utils.ts:264 | %06d gives decimal digits that denote the frame number, at least six of them |
| Thumbnails.PaddedLength | src/main/video_utils.ts:264 | Below a million, %06d gives exactly six digits |
| Thumbnails.FrameNamesInFrameOrder | src/main/video_utils.ts:264-309 | Below a million frames, the name of an earlier frame sorts no later than that of a later one |
| Thumbnails.FrameNamesAscending | src/main/video_utils.ts:264-309 | Below a million frames, the names of frames 1 to n are in sort order |
| Thumbnails.Jpgs | src/main/video_utils.ts:307-308 | The filter keeps every name ending in ".jpg" as often as it occurs, and no other name |
| Thumbnails.FrameNameIsJpg | src/main/video_utils.ts:264-308 | Every frame name ends in ".jpg" |
| Thumbnails.ListingInFrameOrder | src/main/video_utils.ts:264-309 | Below a million frames, when the directory's JPEGs are the frames ffmpeg wrote, the sorted filtered listing is those frames in the order they were taken |
| Thumbnails.Payload | src/main/video_utils.ts:313 | A recovered payload gives back the data URL it came from |
| Thumbnails.PayloadOfDataUrl | src/main/video_utils.ts:313 | The payload of a data URL is the base64 text it was made from |
| Thumbnails.CollectThumbnails | src/main/video_utils.ts:310-315 | The loop yields one data URL per file, in file order |
| Thumbnails.GenerateThumbnails | src/main/video_utils.ts:251-315 | The command line is the clamped one; the result has one data URL per sorted JPEG name, in sorted order, whatever ffmpeg did |
| JsStrings.Split | src/main/video_utils.ts:71 | Computes String.prototype.split on a one-character separator: the pieces between separators, one more than there are separators |
| JsStrings.Join | src/main/video_utils.ts:172 | Computes Array.prototype.join: the pieces with the separator between each two |
| JsStrings.EndsWith | src/main/video_utils.ts:308 | Computes String.prototype.endsWith |
| JsStrings.StrLe | src/main/video_utils.ts:309 | Computes the default sort's comparison: character by character, a proper prefix first |
| JsStrings.Sort | src/main/video_utils.ts:309 | The sorted listing is ascending and a permutation of its input |
| JsStrings.Insert | src/main/video_utils.ts:309 | Insertion adds exactly one occurrence and keeps an ascending sequence ascending |
| JsStrings.AscendingPermutationUnique | src/main/video_utils.ts:309 | Two ascending permutations of each other are equal, so any correct sort gives Sort's result |
| JsStrings.StrLeTotal | src/main/video_utils.ts:309 | Any two strings are ordered one way or the other |
| JsStrings.StrLeTransitive | src/main/video_utils.ts:309 | The string order is transitive |
| JsStrings.StrLeAntisymmetric | src/main/video_utils.ts:309 | Strings ordered both ways are equal |
| JsStrings.DigitOrder | src/main/video_utils.ts:309 | Digit strings of equal length sort in the order of their values |
| JsStrings.SplitJoin | src/main/video_utils.ts:172 | Joining pieces free of the separator and splitting again gives the pieces back |
| JsStrings.JoinSplit | src/main/video_utils.ts:83 | Splitting a text and joining the pieces again gives the text back |
| JsStrings.SplitWithoutSeparator | src/main/video_utils.ts:71 | A text without the separator splits into itself alone |
| JsStrings.NatTextOfDigits | src/main/video_utils.ts:85 | The decimal text of a natural number is decimal digits that denote it |
| JsNumber.Number | src/main/video_utils.ts:74 | Computes Number on a string: white space (JavaScript's full list, including the Unicode space separators) trimmed, empty text 0, an optional sign, "Infinity" or a decimal literal, and NaN for anything else |
| JsNumber.NumberOf | src/main/video_utils.ts:83-93 | Computes Number or unary plus on a string that may be undefined, undefined giving NaN |
| JsNumber.ToText | src/main/video_utils.ts:166 | Computes String on a number: "NaN", "Infinity", "-Infinity", or the decimal text cut off after 20 fractional digits, with no trailing fractional zero for a value that has at most 20 of them; the text is never empty |
| JsNumber.Add | src/main/video_utils.ts:85 | Computes + on two numbers, with NaN and the infinities |
| JsNumber.Sub | src/main/video_utils.ts:137 | Computes - on two numbers, as adding the negation |
| JsNumber.Mul | src/main/video_utils.ts:85 | Computes * on two numbers, with NaN and the infinities |
| JsNumber.Div | src/main/video_utils.ts:74 | Computes / on two numbers: NaN for 0/0 and for two infinities, a signed infinity for a non-zero number over zero |
| JsNumber.Floor | src/main/video_utils.ts:260 | Computes Math.floor, which keeps NaN and the infinities |
| JsNumber.Max | src/main/video_utils.ts:260 | Computes Math.max of two numbers, NaN when either is NaN |
| JsNumber.SpaceSeparatorTrimmed | src/main/video_utils.ts:74 | Number strips a leading ideographic space, one of the Unicode space separators |
| JsNumber.NumberAfterText | src/main/video_utils.ts:166-168 | Number(String(x)) is x for every finite x with at most 20 fractional digits |
| JsNumber.NumberOfDigits | src/main/video_utils.ts:74 | A string of decimal digits reads as the number it denotes |
| JsNumber.NumberAfterDigits | src/main/video_utils.ts:85 | Digits followed by a number's text read as the digits shifted past the number's whole digits, plus the number |
| JsNumber.TextHasNoSeparator | src/main/video_utils.ts:153 | A number's text holds no ',', ';', ':' or '/' |
| JsNumber.NegativeText | src/main/video_utils.ts:168 | A negative number's text starts with '-' |

## Left out

- Electron dialogs (`pickFile`, `showSaveDialog` and the `Date.now()` default file name) are not modelled. The dialog's answer is an input to `PlanGifExport`.
- `exec`, `spawn` and the stdout-to-stdin pipe between the two ffmpeg processes are not modelled. The processes' observable events are an input trace to `Outcome`. The model does not limit which orders can occur: it allows, for example, a process's `close` before that process's stderr.
- `StreamData` keeps only the fields `processStreamData` reads; a missing `duration` and a missing `tags` object are both representable.
- `JSON.parse` of ffprobe's output and the `streams[0]` lookup are not modelled. `ProcessStreamData` takes the stream record directly.
- `fs.mkdtemp`, `fs.readdir`, `fs.readFile` and Buffer base64 encoding are not modelled. The fresh directory and its listing are inputs, and a function parameter gives each file's base64 text.
- `GenerateThumbnails` does not model how ffmpeg's failure is logged and swallowed. The listing is taken after ffmpeg whatever its exit code. The unused `durationSeconds` parameter is omitted.
- `path.join` normalisation is not modelled: `OutPattern` joins with a single '/'.
- Floating point: numbers are exact reals with NaN and ±Infinity. IEEE rounding, −0, and `toString`'s exponent notation are left out. `Number(text)` does not accept exponents or hexadecimal, octal or binary prefixes.
- `ToText` writes at most 20 fractional digits, which is where the model's reading of `String(x)` stops. A value with more is cut off there, and its text can end in zeros (JavaScript would switch to exponent notation or write more digits).
- The palette process's `close` event has no handler in the source. Nothing stops either process when the other fails; the model takes no action there either.
- Sort order: characters are compared as Unicode scalar values. JavaScript compares UTF-16 code units, which differ only for characters outside the Basic Multilingual Plane.
- Thumbnails.FrameNamesInFrameOrder, Thumbnails.FrameNamesAscending and Thumbnails.ListingInFrameOrder: stated only below a million frames. From a million on, `%06d` writes seven digits and name order is no longer frame order; the model does not state that case.
- GifExport.TimesReadBack: stated for times with at most 20 fractional digits, not for every double.

## Findings

| source | as written | input that shows it | evidently intended | confidence | as-written member | corrected member |
|---|---|---|---|---|---|---|
| src/main/video_utils.ts:85 | The `DURATION` fallback adds hours·3600 and minutes·60 as numbers. The seconds are converted back to text first, so JavaScript's `+` appends them as text. `Number` then reads the joined text. | A record with no `duration` and the tag "01:02:03" gets a duration of 37203 seconds (`StreamMetadata.DurationTagExample`). Written and intended agree only when hours and minutes are zero (`StreamMetadata.DurationAgreesOnlyWithoutHoursOrMinutes`). | The comment on the line before says hours are worth 60 minutes and minutes 60 seconds: the duration is H·3600 + M·60 + S, 3723 for "01:02:03". | high; not executed | StreamMetadata.DurationTagConcatenates | StreamMetadata.IntendedDurationSumsFields |
