/** Thumbnail extraction: the interval clamp, the one ffmpeg command line that
    writes a numbered JPEG per interval, and the turning of the written
    files, in name order, into data URLs. */
module Thumbnails {
  import opened Wrappers
  import opened JsStrings
  import opened JsNumber

  // ---------------------------------------------------------------------------
  // The interval
  // ---------------------------------------------------------------------------

  /** `Math.max(1, Math.floor(intervalSeconds))`, the interval defaulting to
      5 seconds when the argument is `undefined`. */
  function SafeInterval(intervalSeconds: Option<Num>): Num {
    Max(Fin(1.0), Floor(intervalSeconds.GetOr(Fin(5.0))))
  }

  /** The whole number of seconds a finite interval is clamped to: at least
      one, and otherwise the interval rounded down. */
  function WholeSeconds(x: real): (k: int)
    ensures k >= 1
    ensures x >= 1.0 ==> k as real <= x < k as real + 1.0
    ensures x < 2.0 ==> k == 1
  {
    if x.Floor >= 1 then x.Floor else 1
  }

  /** A finite interval becomes a whole number of seconds, one or more. */
  lemma SafeIntervalOfFinite(x: real)
    ensures SafeInterval(Some(Fin(x))) == Fin(WholeSeconds(x) as real)
  {
  }

  /** The default is 5 seconds, whole intervals of a second or more are kept,
      and an infinitely negative interval becomes one second. The clamp does
      not catch NaN: `Math.max` passes it on, and an infinite interval stays
      infinite. */
  lemma SafeIntervalSpecialCases(k: int)
    requires k >= 1
    ensures SafeInterval(None) == Fin(5.0)
    ensures SafeInterval(Some(Fin(k as real))) == Fin(k as real)
    ensures SafeInterval(Some(NegInf)) == Fin(1.0)
    ensures SafeInterval(Some(NaN)) == NaN
    ensures SafeInterval(Some(PosInf)) == PosInf
  {
  }

  /** Clamping a clamped interval changes nothing. */
  lemma SafeIntervalIdempotent(intervalSeconds: Option<Num>)
    ensures SafeInterval(Some(SafeInterval(intervalSeconds))) == SafeInterval(intervalSeconds)
  {
    var n := intervalSeconds.GetOr(Fin(5.0));
    if n.Fin? {
      SafeIntervalOfFinite(n.v);
      SafeIntervalSpecialCases(WholeSeconds(n.v));
    }
  }

  // ---------------------------------------------------------------------------
  // The command line
  // ---------------------------------------------------------------------------

  const ScaleExpression: string := "scale=320:-1:flags=fast_bilinear"

  /** One frame every `interval` seconds, scaled to 320 pixels wide. */
  function ThumbnailFilter(interval: Num): string {
    "fps=1/" + ToText(interval) + "," + ScaleExpression
  }

  /** The file-name pattern ffmpeg numbers its frames into. */
  function OutPattern(dir: string): string {
    dir + "/thumb-%06d.jpg"
  }

  /** Key frames only, hardware decoding when available, no audio, the first
      video stream, low JPEG quality. */
  function ThumbnailCommand(inputPath: string, filter: string, outPattern: string): seq<string> {
    ["-y", "-skip_frame", "nokey", "-hwaccel", "auto", "-nostdin", "-hide_banner",
     "-loglevel", "error", "-threads", "0", "-an", "-i", inputPath,
     "-map", "0:v:0", "-vsync", "passthrough", "-vf", filter, "-q:v", "31", outPattern]
  }

  function ThumbnailArgs(inputPath: string, intervalSeconds: Option<Num>, dir: string): seq<string> {
    ThumbnailCommand(inputPath, ThumbnailFilter(SafeInterval(intervalSeconds)), OutPattern(dir))
  }

  /** The input follows `-i`, the filter `-vf`, and the output pattern comes
      last, right after the JPEG quality; audio is off. */
  lemma CommandLayout(inputPath: string, filter: string, outPattern: string)
    ensures |ThumbnailCommand(inputPath, filter, outPattern)| == 23
    ensures ThumbnailCommand(inputPath, filter, outPattern)[12..14] == ["-i", inputPath]
    ensures ThumbnailCommand(inputPath, filter, outPattern)[18..20] == ["-vf", filter]
    ensures ThumbnailCommand(inputPath, filter, outPattern)[22] == outPattern
    ensures ThumbnailCommand(inputPath, filter, outPattern)[11] == "-an"
    ensures ThumbnailCommand(inputPath, filter, outPattern)[20..22] == ["-q:v", "31"]
  {
  }

  /** For a finite interval the filter holds the clamped whole number of
      seconds as plain digits, and ffmpeg reads the filter as the frame-rate
      stage and the scale stage. */
  lemma FilterOfFiniteInterval(x: real)
    ensures ThumbnailFilter(SafeInterval(Some(Fin(x))))
         == "fps=1/" + NatText(WholeSeconds(x)) + "," + ScaleExpression
    ensures Split(ThumbnailFilter(SafeInterval(Some(Fin(x)))), ',')
         == ["fps=1/" + NatText(WholeSeconds(x)), ScaleExpression]
  {
    SafeIntervalOfFinite(x);
    IntegerText(WholeSeconds(x));
    FilterStages(SafeInterval(Some(Fin(x))));
  }

  lemma FilterStages(interval: Num)
    ensures Split(ThumbnailFilter(interval), ',') == ["fps=1/" + ToText(interval), ScaleExpression]
  {
    var stages := ["fps=1/" + ToText(interval), ScaleExpression];
    assert ',' !in stages[0] by {
      TextHasNoSeparator(interval);
      assert ',' !in "fps=1/";
    }
    assert ',' !in stages[1] by {
      ScaleExpressionHasNoComma();
    }
    SplitJoin(stages, ',');
  }

  lemma ScaleExpressionHasNoComma()
    ensures ',' !in ScaleExpression
  {
  }

  // ---------------------------------------------------------------------------
  // The names ffmpeg writes, and their order
  // ---------------------------------------------------------------------------

  /** `%06d`: at least six digits, zero-padded on the left. */
  function Padded(n: nat): (s: string)
    ensures AllDigits(s) && DigitsValue(s) == n && |s| >= 6
  {
    var t := NatText(n);
    if |t| >= 6 then t
    else
      DigitsConcat(Zeros(6 - |t|), t);
      Zeros(6 - |t|) + t
  }

  /** The name of the n-th frame written through `OutPattern`. */
  function FrameName(n: nat): string {
    "thumb-" + Padded(n) + ".jpg"
  }

  /** The names of the first `n` frames; ffmpeg numbers from 1. */
  function FrameNames(n: nat): seq<string> {
    seq(n, i requires 0 <= i => FrameName(i + 1))
  }

  lemma PaddedLength(n: nat)
    requires n < 1000000
    ensures |Padded(n)| == 6
  {
    assert Pow10(6) == 1000000;
    NatTextLength(n, 6);
  }

  /** Below a million frames, name order is frame order. */
  lemma FrameNamesInFrameOrder(n: nat, m: nat)
    requires n <= m < 1000000
    ensures StrLe(FrameName(n), FrameName(m))
  {
    PaddedLength(n);
    PaddedLength(m);
    DigitOrder(Padded(n), Padded(m));
    StrLeCommonSuffix(Padded(n), Padded(m), ".jpg");
    StrLeCommonPrefix("thumb-", Padded(n) + ".jpg", Padded(m) + ".jpg");
    assert "thumb-" + Padded(n) + ".jpg" == "thumb-" + (Padded(n) + ".jpg");
    assert "thumb-" + Padded(m) + ".jpg" == "thumb-" + (Padded(m) + ".jpg");
  }

  lemma FrameNamesAscending(n: nat)
    requires n < 1000000
    ensures Ascending(FrameNames(n))
  {
    var r := FrameNames(n);
    forall i, j | 0 <= i < j < |r| ensures StrLe(r[i], r[j]) {
      FrameNamesInFrameOrder(i + 1, j + 1);
    }
  }

  // ---------------------------------------------------------------------------
  // Collecting the thumbnails
  // ---------------------------------------------------------------------------

  /** `names.filter((f) => f.endsWith(".jpg"))`: every name ending in ".jpg"
      as often as it occurs, and no other. */
  function Jpgs(names: seq<string>): (r: seq<string>)
    ensures forall x :: multiset(r)[x] == if EndsWith(x, ".jpg") then multiset(names)[x] else 0
  {
    if names == [] then []
    else
      assert names == [names[0]] + names[1..];
      (if EndsWith(names[0], ".jpg") then [names[0]] else []) + Jpgs(names[1..])
  }

  lemma FrameNameIsJpg(n: nat)
    ensures EndsWith(FrameName(n), ".jpg")
  {
    var s := FrameName(n);
    assert s[|s| - 4..] == ".jpg";
  }

  /** When the directory holds the frames ffmpeg wrote (and any files not
      ending in ".jpg"), the sorted listing is the frames in the order they
      were taken. */
  lemma ListingInFrameOrder(listing: seq<string>, n: nat)
    requires n < 1000000
    requires forall x :: EndsWith(x, ".jpg") ==> multiset(listing)[x] == multiset(FrameNames(n))[x]
    ensures Sort(Jpgs(listing)) == FrameNames(n)
  {
    var jpgs := Jpgs(listing);
    var frames := FrameNames(n);
    forall x | x in multiset(frames) ensures EndsWith(x, ".jpg") {
      var i :| 0 <= i < |frames| && frames[i] == x;
      FrameNameIsJpg(i + 1);
    }
    assert multiset(jpgs) == multiset(frames);
    FrameNamesAscending(n);
    AscendingPermutationUnique(Sort(jpgs), frames);
  }

  const DataUrlPrefix: string := "data:image/jpg;base64,"

  function DataUrl(base64: string): string {
    DataUrlPrefix + base64
  }

  /** The base64 payload of a JPEG data URL, if `url` is one. */
  function Payload(url: string): (r: Option<string>)
    ensures r.Some? ==> DataUrl(r.value) == url
  {
    if |DataUrlPrefix| <= |url| && url[..|DataUrlPrefix|] == DataUrlPrefix
    then
      assert url == url[..|DataUrlPrefix|] + url[|DataUrlPrefix|..];
      Some(url[|DataUrlPrefix|..])
    else None
  }

  lemma PayloadOfDataUrl(base64: string)
    ensures Payload(DataUrl(base64)) == Some(base64)
  {
    var url := DataUrl(base64);
    assert url[..|DataUrlPrefix|] == DataUrlPrefix;
    assert url[|DataUrlPrefix|..] == base64;
  }

  /** The loop over the sorted JPEG names: one data URL per file, in order.
      `base64Of` gives the base64 text of a file's contents. */
  method CollectThumbnails(files: seq<string>, base64Of: string -> string)
    returns (thumbnails: seq<string>)
    ensures |thumbnails| == |files|
    ensures forall i :: 0 <= i < |files| ==> thumbnails[i] == DataUrl(base64Of(files[i]))
  {
    thumbnails := [];
    for i := 0 to |files|
      invariant |thumbnails| == i
      invariant forall j :: 0 <= j < i ==> thumbnails[j] == DataUrl(base64Of(files[j]))
    {
      var base64 := base64Of(files[i]);
      thumbnails := thumbnails + [DataUrl(base64)];
    }
  }

  /** `generateThumbnails` with the file system made explicit: `dir` is the
      fresh directory, `listing` what it holds once ffmpeg has finished or
      failed (a failure is only logged), and `base64Of` the encoded contents
      of each file. The result has one data URL per JPEG in the directory,
      in name order. */
  method GenerateThumbnails(
    inputPath: string, intervalSeconds: Option<Num>, dir: string,
    listing: seq<string>, base64Of: string -> string)
    returns (args: seq<string>, thumbnails: seq<string>)
    ensures args == ThumbnailArgs(inputPath, intervalSeconds, dir)
    ensures |thumbnails| == |Sort(Jpgs(listing))|
    ensures forall i :: 0 <= i < |thumbnails| ==> thumbnails[i] == DataUrl(base64Of(Sort(Jpgs(listing))[i]))
  {
    var safeInterval := SafeInterval(intervalSeconds);
    var outPattern := OutPattern(dir);
    var vf := ThumbnailFilter(safeInterval);
    args := ThumbnailCommand(inputPath, vf, outPattern);
    var files := Sort(Jpgs(listing));
    thumbnails := CollectThumbnails(files, base64Of);
  }
}
