/** The metadata probe's normaliser: one raw ffprobe stream record becomes the
    `VideoMetadata` the renderer receives (frame rate, rotation-corrected
    dimensions, duration). */
module StreamMetadata {
  import opened Wrappers
  import opened JsStrings
  import opened JsNumber

  /** The stream's `tags` object: an optional rotation and an optional
      `DURATION` text ("H:MM:SS.fraction", written by Matroska muxers). */
  datatype Tags = Tags(rotate: Option<string>, durationTag: Option<string>)

  /** One entry of ffprobe's `streams` array, restricted to the fields the
      normaliser reads. */
  datatype StreamData = StreamData(
    width: int,
    height: int,
    displayAspectRatio: string,
    rFrameRate: string,
    duration: Option<string>,
    tags: Option<Tags>)

  datatype VideoMetadata = VideoMetadata(
    filePath: string,
    width: int,
    height: int,
    aspectRatio: string,
    frameRate: Num,
    duration: Num)

  /** JavaScript truthiness of a value that is a string or `undefined`. */
  predicate Truthy(s: Option<string>) {
    s.Some? && s.value != ""
  }

  /** `a[i]`, which is `undefined` past the end. */
  function At(a: seq<string>, i: nat): Option<string> {
    if i < |a| then Some(a[i]) else None
  }

  // ---------------------------------------------------------------------------
  // The three steps of the normaliser
  // ---------------------------------------------------------------------------

  /** The frame rate: the quotient of the first two '/'-separated pieces of
      `r_frame_rate`, or 30 when there is no '/'. */
  function FrameRate(rFrameRate: string): (rate: Num)
    ensures '/' !in rFrameRate ==> rate == Fin(30.0)
  {
    var parts := Split(rFrameRate, '/');
    if |parts| >= 2 then Div(Number(parts[0]), Number(parts[1])) else Fin(30.0)
  }

  /** The rotation tag read as a number, an absent tag counting as "0". */
  function Rotation(tags: Tags): Num {
    Number(tags.rotate.GetOr("0"))
  }

  /** Width and height trade places for a quarter turn either way. */
  predicate OrientationSwitched(tags: Tags) {
    Rotation(tags) == Fin(90.0) || Rotation(tags) == Fin(270.0)
  }

  /** The text the fallback builds from a `DURATION` tag. `+` between the
      number `H*3600 + M*60` and the text of `S` joins two strings, so the
      result is the text of the first followed by the text of the second. */
  function TagDurationText(hms: string): string {
    var a := Split(hms, ':');
    var hoursAndMinutes :=
      Add(Mul(Mul(NumberOf(At(a, 0)), Fin(60.0)), Fin(60.0)), Mul(NumberOf(At(a, 1)), Fin(60.0)));
    ToText(hoursAndMinutes) + ToText(NumberOf(At(a, 2)))
  }

  /** The duration: the stream's own `duration` when it is a non-empty string,
      else the text built from a non-empty `DURATION` tag, read as a number. */
  function Duration(duration: Option<string>, tags: Tags): (d: Num)
    ensures Truthy(duration) ==> d == Number(duration.value)
    ensures duration == None && !Truthy(tags.durationTag) ==> d == NaN
    ensures duration == Some("") && !Truthy(tags.durationTag) ==> d == Fin(0.0)
  {
    if !Truthy(duration) && Truthy(tags.durationTag) then
      Number(TagDurationText(tags.durationTag.value))
    else
      NumberOf(duration)
  }

  /** The TypeError that reading `rotate` of a missing `tags` object raises. */
  const MissingTagsError: string := "Cannot read properties of undefined (reading 'rotate')"

  /** `processStreamData`. A record without a `tags` object makes the rotation
      lookup throw before any result is built. */
  function ProcessStreamData(data: StreamData, filePath: string): (r: Result<VideoMetadata, string>)
    ensures r.Err? <==> data.tags == None
    ensures r.Err? ==> r.error == MissingTagsError
    ensures r.Ok? ==> var m, tags := r.value, data.tags.value;
      && m.filePath == filePath && m.aspectRatio == data.displayAspectRatio
      && (OrientationSwitched(tags) ==> m.width == data.height && m.height == data.width)
      && (!OrientationSwitched(tags) ==> m.width == data.width && m.height == data.height)
      && m.frameRate == FrameRate(data.rFrameRate)
      && m.duration == Duration(data.duration, tags)
  {
    match data.tags
    case None => Err(MissingTagsError)
    case Some(tags) =>
      var switched := OrientationSwitched(tags);
      Ok(VideoMetadata(
        filePath,
        if switched then data.height else data.width,
        if switched then data.width else data.height,
        data.displayAspectRatio,
        FrameRate(data.rFrameRate),
        Duration(data.duration, tags)))
  }

  // ---------------------------------------------------------------------------
  // Frame rate
  // ---------------------------------------------------------------------------

  /** "N/D" gives N divided by D, each read as a number. */
  lemma FrameRateOfFraction(n: string, d: string)
    requires '/' !in n && '/' !in d
    ensures FrameRate(n + "/" + d) == Div(Number(n), Number(d))
  {
    assert n + "/" + d == n + ['/'] + d;
    SplitAfterPiece(n, '/', d);
    SplitWithoutSeparator(d, '/');
  }

  /** Pieces after the second are ignored: "N/D/..." gives N divided by D. */
  lemma FrameRateIgnoresExtraPieces(n: string, d: string, rest: string)
    requires '/' !in n && '/' !in d
    ensures FrameRate(n + "/" + d + "/" + rest) == Div(Number(n), Number(d))
  {
    assert n + "/" + d + "/" + rest == n + ['/'] + (d + ['/'] + rest);
    SplitAfterPiece(n, '/', d + ['/'] + rest);
    SplitAfterPiece(d, '/', rest);
  }

  /** For decimal N and a non-zero decimal D the frame rate is exactly N/D. */
  lemma FrameRateOfDigits(n: string, d: string)
    requires |n| >= 1 && AllDigits(n) && |d| >= 1 && AllDigits(d)
    requires DigitsValue(d) != 0
    ensures FrameRate(n + "/" + d) == Fin(DigitsValue(n) as real / DigitsValue(d) as real)
  {
    NoSlashInDigits(n);
    NoSlashInDigits(d);
    FrameRateOfFraction(n, d);
    NumberOfDigits(n);
    NumberOfDigits(d);
    DivOfFinite(Number(n), Number(d), DigitsValue(n) as real, DigitsValue(d) as real);
  }

  lemma DivOfFinite(a: Num, b: Num, x: real, y: real)
    requires a == Fin(x) && b == Fin(y) && y != 0.0
    ensures Div(a, b) == Fin(x / y)
  {
  }

  lemma NoSlashInDigits(s: string)
    requires AllDigits(s)
    ensures '/' !in s && ':' !in s
  {
  }

  /** "0/0", which ffprobe reports for streams without a frame rate, gives
      NaN rather than the default 30. */
  lemma ZeroOverZeroFrameRate()
    ensures FrameRate("0/0") == NaN
  {
    assert AllDigits("0");
    NoSlashInDigits("0");
    FrameRateOfFraction("0", "0");
    assert "0" + "/" + "0" == "0/0";
    NumberOfDigits("0");
  }

  // ---------------------------------------------------------------------------
  // Rotation
  // ---------------------------------------------------------------------------

  /** A rotation tag written in decimal digits switches the orientation
      exactly when it denotes 90 or 270. */
  lemma RotationOfDigits(s: string, durationTag: Option<string>)
    requires |s| >= 1 && AllDigits(s)
    ensures OrientationSwitched(Tags(Some(s), durationTag))
        <==> DigitsValue(s) == 90 || DigitsValue(s) == 270
  {
    NumberOfDigits(s);
  }

  /** An absent rotation tag is read as "0" and keeps the dimensions. */
  lemma AbsentRotationKeepsOrientation(durationTag: Option<string>)
    ensures Rotation(Tags(None, durationTag)) == Fin(0.0)
    ensures !OrientationSwitched(Tags(None, durationTag))
  {
    assert AllDigits("0");
    NumberOfDigits("0");
  }

  // ---------------------------------------------------------------------------
  // Duration from the DURATION tag
  // ---------------------------------------------------------------------------

  /** The seconds field of a `DURATION` tag: a decimal literal that starts with
      a digit and has at most `MaxFractionDigits` fractional digits. */
  predicate IsSecondsText(s: string) {
    && IsDecimalLiteral(s)
    && IsDigit(s[0])
    && (|Split(s, '.')| == 2 ==> |Split(s, '.')[1]| <= MaxFractionDigits)
  }

  /** The seconds a seconds field denotes. */
  function SecondsValue(s: string): (x: real)
    requires IsSecondsText(s)
    ensures x >= 0.0
  {
    DecimalValue(s)
  }

  /** The seconds a `DURATION` tag's hours and minutes fields stand for. */
  function HoursAndMinutesValue(h: string, m: string): nat
    requires AllDigits(h) && AllDigits(m)
  {
    3600 * DigitsValue(h) + 60 * DigitsValue(m)
  }

  /** A seconds field reads as its value, which `String` writes back exactly. */
  lemma SecondsRead(s: string)
    requires IsSecondsText(s)
    ensures Number(s) == Fin(SecondsValue(s))
    ensures IsShortDecimal(SecondsValue(s))
    ensures ':' !in s
  {
    var parts := Split(s, '.');
    LiteralCharacters(s);
    assert s[|s| - 1] == '.' || IsDigit(s[|s| - 1]);
    NumberOfUnsigned(s);
    var k := if |parts| == 2 then |parts[1]| else 0;
    var F := if |parts| == 2 then DigitsValue(parts[1]) else 0;
    ShortDecimalOfParts(DigitsValue(parts[0]), F, k, SecondsValue(s));
  }

  lemma ShortDecimalOfParts(W: nat, F: nat, k: nat, x: real)
    requires k <= MaxFractionDigits
    requires x == W as real + Unshift(F as real, k)
    ensures IsShortDecimal(x)
  {
    ShiftAdditive(W as real, Unshift(F as real, k), k);
    ShiftNat(W, k);
    ShiftUnshift(F as real, k);
    assert Shift(x, k) == (W * Pow10(k) + F) as real;
    assert IsIntegral(Shift(x, k));
  }

  /** A decimal literal is made of digits and points only. */
  lemma LiteralCharacters(s: string)
    requires IsDecimalLiteral(s)
    ensures forall i :: 0 <= i < |s| ==> IsDigit(s[i]) || s[i] == '.'
  {
    var parts := Split(s, '.');
    JoinSplit(s, '.');
    if |parts| == 2 {
      assert s == parts[0] + ['.'] + parts[1];
      assert AllDigits(parts[0]) && AllDigits(parts[1]);
      forall i | 0 <= i < |s| ensures IsDigit(s[i]) || s[i] == '.' {
        if i > |parts[0]| {
          assert s[i] == parts[1][i - |parts[0]| - 1];
        }
      }
    } else {
      assert AllDigits(parts[0]);
    }
  }

  /** A `DURATION` tag "h:m:s" with decimal hours and minutes splits into
      its three fields. */
  lemma SplitHms(h: string, m: string, s: string)
    requires AllDigits(h) && AllDigits(m) && ':' !in s
    ensures Split(h + ":" + m + ":" + s, ':') == [h, m, s]
  {
    NoSlashInDigits(h);
    NoSlashInDigits(m);
    assert h + ":" + m + ":" + s == h + [':'] + (m + [':'] + s);
    SplitAfterPiece(h, ':', m + [':'] + s);
    SplitAfterPiece(m, ':', s);
    SplitWithoutSeparator(s, ':');
  }

  /** The three fields of "h:m:s", each as `+a[i]` reads it. */
  lemma HmsFields(h: string, m: string, s: string)
    requires |h| >= 1 && AllDigits(h) && |m| >= 1 && AllDigits(m)
    requires IsSecondsText(s)
    ensures var a := Split(h + ":" + m + ":" + s, ':');
      && NumberOf(At(a, 0)) == Fin(DigitsValue(h) as real)
      && NumberOf(At(a, 1)) == Fin(DigitsValue(m) as real)
      && NumberOf(At(a, 2)) == Fin(SecondsValue(s))
  {
    SecondsRead(s);
    SplitHms(h, m, s);
    NumberOfDigits(h);
    NumberOfDigits(m);
  }

  /** `H*60*60 + M*60` on the two fields read as numbers. */
  lemma HoursAndMinutesArithmetic(a: Num, b: Num, h: string, m: string)
    requires AllDigits(h) && AllDigits(m)
    requires a == Fin(DigitsValue(h) as real) && b == Fin(DigitsValue(m) as real)
    ensures Add(Mul(Mul(a, Fin(60.0)), Fin(60.0)), Mul(b, Fin(60.0)))
         == Fin(HoursAndMinutesValue(h, m) as real)
  {
  }

  lemma TextOfNonNegative(x: real)
    requires x >= 0.0
    ensures ToText(Fin(x)) == UnsignedText(x)
  {
  }

  /** The text the fallback builds for "h:m:s": the decimal text of
      `H*3600 + M*60` followed by the text of the seconds. */
  lemma TagDurationTextOfHms(h: string, m: string, s: string)
    requires |h| >= 1 && AllDigits(h) && |m| >= 1 && AllDigits(m)
    requires IsSecondsText(s)
    ensures TagDurationText(h + ":" + m + ":" + s)
         == NatText(HoursAndMinutesValue(h, m)) + UnsignedText(SecondsValue(s))
  {
    var a := Split(h + ":" + m + ":" + s, ':');
    HmsFields(h, m, s);
    HoursAndMinutesArithmetic(NumberOf(At(a, 0)), NumberOf(At(a, 1)), h, m);
    IntegerText(HoursAndMinutesValue(h, m));
    TextOfNonNegative(SecondsValue(s));
  }

  /** What the fallback really yields for "h:m:s": the hours-and-minutes
      number shifted left by as many places as the whole seconds have digits,
      plus the seconds. For "01:02:03" this is 3720 * 10 + 3 = 37203. */
  lemma DurationTagConcatenates(duration: Option<string>, tags: Tags, h: string, m: string, s: string)
    requires !Truthy(duration)
    requires tags.durationTag == Some(h + ":" + m + ":" + s)
    requires |h| >= 1 && AllDigits(h) && |m| >= 1 && AllDigits(m)
    requires IsSecondsText(s)
    ensures Duration(duration, tags)
         == Fin((HoursAndMinutesValue(h, m) * Pow10(|NatText(SecondsValue(s).Floor)|)) as real
                + SecondsValue(s))
  {
    var S: int := HoursAndMinutesValue(h, m) * Pow10(|NatText(SecondsValue(s).Floor)|);
    assert Duration(duration, tags) == Fin(S as real + SecondsValue(s)) by {
      DurationOfTagText(duration, tags, h, m, s);
      SecondsRead(s);
      NumberAfterDigitText(HoursAndMinutesValue(h, m), SecondsValue(s), S);
    }
  }

  lemma DurationOfTagText(duration: Option<string>, tags: Tags, h: string, m: string, s: string)
    requires !Truthy(duration)
    requires tags.durationTag == Some(h + ":" + m + ":" + s)
    requires |h| >= 1 && AllDigits(h) && |m| >= 1 && AllDigits(m)
    requires IsSecondsText(s)
    ensures Duration(duration, tags) == Number(NatText(HoursAndMinutesValue(h, m)) + UnsignedText(SecondsValue(s)))
  {
    TagDurationTextOfHms(h, m, s);
  }

  /** The decimal text of `n` followed by the text of `x` reads as `n`
      shifted left past the whole digits of `x`, plus `x`. */
  lemma NumberAfterDigitText(n: nat, x: real, S: int)
    requires x >= 0.0 && IsShortDecimal(x)
    requires S == n * Pow10(|NatText(x.Floor)|)
    ensures Number(NatText(n) + UnsignedText(x)) == Fin(S as real + x)
  {
    NumberAfterDigits(NatText(n), x);
    WholePartIsFloor(x);
  }

  /** The tag "01:02:03" gives a duration of 37203 seconds. */
  lemma DurationTagExample(duration: Option<string>, tags: Tags)
    requires !Truthy(duration)
    requires tags.durationTag == Some("01:02:03")
    ensures Duration(duration, tags) == Fin(37203.0)
  {
    ExampleTag();
    ExampleDuration(duration, tags);
  }

  lemma ExampleTag()
    ensures "01:02:03" == "01" + ":" + "02" + ":" + "03"
  {
  }

  lemma ExampleDuration(duration: Option<string>, tags: Tags)
    requires !Truthy(duration)
    requires tags.durationTag == Some("01" + ":" + "02" + ":" + "03")
    ensures Duration(duration, tags) == Fin(37203.0)
  {
    ExampleFields();
    DurationTagConcatenates(duration, tags, "01", "02", "03");
    ConcatenatedExample(Duration(duration, tags));
  }

  lemma ConcatenatedExample(d: Num)
    requires AllDigits("01") && AllDigits("02") && IsSecondsText("03")
    requires d == Fin((HoursAndMinutesValue("01", "02") * Pow10(|NatText(SecondsValue("03").Floor)|)) as real
                      + SecondsValue("03"))
    ensures d == Fin(37203.0)
  {
    ExampleFields();
    assert NatText(3) == "3";
    assert Pow10(1) == 10;
  }

  /** The fields of the example tag "01:02:03". */
  lemma ExampleFields()
    ensures AllDigits("01") && AllDigits("02") && IsSecondsText("03")
    ensures HoursAndMinutesValue("01", "02") == 3720
    ensures SecondsValue("03") == 3.0 && (3.0).Floor == 3
  {
    assert AllDigits("03");
    SplitWithoutSeparator("03", '.');
    assert DigitsValue("03") == 3;
  }

  // ---------------------------------------------------------------------------
  // The evidently intended duration
  // ---------------------------------------------------------------------------

  /** The tag fallback as its comment describes it: hours are worth 3600
      seconds and minutes 60, all added as numbers. */
  function IntendedDuration(duration: Option<string>, tags: Tags): Num {
    if !Truthy(duration) && Truthy(tags.durationTag) then
      var a := Split(tags.durationTag.value, ':');
      Add(Add(Mul(Mul(NumberOf(At(a, 0)), Fin(60.0)), Fin(60.0)), Mul(NumberOf(At(a, 1)), Fin(60.0))),
          NumberOf(At(a, 2)))
    else
      NumberOf(duration)
  }

  /** `processStreamData` with the intended duration and nothing else changed. */
  function ProcessStreamDataIntended(data: StreamData, filePath: string): (r: Result<VideoMetadata, string>)
    ensures r.Err? <==> ProcessStreamData(data, filePath).Err?
    ensures r.Err? ==> r == ProcessStreamData(data, filePath)
    ensures r.Ok? ==> r.value == ProcessStreamData(data, filePath).value.(duration := IntendedDuration(data.duration, data.tags.value))
  {
    match data.tags
    case None => Err(MissingTagsError)
    case Some(tags) =>
      var switched := OrientationSwitched(tags);
      Ok(VideoMetadata(
        filePath,
        if switched then data.height else data.width,
        if switched then data.width else data.height,
        data.displayAspectRatio,
        FrameRate(data.rFrameRate),
        IntendedDuration(data.duration, tags)))
  }

  /** The intended fallback gives H*3600 + M*60 + S. */
  lemma IntendedDurationSumsFields(duration: Option<string>, tags: Tags, h: string, m: string, s: string)
    requires !Truthy(duration)
    requires tags.durationTag == Some(h + ":" + m + ":" + s)
    requires |h| >= 1 && AllDigits(h) && |m| >= 1 && AllDigits(m)
    requires IsSecondsText(s)
    ensures IntendedDuration(duration, tags) == Fin(HoursAndMinutesValue(h, m) as real + SecondsValue(s))
  {
    var a := Split(h + ":" + m + ":" + s, ':');
    HmsFields(h, m, s);
    IntendedArithmetic(NumberOf(At(a, 0)), NumberOf(At(a, 1)), NumberOf(At(a, 2)), h, m, SecondsValue(s));
  }

  /** `H*60*60 + M*60 + S` on the three fields read as numbers. */
  lemma IntendedArithmetic(a: Num, b: Num, c: Num, h: string, m: string, x: real)
    requires AllDigits(h) && AllDigits(m)
    requires a == Fin(DigitsValue(h) as real) && b == Fin(DigitsValue(m) as real) && c == Fin(x)
    ensures Add(Add(Mul(Mul(a, Fin(60.0)), Fin(60.0)), Mul(b, Fin(60.0))), c)
         == Fin(HoursAndMinutesValue(h, m) as real + x)
  {
  }

  /** The two agree exactly when the hours and minutes fields are both zero. */
  lemma DurationAgreesOnlyWithoutHoursOrMinutes(duration: Option<string>, tags: Tags, h: string, m: string, s: string)
    requires !Truthy(duration)
    requires tags.durationTag == Some(h + ":" + m + ":" + s)
    requires |h| >= 1 && AllDigits(h) && |m| >= 1 && AllDigits(m)
    requires IsSecondsText(s)
    ensures Duration(duration, tags) == IntendedDuration(duration, tags)
        <==> DigitsValue(h) == 0 && DigitsValue(m) == 0
  {
    DurationTagConcatenates(duration, tags, h, m, s);
    IntendedDurationSumsFields(duration, tags, h, m, s);
    AgreementOfValues(Duration(duration, tags), IntendedDuration(duration, tags), h, m, SecondsValue(s));
  }

  lemma AgreementOfValues(concatenated: Num, summed: Num, h: string, m: string, x: real)
    requires AllDigits(h) && AllDigits(m) && x >= 0.0
    requires concatenated == Fin((HoursAndMinutesValue(h, m) * Pow10(|NatText(x.Floor)|)) as real + x)
    requires summed == Fin(HoursAndMinutesValue(h, m) as real + x)
    ensures concatenated == summed <==> DigitsValue(h) == 0 && DigitsValue(m) == 0
  {
    ShiftedEqualsOnlyZero(HoursAndMinutesValue(h, m), |NatText(x.Floor)|, x);
  }

  /** Shifting a number left by at least one place changes it unless it is 0. */
  lemma ShiftedEqualsOnlyZero(x: nat, k: nat, y: real)
    requires k >= 1
    ensures Fin((x * Pow10(k)) as real + y) == Fin(x as real + y) <==> x == 0
  {
    assert Pow10(k) >= 10;
    if x > 0 {
      assert x * Pow10(k) >= x * 10;
    }
  }

  /** For "01:02:03" the intended fallback gives 3723 seconds. */
  lemma IntendedDurationExample(duration: Option<string>, tags: Tags)
    requires !Truthy(duration)
    requires tags.durationTag == Some("01:02:03")
    ensures IntendedDuration(duration, tags) == Fin(3723.0)
  {
    ExampleTag();
    ExampleFields();
    IntendedDurationSumsFields(duration, tags, "01", "02", "03");
  }
}
