/**
 * The EXIF formatter and fetcher of src/utils.tsx: a fixed allow-list that
 * renames eight EXIF tags to bilingual display labels, the formatting of each
 * kept tag's value (scalars pass through, GPS coordinates become a
 * degree/minute/second string, other objects give their description or their
 * JSON text), and the fetcher's choice between the translated tags and the
 * image's pixel dimensions.
 */
module Utils {
  import opened Wrappers
  import opened Text
  import opened JsValue
  import opened Dict

  /**
   * A raw tag as the EXIF reader reports it: a scalar, or an object with an
   * optional `description` and an optional `value` array.
   */
  datatype Tag = Plain(scalar: Scalar) | Struct(description: Option<string>, items: Option<seq<Scalar>>)

  /** The raw tag set; a name that is not a key is `undefined`. */
  type Tags = map<string, Tag>

  /** Normal completion, or the TypeError thrown by indexing `undefined`. */
  datatype Result<T> = Ok(value: T) | TypeError

  // ---------------------------------------------------------------------
  // formatDegrees

  /**
   * `parseFloat(rawSeconds)` read as a count of hundredths of a second, with
   * NaN replaced by 0.
   */
  function SecondsHundredths(rawSeconds: Scalar): int
  {
    match rawSeconds
    case Num(n) => n
    case Str(s) => (match ParseInt(s) case Some(n) => n case None => 0)
    case _ => 0
  }

  /** `${degrees}° ${minutes}' ${seconds.toFixed(2)}" ${direction}`. */
  function FormatDegrees(degrees: Scalar, minutes: Scalar, rawSeconds: Scalar, direction: string): string
  {
    ToText(degrees) + "° " + ToText(minutes) + "' " + Hundredths(SecondsHundredths(rawSeconds)) + "\" " + direction
  }

  /** The components a degree/minute/second string carries. */
  datatype Dms = Dms(degrees: int, minutes: int, hundredths: int, direction: string)

  /** Reads a degree/minute/second string back into its components. */
  function ParseDms(s: string): Option<Dms>
  {
    if '°' !in s then None
    else
      var (d, rest) := SplitAt(s, '°');
      match (ParseInt(d), ParseMinutes(rest))
      case (Some(dv), Some((mv, sv, direction))) => Some(Dms(dv, mv, sv, direction))
      case _ => None
  }

  /** Reads ` {min}' {sec}" {dir}`. */
  function ParseMinutes(s: string): Option<(int, int, string)>
  {
    if |s| == 0 || s[0] != ' ' || '\'' !in s[1..] then None
    else
      var (m, rest) := SplitAt(s[1..], '\'');
      match (ParseInt(m), ParseSeconds(rest))
      case (Some(mv), Some((sv, direction))) => Some((mv, sv, direction))
      case _ => None
  }

  /** Reads ` {sec}" {dir}`. */
  function ParseSeconds(s: string): Option<(int, string)>
  {
    if |s| == 0 || s[0] != ' ' || '"' !in s[1..] then None
    else
      var (sec, rest) := SplitAt(s[1..], '"');
      if |rest| == 0 || rest[0] != ' ' then None
      else
        match ParseHundredths(sec)
        case Some(sv) => Some((sv, rest[1..]))
        case None => None
  }

  lemma ParseSecondsOf(h: int, direction: string)
    ensures ParseSeconds(" " + Hundredths(h) + "\" " + direction) == Some((h, direction))
  {
    var sec := Hundredths(h);
    HundredthsSymbols(h);
    HundredthsRoundTrip(h);
    var s := " " + sec + "\" " + direction;
    assert s[1..] == sec + ['"'] + (" " + direction);
    SplitAtAfter(sec, '"', " " + direction);
    assert (" " + direction)[1..] == direction;
  }

  lemma ParseMinutesOf(minutes: int, h: int, direction: string)
    ensures ParseMinutes(" " + IntText(minutes) + "' " + Hundredths(h) + "\" " + direction) == Some((minutes, h, direction))
  {
    var m := IntText(minutes);
    IntTextSymbols(minutes);
    IntTextRoundTrip(minutes);
    ParseSecondsOf(h, direction);
    var rest := " " + Hundredths(h) + "\" " + direction;
    var s := " " + m + "' " + Hundredths(h) + "\" " + direction;
    assert s[1..] == m + ['\''] + rest;
    SplitAtAfter(m, '\'', rest);
  }

  lemma DegreesShape(d: string, m: string, sec: string, direction: string)
    ensures d + "° " + m + "' " + sec + "\" " + direction == d + ['°'] + (" " + m + "' " + sec + "\" " + direction)
  {
    var x := d + "° " + m + "' " + sec + "\" " + direction;
    var y := d + ['°'] + (" " + m + "' " + sec + "\" " + direction);
    assert |x| == |y|;
    forall i | 0 <= i < |x| ensures x[i] == y[i] {
      if i < |d| + 1 { } else { assert x[i] == (" " + m + "' " + sec + "\" " + direction)[i - |d| - 1]; }
    }
  }

  /**
   * The string `FormatDegrees` builds from whole-number degrees and minutes
   * holds exactly those numbers, the seconds in hundredths (0 for a
   * non-numeric input) and the direction: nothing is lost or merged.
   */
  lemma FormatDegreesParses(degrees: int, minutes: int, rawSeconds: Scalar, direction: string)
    ensures ParseDms(FormatDegrees(Num(degrees), Num(minutes), rawSeconds, direction))
            == Some(Dms(degrees, minutes, SecondsHundredths(rawSeconds), direction))
  {
    var h := SecondsHundredths(rawSeconds);
    var d := IntText(degrees);
    var rest := " " + IntText(minutes) + "' " + Hundredths(h) + "\" " + direction;
    assert '°' !in d by { IntTextSymbols(degrees); }
    IntTextRoundTrip(degrees);
    ParseMinutesOf(minutes, h, direction);
    DegreesShape(d, IntText(minutes), Hundredths(h), direction);
    SplitAtAfter(d, '°', rest);
  }

  /** The worked example: 40 degrees, 26 minutes, 4656 hundredths of a second, north. */
  lemma FormatDegreesExample()
    ensures FormatDegrees(Num(40), Num(26), Num(4656), "N") == "40° 26' 46.56\" N"
  {
    ExampleParts();
    var x := FormatDegrees(Num(40), Num(26), Num(4656), "N");
    assert x == "40" + "° " + "26" + "' " + "46.56" + "\" " + "N";
  }

  lemma ExampleParts()
    ensures ToText(Num(40)) == "40" && ToText(Num(26)) == "26"
    ensures SecondsHundredths(Num(4656)) == 4656 && Hundredths(4656) == "46.56"
  {
    assert NatText(4) == "4" && NatText(2) == "2";
    assert 4656 / 100 == 46 && 4656 / 10 % 10 == 5 && 4656 % 10 == 6;
    assert NatText(46) == "46";
  }

  // ---------------------------------------------------------------------
  // formatGPSData

  /** The guard of formatGPSData: an object whose `value` has three elements. */
  predicate HasCoordinates(gpsData: Option<Tag>)
  {
    gpsData.Some? && gpsData.value.Struct? && gpsData.value.items.Some? && |gpsData.value.items.value| == 3
  }

  /**
   * `gpsRef ? gpsRef.value[0] : ''`, as the text it interpolates to. A truthy
   * reference without a `value` array makes `value[0]` throw; an empty array
   * gives `undefined`.
   */
  function Direction(gpsRef: Option<Tag>): Result<string>
  {
    match gpsRef
    case None => Ok("")
    case Some(Plain(s)) => if Truthy(s) then TypeError else Ok("")
    case Some(Struct(_, items)) =>
      match items
      case None => TypeError
      case Some(xs) => if xs == [] then Ok("undefined") else Ok(ToText(xs[0]))
  }

  function FormatGPSData(gpsData: Option<Tag>, gpsRef: Option<Tag>): (r: Result<string>)
    ensures !HasCoordinates(gpsData) ==> r == Ok("")
    ensures HasCoordinates(gpsData) ==> (r.TypeError? <==> Direction(gpsRef).TypeError?)
    ensures HasCoordinates(gpsData) && r.Ok? && gpsData.value.items.value[0].Num? && gpsData.value.items.value[1].Num? ==>
              var xs := gpsData.value.items.value;
              ParseDms(r.value) == Some(Dms(xs[0].n, xs[1].n, SecondsHundredths(xs[2]), Direction(gpsRef).value))
  {
    if !HasCoordinates(gpsData) then Ok("")
    else
      var xs := gpsData.value.items.value;
      match Direction(gpsRef)
      case TypeError => TypeError
      case Ok(direction) =>
        if xs[0].Num? && xs[1].Num? then
          FormatDegreesParses(xs[0].n, xs[1].n, xs[2], direction);
          Ok(FormatDegrees(xs[0], xs[1], xs[2], direction))
        else
          Ok(FormatDegrees(xs[0], xs[1], xs[2], direction))
  }

  // ---------------------------------------------------------------------
  // formatExifValue

  predicate IsGpsKey(key: string)
  {
    key == "GPSLatitude" || key == "GPSLongitude"
  }

  function JsonScalar(v: Scalar): string
  {
    match v
    case Str(s) => "\"" + s + "\""
    case _ => ToText(v)
  }

  function JsonItems(xs: seq<Scalar>): string
  {
    if xs == [] then "" else if |xs| == 1 then JsonScalar(xs[0]) else JsonScalar(xs[0]) + "," + JsonItems(xs[1..])
  }

  /** `JSON.stringify` of a tag object, over the two properties this model keeps. */
  function Json(description: Option<string>, items: Option<seq<Scalar>>): string
  {
    var value := match items case Some(xs) => "\"value\":[" + JsonItems(xs) + "]" case None => "";
    var desc := match description case Some(d) => "\"description\":\"" + d + "\"" case None => "";
    "{" + value + (if items.Some? && description.Some? then "," else "") + desc + "}"
  }

  function FormatExifValue(key: string, value: Tag, gpsRef: Option<Tag>): (r: Result<Scalar>)
    ensures value.Plain? ==> r == Ok(value.scalar)
    ensures value.Struct? && r.Ok? ==> r.value.Str?
    ensures r.TypeError? <==> value.Struct? && IsGpsKey(key) && FormatGPSData(Some(value), gpsRef).TypeError?
    ensures value.Struct? && IsGpsKey(key) && r.Ok? ==> r.value.s == FormatGPSData(Some(value), gpsRef).value
    ensures value.Struct? && !IsGpsKey(key) ==>
              r == Ok(Str(if value.description.Some? && value.description.value != ""
                          then value.description.value else Json(value.description, value.items)))
  {
    match value
    case Plain(s) => Ok(s)
    case Struct(description, items) =>
      if IsGpsKey(key) then
        match FormatGPSData(Some(value), gpsRef)
        case TypeError => TypeError
        case Ok(text) => Ok(Str(text))
      else if description.Some? && description.value != "" then Ok(Str(description.value))
      else Ok(Str(Json(description, items)))
  }

  /** For a GPS coordinate the description plays no part, even a truthy one. */
  lemma GpsIgnoresDescription(key: string, d1: Option<string>, d2: Option<string>, items: Option<seq<Scalar>>, gpsRef: Option<Tag>)
    requires IsGpsKey(key)
    ensures FormatExifValue(key, Struct(d1, items), gpsRef) == FormatExifValue(key, Struct(d2, items), gpsRef)
  {
  }

  /** Only GPS coordinates look at the reference tag, and only they can throw. */
  lemma RefOnlyForGps(key: string, value: Tag, ref1: Option<Tag>, ref2: Option<Tag>)
    requires !IsGpsKey(key)
    ensures FormatExifValue(key, value, ref1) == FormatExifValue(key, value, ref2)
    ensures FormatExifValue(key, value, ref1).Ok?
  {
  }

  // ---------------------------------------------------------------------
  // translateExifKeys

  /** The allow-list: source tag name and display label, in iteration order. */
  const KEY_MAP: seq<(string, string)> := [
    ("Image Width", "Width/宽度"),
    ("Image Height", "Height/图片高度"),
    ("Make", "Make/制造商"),
    ("Model", "Model/相机型号"),
    ("DateTimeOriginal", "Time/拍摄时间"),
    ("ExposureTime", "ExposureTime/曝光时间"),
    ("GPSLatitude", "GPSLatitude/纬度"),
    ("GPSLongitude", "GPSLongitude/经度")
  ]

  predicate IsLabel(displayLabel: string)
  {
    exists j :: 0 <= j < |KEY_MAP| && KEY_MAP[j].1 == displayLabel
  }

  lemma LabelsDistinct()
    ensures forall i, j :: 0 <= i < j < |KEY_MAP| ==> KEY_MAP[i].1 != KEY_MAP[j].1
  {
  }

  /** `exifData[key + 'Ref']`. */
  function RefOf(exifData: Tags, key: string): Option<Tag>
  {
    if key + "Ref" in exifData then Some(exifData[key + "Ref"]) else None
  }

  /** The formatted value of allow-list entry `j`, whose source tag is present. */
  function FormatEntry(exifData: Tags, j: nat): Result<Scalar>
    requires j < |KEY_MAP| && KEY_MAP[j].0 in exifData
  {
    var key := KEY_MAP[j].0;
    FormatExifValue(key, exifData[key], RefOf(exifData, key))
  }

  /** The labels of the first `n` allow-list entries whose source tag is present, in allow-list order. */
  function Kept(exifData: Tags, n: nat): seq<string>
    requires n <= |KEY_MAP|
  {
    if n == 0 then []
    else Kept(exifData, n - 1) + (if KEY_MAP[n - 1].0 in exifData then [KEY_MAP[n - 1].1] else [])
  }

  /** The dictionary translateExifKeys has built after the first `n` allow-list entries. */
  function TranslatePrefix(exifData: Tags, n: nat): Result<Dict<Scalar>>
    requires n <= |KEY_MAP|
  {
    if n == 0 then Ok([])
    else
      match TranslatePrefix(exifData, n - 1)
      case TypeError => TypeError
      case Ok(d) =>
        var (key, displayLabel) := KEY_MAP[n - 1];
        if key !in exifData then Ok(d)
        else
          match FormatEntry(exifData, n - 1)
          case TypeError => TypeError
          case Ok(v) => Ok(Put(d, displayLabel, v))
  }

  /** What translateExifKeys returns, or that it throws. */
  function Translation(exifData: Tags): Result<Dict<Scalar>>
  {
    TranslatePrefix(exifData, |KEY_MAP|)
  }

  lemma {:induction false} KeptMembers(exifData: Tags, n: nat, displayLabel: string)
    requires n <= |KEY_MAP|
    ensures displayLabel in Kept(exifData, n) <==>
            exists j :: 0 <= j < n && KEY_MAP[j].1 == displayLabel && KEY_MAP[j].0 in exifData
  {
    if n > 0 {
      KeptMembers(exifData, n - 1, displayLabel);
    }
  }

  lemma {:induction false} TranslatePrefixKeys(exifData: Tags, n: nat)
    requires n <= |KEY_MAP|
    ensures TranslatePrefix(exifData, n).Ok? ==>
              var d := TranslatePrefix(exifData, n).value;
              Keys(d) == Kept(exifData, n) && Distinct(d)
  {
    if n > 0 {
      TranslatePrefixKeys(exifData, n - 1);
      var prev := TranslatePrefix(exifData, n - 1);
      var (key, displayLabel) := KEY_MAP[n - 1];
      if prev.Ok? && key in exifData && FormatEntry(exifData, n - 1).Ok? {
        LabelsDistinct();
        KeptMembers(exifData, n - 1, displayLabel);
        PutDistinct(prev.value, displayLabel, FormatEntry(exifData, n - 1).value);
      }
    }
  }

  lemma {:induction false} TranslatePrefixValues(exifData: Tags, n: nat)
    requires n <= |KEY_MAP|
    ensures TranslatePrefix(exifData, n).Ok? ==>
              forall j :: 0 <= j < n && KEY_MAP[j].0 in exifData ==>
                FormatEntry(exifData, j).Ok? &&
                Get(TranslatePrefix(exifData, n).value, KEY_MAP[j].1) == Some(FormatEntry(exifData, j).value)
  {
    if n > 0 && TranslatePrefix(exifData, n).Ok? {
      TranslatePrefixValues(exifData, n - 1);
      var prev := TranslatePrefix(exifData, n - 1).value;
      var d := TranslatePrefix(exifData, n).value;
      var key := KEY_MAP[n - 1].0;
      if key in exifData {
        var v := FormatEntry(exifData, n - 1).value;
        assert d == Put(prev, KEY_MAP[n - 1].1, v);
        PutGet(prev, KEY_MAP[n - 1].1, v);
        LabelsDistinct();
        forall j | 0 <= j < n && KEY_MAP[j].0 in exifData
          ensures FormatEntry(exifData, j).Ok? && Get(d, KEY_MAP[j].1) == Some(FormatEntry(exifData, j).value)
        {
          if j < n - 1 {
            assert KEY_MAP[j].1 != KEY_MAP[n - 1].1;
          }
        }
      } else {
        assert d == prev;
      }
    }
  }

  lemma {:induction false} TranslatePrefixThrows(exifData: Tags, n: nat)
    requires n <= |KEY_MAP|
    ensures TranslatePrefix(exifData, n).TypeError? <==>
            exists j :: 0 <= j < n && KEY_MAP[j].0 in exifData && FormatEntry(exifData, j).TypeError?
  {
    if n > 0 {
      TranslatePrefixThrows(exifData, n - 1);
    }
  }

  lemma {:induction false} TranslatePrefixOfEmpty(n: nat)
    requires n <= |KEY_MAP|
    ensures TranslatePrefix(map[], n) == Ok([])
  {
    if n > 0 {
      TranslatePrefixOfEmpty(n - 1);
    }
  }

  /**
   * translateExifKeys keeps exactly the allow-listed tags that are present,
   * under their labels, in allow-list order, with their formatted values; it
   * throws only when formatting a present tag throws; no input tag outside
   * the allow-list shows up, and an empty tag set gives an empty dictionary.
   */
  lemma TranslationContract(exifData: Tags)
    ensures Translation(exifData).Ok? <==>
            forall j :: 0 <= j < |KEY_MAP| && KEY_MAP[j].0 in exifData ==> FormatEntry(exifData, j).Ok?
    ensures Translation(exifData).Ok? ==>
              var d := Translation(exifData).value;
              && Distinct(d)
              && Keys(d) == Kept(exifData, |KEY_MAP|)
              && (forall k :: k in Keys(d) ==> IsLabel(k))
              && (forall j :: 0 <= j < |KEY_MAP| ==> (KEY_MAP[j].1 in Keys(d) <==> KEY_MAP[j].0 in exifData))
              && (forall j :: 0 <= j < |KEY_MAP| && KEY_MAP[j].0 in exifData ==>
                    Get(d, KEY_MAP[j].1) == Some(FormatEntry(exifData, j).value))
    ensures exifData == map[] ==> Translation(exifData) == Ok([])
  {
    TranslatePrefixThrows(exifData, |KEY_MAP|);
    TranslatePrefixKeys(exifData, |KEY_MAP|);
    TranslatePrefixValues(exifData, |KEY_MAP|);
    TranslatePrefixOfEmpty(|KEY_MAP|);
    LabelsDistinct();
    forall k ensures k in Kept(exifData, |KEY_MAP|) ==> IsLabel(k) {
      KeptMembers(exifData, |KEY_MAP|, k);
    }
    forall j | 0 <= j < |KEY_MAP|
      ensures KEY_MAP[j].1 in Kept(exifData, |KEY_MAP|) <==> KEY_MAP[j].0 in exifData
    {
      KeptMembers(exifData, |KEY_MAP|, KEY_MAP[j].1);
    }
  }

  lemma {:induction false} ThrowPersists(exifData: Tags, n: nat, m: nat)
    requires n <= m <= |KEY_MAP|
    requires TranslatePrefix(exifData, n).TypeError?
    ensures TranslatePrefix(exifData, m).TypeError?
  {
    if n < m {
      ThrowPersists(exifData, n, m - 1);
    }
  }

  /** The loop of translateExifKeys over the allow-list. */
  method TranslateExifKeys(exifData: Tags) returns (translated: Result<Dict<Scalar>>)
    ensures translated == Translation(exifData)
  {
    var out: Dict<Scalar> := [];
    for i := 0 to |KEY_MAP|
      invariant TranslatePrefix(exifData, i) == Ok(out)
    {
      var (key, translatedKey) := KEY_MAP[i];
      var refKey := key + "Ref";
      if key in exifData {
        var refValue := if refKey in exifData then Some(exifData[refKey]) else None;
        var formatted := FormatExifValue(key, exifData[key], refValue);
        if formatted.TypeError? {
          ThrowPersists(exifData, i + 1, |KEY_MAP|);
          return TypeError;
        }
        out := Put(out, translatedKey, formatted.value);
      }
    }
    translated := Ok(out);
  }

  // ---------------------------------------------------------------------
  // fetchExifData

  /** What fetching the URL and running the EXIF reader gave: the tags, or a rejection. */
  datatype Download = Tags(tags: Tags) | DownloadFailed

  /** Decoding the blob as an image: its size, or an image whose `onload` never fires. */
  datatype Picture = Decoded(width: nat, height: nat) | NeverLoads

  /** How the promise of fetchExifData settles: a data object, `null`, or never. */
  datatype Fetched = Found(data: Dict<Scalar>) | NullData | Pending

  /** The fallback object with the image's pixel width and height. */
  function Dimensions(width: nat, height: nat): Dict<Scalar>
  {
    [("图片宽度", Num(width)), ("图片高度", Num(height))]
  }

  method FetchExifData(download: Download, picture: Picture) returns (r: Fetched)
    ensures download.DownloadFailed? ==> r == NullData
    ensures download.Tags? && Translation(download.tags).TypeError? ==> r == NullData
    ensures download.Tags? && Translation(download.tags).Ok? && Translation(download.tags).value != [] ==>
              r == Found(Translation(download.tags).value)
    ensures download.Tags? && Translation(download.tags) == Ok([]) ==>
              r == if picture.Decoded? then Found(Dimensions(picture.width, picture.height)) else Pending
    ensures r.Found? ==> |Keys(r.data)| > 0 && Distinct(r.data)
  {
    if download.DownloadFailed? {
      return NullData;
    }
    var translatedTags := TranslateExifKeys(download.tags);
    if translatedTags.TypeError? {
      return NullData;
    }
    TranslationContract(download.tags);
    if |Keys(translatedTags.value)| > 0 {
      r := Found(translatedTags.value);
    } else {
      match picture
      case Decoded(width, height) => r := Found(Dimensions(width, height));
      case NeverLoads => r := Pending;
    }
  }
}
