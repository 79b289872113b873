/** Application settings (`AppConfig`): the fixed constants, the user
    settings read from the saved JSON file and updated by the setters, the
    caption rule and the page-layout lookups. */
module Config {
  import opened Wrappers

  // ---------------------------------------------------------------------
  // Fixed configuration
  // ---------------------------------------------------------------------

  /** File suffixes accepted by the image loader (already lower case). */
  const SupportedFormats: seq<string> :=
    [".jpg", ".jpeg", ".png", ".bmp", ".gif", ".tiff", ".webp", ".avif"]

  /** Side of the square thumbnail box, in pixels. */
  const ThumbnailSide: nat := 150

  /** Pixel width images are resized to for the document. */
  const ImageWidthPortrait: nat := 400
  const ImageWidthLandscape: nat := 600

  /** Longest file name printed unshortened in a caption, and how much of a
      longer one is kept before the ellipsis. */
  const CaptionNameLimit: nat := 35
  const CaptionNameKept: nat := 32

  // ---------------------------------------------------------------------
  // User settings
  // ---------------------------------------------------------------------

  /** A JSON value, as the settings file stores it. */
  datatype Value =
    | Null
    | Bool(b: bool)
    | Int(i: int)
    | Real(r: real)
    | Str(s: string)
    | Array(items: seq<Value>)
    | Object(fields: map<string, Value>)

  type Settings = map<string, Value>

  const LastPathKey: string := "last_path"
  const WindowGeometryKey: string := "window_geometry"
  const TableWidthPortraitKey: string := "table_width_portrait"
  const TableWidthLandscapeKey: string := "table_width_landscape"
  const JpegQualityKey: string := "jpeg_quality"
  const OrientationKey: string := "orientation"

  /** The default keys in the order the loader visits them. */
  const DefaultKeyOrder: seq<string> :=
    [LastPathKey, WindowGeometryKey, TableWidthPortraitKey,
     TableWidthLandscapeKey, JpegQualityKey, OrientationKey]

  const DefaultTableWidthPortrait: real := 16.0
  const DefaultTableWidthLandscape: real := 25.0
  const DefaultJpegQuality: int := 85

  /** The settings used when nothing was saved; `home` is the user's home
      directory. */
  function Defaults(home: string): (d: Settings)
    ensures d.Keys == set k | k in DefaultKeyOrder
  {
    map[LastPathKey := Str(home),
        WindowGeometryKey := Object(map[]),
        TableWidthPortraitKey := Real(DefaultTableWidthPortrait),
        TableWidthLandscapeKey := Real(DefaultTableWidthLandscape),
        JpegQualityKey := Int(DefaultJpegQuality),
        OrientationKey := Str("portrait")]
  }

  /** Reads the settings: `saved` is the JSON object decoded from the
      settings file, or None when there is no file or it cannot be read as
      an object. Each default key takes the saved value when there is one;
      no other key survives. */
  method LoadSettings(home: string, saved: Option<Settings>) returns (settings: Settings)
    ensures settings.Keys == Defaults(home).Keys
    ensures forall k :: k in settings ==>
      settings[k] == (if saved.Some? && k in saved.value then saved.value[k] else Defaults(home)[k])
    ensures saved.None? ==> settings == Defaults(home)
  {
    settings := Defaults(home);
    if saved.Some? {
      var i := 0;
      while i < |DefaultKeyOrder|
        invariant 0 <= i <= |DefaultKeyOrder|
        invariant settings.Keys == Defaults(home).Keys
        invariant forall k :: k in settings ==>
          settings[k] == (if k in DefaultKeyOrder[..i] && k in saved.value
                          then saved.value[k] else Defaults(home)[k])
      {
        var key := DefaultKeyOrder[i];
        if key in saved.value {
          settings := settings[key := saved.value[key]];
        }
        i := i + 1;
      }
      assert DefaultKeyOrder[..i] == DefaultKeyOrder;
    }
  }

  /** `dict.get(key, default)`. */
  function Get(settings: Settings, key: string, default: Value): (r: Value)
    ensures key in settings ==> r == settings[key]
    ensures key !in settings ==> r == default
  {
    if key in settings then settings[key] else default
  }

  /** The key holding the table width of an orientation: only the exact
      string "portrait" selects the portrait key. */
  function TableWidthKey(orientation: string): (key: string)
    ensures key == TableWidthPortraitKey <==> orientation == "portrait"
    ensures key == TableWidthPortraitKey || key == TableWidthLandscapeKey
  {
    if orientation == "portrait" then TableWidthPortraitKey else TableWidthLandscapeKey
  }

  /** `get_table_width`. */
  function TableWidth(settings: Settings, orientation: string): (r: Value)
    ensures orientation == "portrait" ==>
      r == if TableWidthPortraitKey in settings then settings[TableWidthPortraitKey] else Real(DefaultTableWidthPortrait)
    ensures orientation != "portrait" ==>
      r == if TableWidthLandscapeKey in settings then settings[TableWidthLandscapeKey] else Real(DefaultTableWidthLandscape)
  {
    Get(settings, TableWidthKey(orientation),
        Real(if orientation == "portrait" then DefaultTableWidthPortrait else DefaultTableWidthLandscape))
  }

  /** Every orientation other than "portrait" reads the landscape width,
      and a missing key reads 16.0 or 25.0. */
  lemma TableWidthByOrientation(settings: Settings, orientation: string)
    ensures orientation != "portrait" ==> TableWidth(settings, orientation) == TableWidth(settings, "landscape")
    ensures TableWidthPortraitKey !in settings ==> TableWidth(settings, "portrait") == Real(16.0)
    ensures TableWidthLandscapeKey !in settings && orientation != "portrait" ==>
      TableWidth(settings, orientation) == Real(25.0)
  {
  }

  /** The mutable part of `AppConfig`: the user settings and the home
      directory that `get_last_path` falls back to. Saving to the settings
      file after each setter is not modelled. */
  class AppConfig {
    const home: string
    var userSettings: Settings

    constructor(home: string, saved: Option<Settings>)
      ensures this.home == home
      ensures userSettings.Keys == Defaults(home).Keys
      ensures forall k :: k in userSettings ==>
        userSettings[k] == (if saved.Some? && k in saved.value then saved.value[k] else Defaults(home)[k])
    {
      this.home := home;
      var loaded := LoadSettings(home, saved);
      userSettings := loaded;
    }

    function GetLastPath(): (v: Value)
      reads this
      ensures LastPathKey in userSettings ==> v == userSettings[LastPathKey]
      ensures LastPathKey !in userSettings ==> v == Str(home)
    {
      Get(userSettings, LastPathKey, Str(home))
    }

    method SetLastPath(path: string)
      modifies this
      ensures userSettings == old(userSettings)[LastPathKey := Str(path)]
      ensures GetLastPath() == Str(path)
    {
      userSettings := userSettings[LastPathKey := Str(path)];
    }

    function GetWindowGeometry(): (v: Value)
      reads this
      ensures WindowGeometryKey in userSettings ==> v == userSettings[WindowGeometryKey]
      ensures WindowGeometryKey !in userSettings ==> v == Object(map[])
    {
      Get(userSettings, WindowGeometryKey, Object(map[]))
    }

    method SetWindowGeometry(geometry: map<string, Value>)
      modifies this
      ensures userSettings == old(userSettings)[WindowGeometryKey := Object(geometry)]
      ensures GetWindowGeometry() == Object(geometry)
    {
      userSettings := userSettings[WindowGeometryKey := Object(geometry)];
    }

    function GetTableWidth(orientation: string): (v: Value)
      reads this
      ensures TableWidthKey(orientation) in userSettings ==> v == userSettings[TableWidthKey(orientation)]
      ensures TableWidthKey(orientation) !in userSettings ==>
        v == Real(if orientation == "portrait" then DefaultTableWidthPortrait else DefaultTableWidthLandscape)
    {
      TableWidth(userSettings, orientation)
    }

    /** Stores the width under the orientation's key; the other
        orientation's width is untouched. */
    method SetTableWidth(orientation: string, width: real)
      modifies this
      ensures userSettings == old(userSettings)[TableWidthKey(orientation) := Real(width)]
      ensures GetTableWidth(orientation) == Real(width)
      ensures forall other :: TableWidthKey(other) != TableWidthKey(orientation) ==>
        GetTableWidth(other) == old(GetTableWidth(other))
    {
      userSettings := userSettings[TableWidthKey(orientation) := Real(width)];
    }

    function GetJpegQuality(): (v: Value)
      reads this
      ensures JpegQualityKey in userSettings ==> v == userSettings[JpegQualityKey]
      ensures JpegQualityKey !in userSettings ==> v == Int(DefaultJpegQuality)
    {
      Get(userSettings, JpegQualityKey, Int(DefaultJpegQuality))
    }

    method SetJpegQuality(quality: int)
      modifies this
      ensures userSettings == old(userSettings)[JpegQualityKey := Int(quality)]
      ensures GetJpegQuality() == Int(quality)
    {
      userSettings := userSettings[JpegQualityKey := Int(quality)];
    }

    function GetOrientation(): (v: Value)
      reads this
      ensures OrientationKey in userSettings ==> v == userSettings[OrientationKey]
      ensures OrientationKey !in userSettings ==> v == Str("portrait")
    {
      Get(userSettings, OrientationKey, Str("portrait"))
    }

    method SetOrientation(orientation: string)
      modifies this
      ensures userSettings == old(userSettings)[OrientationKey := Str(orientation)]
      ensures GetOrientation() == Str(orientation)
    {
      userSettings := userSettings[OrientationKey := Str(orientation)];
    }
  }

  // ---------------------------------------------------------------------
  // Page layout lookups
  // ---------------------------------------------------------------------

  /** Pixel width of a resized image: the portrait width whatever the
      orientation. */
  function ImageWidth(orientation: string): (w: nat)
    ensures w == ImageWidthPortrait
  {
    ImageWidthPortrait
  }

  /** Two columns in both orientations. */
  function ColumnsCount(orientation: string): (c: nat)
    ensures c == 2
  {
    2
  }

  /** Rows on a page: two only for the exact string "landscape". */
  function RowsPerPage(orientation: string): (r: nat)
    ensures r == 2 <==> orientation == "landscape"
    ensures r == 2 || r == 4
  {
    if orientation == "landscape" then 2 else 4
  }

  /** A landscape page holds 4 photos and any other 8, as the orientation
      choices in the window announce. */
  lemma PhotosPerPage(orientation: string)
    ensures RowsPerPage(orientation) * ColumnsCount(orientation) ==
      (if orientation == "landscape" then 4 else 8)
  {
  }

  // ---------------------------------------------------------------------
  // Captions
  // ---------------------------------------------------------------------

  /** A caption template: literal text and the two replacement fields. */
  datatype Piece = Text(s: string) | NumberField | FileNameField

  /** "Рис. {number}. {filename}" */
  const CaptionTemplate: seq<Piece> := [Text("Рис. "), NumberField, Text(". "), FileNameField]

  /** `str.format(number=…, filename=…)` over a parsed template. */
  function Fill(template: seq<Piece>, number: string, filename: string): (r: string)
  {
    if template == [] then []
    else
      (match template[0]
       case Text(s) => s
       case NumberField => number
       case FileNameField => filename)
      + Fill(template[1..], number, filename)
  }

  /** The file name as printed: unchanged up to 35 characters, otherwise
      its first 32 characters and "...", 35 in all. */
  function ShortName(filename: string): (r: string)
    ensures |filename| <= CaptionNameLimit ==> r == filename
    ensures |filename| > CaptionNameLimit ==>
      |r| == CaptionNameLimit && r[..CaptionNameKept] == filename[..CaptionNameKept] && r[CaptionNameKept..] == "..."
    ensures |r| <= CaptionNameLimit || r == filename
  {
    if |filename| > CaptionNameLimit then filename[..CaptionNameKept] + "..." else filename
  }

  predicate IsDigit(c: char) {
    '0' <= c <= '9'
  }

  function DigitChar(d: nat): (c: char)
    requires d < 10
    ensures IsDigit(c)
  {
    (('0' as int) + d) as char
  }

  function DigitValue(c: char): (d: nat)
    requires IsDigit(c)
    ensures d < 10 && DigitChar(d) == c
  {
    (c as int) - ('0' as int)
  }

  /** `str(n)` for a natural number. */
  function NatToDecimal(n: nat): (r: string)
    ensures r != []
    ensures forall j :: 0 <= j < |r| ==> IsDigit(r[j])
  {
    if n < 10 then [DigitChar(n)] else NatToDecimal(n / 10) + [DigitChar(n % 10)]
  }

  /** `str(n)` for any integer. */
  function IntToDecimal(n: int): (r: string)
  {
    if n < 0 then "-" + NatToDecimal(-n) else NatToDecimal(n)
  }

  /** The number a string of decimal digits denotes. */
  function DecimalValue(s: string): (n: nat)
    requires forall j :: 0 <= j < |s| ==> IsDigit(s[j])
  {
    if s == [] then 0 else 10 * DecimalValue(s[..|s| - 1]) + DigitValue(s[|s| - 1])
  }

  lemma {:induction false} DecimalRoundTrip(n: nat)
    ensures DecimalValue(NatToDecimal(n)) == n
  {
    var r := NatToDecimal(n);
    if n >= 10 {
      DecimalRoundTrip(n / 10);
      assert r[..|r| - 1] == NatToDecimal(n / 10);
    }
  }

  /** `get_caption_text`: the caption template filled with the number and
      the shortened file name. */
  function CaptionText(number: int, filename: string): (r: string)
    ensures r == "Рис. " + IntToDecimal(number) + ". " + ShortName(filename)
  {
    FillCaptionTemplate(IntToDecimal(number), ShortName(filename));
    Fill(CaptionTemplate, IntToDecimal(number), ShortName(filename))
  }

  /** The caption template with its two fields filled in. */
  lemma FillCaptionTemplate(number: string, name: string)
    ensures Fill(CaptionTemplate, number, name) == "Рис. " + number + ". " + name
  {
    var t := CaptionTemplate;
    assert Fill(t[3..], number, name) == name + Fill(t[4..], number, name);
    assert Fill(t[2..], number, name) == ". " + Fill(t[3..], number, name);
    assert Fill(t[1..], number, name) == number + Fill(t[2..], number, name);
    assert Fill(t, number, name) == "Рис. " + Fill(t[1..], number, name);
    assert t[4..] == [];
  }

  /** Length of the run of digits that starts `s`. */
  function DigitRun(s: string): (k: nat)
    ensures k <= |s|
    ensures forall j :: 0 <= j < k ==> IsDigit(s[j])
    ensures k < |s| ==> !IsDigit(s[k])
  {
    if s == [] || !IsDigit(s[0]) then 0 else 1 + DigitRun(s[1..])
  }

  /** Reads a caption back into its number and printed file name. */
  function ParseCaption(c: string): (r: Option<(nat, string)>)
  {
    var prefix := "Рис. ";
    if |c| < |prefix| || c[..|prefix|] != prefix then None
    else
      var rest := c[|prefix|..];
      var k := DigitRun(rest);
      if k == 0 || |rest| < k + 2 || rest[k..k + 2] != ". " then None
      else Some((DecimalValue(rest[..k]), rest[k + 2..]))
  }

  /** A caption determines its number and its printed file name: reading it
      back returns exactly what filled the template. */
  lemma CaptionRoundTrip(number: nat, filename: string)
    ensures ParseCaption(CaptionText(number, filename)) == Some((number, ShortName(filename)))
  {
    var digits := NatToDecimal(number);
    var name := ShortName(filename);
    var c := CaptionText(number, filename);
    var prefix := "Рис. ";
    assert c[..|prefix|] == prefix;
    var rest := c[|prefix|..];
    assert rest == digits + ". " + name;
    DigitRunOf(digits, ". " + name);
    assert rest[..|digits|] == digits;
    assert rest[|digits|..|digits| + 2] == ". ";
    assert rest[|digits| + 2..] == name;
    DecimalRoundTrip(number);
  }

  /** The digit run of `digits + tail` is `digits` when `tail` starts with a
      non-digit. */
  lemma DigitRunOf(digits: string, tail: string)
    requires forall j :: 0 <= j < |digits| ==> IsDigit(digits[j])
    requires tail != [] && !IsDigit(tail[0])
    ensures DigitRun(digits + tail) == |digits|
  {
    var s := digits + tail;
    assert forall j :: 0 <= j < |digits| ==> s[j] == digits[j];
    assert s[|digits|] == tail[0];
  }
}
