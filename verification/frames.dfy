/** Frame export paths: `captured_frame_path` and the `nth < 1000` capture gate in `view`. */
module Frames {

  datatype Option<T> = None | Some(value: T)

  /** A filesystem path as its sequence of components, such as the run's output
      directory `<project>/out/<timestamp>`. */
  type Path = seq<string>

  /** `PathBuf::join` with one relative component that holds no separator. */
  function Join(p: Path, name: string): Path
  {
    p + [name]
  }

  /** The index of the last `c` in `s`, or -1 when `s` has none. */
  function LastIndexOf(s: string, c: char): (i: int)
    ensures -1 <= i < |s|
    ensures i >= 0 ==> s[i] == c
    ensures forall j :: i < j < |s| ==> s[j] != c
    decreases |s|
  {
    if s == [] then -1
    else if s[|s| - 1] == c then |s| - 1
    else LastIndexOf(s[..|s| - 1], c)
  }

  /** `Path::file_stem` of a file name other than "..": the part before the last
      dot, or the whole name when it has no dot or its only dot leads it. */
  function FileStem(name: string): (stem: string)
    ensures |stem| <= |name| && stem == name[..|stem|]
    ensures stem == name || name[|stem|] == '.'
  {
    var i := LastIndexOf(name, '.');
    if i <= 0 then name else name[..i]
  }

  /** `PathBuf::with_extension`: the last component keeps its stem and takes
      `ext` (no dot at all for an empty `ext`); a path without a file name is
      returned unchanged. */
  function WithExtension(p: Path, ext: string): (r: Path)
    ensures |r| == |p|
    ensures p != [] ==> r[..|p| - 1] == p[..|p| - 1]
  {
    if p == [] || p[|p| - 1] == ".." then p
    else p[..|p| - 1] + [FileStem(p[|p| - 1]) + (if ext == "" then "" else "." + ext)]
  }

  predicate IsDigit(c: char)
  {
    '0' <= c <= '9'
  }

  predicate AllDigits(s: string)
  {
    forall i :: 0 <= i < |s| ==> IsDigit(s[i])
  }

  function DigitChar(d: nat): (c: char)
    requires d < 10
    ensures IsDigit(c)
  {
    (48 + d) as char
  }

  function DigitValue(c: char): (d: nat)
    requires IsDigit(c)
    ensures d < 10 && DigitChar(d) == c
  {
    c as int - 48
  }

  /** The decimal numeral of `n` as `format!` writes it: digits only, and no
      leading zero unless `n` is 0. */
  function Decimal(n: nat): (s: string)
    ensures |s| >= 1 && AllDigits(s)
    ensures s[0] == '0' ==> n == 0
    decreases n
  {
    if n < 10 then [DigitChar(n)] else Decimal(n / 10) + [DigitChar(n % 10)]
  }

  function Zeros(count: nat): string
  {
    seq(count, _ => '0')
  }

  /** `s` with '0's put in front until it is `width` characters long, as the `0`
      flag with a width does in `format!`. */
  function ZeroPad(s: string, width: nat): (r: string)
    ensures |r| >= width && |r| >= |s|
    ensures |r| > |s| ==> |r| == width
    ensures r[|r| - |s|..] == s
    ensures forall i :: 0 <= i < |r| - |s| ==> r[i] == '0'
  {
    if |s| >= width then s else Zeros(width - |s|) + s
  }

  /** `format!("{:03}", n)`. */
  function Format03(n: nat): (stem: string)
    ensures |stem| >= 3 && AllDigits(stem)
  {
    ZeroPad(Decimal(n), 3)
  }

  /** The number a string of decimal digits denotes. */
  function ValueOf(s: string): nat
    requires AllDigits(s)
    decreases |s|
  {
    if s == [] then 0 else ValueOf(s[..|s| - 1]) * 10 + DigitValue(s[|s| - 1])
  }

  /** Reading back the numeral of `n` gives `n`. */
  lemma {:induction false} DecimalRoundTrip(n: nat)
    ensures ValueOf(Decimal(n)) == n
    decreases n
  {
    var s := Decimal(n);
    if n < 10 {
      assert s[..0] == [];
    } else {
      DecimalRoundTrip(n / 10);
      assert s[..|s| - 1] == Decimal(n / 10);
    }
  }

  /** A leading zero does not change the value of a numeral. */
  lemma {:induction false} LeadingZeroValue(s: string)
    requires AllDigits(s)
    ensures ValueOf("0" + s) == ValueOf(s)
    decreases |s|
  {
    if s != [] {
      var t := "0" + s;
      assert t[..|t| - 1] == "0" + s[..|s| - 1];
      LeadingZeroValue(s[..|s| - 1]);
    } else {
      assert ("0" + s)[..0] == [];
    }
  }

  /** Leading zeros do not change the value of a numeral. */
  lemma {:induction false} ZerosValue(count: nat, s: string)
    requires AllDigits(s)
    ensures AllDigits(Zeros(count) + s) && ValueOf(Zeros(count) + s) == ValueOf(s)
    decreases count
  {
    var t := Zeros(count) + s;
    assert forall i :: 0 <= i < |t| ==> t[i] == (if i < count then '0' else s[i - count]);
    if count == 0 {
      assert t == s;
    } else {
      ZerosValue(count - 1, s);
      assert Zeros(count) + s == "0" + (Zeros(count - 1) + s);
      LeadingZeroValue(Zeros(count - 1) + s);
    }
  }

  /** The three-digit stem reads back as the frame number, whatever its width. */
  lemma Format03RoundTrip(n: nat)
    ensures AllDigits(Format03(n)) && ValueOf(Format03(n)) == n
  {
    DecimalRoundTrip(n);
    if |Decimal(n)| < 3 {
      ZerosValue(3 - |Decimal(n)|, Decimal(n));
    }
  }

  /** Below 1000 the stem is the three digits of `n`: hundreds, tens and units. */
  lemma Format03Below1000(n: nat)
    requires n < 1000
    ensures Format03(n) == [DigitChar(n / 100), DigitChar(n / 10 % 10), DigitChar(n % 10)]
  {
    var zero := DigitChar(0);
    assert zero == '0';
    if n < 10 {
      assert Decimal(n) == [DigitChar(n)];
      assert Zeros(2) == [zero, zero];
      assert n / 100 == 0 && n / 10 % 10 == 0 && n % 10 == n;
    } else if n < 100 {
      assert Decimal(n / 10) == [DigitChar(n / 10)];
      assert Decimal(n) == [DigitChar(n / 10), DigitChar(n % 10)];
      assert Zeros(1) == [zero];
      assert n / 100 == 0 && n / 10 % 10 == n / 10;
    } else {
      assert n / 10 / 10 == n / 100 && n / 100 < 10;
      assert Decimal(n / 10 / 10) == [DigitChar(n / 100)];
      assert Decimal(n / 10) == [DigitChar(n / 100), DigitChar(n / 10 % 10)];
      assert Decimal(n) == [DigitChar(n / 100), DigitChar(n / 10 % 10), DigitChar(n % 10)];
    }
  }

  /** The stem is exactly three characters long precisely for the frames below 1000. */
  lemma Format03Width(n: nat)
    ensures |Format03(n)| == 3 <==> n < 1000
    ensures |Format03(n)| >= 3
  {
    if n < 1000 {
      Format03Below1000(n);
    } else {
      assert |Decimal(n)| == |Decimal(n / 10)| + 1;
      assert |Decimal(n / 10)| == |Decimal(n / 10 / 10)| + 1;
      assert |Decimal(n / 10 / 10)| == |Decimal(n / 10 / 10 / 10)| + 1;
    }
  }

  /** `captured_frame_path`: the output directory joined with the zero-padded
      frame number, with extension "png". */
  function FramePath(outPath: Path, nth: nat): (p: Path)
    ensures |p| == |outPath| + 1 && p[..|outPath|] == outPath
  {
    var q := Join(outPath, Format03(nth));
    assert q[..|outPath|] == outPath;
    WithExtension(q, "png")
  }

  /** A name without a dot is its own stem. */
  lemma FileStemNoDot(name: string)
    requires forall j :: 0 <= j < |name| ==> name[j] != '.'
    ensures FileStem(name) == name
  {
  }

  /** Giving a dotless file name other than ".." a non-empty extension appends
      "." and the extension to it. */
  lemma WithExtensionOfDotless(p: Path, name: string, ext: string)
    requires forall j :: 0 <= j < |name| ==> name[j] != '.'
    requires name != ".." && ext != ""
    ensures WithExtension(Join(p, name), ext) == p + [name + "." + ext]
  {
    FileStemNoDot(name);
    var q := Join(p, name);
    assert q[..|q| - 1] == p;
    assert name + ("." + ext) == name + "." + ext;
  }

  /** A frame stem is a numeral, so it holds no dot and is not "..". */
  lemma Format03Dotless(n: nat)
    ensures forall j :: 0 <= j < |Format03(n)| ==> Format03(n)[j] != '.'
    ensures Format03(n) != ".."
  {
    Format03RoundTrip(n);
    Format03Width(n);
    assert IsDigit(Format03(n)[0]);
  }

  /** Splits the literal concatenation `"." + "png"` out of `FramePathShape`. */
  lemma PngName(stem: string)
    ensures stem + "." + "png" == stem + ".png"
  {
    assert "." + "png" == ".png";
  }

  /** Evaluates the literal concatenation `"007" + ".png"` for `FramePathSeven`. */
  lemma SevenPng()
    ensures "007" + ".png" == "007.png"
  {
  }

  /** The frame path is the output directory plus one file `<stem>.png` whose stem
      is the zero-padded frame number: a numeral has no dot to strip. */
  lemma FramePathShape(outPath: Path, nth: nat)
    ensures FramePath(outPath, nth) == outPath + [Format03(nth) + ".png"]
  {
    Format03Dotless(nth);
    WithExtensionOfDotless(outPath, Format03(nth), "png");
    PngName(Format03(nth));
  }

  /** Frame 7 is saved as "007.png". */
  lemma FramePathSeven(outPath: Path)
    ensures FramePath(outPath, 7) == outPath + ["007.png"]
  {
    Format03Below1000(7);
    assert Format03(7) == "007" by {
      assert DigitChar(0) == '0' && DigitChar(7) == '7';
    }
    FramePathShape(outPath, 7);
    SevenPng();
  }

  /** Equal strings with a common suffix removed stay equal. */
  lemma SuffixCancel(a: string, b: string, c: string)
    requires a + c == b + c
    ensures a == b
  {
    assert |a| == |b|;
    assert a == (a + c)[..|a|];
    assert b == (b + c)[..|b|];
  }

  /** Distinct frames never share a path. */
  lemma FramePathInjective(outPath: Path, m: nat, n: nat)
    ensures FramePath(outPath, m) == FramePath(outPath, n) ==> m == n
  {
    if FramePath(outPath, m) == FramePath(outPath, n) {
      FramePathShape(outPath, m);
      FramePathShape(outPath, n);
      var pm, pn := outPath + [Format03(m) + ".png"], outPath + [Format03(n) + ".png"];
      assert pm[|outPath|] == pn[|outPath|];
      SuffixCancel(Format03(m), Format03(n), ".png");
      Format03RoundTrip(m);
      Format03RoundTrip(n);
    }
  }

  /** Frames are captured only while their number is below this. */
  const MaxCapturedFrames: nat := 1000

  /** The gate in `view`: the path a frame is captured to, if it is captured at all. */
  function CapturePath(outPath: Path, nth: nat): Option<Path>
  {
    if nth < MaxCapturedFrames then Some(FramePath(outPath, nth)) else None
  }

  /** A frame is captured exactly when its number is below 1000, and then into
      `<outPath>/<stem>.png` with a stem of exactly three digits that reads back
      as the frame number. */
  lemma CapturePathShape(outPath: Path, nth: nat)
    ensures CapturePath(outPath, nth).Some? <==> nth < MaxCapturedFrames
    ensures CapturePath(outPath, nth).Some? ==>
              var stem := Format03(nth);
              && CapturePath(outPath, nth).value == outPath + [stem + ".png"]
              && |stem| == 3 && AllDigits(stem) && ValueOf(stem) == nth
  {
    FramePathShape(outPath, nth);
    Format03Width(nth);
    Format03RoundTrip(nth);
  }
}
