/**
 * FileInputSettingsPanel: the import settings as the user enters them, and
 * the ToA-calibration file reader.
 *
 * A calibration file has one "index,offset" line per ToT code.  The whole
 * file is read into a fresh zeroed table and only then replaces the
 * current one, so a bad line leaves the current calibration as it was.
 */
module SettingsPanel {
  import opened Wrappers
  import opened Tpx3

  /** unsigned long (64 bits) and unsigned (32 bits) wrap at these moduli. */
  const ULongModulus: int := 0x1_0000_0000_0000_0000
  const UIntModulus: int := 0x1_0000_0000

  /** The mask used when none is set: horizontal, both bands (0, 256). */
  const DefaultMask := SpatialMask(false, 0, SensorSize, 0, SensorSize)

  const NoCalibrationLabel := "<b>(No calibration set)</b>"
  const NoMaskLabel := "<b>(No mask set)</b>"

  function FileLabel(filename: string): string {
    "<b>(" + filename + ")</b>"
  }

  /* ---------------- std::getline splitting ---------------- */

  /** The position of the first d in s, or |s| when there is none. */
  function IndexOf(s: string, d: char): (i: nat)
    ensures i <= |s| && (i < |s| ==> s[i] == d)
    ensures forall j :: 0 <= j < i ==> s[j] != d
  {
    if s == [] then 0 else if s[0] == d then 0 else 1 + IndexOf(s[1..], d)
  }

  /**
   * The pieces that repeated std::getline calls with delimiter d read from
   * s: a final delimiter starts no further piece, and "" gives none.
   */
  function GetlineSplit(s: string, d: char): (r: seq<string>)
    ensures |r| == 0 <==> s == []
    ensures forall k :: 0 <= k < |r| ==> d !in r[k]
    decreases |s|
  {
    if s == [] then []
    else
      var i := IndexOf(s, d);
      if i == |s| then [s] else [s[..i]] + GetlineSplit(s[i + 1..], d)
  }

  /** The pieces written out again with d between them. */
  function Join(pieces: seq<string>, d: char): string {
    if pieces == [] then []
    else if |pieces| == 1 then pieces[0]
    else pieces[0] + [d] + Join(pieces[1..], d)
  }

  /** Splitting loses nothing but a final delimiter: joining the pieces gives the text back. */
  lemma {:induction false} SplitJoin(s: string, d: char)
    ensures Join(GetlineSplit(s, d), d) == if s != [] && s[|s| - 1] == d then s[..|s| - 1] else s
    decreases |s|
  {
    if s != [] {
      var i := IndexOf(s, d);
      if i == |s| {
        assert d !in s;
      } else {
        var rest := s[i + 1..];
        assert s == s[..i] + [d] + rest;
        SplitJoin(rest, d);
        var pieces := GetlineSplit(s, d);
        if rest == [] {
          assert pieces == [s[..i]];
        } else {
          assert pieces[1..] == GetlineSplit(rest, d);
          assert s[|s| - 1] == rest[|rest| - 1];
          if rest[|rest| - 1] == d {
            assert s[..|s| - 1] == s[..i] + [d] + rest[..|rest| - 1];
          }
        }
      }
    }
  }

  /* ---------------- std::stoul ---------------- */

  /** The characters std::isspace accepts in the C locale. */
  predicate IsSpace(c: char) {
    c == ' ' || c == '\t' || c == '\n' || c == '\r' || c == 11 as char || c == 12 as char
  }

  predicate IsDigit(c: char) {
    '0' as int <= c as int <= '9' as int
  }

  function SkipSpace(s: string): (t: string)
    ensures |t| <= |s| && t == s[|s| - |t|..]
    ensures t == [] || !IsSpace(t[0])
  {
    if s != [] && IsSpace(s[0]) then SkipSpace(s[1..]) else s
  }

  /** The number of leading digits. */
  function DigitRun(s: string): (n: nat)
    ensures n <= |s| && (forall i :: 0 <= i < n ==> IsDigit(s[i])) && (n < |s| ==> !IsDigit(s[n]))
  {
    if s != [] && IsDigit(s[0]) then 1 + DigitRun(s[1..]) else 0
  }

  /** The value of a string of decimal digits. */
  function DigitsValue(s: string): nat
    requires forall i :: 0 <= i < |s| ==> IsDigit(s[i])
  {
    if s == [] then 0
    else
      assert IsDigit(s[|s| - 1]);
      DigitsValue(s[..|s| - 1]) * 10 + (s[|s| - 1] as int - '0' as int)
  }

  /**
   * std::stoul in base 10: skip white space, take an optional sign and the
   * longest run of digits, ignore the rest.  No digits, or a value beyond
   * unsigned long, throws (None); a minus sign negates modulo 2^64.
   */
  function Stoul(s: string): (r: Option<nat>)
    ensures r.Some? ==> r.value < ULongModulus
  {
    var t := SkipSpace(s);
    if t != [] && t[0] == '-' then StoulDigits(t[1..], true)
    else if t != [] && t[0] == '+' then StoulDigits(t[1..], false)
    else StoulDigits(t, false)
  }

  /** The part of std::stoul after the sign: the leading digits, range-checked, negated when neg. */
  function StoulDigits(u: string, neg: bool): (r: Option<nat>)
    ensures r.Some? ==> r.value < ULongModulus
  {
    var n := DigitRun(u);
    if n == 0 then None
    else
      var v := DigitsValue(u[..n]);
      if v >= ULongModulus then None
      else if neg then Some((ULongModulus - v) % ULongModulus)
      else Some(v)
  }

  /** n written in decimal. */
  function Decimal(n: nat): (s: string)
    ensures |s| > 0 && forall i :: 0 <= i < |s| ==> IsDigit(s[i])
  {
    if n < 10 then [('0' as int + n) as char]
    else Decimal(n / 10) + [('0' as int + n % 10) as char]
  }

  lemma {:induction false} DecimalValue(n: nat)
    ensures DigitsValue(Decimal(n)) == n
  {
    if n >= 10 {
      var s := Decimal(n);
      assert s[..|s| - 1] == Decimal(n / 10);
      DecimalValue(n / 10);
    }
  }

  lemma {:induction false} DigitRunPrefix(s: string, rest: string)
    requires forall i :: 0 <= i < |s| ==> IsDigit(s[i])
    requires rest == [] || !IsDigit(rest[0])
    ensures DigitRun(s + rest) == |s|
  {
    if s != [] {
      assert (s + rest)[1..] == s[1..] + rest;
      DigitRunPrefix(s[1..], rest);
    }
  }

  /** Reading a number written in decimal, followed by anything but a digit, gives the number back. */
  lemma StoulDecimal(n: nat, rest: string)
    requires n < ULongModulus
    requires rest == [] || !IsDigit(rest[0])
    ensures Stoul(Decimal(n) + rest) == Some(n)
  {
    var s := Decimal(n);
    var t := s + rest;
    assert IsDigit(t[0]);
    assert SkipSpace(t) == t;
    assert Stoul(t) == StoulDigits(t, false);
    DigitRunPrefix(s, rest);
    assert t[..|s|] == s;
    DecimalValue(n);
  }

  /* ---------------- the calibration file ---------------- */

  datatype CalibError = IncorrectFormat | BadNumber

  /** One calibration line: the ToT code and the offset read for it. */
  datatype Entry = Entry(index: nat, offset: real)

  /** std::stod on one field: None when it throws. */
  type DoubleParser = string -> Option<real>

  /**
   * One line: exactly two comma-separated fields; the index goes through
   * stoul and then into a 32-bit unsigned, the offset through stod; an
   * index past the table is a format error.
   */
  function LineEntry(line: string, stod: DoubleParser): (r: Result<Entry, CalibError>)
    ensures r.Ok? ==> r.value.index < TotCodes
  {
    var row := GetlineSplit(line, ',');
    if |row| != 2 then Err(IncorrectFormat)
    else match Stoul(row[0])
      case None => Err(BadNumber)
      case Some(ul) =>
        var ix := ul % UIntModulus;
        match stod(row[1])
        case None => Err(BadNumber)
        case Some(offset) =>
          if ix >= TotCodes then Err(IncorrectFormat) else Ok(Entry(ix, offset))
  }

  function Zeros(): (t: seq<real>)
    ensures |t| == TotCodes && forall i :: 0 <= i < TotCodes ==> t[i] == 0.0
  {
    seq(TotCodes, _ => 0.0)
  }

  /** Each line read on its own. */
  function Entries(lines: seq<string>, stod: DoubleParser): (es: seq<Result<Entry, CalibError>>)
    ensures |es| == |lines| && forall k :: 0 <= k < |lines| ==> es[k] == LineEntry(lines[k], stod)
  {
    seq(|lines|, k requires 0 <= k < |lines| => LineEntry(lines[k], stod))
  }

  /**
   * The table built from the lines' entries in order, or the first line's
   * error; a code past the table is a format error (LineEntry never gives one).
   */
  function TableOf(es: seq<Result<Entry, CalibError>>): (r: Result<seq<real>, CalibError>)
    ensures r.Ok? ==> |r.value| == TotCodes
  {
    if es == [] then Ok(Zeros())
    else match TableOf(es[..|es| - 1])
      case Err(e) => Err(e)
      case Ok(t) =>
        match es[|es| - 1]
        case Err(e) => Err(e)
        case Ok(entry) =>
          if entry.index < TotCodes then Ok(t[entry.index := -entry.offset]) else Err(IncorrectFormat)
  }

  predicate EntriesInRange(es: seq<Result<Entry, CalibError>>) {
    forall k :: 0 <= k < |es| ==> es[k].Ok? ==> es[k].value.index < TotCodes
  }

  /** The calibration a file gives: minus each line's offset at its code, or the first bad line's error. */
  function CalibrationOf(lines: seq<string>, stod: DoubleParser): (r: Result<seq<real>, CalibError>)
    ensures r.Ok? ==> |r.value| == TotCodes
  {
    TableOf(Entries(lines, stod))
  }

  /** One more good entry writes minus its offset at its code. */
  lemma TableStepOk(es: seq<Result<Entry, CalibError>>, k: nat)
    requires k < |es| && TableOf(es[..k]).Ok? && es[k].Ok? && es[k].value.index < TotCodes
    ensures TableOf(es[..k + 1]) == Ok(TableOf(es[..k]).value[es[k].value.index := -es[k].value.offset])
  {
    assert es[..k + 1][..k] == es[..k];
  }

  /** One more bad entry is the table's error. */
  lemma TableStepErr(es: seq<Result<Entry, CalibError>>, k: nat)
    requires k < |es| && TableOf(es[..k]).Ok? && es[k].Err?
    ensures TableOf(es[..k + 1]) == Err(es[k].error)
  {
    assert es[..k + 1][..k] == es[..k];
  }

  /** A bad entry spoils every longer list that starts with it. */
  lemma {:induction false} TableErrPersists(es: seq<Result<Entry, CalibError>>, k: nat)
    requires k <= |es| && TableOf(es[..k]).Err?
    ensures TableOf(es) == TableOf(es[..k])
    decreases |es| - k
  {
    if k < |es| {
      assert es[..k + 1][..k] == es[..k];
      TableErrPersists(es, k + 1);
    } else {
      assert es[..k] == es;
    }
  }

  /** The list is accepted exactly when every entry is. */
  lemma {:induction false} TableOkIff(es: seq<Result<Entry, CalibError>>)
    requires EntriesInRange(es)
    ensures TableOf(es).Ok? <==> forall k :: 0 <= k < |es| ==> es[k].Ok?
  {
    if es != [] {
      var init := es[..|es| - 1];
      TableOkIff(init);
      assert forall k :: 0 <= k < |init| ==> init[k] == es[k];
    }
  }

  /** The file is accepted exactly when every line is. */
  lemma CalibrationOkIff(lines: seq<string>, stod: DoubleParser)
    ensures CalibrationOf(lines, stod).Ok? <==> forall k :: 0 <= k < |lines| ==> LineEntry(lines[k], stod).Ok?
  {
    TableOkIff(Entries(lines, stod));
  }

  /** The offset of the last entry for code i, if any entry names it. */
  function LastOffset(es: seq<Result<Entry, CalibError>>, i: int): Option<real> {
    if es == [] then None
    else
      var e := es[|es| - 1];
      if e.Ok? && e.value.index == i then Some(e.value.offset)
      else LastOffset(es[..|es| - 1], i)
  }

  lemma {:induction false} TableLastWins(es: seq<Result<Entry, CalibError>>)
    requires TableOf(es).Ok?
    ensures forall i :: 0 <= i < TotCodes ==>
      TableOf(es).value[i] == match LastOffset(es, i) case None => 0.0 case Some(o) => -o
  {
    if es != [] {
      TableLastWins(es[..|es| - 1]);
    }
  }

  /**
   * An accepted file sets each code to minus the offset of the last line
   * naming it; a code no line names stays 0.
   */
  lemma CalibrationLastWins(lines: seq<string>, stod: DoubleParser)
    requires CalibrationOf(lines, stod).Ok?
    ensures forall i :: 0 <= i < TotCodes ==>
      CalibrationOf(lines, stod).value[i] == match LastOffset(Entries(lines, stod), i) case None => 0.0 case Some(o) => -o
  {
    TableLastWins(Entries(lines, stod));
  }

  /** No entry names code i exactly when LastOffset finds none. */
  lemma {:induction false} LastOffsetNone(es: seq<Result<Entry, CalibError>>, i: int)
    ensures LastOffset(es, i).None? <==> forall k :: 0 <= k < |es| ==> !(es[k].Ok? && es[k].value.index == i)
  {
    if es != [] {
      var init := es[..|es| - 1];
      LastOffsetNone(init, i);
      assert forall k :: 0 <= k < |init| ==> init[k] == es[k];
    }
  }

  /** A blank line, or one with a third field, rejects the whole file. */
  lemma MalformedLineRejects(lines: seq<string>, k: nat, stod: DoubleParser)
    requires k < |lines| && |GetlineSplit(lines[k], ',')| != 2
    ensures CalibrationOf(lines, stod).Err?
  {
    CalibrationOkIff(lines, stod);
    assert LineEntry(lines[k], stod).Err?;
  }

  /**
   * The reading loop of setToACalibClick: a zeroed table, then each line in
   * turn writes minus its offset at its code; the first bad line stops it.
   */
  method ReadCalibration(lines: seq<string>, stod: DoubleParser) returns (r: Result<seq<real>, CalibError>)
    ensures r == CalibrationOf(lines, stod)
  {
    var result := ZeroTable();
    ghost var es := Entries(lines, stod);
    for k := 0 to |lines|
      invariant result.Length == TotCodes
      invariant TableOf(es[..k]) == Ok(result[..])
    {
      var err := ReadLine(result, LineEntry(lines[k], stod), es, k);
      if err.Some? {
        return Err(err.value);
      }
    }
    assert es[..|lines|] == es;
    return Ok(result[..]);
  }

  /** One line of the reading loop: write its entry, or report the error that ends the file. */
  method ReadLine(result: array<real>, entry: Result<Entry, CalibError>, ghost es: seq<Result<Entry, CalibError>>, k: nat)
    returns (err: Option<CalibError>)
    requires result.Length == TotCodes && k < |es| && es[k] == entry
    requires entry.Ok? ==> entry.value.index < TotCodes
    requires TableOf(es[..k]) == Ok(result[..])
    modifies result
    ensures err.None? ==> TableOf(es[..k + 1]) == Ok(result[..])
    ensures err.Some? ==> TableOf(es) == Err(err.value)
  {
    if entry.Err? {
      FirstErrorDecides(es, k);
      return Some(entry.error);
    }
    TableStepOk(es, k);
    WriteEntry(result, entry.value);
    return None;
  }

  /** The first bad line decides the outcome of the whole file. */
  lemma FirstErrorDecides(es: seq<Result<Entry, CalibError>>, k: nat)
    requires k < |es| && TableOf(es[..k]).Ok? && es[k].Err?
    ensures TableOf(es) == Err(es[k].error)
  {
    TableStepErr(es, k);
    TableErrPersists(es, k + 1);
  }

  /** A new table of zeros. */
  method ZeroTable() returns (result: array<real>)
    ensures fresh(result) && result[..] == Zeros()
  {
    result := new real[TotCodes];
    for x := 0 to TotCodes
      invariant forall i :: 0 <= i < x ==> result[i] == 0.0
    {
      result[x] := 0.0;
    }
  }

  /** result[ix] = -offset for one good line. */
  method WriteEntry(result: array<real>, e: Entry)
    requires e.index < result.Length
    modifies result
    ensures result[..] == old(result[..])[e.index := -e.offset]
  {
    result[e.index] := -e.offset;
  }

  /** The unit conversion of the coincidence window: nanoseconds as entered, seconds as used. */
  function NanosecondsToSeconds(ns: real): (s: real)
    ensures s * 1000000000.0 == ns
  {
    ns * 0.000000001
  }

  /** std::stof / std::stod on a text field: None when it throws. */
  type NumberParser = string -> Option<real>

  /** The settings panel's state: the entered values, the mask and the calibration table. */
  class FileInputSettingsPanel {
    var numThreads: int
    var imageMask: Option<SpatialMask>
    var calibration: array<real>
    var clusterWindowXYText: string
    var clusterWindowTText: string
    var minClusterSize: int
    var coincidenceWindowText: string
    var maskLabel: string
    var calibrationLabel: string

    predicate Valid()
      reads this
    {
      calibration.Length == TotCodes
    }

    /** The panel as built: zero calibration, the default mask, and the fields' starting texts. */
    constructor(idealThreadCount: int)
      ensures Valid() && fresh(calibration)
      ensures calibration[..] == Zeros()
      ensures imageMask == Some(DefaultMask)
      ensures numThreads == idealThreadCount && minClusterSize == 4
      ensures clusterWindowXYText == "5" && clusterWindowTText == "750" && coincidenceWindowText == "15"
      ensures maskLabel == NoMaskLabel && calibrationLabel == NoCalibrationLabel
    {
      numThreads := idealThreadCount;
      calibration := new real[TotCodes](_ => 0.0);
      clusterWindowXYText := "5";
      clusterWindowTText := "750";
      minClusterSize := 4;
      coincidenceWindowText := "15";
      maskLabel := NoMaskLabel;
      calibrationLabel := NoCalibrationLabel;
      imageMask := Some(DefaultMask);
    }

    /** The mask imports use: the one set, or the default. */
    function CurrentMask(): (m: SpatialMask)
      reads this
      ensures imageMask.Some? ==> m == imageMask.value
      ensures imageMask.None? ==> m == DefaultMask
    {
      match imageMask
      case Some(m) => m
      case None => DefaultMask
    }

    /**
     * getSettings: the entered values, the current mask or the default, the
     * calibration table, and the coincidence window converted from ns to s.
     * A field that does not parse throws (None).
     */
    method GetSettings(stof: NumberParser, stod: NumberParser) returns (r: Option<ImportSettings>)
      requires Valid()
      ensures r.Some? <==> stof(clusterWindowXYText).Some? && stof(clusterWindowTText).Some? && stod(coincidenceWindowText).Some?
      ensures r.Some? ==> r.value.spatialMask == CurrentMask() && r.value.totCorrection == calibration[..]
      ensures r.Some? ==> r.value.maxNumThreads == numThreads && r.value.minClusterSize == minClusterSize
      ensures r.Some? ==> (r.value.clusterSizeXY == stof(clusterWindowXYText).value
        && r.value.clusterSizeT == stof(clusterWindowTText).value
        && r.value.coincidenceWindow * 1000000000.0 == stod(coincidenceWindowText).value)
    {
      var mask := CurrentMask();
      var xy := stof(clusterWindowXYText);
      if xy.None? { return None; }
      var t := stof(clusterWindowTText);
      if t.None? { return None; }
      var w := stod(coincidenceWindowText);
      if w.None? { return None; }
      r := Some(ImportSettings(numThreads, mask, calibration[..], xy.value, t.value, minClusterSize,
                               NanosecondsToSeconds(w.value)));
    }

    /**
     * setToACalibClick: read the chosen file into a zeroed table and, once
     * every line is read, make it the calibration.  An empty file name (the
     * dialog was cancelled) changes nothing; a bad line throws and changes
     * nothing.
     */
    method SetToACalibClick(filename: string, contents: string, stod: DoubleParser) returns (err: Option<CalibError>)
      requires Valid()
      modifies this, calibration
      ensures Valid() && calibration == old(calibration)
      ensures numThreads == old(numThreads) && imageMask == old(imageMask) && maskLabel == old(maskLabel)
      ensures clusterWindowXYText == old(clusterWindowXYText) && clusterWindowTText == old(clusterWindowTText)
      ensures minClusterSize == old(minClusterSize) && coincidenceWindowText == old(coincidenceWindowText)
      ensures filename == [] ==> err.None? && calibration[..] == old(calibration[..]) && calibrationLabel == old(calibrationLabel)
      ensures filename != [] ==>
        var c := CalibrationOf(GetlineSplit(contents, '\n'), stod);
        (c.Err? ==> err == Some(c.error) && calibration[..] == old(calibration[..]) && calibrationLabel == old(calibrationLabel))
        && (c.Ok? ==> err.None? && calibration[..] == c.value && calibrationLabel == FileLabel(filename))
    {
      if filename == [] {
        return None;
      }
      var read := ReadCalibration(GetlineSplit(contents, '\n'), stod);
      if read.Err? {
        return Some(read.error);
      }
      forall i | 0 <= i < TotCodes {
        calibration[i] := read.value[i];
      }
      assert calibration[..] == read.value;
      err := None;
      calibrationLabel := FileLabel(filename);
    }

    /** clearToACalibClick: every entry back to 0. */
    method ClearToACalibClick()
      requires Valid()
      modifies this, calibration
      ensures Valid() && calibration == old(calibration) && calibration[..] == Zeros()
      ensures calibrationLabel == NoCalibrationLabel
      ensures imageMask == old(imageMask) && maskLabel == old(maskLabel) && numThreads == old(numThreads)
      ensures clusterWindowXYText == old(clusterWindowXYText) && clusterWindowTText == old(clusterWindowTText)
      ensures minClusterSize == old(minClusterSize) && coincidenceWindowText == old(coincidenceWindowText)
    {
      for x := 0 to TotCodes
        invariant forall i :: 0 <= i < x ==> calibration[i] == 0.0
        modifies calibration
      {
        calibration[x] := 0.0;
      }
      calibrationLabel := NoCalibrationLabel;
    }

    /** clearImageMaskClick: forget the mask, so imports use the default. */
    method ClearImageMaskClick()
      modifies this
      ensures imageMask.None? && maskLabel == NoMaskLabel && CurrentMask() == DefaultMask
      ensures calibration == old(calibration) && calibrationLabel == old(calibrationLabel) && numThreads == old(numThreads)
      ensures clusterWindowXYText == old(clusterWindowXYText) && clusterWindowTText == old(clusterWindowTText)
      ensures minClusterSize == old(minClusterSize) && coincidenceWindowText == old(coincidenceWindowText)
    {
      imageMask := None;
      maskLabel := NoMaskLabel;
    }

    /** receiveImageMask: the mask accepted in the mask dialog becomes the current one. */
    method ReceiveImageMask(mask: SpatialMask, filename: string)
      modifies this
      ensures imageMask == Some(mask) && maskLabel == FileLabel(filename) && CurrentMask() == mask
      ensures calibration == old(calibration) && calibrationLabel == old(calibrationLabel) && numThreads == old(numThreads)
      ensures clusterWindowXYText == old(clusterWindowXYText) && clusterWindowTText == old(clusterWindowTText)
      ensures minClusterSize == old(minClusterSize) && coincidenceWindowText == old(coincidenceWindowText)
    {
      imageMask := Some(mask);
      maskLabel := FileLabel(filename);
    }
  }
}
