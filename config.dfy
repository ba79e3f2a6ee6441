/** The configuration text of the manager: the `key = value` lines of a module
    file (one per distribution) and of the settings file, already read into
    lines. A module file holds, in this order, the category, the FTP server,
    the directory on it and the option (the index of the image to take). */
module Config {
  import opened Wrappers
  import opened PyStr

  /** `line.split('= ')[1].strip()`: the text after the first "= ", cut at a
      second "= " if there is one, without surrounding whitespace. A line
      without "= " has no piece 1, and the lookup raises. */
  function ConfigValue(line: string): (r: Result<string>)
    ensures r.Fail? ==> r.error == IndexError
    ensures r.Ok? ==> FindSep(r.value).None?
  {
    var piece :- PyIndex(SplitSep(line), 1);
    SplitSepPiecesHaveNoSep(line, 1);
    StripKeepsNoSep(piece);
    Ok(Strip(piece))
  }

  /** A line has a value exactly when it contains "= ". */
  lemma ConfigValueDefined(line: string)
    ensures ConfigValue(line).Ok? <==> exists j :: SepAt(line, j)
  {
    if FindSep(line).Some? {
      assert SepAt(line, FindSep(line).value);
    }
  }

  /** A line `key= value` gives back the stripped value, whatever follows a
      further "= ". */
  lemma ConfigValueOfLine(key: string, value: string, rest: string)
    requires FindSep(key).None? && FindSep(value).None?
    ensures ConfigValue(key + "= " + value) == Ok(Strip(value))
    ensures ConfigValue(key + "= " + value + "= " + rest) == Ok(Strip(value))
  {
    SepAfter(key, value);
    SepAfter(value, rest);
    assert key + "= " + value + "= " + rest == key + "= " + (value + "= " + rest);
    SepAfter(key, value + "= " + rest);
  }

  /** Every line of `lines` converted, or the failure of the first that has no "= ". */
  function ConfigValues(lines: seq<string>): Result<seq<string>>
  {
    MapResult(lines, ConfigValue)
  }

  /** The conversion succeeds exactly when every line has a "= ", and then
      holds each line's value at the line's position. */
  lemma ConfigValuesMeaning(lines: seq<string>)
    ensures ConfigValues(lines).Ok? <==> forall i :: 0 <= i < |lines| ==> ConfigValue(lines[i]).Ok?
    ensures ConfigValues(lines).Fail? ==> ConfigValues(lines).error == IndexError
    ensures ConfigValues(lines).Ok? ==> |ConfigValues(lines).value| == |lines|
    ensures ConfigValues(lines).Ok? ==>
              forall i :: 0 <= i < |lines| ==> ConfigValues(lines).value[i] == ConfigValue(lines[i]).value
  {
    MapResultMeaning(lines, ConfigValue);
  }

  /** A converted line differs from the line being converted, which still
      holds its "= ". */
  lemma ConvertedDiffer(lines: seq<string>, temp: seq<string>, i: nat)
    requires i < |lines| == |temp| && temp[i] == lines[i] && ConfigValue(lines[i]).Ok?
    requires ConfigValues(lines[..i]) == Ok(temp[..i])
    ensures forall j :: 0 <= j < i ==> temp[j] != temp[i]
  {
    ConfigValuesMeaning(lines[..i]);
    ConfigValueDefined(lines[i]);
    assert FindSep(temp[i]).Some?;
    forall j | 0 <= j < i ensures FindSep(temp[j]).None? {
      assert temp[j] == temp[..i][j] == ConfigValue(lines[..i][j]).value;
    }
  }

  /** `temp.index(line)` finds the loop's own position. */
  lemma ConvertIndex(lines: seq<string>, temp: seq<string>, i: nat)
    requires i < |lines| == |temp| && temp[i] == lines[i] && ConfigValue(lines[i]).Ok?
    requires ConfigValues(lines[..i]) == Ok(temp[..i])
    ensures FirstIndex(temp, temp[i]) == i
  {
    ConvertedDiffer(lines, temp, i);
    FirstIndexUnique(temp, temp[i], i);
  }

  /** Converting one more line extends the converted prefix by its value. */
  lemma ConvertPrefix(lines: seq<string>, done: seq<string>, i: nat, value: string)
    requires i < |lines| && ConfigValues(lines[..i]) == Ok(done) && ConfigValue(lines[i]) == Ok(value)
    ensures ConfigValues(lines[..i + 1]) == Ok(done + [value])
  {
    MapResultStep(lines, i, ConfigValue);
  }

  /** Writing at position `i` of a list whose tail from `i` on is that of
      `lines` extends its head by the value written. */
  lemma WriteAt<T>(lines: seq<T>, temp: seq<T>, i: nat, value: T)
    requires i < |lines| && |temp| == |lines| && temp[i..] == lines[i..]
    ensures temp[i] == lines[i]
    ensures temp[i := value][..i + 1] == temp[..i] + [value]
    ensures temp[i := value][i + 1..] == lines[i + 1..]
  {
    assert temp[i] == temp[i..][0];
    assert temp[i + 1..] == temp[i..][1..];
  }

  /** One step of the conversion loop: `temp.index(line)` finds position `i`,
      and writing the value there extends the converted prefix by one line. */
  lemma ConvertStep(lines: seq<string>, temp: seq<string>, i: nat, value: string)
    requires i < |lines| && |temp| == |lines| && temp[i..] == lines[i..]
    requires ConfigValues(lines[..i]) == Ok(temp[..i])
    requires ConfigValue(lines[i]) == Ok(value)
    ensures FirstIndex(temp, temp[i]) == i
    ensures var next := temp[i := value];
            |next| == |lines| && next[i + 1..] == lines[i + 1..] &&
            ConfigValues(lines[..i + 1]) == Ok(next[..i + 1])
  {
    WriteAt(lines, temp, i, value);
    ConvertIndex(lines, temp, i);
    ConvertPrefix(lines, temp[..i], i, value);
  }

  /** The first loop of `update` on one module file: each line is replaced, in
      place, by its value at the position `temp.index(line)` finds. That
      position is the loop's own because no converted value contains "= "
      while the line being converted does. */
  method ConvertLines(lines: seq<string>) returns (r: Result<seq<string>>)
    ensures r == ConfigValues(lines)
  {
    var temp := lines;
    for i := 0 to |lines|
      invariant |temp| == |lines| && temp[i..] == lines[i..]
      invariant ConfigValues(lines[..i]) == Ok(temp[..i])
    {
      var line := temp[i];
      assert line == temp[i..][0] == lines[i];
      var value := ConfigValue(line);
      if value.Fail? {
        ConfigValuesMeaning(lines);
        return Fail(value.error);
      }
      ConvertStep(lines, temp, i, value.value);
      var k := FirstIndex(temp, line);
      temp := temp[k := value.value];
    }
    assert lines[..|lines|] == lines && temp[..|lines|] == temp;
    r := Ok(temp);
  }

  /** The settings file: where images go and how many downloads run at once. */
  datatype Settings = Settings(downloadPath: string, maxDownloads: int)

  /** `read_settings` on the lines of the settings file: the value of its first
      line is the download path, the value of its second the number of parallel
      downloads, through `int`. */
  function ReadSettings(lines: seq<string>): (r: Result<Settings>)
    ensures r.Ok? ==> |lines| >= 2
    ensures r.Ok? ==> Ok(r.value.downloadPath) == ConfigValue(lines[0])
    ensures r.Ok? ==> ConfigValue(lines[1]).Ok? &&
                      Ok(r.value.maxDownloads) == ParseInt(ConfigValue(lines[1]).value)
  {
    var first :- PyIndex(lines, 0);
    var path :- ConfigValue(first);
    var second :- PyIndex(lines, 1);
    var count :- ConfigValue(second);
    var n :- ParseInt(count);
    Ok(Settings(path, n))
  }

  /** Two well-formed lines, the second holding a written number, give back the
      path and that number, whatever lines follow. */
  lemma ReadSettingsOfLines(k1: string, path: string, k2: string, n: int, more: seq<string>)
    requires FindSep(k1).None? && FindSep(path).None? && FindSep(k2).None?
    ensures ReadSettings([k1 + "= " + path, k2 + "= " + ShowInt(n)] + more)
              == Ok(Settings(Strip(path), n))
  {
    var lines := [k1 + "= " + path, k2 + "= " + ShowInt(n)] + more;
    assert lines[0] == k1 + "= " + path && lines[1] == k2 + "= " + ShowInt(n);
    ConfigValueOfLine(k1, path, "");
    ShowIntPlain(n);
    ConfigValueOfLine(k2, ShowInt(n), "");
    ParseShowInt(n);
  }

  /** A settings file of fewer than two lines raises `IndexError`, whatever
      its one line holds. */
  lemma ReadSettingsTooShort(line: string)
    ensures ReadSettings([]) == Fail(IndexError)
    ensures ReadSettings([line]) == Fail(IndexError)
  {
  }

  /** `f"{download_path}/{category}"`: the directory a category's images go to. */
  function DestinationDir(downloadPath: string, category: string): string
  {
    downloadPath + "/" + category
  }

  /** The category is the last path component of its directory. */
  lemma DestinationDirEndsInCategory(downloadPath: string, category: string)
    requires '/' !in category
    ensures LastPiece(DestinationDir(downloadPath, category), '/') == category
  {
    assert DestinationDir(downloadPath, category) == downloadPath + ['/'] + category;
    LastPieceAfter(downloadPath, '/', category);
  }
}
