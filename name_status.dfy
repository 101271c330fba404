/** Reading the output of `git diff --name-status` and `git diff-tree --name-status`
    (`parse_name_status`, gen_patch.py lines 62-84). */
module NameStatus {
  import opened Wrappers
  import opened Text

  /** One record as git prints it: a status code and a path, or for a rename the
      similarity score after `R` and both paths. */
  datatype Record =
    | Changed(status: string, path: string)
    | Renamed(score: string, source: string, destination: string)

  /** The line git prints for a record: fields separated by tabs. */
  function Format(r: Record): string
  {
    match r
    case Changed(status, path) => status + "\t" + path
    case Renamed(score, source, destination) => "R" + score + "\t" + source + "\t" + destination
  }

  /** The path the tool wants from a record: the path itself, or where a rename went. */
  function Destination(r: Record): string
  {
    match r
    case Changed(_, path) => path
    case Renamed(_, _, destination) => destination
  }

  /** Fields hold no tab or newline, and a plain status is a code that does not start with `R`. */
  predicate WellFormed(r: Record)
  {
    match r
    case Changed(status, path) =>
      status != "" && !IsSpace(status[0]) && status[0] != 'R' &&
      '\t' !in status && '\t' !in path && '\n' !in status && '\n' !in path
    case Renamed(score, source, destination) =>
      '\t' !in score && '\t' !in source && '\t' !in destination &&
      '\n' !in score && '\n' !in source && '\n' !in destination
  }

  /** What `parse_name_status` takes from one line: nothing from a blank line; from a line
      whose status starts with `R`, its third field; from any other line, its second field;
      nothing when that field is missing. */
  function ParseLine(line: string): (r: Option<string>)
    ensures r.Some? ==> '\t' !in r.value
  {
    if Strip(line) == "" then None
    else
      var parts := Split(RStripChar(line, '\n'), '\t');
      if StartsWith(parts[0], "R") then
        if |parts| < 3 then None else Some(parts[2])
      else
        if |parts| < 2 then None else Some(parts[1])
  }

  /** A line made only of whitespace yields nothing. */
  lemma ParseLineSkipsBlank(line: string)
    requires forall i :: 0 <= i < |line| ==> IsSpace(line[i])
    ensures ParseLine(line) == None
  {
    StripEmptyIffBlank(line);
  }

  /** A line with no tab has a single field, so it yields nothing. */
  lemma ParseLineNeedsATab(line: string)
    requires '\t' !in line
    ensures ParseLine(line) == None
  {
    var body := RStripChar(line, '\n');
    assert forall i :: 0 <= i < |body| ==> body[i] == line[i];
    SplitAfterChunk(body, "", '\t');
    assert body + "" == body;
  }

  /** A rename line with only two fields yields nothing. */
  lemma ParseLineShortRename(score: string, path: string)
    requires '\t' !in score && '\t' !in path && '\n' !in path
    ensures ParseLine("R" + score + "\t" + path) == None
  {
    var line := "R" + score + "\t" + path;
    assert line[0] == 'R' && !IsSpace(line[0]);
    StripEmptyIffBlank(line);
    assert line[|line| - 1] != '\n' by {
      if |path| == 0 { assert line[|line| - 1] == '\t'; } else { assert line[|line| - 1] == path[|path| - 1]; }
    }
    assert Join(["R" + score, path], '\t') == line;
    SplitJoin(["R" + score, path], '\t');
  }

  /** A line of two or more tab-free fields whose first field starts with a non-blank
      character and whose last field holds no newline splits back into its fields. */
  lemma SplitFormattedLine(fields: seq<string>)
    requires |fields| >= 2
    requires forall i :: 0 <= i < |fields| ==> '\t' !in fields[i]
    requires fields[0] != "" && !IsSpace(fields[0][0])
    requires '\n' !in fields[|fields| - 1]
    ensures Strip(Join(fields, '\t')) != ""
    ensures Split(RStripChar(Join(fields, '\t'), '\n'), '\t') == fields
  {
    var line := Join(fields, '\t');
    JoinStartsWithFirst(fields, '\t');
    assert line[0] == fields[0][0];
    StripEmptyIffBlank(line);
    JoinEndsWithLast(fields, '\t');
    var end := ['\t'] + fields[|fields| - 1];
    assert line[|line| - 1] == end[|end| - 1];
    assert RStripChar(line, '\n') == line;
    SplitJoin(fields, '\t');
  }

  /** Parsing the line git prints for a plain record gives back its path. */
  lemma ParseFormatChanged(status: string, path: string)
    requires WellFormed(Changed(status, path))
    ensures ParseLine(Format(Changed(status, path))) == Some(path)
  {
    var fields := [status, path];
    assert Join(fields, '\t') == status + "\t" + path by {
      assert Join(fields[1..], '\t') == path;
    }
    SplitFormattedLine(fields);
  }

  /** Parsing the line git prints for a rename gives back where the file went. */
  lemma ParseFormatRenamed(score: string, source: string, destination: string)
    requires WellFormed(Renamed(score, source, destination))
    ensures ParseLine(Format(Renamed(score, source, destination))) == Some(destination)
  {
    var fields := ["R" + score, source, destination];
    assert Join(fields, '\t') == "R" + score + "\t" + source + "\t" + destination by {
      assert fields[1..][1..] == [destination];
      assert Join(fields[1..], '\t') == source + "\t" + destination;
    }
    SplitFormattedLine(fields);
  }

  /** Parsing the line git prints for a record gives back the record's destination path. */
  lemma ParseFormatRoundTrip(r: Record)
    requires WellFormed(r)
    ensures ParseLine(Format(r)) == Some(Destination(r))
  {
    match r
    case Changed(status, path) => ParseFormatChanged(status, path);
    case Renamed(score, source, destination) => ParseFormatRenamed(score, source, destination);
  }

  /** The paths one line contributes: none or one. */
  function Yield(line: string): seq<string>
  {
    var r := ParseLine(line);
    if r.Some? then [r.value] else []
  }

  /** The path list `parse_name_status` returns for a list of lines. */
  function Parsed(lines: seq<string>): seq<string>
  {
    FlatMap(lines, Yield)
  }

  /** Each line contributes its own paths in place: the paths of two runs of lines are the
      paths of the first followed by the paths of the second. */
  lemma ParsedConcat(a: seq<string>, b: seq<string>)
    ensures Parsed(a + b) == Parsed(a) + Parsed(b)
  {
    FlatMapConcat(a, b, Yield);
  }

  /** One line yields at most one path, the one `ParseLine` takes from it. */
  lemma ParsedSingle(line: string)
    ensures Parsed([line]) == Yield(line)
  {
    assert [line][..0] == [];
    assert FlatMap([line], Yield) == FlatMap([line][..0], Yield) + Yield([line][0]);
  }

  /** At most one path per line, and no path holds a tab. */
  lemma {:induction false} ParsedBounds(lines: seq<string>)
    ensures |Parsed(lines)| <= |lines|
    ensures forall i :: 0 <= i < |Parsed(lines)| ==> '\t' !in Parsed(lines)[i]
  {
    if |lines| > 0 {
      ParsedBounds(lines[..|lines| - 1]);
    }
  }

  /** `parse_name_status`: walks the lines in order and appends the path each one yields. */
  method ParseNameStatus(lines: seq<string>) returns (paths: seq<string>)
    ensures paths == Parsed(lines)
    ensures |paths| <= |lines|
  {
    paths := [];
    for i := 0 to |lines|
      invariant paths == Parsed(lines[..i])
    {
      var line := lines[i];
      assert lines[..i + 1][..i] == lines[..i];
      if Strip(line) == "" {
        continue;
      }
      var parts := Split(RStripChar(line, '\n'), '\t');
      var status := parts[0];
      if StartsWith(status, "R") {
        if |parts| < 3 {
          continue;
        }
        paths := paths + [parts[2]];
      } else {
        if |parts| < 2 {
          continue;
        }
        paths := paths + [parts[1]];
      }
    }
    assert lines[..|lines|] == lines;
    ParsedBounds(lines);
  }
}
