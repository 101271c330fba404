/** The manifest as `main` writes it: the lines of the chosen format inside one outer block
    (gen_patch.py lines 597-608). */
module Render {
  import opened Wrappers
  import opened Text
  import opened Braces
  import opened Errors
  import Flat
  import Curly

  /** `opts.get("output_format", "curly")`: the configured format, `curly` when none is set. */
  function ConfiguredFormat(setting: Option<string>): (r: string)
    ensures setting.Some? ==> r == setting.value
  {
    match setting
    case None => "curly"
    case Some(s) => s
  }

  /** `(output_format or "flat").lower()`: an empty setting means `flat`, and letter case
      does not matter. */
  function FormatName(outputFormat: string): (r: string)
    ensures |r| == if outputFormat == "" then 4 else |outputFormat|
    ensures outputFormat == "" ==> r == "flat"
    ensures forall i :: 0 <= i < |r| ==> !('A' <= r[i] <= 'Z')
  {
    var name := LowerAscii(if outputFormat == "" then "flat" else outputFormat);
    assert outputFormat == "" ==> name[0] == 'f' && name[1] == 'l' && name[2] == 'a' && name[3] == 't';
    name
  }

  /** `["{"] + lines + ["}"]`: the outer block around the formatted lines. */
  function Wrap(lines: seq<string>): (r: seq<string>)
    ensures |r| == |lines| + 2
    ensures r[0] == "{" && r[|r| - 1] == "}" && r[1..|r| - 1] == lines
  {
    ["{"] + lines + ["}"]
  }

  /** The manifest for a configured format, or the error that stops the run when the
      format is neither `flat` nor `curly`. */
  ghost function Manifest(outputFormat: string, order: string, included: seq<string>, spec: set<string>, m: set<string>): Result<seq<string>, Fatal>
  {
    var fmt := FormatName(outputFormat);
    if fmt == "flat" then Ok(Wrap(Flat.FlatLines(included, spec, m, order)))
    else if fmt == "curly" then Ok(Wrap(Curly.CurlyLines(included, spec, m)))
    else Err(UnknownFormat(outputFormat))
  }

  /** The output step of `main`: builds the lines of the chosen format and wraps them. */
  method BuildManifest(outputFormat: string, order: string, included: seq<string>, spec: set<string>, m: set<string>)
    returns (r: Result<seq<string>, Fatal>)
    ensures r == Manifest(outputFormat, order, included, spec, m)
  {
    var fmt := FormatName(outputFormat);
    var lines;
    if fmt == "flat" {
      lines := Flat.BuildFlat(included, spec, m, order);
    } else if fmt == "curly" {
      lines := Curly.BuildCurly(included, spec, m);
    } else {
      return Err(UnknownFormat(outputFormat));
    }
    r := Ok(Wrap(lines));
  }

  // ----- Properties

  /** The format name does not depend on the letter case of the setting. */
  lemma FormatIgnoresCase(outputFormat: string)
    ensures FormatName(LowerAscii(outputFormat)) == FormatName(outputFormat)
  {
    if outputFormat != "" {
      LowerAsciiIdempotent(outputFormat);
    }
  }

  /** With no setting the format is `curly`; an empty setting means `flat`. */
  lemma DefaultFormats()
    ensures FormatName(ConfiguredFormat(None)) == "curly"
    ensures FormatName("") == "flat"
  {
    var curly := LowerAscii("curly");
    assert curly[0] == 'c' && curly[1] == 'u' && curly[2] == 'r' && curly[3] == 'l' && curly[4] == 'y';
    var flat := LowerAscii("flat");
    assert flat[0] == 'f' && flat[1] == 'l' && flat[2] == 'a' && flat[3] == 't';
  }

  /** A manifest is produced exactly for the settings naming `flat` or `curly`, in any letter
      case; any other setting stops the run with an error naming it. */
  lemma ManifestOrError(outputFormat: string, order: string, included: seq<string>, spec: set<string>, m: set<string>)
    ensures Manifest(outputFormat, order, included, spec, m).Ok?
      <==> FormatName(outputFormat) == "flat" || FormatName(outputFormat) == "curly"
    ensures Manifest(outputFormat, order, included, spec, m).Err?
      ==> Manifest(outputFormat, order, included, spec, m).error == UnknownFormat(outputFormat)
  {
  }

  /** The wrapped lines open with `{` and close with `}`, and the outer block keeps balanced
      lines balanced with every one of them inside it. */
  lemma WrapBalanced(lines: seq<string>)
    requires Balanced(lines)
    ensures Balanced(Wrap(lines))
    ensures forall k :: 1 <= k <= |lines| + 1 ==> Depth(Wrap(lines)[..k]) >= 1
  {
    BraceLines();
    Wrapped("{", lines, "}");
  }

  /** Lines each of which leaves the depth as it is are balanced, in any order. */
  lemma NeutralLines(lines: seq<string>)
    requires forall x :: x in lines ==> Delta(x) == 0
    ensures Balanced(lines)
  {
    forall i | 0 <= i < |lines|
      ensures Delta(lines[i]) == 0
    {
      assert lines[i] in lines;
    }
    NeutralBalanced(lines);
  }

  /** A `+`-marked line opens and closes nothing. */
  lemma MarkedNeutral(x: string)
    ensures Delta("+" + x) == 0
  {
    assert ("+" + x)[0] == '+';
  }

  /** A line ending in a suffix that does not end in a brace does not end in one either. */
  lemma SuffixBraceFree(line: string, suffix: string)
    requires EndsWith(line, suffix) && BraceFree(suffix)
    ensures BraceFree(line)
  {
    assert line[|line| - 1] == line[|line| - |suffix|..][|suffix| - 1];
  }

  /** A flat line, a `.m` path or a `+`-marked line, opens and closes nothing. */
  lemma FlatLineNeutral(line: string, m: set<string>, suffix: string)
    requires BraceFree(suffix) && forall p :: p in m ==> EndsWith(p, suffix)
    requires line in m || (|line| > 0 && line[0] == '+')
    ensures Delta(line) == 0
  {
    if line in m {
      SuffixBraceFree(line, suffix);
      NeutralLine(line);
    } else {
      assert line == "+" + line[1..];
      MarkedNeutral(line[1..]);
    }
  }

  /** When every `.m` path ends in `.m`, the flat manifest opens and closes no block. */
  lemma FlatBalanced(included: seq<string>, spec: set<string>, m: set<string>, order: string)
    requires forall p :: p in m ==> EndsWith(p, ".m")
    ensures Balanced(Flat.FlatLines(included, spec, m, order))
  {
    var lines := Flat.FlatLines(included, spec, m, order);
    assert BraceFree(".m");
    forall x | x in lines
      ensures Delta(x) == 0
    {
      Flat.FlatMembers(included, spec, m, order, x);
      FlatLineNeutral(x, m, ".m");
    }
    NeutralLines(lines);
  }

  /** Whatever the format, a produced manifest closes every block it opens and never closes
      one that is not open, given `.m` paths that end in `.m` and `.spec` paths that end in
      `.spec`. */
  lemma ManifestBalanced(outputFormat: string, order: string, included: seq<string>, spec: set<string>, m: set<string>)
    requires forall p :: p in m ==> EndsWith(p, ".m")
    requires forall p :: p in spec ==> EndsWith(p, ".spec")
    ensures Manifest(outputFormat, order, included, spec, m).Ok? ==> Balanced(Manifest(outputFormat, order, included, spec, m).value)
  {
    var fmt := FormatName(outputFormat);
    if fmt == "flat" {
      FlatBalanced(included, spec, m, order);
      WrapBalanced(Flat.FlatLines(included, spec, m, order));
    } else if fmt == "curly" {
      Curly.CurlyBalanced(included, spec, m);
      WrapBalanced(Curly.CurlyLines(included, spec, m));
    }
  }

  /** The flat manifest holds one line per included spec and per selected file, plus the
      outer braces. */
  lemma FlatManifestCount(outputFormat: string, order: string, included: seq<string>, spec: set<string>, m: set<string>)
    requires FormatName(outputFormat) == "flat"
    ensures Manifest(outputFormat, order, included, spec, m).Ok?
    ensures |Manifest(outputFormat, order, included, spec, m).value| == |included| + |spec| + |m| + 2
  {
    Flat.FlatCount(included, spec, m, order);
  }
}
