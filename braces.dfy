/** Brace structure of a manifest: a line that is `{` after its indentation opens a block,
    one that is `}` after its indentation closes one, and every other line leaves the
    nesting depth as it is. */
module Braces {
  import opened Text

  /** The line is the character `c` behind nothing but spaces. */
  predicate Indented(line: string, c: char)
  {
    |line| > 0 && line[|line| - 1] == c && forall i :: 0 <= i < |line| - 1 ==> line[i] == ' '
  }

  predicate IsOpen(line: string)
  {
    Indented(line, '{')
  }

  predicate IsClose(line: string)
  {
    Indented(line, '}')
  }

  /** How a line changes the nesting depth. */
  function Delta(line: string): int
  {
    if IsOpen(line) then 1 else if IsClose(line) then -1 else 0
  }

  /** The nesting depth after the given lines. */
  function Depth(lines: seq<string>): int
  {
    if |lines| == 0 then 0
    else Depth(lines[..|lines| - 1]) + Delta(lines[|lines| - 1])
  }

  /** Every block that is opened is closed, and no line closes a block that is not open. */
  predicate Balanced(lines: seq<string>)
  {
    Depth(lines) == 0 && forall k :: 0 <= k <= |lines| ==> Depth(lines[..k]) >= 0
  }

  /** The brace lines of the manifests: unindented and indented by two. */
  lemma BraceLines()
    ensures IsOpen("{") && IsClose("}") && IsOpen("  {") && IsClose("  }")
  {
    assert "  {"[2] == '{' && "  }"[2] == '}';
  }

  /** A line ending in something other than a brace. */
  predicate BraceFree(line: string)
  {
    |line| > 0 && line[|line| - 1] != '{' && line[|line| - 1] != '}'
  }

  /** A line ending in a slash, as a directory header does, does not end in a brace. */
  lemma SlashEnded(s: string)
    ensures BraceFree(s + "/")
  {
    assert (s + "/")[|s|] == '/';
  }

  /** A line that does not end in a brace leaves the depth as it is. */
  lemma NeutralLine(line: string)
    requires BraceFree(line)
    ensures Delta(line) == 0
  {
  }

  /** Lines made of a prefix and a name that does not end in a brace are balanced. */
  lemma PrefixedBalanced(pre: string, names: seq<string>)
    requires forall x :: x in names ==> BraceFree(x)
    ensures Balanced(Prefixed(pre, names))
  {
    var lines := Prefixed(pre, names);
    forall i | 0 <= i < |lines|
      ensures Delta(lines[i]) == 0
    {
      assert names[i] in names;
      assert lines[i][|lines[i]| - 1] == names[i][|names[i]| - 1];
      NeutralLine(lines[i]);
    }
    NeutralBalanced(lines);
  }

  /** The depth after two runs of lines is the sum of their depths. */
  lemma {:induction false} DepthConcat(a: seq<string>, b: seq<string>)
    ensures Depth(a + b) == Depth(a) + Depth(b)
  {
    if |b| == 0 {
      assert a + b == a;
    } else {
      var b' := b[..|b| - 1];
      DepthConcat(a, b');
      assert (a + b)[..|a + b| - 1] == a + b';
    }
  }

  /** Lines none of which opens or closes a block are balanced. */
  lemma {:induction false} NeutralBalanced(lines: seq<string>)
    requires forall i :: 0 <= i < |lines| ==> Delta(lines[i]) == 0
    ensures Balanced(lines)
    ensures forall k :: 0 <= k <= |lines| ==> Depth(lines[..k]) == 0
  {
    forall k | 0 <= k <= |lines|
      ensures Depth(lines[..k]) == 0
    {
      NeutralPrefix(lines, k);
    }
    assert lines[..|lines|] == lines;
  }

  lemma {:induction false} NeutralPrefix(lines: seq<string>, k: nat)
    requires k <= |lines|
    requires forall i :: 0 <= i < |lines| ==> Delta(lines[i]) == 0
    ensures Depth(lines[..k]) == 0
  {
    if k > 0 {
      NeutralPrefix(lines, k - 1);
      assert lines[..k][..k - 1] == lines[..k - 1];
    }
  }

  /** A prefix that ends within the first of two runs of lines is a prefix of that run. */
  lemma PrefixWithinFirst(a: seq<string>, b: seq<string>, k: nat)
    requires k <= |a|
    ensures Depth((a + b)[..k]) == Depth(a[..k])
  {
    assert (a + b)[..k] == a[..k];
  }

  /** A prefix that reaches past the first of two runs of lines is that run and a prefix of
      the second. */
  lemma PrefixPastFirst(a: seq<string>, b: seq<string>, k: nat)
    requires |a| <= k <= |a| + |b|
    ensures Depth((a + b)[..k]) == Depth(a) + Depth(b[..k - |a|])
  {
    var b' := b[..k - |a|];
    assert (a + b)[..k] == a + b';
    DepthConcat(a, b');
  }

  /** Two balanced runs of lines in a row are balanced. */
  lemma BalancedConcat(a: seq<string>, b: seq<string>)
    requires Balanced(a) && Balanced(b)
    ensures Balanced(a + b)
  {
    DepthConcat(a, b);
    forall k | 0 <= k <= |a + b|
      ensures Depth((a + b)[..k]) >= 0
    {
      if k <= |a| {
        PrefixWithinFirst(a, b, k);
      } else {
        PrefixPastFirst(a, b, k);
      }
    }
  }

  /** A single line changes the depth by its own delta. */
  lemma DepthOne(line: string)
    ensures Depth([line]) == Delta(line)
  {
    assert [line][..0] == [];
  }

  /** An opening line followed by balanced lines leaves one block open, and every line after
      the opening one sits at least one level deep. */
  lemma Opened(open: string, inner: seq<string>)
    requires IsOpen(open) && Balanced(inner)
    ensures Depth([open] + inner) == 1
    ensures forall k :: 1 <= k <= |inner| + 1 ==> Depth(([open] + inner)[..k]) >= 1
  {
    DepthOne(open);
    DepthConcat([open], inner);
    forall k | 1 <= k <= |inner| + 1
      ensures Depth(([open] + inner)[..k]) >= 1
    {
      PrefixPastFirst([open], inner, k);
    }
  }

  /** Balanced lines between an opening and a closing line are balanced, and every line
      between the two sits at least one level deep. */
  lemma Wrapped(open: string, inner: seq<string>, close: string)
    requires IsOpen(open) && IsClose(close) && Balanced(inner)
    ensures Balanced([open] + inner + [close])
    ensures forall k :: 1 <= k <= |inner| + 1 ==> Depth(([open] + inner + [close])[..k]) >= 1
  {
    var o := [open] + inner;
    Opened(open, inner);
    DepthOne(close);
    DepthConcat(o, [close]);
    forall k | 0 <= k <= |o|
      ensures Depth((o + [close])[..k]) == Depth(o[..k])
    {
      PrefixWithinFirst(o, [close], k);
    }
    assert o[..0] == [];
    assert (o + [close])[..|o| + 1] == o + [close];
  }
}
