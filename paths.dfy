/**
 * The part of Python's `os.path.splitext` (POSIX flavour) that the exporters use to
 * derive an output name from the SVG path: the last `.ext` of the final path
 * component is split off, unless every character before that dot in the component
 * is itself a dot (so `.svg` and `..svg` have no extension).
 */
module Paths {

  /** `s.rfind(c)`: the index of the last `c` in `s`, or -1 when there is none. */
  function LastIndexOf(s: string, c: char): (r: int)
    ensures -1 <= r < |s|
    ensures r >= 0 ==> s[r] == c
    ensures forall j :: r < j < |s| ==> s[j] != c
  {
    if s == [] then -1
    else if s[|s| - 1] == c then |s| - 1
    else LastIndexOf(s[..|s| - 1], c)
  }

  predicate AllDots(s: string) {
    forall i :: 0 <= i < |s| ==> s[i] == '.'
  }

  /** An extension as splitext returns it: a dot followed by no dot and no separator. */
  predicate IsExtension(e: string) {
    |e| >= 1 && e[0] == '.' && '.' !in e[1..] && '/' !in e
  }

  /** The text after the last `/`. */
  function FinalComponent(p: string): string {
    p[LastIndexOf(p, '/') + 1..]
  }

  /** The text from the last dot on, when that dot follows the last `/`, is an extension. */
  lemma TextFromLastDot(p: string, sepIndex: int, dotIndex: int)
    requires -1 <= sepIndex < dotIndex < |p| && p[dotIndex] == '.'
    requires forall j :: dotIndex < j < |p| ==> p[j] != '.'
    requires forall j :: sepIndex < j < |p| ==> p[j] != '/'
    ensures p[..dotIndex] + p[dotIndex..] == p
    ensures IsExtension(p[dotIndex..])
  {
    var e := p[dotIndex..];
    assert forall k :: 0 <= k < |e| ==> e[k] == p[dotIndex + k];
    assert forall k :: 0 <= k < |e[1..]| ==> e[1..][k] == p[dotIndex + 1 + k];
  }

  /** `os.path.splitext(p)`, as the pair (root, ext). */
  function Splitext(p: string): (parts: (string, string))
    ensures parts.0 + parts.1 == p
    ensures parts.1 == "" || IsExtension(parts.1)
  {
    var sepIndex := LastIndexOf(p, '/');
    var dotIndex := LastIndexOf(p, '.');
    if dotIndex > sepIndex && !AllDots(p[sepIndex + 1..dotIndex]) then
      TextFromLastDot(p, sepIndex, dotIndex);
      (p[..dotIndex], p[dotIndex..])
    else
      (p, "")
  }

  /** `os.path.splitext(p)[0]`. */
  function Root(p: string): string {
    Splitext(p).0
  }

  /** Position `j` holds a dot that follows the non-dot at `i`, both in the final component. */
  predicate DotAfterStemAt(p: string, i: int, j: int) {
    LastIndexOf(p, '/') < i < j < |p| && p[i] != '.' && p[j] == '.'
  }

  ghost predicate HasDotAfterStem(p: string) {
    exists i, j :: DotAfterStemAt(p, i, j)
  }

  /** A non-dot between the last `/` and a dot after it is a stem that dot follows. */
  lemma StemBeforeDot(p: string, sepIndex: int, dotIndex: int)
    requires sepIndex == LastIndexOf(p, '/') && sepIndex < dotIndex < |p| && p[dotIndex] == '.'
    requires !AllDots(p[sepIndex + 1..dotIndex])
    ensures HasDotAfterStem(p)
  {
    var between := p[sepIndex + 1..dotIndex];
    var k :| 0 <= k < |between| && between[k] != '.';
    assert between[k] == p[sepIndex + 1 + k];
    assert DotAfterStemAt(p, sepIndex + 1 + k, dotIndex);
  }

  lemma ExtensionHasStem(p: string)
    requires Splitext(p).1 != ""
    ensures HasDotAfterStem(p)
  {
    StemBeforeDot(p, LastIndexOf(p, '/'), LastIndexOf(p, '.'));
  }

  lemma StemHasExtension(p: string, i: int, j: int)
    requires DotAfterStemAt(p, i, j)
    ensures Splitext(p).1 != ""
  {
    var sepIndex := LastIndexOf(p, '/');
    var dotIndex := LastIndexOf(p, '.');
    assert j <= dotIndex;
    var between := p[sepIndex + 1..dotIndex];
    assert between[i - sepIndex - 1] == p[i];
    assert !AllDots(between);
  }

  /** splitext finds an extension exactly when, in the final component, some dot follows
      a character that is not a dot. */
  lemma ExtensionIff(p: string)
    ensures Splitext(p).1 != "" <==> HasDotAfterStem(p)
  {
    if Splitext(p).1 != "" {
      ExtensionHasStem(p);
    }
    if HasDotAfterStem(p) {
      var i, j :| DotAfterStemAt(p, i, j);
      StemHasExtension(p, i, j);
    }
  }

  lemma LastIndexOfAppend(p: string, e: string, c: char)
    requires c !in e
    ensures LastIndexOf(p + e, c) == LastIndexOf(p, c)
  {
    var r := LastIndexOf(p, c);
    forall j | |p| <= j < |p + e|
      ensures (p + e)[j] != c
    {
      assert (p + e)[j] == e[j - |p|];
    }
    if r >= 0 {
      assert (p + e)[r] == c;
    }
  }

  lemma LastIndexOfExtension(p: string, e: string)
    requires IsExtension(e)
    ensures LastIndexOf(p + e, '.') == |p|
  {
    assert (p + e)[|p|] == '.';
    forall j | |p| < j < |p + e|
      ensures (p + e)[j] != '.'
    {
      assert (p + e)[j] == e[1..][j - |p| - 1];
    }
  }

  /** Appending an extension to a path whose final component is not all dots is undone by
      splitext: the root is the path and the extension is what was appended. */
  lemma AppendExtension(p: string, e: string)
    requires IsExtension(e) && !AllDots(FinalComponent(p))
    ensures Splitext(p + e) == (p, e)
  {
    LastIndexOfAppend(p, e, '/');
    LastIndexOfExtension(p, e);
    var sepIndex := LastIndexOf(p, '/');
    assert (p + e)[sepIndex + 1..|p|] == FinalComponent(p);
    assert (p + e)[..|p|] == p && (p + e)[|p|..] == e;
  }

  /** Replacing the extension of a path that has one: the new name splits into the old
      root and the new extension, e.g. `a/b.svg` to `a/b.html`. */
  lemma ReplaceExtension(p: string, e: string)
    requires IsExtension(e) && Splitext(p).1 != ""
    ensures Splitext(Root(p) + e) == (Root(p), e)
  {
    var sepIndex := LastIndexOf(p, '/');
    var dotIndex := LastIndexOf(p, '.');
    var root := p[..dotIndex];
    assert Root(p) == root;
    assert p == root + p[dotIndex..];
    assert IsExtension(p[dotIndex..]);
    LastIndexOfAppend(root, p[dotIndex..], '/');
    assert FinalComponent(root) == p[sepIndex + 1..dotIndex];
    AppendExtension(root, e);
  }

  /** A name made only of a leading dot and an extension-like tail has no extension:
      splitext(".svg") is (".svg", ""). */
  lemma DotfileHasNoExtension(e: string)
    requires IsExtension(e)
    ensures Splitext(e) == (e, "")
  {
    LastIndexOfAppend("", e, '/');
    LastIndexOfExtension("", e);
    assert "" + e == e;
  }
}
