/**
 * The slice of Python's string semantics the pipeline relies on:
 * `str.replace` and `str.count` (leftmost, non-overlapping matches),
 * `str.split` with a separator, `str.endswith`, the `%` operator with a
 * single string argument, and the way a DOM `classList` reads a `class`
 * attribute.
 */
module Text {
  import opened Outcomes

  predicate IsPrefix(p: string, s: string) {
    |p| <= |s| && s[..|p|] == p
  }

  /** `s.endswith(suffix)`. */
  predicate EndsWith(s: string, suffix: string) {
    |suffix| <= |s| && s[|s| - |suffix|..] == suffix
  }

  /** `p in s`: some position of `s` starts an occurrence of `p`. */
  predicate Contains(s: string, p: string) {
    exists i :: 0 <= i <= |s| && IsPrefix(p, s[i..])
  }

  /** `s.count(p)`: occurrences found scanning left to right, each match skipping past itself. */
  function Count(s: string, p: string): nat
    requires |p| > 0
    decreases |s|
  {
    if |s| < |p| then 0
    else if IsPrefix(p, s) then 1 + Count(s[|p|..], p)
    else Count(s[1..], p)
  }

  /** Every position at which `p` occurs, overlapping occurrences included. */
  function CountAll(s: string, p: string): nat
    requires |p| > 0
    decreases |s|
  {
    if |s| < |p| then 0
    else (if IsPrefix(p, s) then 1 else 0) + CountAll(s[1..], p)
  }

  /** `s.replace(p, r)`: every match of the left-to-right scan becomes `r`. */
  function ReplaceAll(s: string, p: string, r: string): string
    requires |p| > 0
    decreases |s|
  {
    if |s| < |p| then s
    else if IsPrefix(p, s) then r + ReplaceAll(s[|p|..], p, r)
    else [s[0]] + ReplaceAll(s[1..], p, r)
  }

  /** `s.split(p)`: the text before, between and after the matches of the same scan. */
  function Split(s: string, p: string): (pieces: seq<string>)
    requires |p| > 0
    ensures |pieces| >= 1
    ensures IsPrefix(pieces[0], s)
    decreases |s|
  {
    if |s| < |p| then [s]
    else if IsPrefix(p, s) then [""] + Split(s[|p|..], p)
    else
      var rest := Split(s[1..], p);
      [[s[0]] + rest[0]] + rest[1..]
  }

  /** `sep.join(pieces)`. */
  function Join(pieces: seq<string>, sep: string): string
    requires |pieces| >= 1
  {
    if |pieces| == 1 then pieces[0] else pieces[0] + sep + Join(pieces[1..], sep)
  }

  /** A pattern no two of whose occurrences can overlap: no proper suffix is also a prefix. */
  predicate NoSelfOverlap(p: string) {
    forall k :: 0 < k < |p| ==> p[k..] != p[..|p| - k]
  }

  lemma JoinCons(x: string, rest: seq<string>, sep: string)
    requires |rest| >= 1
    ensures Join([x] + rest, sep) == x + sep + Join(rest, sep)
  {
    assert ([x] + rest)[1..] == rest;
  }

  lemma JoinExtendFirst(c: char, pieces: seq<string>, sep: string)
    requires |pieces| >= 1
    ensures Join([[c] + pieces[0]] + pieces[1..], sep) == [c] + Join(pieces, sep)
  {
    if |pieces| > 1 {
      JoinCons([c] + pieces[0], pieces[1..], sep);
      JoinCons(pieces[0], pieces[1..], sep);
      assert pieces == [pieces[0]] + pieces[1..];
    }
  }

  /** Joining the pieces of a split with the separator gives back the original text. */
  lemma {:induction false} SplitJoin(s: string, p: string)
    requires |p| > 0
    ensures Join(Split(s, p), p) == s
    decreases |s|
  {
    if |s| < |p| {
    } else if IsPrefix(p, s) {
      SplitJoin(s[|p|..], p);
      JoinCons("", Split(s[|p|..], p), p);
      assert s == p + s[|p|..];
    } else {
      SplitJoin(s[1..], p);
      JoinExtendFirst(s[0], Split(s[1..], p), p);
      assert s == [s[0]] + s[1..];
    }
  }

  /** Replacing is splitting at the matches and joining the pieces with the replacement:
      the text between matches is kept and every match becomes `r`. */
  lemma {:induction false} ReplaceAllIsJoin(s: string, p: string, r: string)
    requires |p| > 0
    ensures ReplaceAll(s, p, r) == Join(Split(s, p), r)
    decreases |s|
  {
    if |s| < |p| {
    } else if IsPrefix(p, s) {
      ReplaceAllIsJoin(s[|p|..], p, r);
      JoinCons("", Split(s[|p|..], p), r);
    } else {
      ReplaceAllIsJoin(s[1..], p, r);
      JoinExtendFirst(s[0], Split(s[1..], p), r);
    }
  }

  lemma ShorterAvoids(s: string, p: string)
    requires |s| < |p|
    ensures !Contains(s, p)
  {
  }

  lemma ConsAvoids(c: char, t: string, s: string, p: string)
    requires |p| > 0 && |s| >= 1 && s[0] == c && IsPrefix(t, s[1..])
    requires !IsPrefix(p, s) && !Contains(t, p)
    ensures !Contains([c] + t, p)
  {
    var x := [c] + t;
    forall i | 0 <= i <= |x|
      ensures !IsPrefix(p, x[i..])
    {
      if i == 0 {
        if |p| <= |x| {
          assert x[..|p|] == s[..|p|];
        }
      } else {
        assert x[i..] == t[i - 1..];
      }
    }
  }

  /** No piece of a split contains the separator. */
  lemma {:induction false} SplitPiecesAvoid(s: string, p: string)
    requires |p| > 0
    ensures forall k :: 0 <= k < |Split(s, p)| ==> !Contains(Split(s, p)[k], p)
    decreases |s|
  {
    if |s| < |p| {
      ShorterAvoids(s, p);
    } else if IsPrefix(p, s) {
      SplitPiecesAvoid(s[|p|..], p);
      ShorterAvoids("", p);
    } else {
      var rest := Split(s[1..], p);
      SplitPiecesAvoid(s[1..], p);
      ConsAvoids(s[0], rest[0], s, p);
    }
  }

  /** A split has one piece more than there are matches. */
  lemma {:induction false} SplitCount(s: string, p: string)
    requires |p| > 0
    ensures |Split(s, p)| == Count(s, p) + 1
    decreases |s|
  {
    if |s| < |p| {
    } else if IsPrefix(p, s) {
      SplitCount(s[|p|..], p);
    } else {
      SplitCount(s[1..], p);
    }
  }

  lemma ContainsTail(s: string, p: string)
    requires |s| > 0 && !IsPrefix(p, s)
    ensures Contains(s, p) <==> Contains(s[1..], p)
  {
    if Contains(s, p) {
      var i :| 0 <= i <= |s| && IsPrefix(p, s[i..]);
      assert i != 0;
      assert s[1..][i - 1..] == s[i..];
    }
    if Contains(s[1..], p) {
      var i :| 0 <= i <= |s[1..]| && IsPrefix(p, s[1..][i..]);
      assert s[1..][i..] == s[i + 1..];
    }
  }

  /** `p in s` exactly when `s.count(p)` is positive. */
  lemma {:induction false} ContainsIffCount(s: string, p: string)
    requires |p| > 0
    ensures Contains(s, p) <==> Count(s, p) > 0
    decreases |s|
  {
    if |s| < |p| {
      ShorterAvoids(s, p);
    } else if IsPrefix(p, s) {
      assert s[0..] == s;
    } else {
      ContainsIffCount(s[1..], p);
      ContainsTail(s, p);
    }
  }

  lemma MultiplySuccessor(n: int, d: int)
    ensures (1 + n) * d == d + n * d
  {
  }

  /** Every match grows or shrinks the text by the difference in length of `r` and `p`. */
  lemma {:induction false} ReplaceAllLength(s: string, p: string, r: string)
    requires |p| > 0
    ensures |ReplaceAll(s, p, r)| == |s| + Count(s, p) * (|r| - |p|)
    decreases |s|
  {
    var d := |r| - |p|;
    if |s| < |p| {
      assert Count(s, p) == 0;
    } else if IsPrefix(p, s) {
      ReplaceAllLength(s[|p|..], p, r);
      var n := Count(s[|p|..], p);
      assert Count(s, p) == 1 + n;
      assert |ReplaceAll(s, p, r)| == |r| + |ReplaceAll(s[|p|..], p, r)|;
      MultiplySuccessor(n, d);
    } else {
      ReplaceAllLength(s[1..], p, r);
      assert Count(s, p) == Count(s[1..], p);
      assert |ReplaceAll(s, p, r)| == 1 + |ReplaceAll(s[1..], p, r)|;
    }
  }

  /** A text without the pattern splits into itself alone. */
  lemma SplitWithoutSeparator(s: string, p: string)
    requires |p| > 0 && !Contains(s, p)
    ensures Split(s, p) == [s]
  {
    ContainsIffCount(s, p);
    SplitCount(s, p);
    SplitJoin(s, p);
  }

  /** When the replacement has a different length, replacing changes the text exactly when
      the pattern occurs in it. */
  lemma ReplaceAllUnchangedIff(s: string, p: string, r: string)
    requires |p| > 0 && |r| != |p|
    ensures ReplaceAll(s, p, r) == s <==> !Contains(s, p)
  {
    ContainsIffCount(s, p);
    ReplaceAllLength(s, p, r);
    if !Contains(s, p) {
      SplitWithoutSeparator(s, p);
      ReplaceAllIsJoin(s, p, r);
    } else {
      ProductNonZero(Count(s, p), |r| - |p|);
    }
  }

  lemma ProductNonZero(n: int, d: int)
    requires n >= 1 && d != 0
    ensures n * d != 0
  {
  }

  lemma {:induction false} CountAllSkip(s: string, p: string, k: nat)
    requires |p| > 0 && k <= |s|
    requires forall j :: 0 <= j < k ==> !IsPrefix(p, s[j..])
    ensures CountAll(s, p) == CountAll(s[k..], p)
    decreases k
  {
    if k == 0 {
      assert s[0..] == s;
    } else if |s| < |p| {
    } else {
      assert s[0..] == s;
      forall j | 0 <= j < k - 1
        ensures !IsPrefix(p, s[1..][j..])
      {
        assert s[1..][j..] == s[j + 1..];
      }
      CountAllSkip(s[1..], p, k - 1);
      assert s[1..][k - 1..] == s[k..];
    }
  }

  lemma NoOverlapAfterMatch(s: string, p: string, j: nat)
    requires NoSelfOverlap(p) && IsPrefix(p, s) && 0 < j < |p|
    ensures !IsPrefix(p, s[j..])
  {
    if |p| <= |s| - j {
      assert s[j..][..|p|][..|p| - j] == s[..|p|][j..];
    }
  }

  lemma CountAllAfterMatch(s: string, p: string)
    requires |p| > 0 && NoSelfOverlap(p) && IsPrefix(p, s)
    ensures CountAll(s, p) == 1 + CountAll(s[|p|..], p)
  {
    forall j | 0 <= j < |p| - 1
      ensures !IsPrefix(p, s[1..][j..])
    {
      assert s[1..][j..] == s[j + 1..];
      NoOverlapAfterMatch(s, p, j + 1);
    }
    CountAllSkip(s[1..], p, |p| - 1);
    assert s[1..][|p| - 1..] == s[|p|..];
  }

  /** For a pattern that cannot overlap itself, the left-to-right count of `str.count` and
      `str.replace` is the number of all positions where the pattern occurs. */
  lemma {:induction false} CountIsCountAll(s: string, p: string)
    requires |p| > 0 && NoSelfOverlap(p)
    ensures Count(s, p) == CountAll(s, p)
    decreases |s|
  {
    if |s| < |p| {
    } else if IsPrefix(p, s) {
      CountAllAfterMatch(s, p);
      CountIsCountAll(s[|p|..], p);
    } else {
      CountIsCountAll(s[1..], p);
    }
  }

  /** With exactly one occurrence of a pattern that cannot overlap itself, replacing all
      occurrences replaces that one and keeps the text on either side. */
  lemma ReplaceAllOnce(s: string, p: string, r: string)
    requires |p| > 0 && NoSelfOverlap(p) && CountAll(s, p) == 1
    ensures var pieces := Split(s, p);
            && |pieces| == 2
            && s == pieces[0] + p + pieces[1]
            && ReplaceAll(s, p, r) == pieces[0] + r + pieces[1]
  {
    CountIsCountAll(s, p);
    SplitCount(s, p);
    SplitJoin(s, p);
    ReplaceAllIsJoin(s, p, r);
    var pieces := Split(s, p);
    assert pieces == [pieces[0]] + [pieces[1]];
    JoinCons(pieces[0], [pieces[1]], p);
    JoinCons(pieces[0], [pieces[1]], r);
  }

  /** Replacing a pattern that occurs puts the replacement into the text. */
  lemma ReplaceAllContainsReplacement(s: string, p: string, r: string)
    requires |p| > 0 && Contains(s, p)
    ensures Contains(ReplaceAll(s, p, r), r)
  {
    ContainsIffCount(s, p);
    SplitCount(s, p);
    ReplaceAllIsJoin(s, p, r);
    var pieces := Split(s, p);
    assert pieces == [pieces[0]] + pieces[1..];
    JoinCons(pieces[0], pieces[1..], r);
    ContainsInfix(pieces[0], r, Join(pieces[1..], r));
  }

  lemma ContainsInfix(a: string, x: string, b: string)
    ensures Contains(a + x + b, x)
  {
    assert (a + x + b)[|a|..] == x + b;
  }

  lemma ContainsWithin(s: string, x: string, a: string, b: string)
    requires Contains(s, x)
    ensures Contains(a + s + b, x)
  {
    var i :| 0 <= i <= |s| && IsPrefix(x, s[i..]);
    assert (a + s + b)[|a| + i..] == s[i..] + b;
  }

  lemma ContainsAppended(s: string, x: string, t: string)
    requires Contains(s, x)
    ensures Contains(s + t, x)
  {
    var i :| 0 <= i <= |s| && IsPrefix(x, s[i..]);
    assert (s + t)[i..] == s[i..] + t;
  }

  lemma ContainsPrepended(t: string, s: string, x: string)
    requires Contains(s, x)
    ensures Contains(t + s, x)
  {
    var i :| 0 <= i <= |s| && IsPrefix(x, s[i..]);
    assert (t + s)[|t| + i..] == s[i..];
  }

  lemma ContainsSelf(x: string)
    ensures Contains(x, x)
  {
    assert x[0..][..|x|] == x;
  }

  lemma ContainsTransitive(a: string, b: string, c: string)
    requires Contains(a, b) && Contains(b, c)
    ensures Contains(a, c)
  {
    var i :| 0 <= i <= |a| && IsPrefix(b, a[i..]);
    var j :| 0 <= j <= |b| && IsPrefix(c, b[j..]);
    assert forall m :: 0 <= m < |b| ==> a[i + m] == a[i..][..|b|][m];
    assert forall k :: 0 <= k < |c| ==> b[j + k] == b[j..][..|c|][k];
    assert a[i + j..][..|c|] == c;
  }

  /** For a one-character pattern, containment is membership of that character. */
  lemma ContainsSingleChar(s: string, p: string)
    requires |p| == 1
    ensures Contains(s, p) <==> p[0] in s
  {
    if Contains(s, p) {
      var i :| 0 <= i <= |s| && IsPrefix(p, s[i..]);
      assert s[i] == s[i..][..1][0];
    }
    if p[0] in s {
      var i :| 0 <= i < |s| && s[i] == p[0];
      assert s[i..][..1] == p;
    }
  }

  /** Splitting at a one-character separator that the first piece lacks. */
  lemma {:induction false} SplitAtChar(a: string, p: string, b: string)
    requires |p| == 1 && p[0] !in a
    ensures Split(a + p + b, p) == [a] + Split(b, p)
    decreases |a|
  {
    var s := a + p + b;
    if a == [] {
      assert s == p + b;
      assert s[|p|..] == b;
    } else {
      assert s[..1] == [a[0]];
      assert s[1..] == a[1..] + p + b;
      SplitAtChar(a[1..], p, b);
      assert [a[0]] + a[1..] == a;
    }
  }

  /** The ASCII whitespace a DOM token list splits at: space, tab, line feed, form feed and
      carriage return. */
  const ASCII_WHITESPACE: set<char> := {' ', '\t', '\n', '\U{000C}', '\r'}

  predicate FreeOfWhitespace(s: string) {
    forall i :: 0 <= i < |s| ==> s[i] !in ASCII_WHITESPACE
  }

  /** The class names a DOM `classList` reads from a `class` attribute whose only whitespace
      is spaces: the non-empty tokens between spaces. */
  function ClassTokens(attribute: string): set<string> {
    set t | t in Split(attribute, " ") && t != ""
  }

  /** A `class` attribute "a b" names exactly the two classes a and b. */
  lemma ClassTokensOfPair(a: string, b: string)
    requires a != "" && b != "" && ' ' !in a && ' ' !in b
    ensures ClassTokens(a + " " + b) == {a, b}
  {
    SplitAtChar(a, " ", b);
    ContainsSingleChar(b, " ");
    SplitWithoutSeparator(b, " ");
    assert Split(a + " " + b, " ") == [a, b];
  }

  /** Errors the `%` operator raises for a template formatted with one string argument. */
  datatype FormatError =
    | IncompleteFormat
    | UnsupportedDirective(directive: char)
    | NotEnoughArguments
    | NotAllArgumentsConverted
    | MappingRequired

  /** Characters CPython reads after `%` as a flag, a width or a precision. */
  const SPEC_CHARS: set<char> :=
    {'-', '+', ' ', '#', '*', '.', '0', '1', '2', '3', '4', '5', '6', '7', '8', '9'}

  /** Length modifiers, which CPython reads and ignores just before the conversion. */
  const LENGTH_MODIFIERS: set<char> := {'h', 'l', 'L'}

  /** `template % arg` for a single `str` argument: `%s` takes the argument, `%%` is a
      literal percent sign; `consumed` records whether the argument was taken already.
      A mapping key `%(` needs a mapping argument, which a string is not. A length modifier
      is skipped, and a template ending there is incomplete. Any other conversion first
      fetches the next argument, so once the argument is taken it fails for want of one
      before its character is looked at. */
  function FormatFrom(t: string, arg: string, consumed: bool): Result<string, FormatError>
    decreases |t|
  {
    if t == [] then (if consumed then Success("") else Failure(NotAllArgumentsConverted))
    else if t[0] != '%' then Prepend([t[0]], FormatFrom(t[1..], arg, consumed))
    else if |t| == 1 then Failure(IncompleteFormat)
    else if t[1] == '%' then Prepend("%", FormatFrom(t[2..], arg, consumed))
    else if t[1] == '(' then Failure(MappingRequired)
    else
      var k := if t[1] in LENGTH_MODIFIERS then 2 else 1;
      if |t| == k then Failure(IncompleteFormat)
      else if consumed then Failure(NotEnoughArguments)
      else if t[k] == 's' then Prepend(arg, FormatFrom(t[k + 1..], arg, true))
      else Failure(UnsupportedDirective(t[k]))
  }

  function Prepend(s: string, r: Result<string, FormatError>): Result<string, FormatError> {
    match r
    case Success(v) => Success(s + v)
    case Failure(e) => Failure(e)
  }

  function Format(template: string, arg: string): Result<string, FormatError> {
    FormatFrom(template, arg, false)
  }

  lemma {:induction false} FormatPlainPrefix(pre: string, rest: string, arg: string, consumed: bool)
    requires '%' !in pre
    ensures FormatFrom(pre + rest, arg, consumed) == Prepend(pre, FormatFrom(rest, arg, consumed))
    decreases |pre|
  {
    if pre == [] {
      assert pre + rest == rest;
      match FormatFrom(rest, arg, consumed)
      case Success(v) => assert pre + v == v;
      case Failure(_) =>
    } else {
      var t := pre + rest;
      assert t[0] == pre[0] && t[1..] == pre[1..] + rest;
      FormatPlainPrefix(pre[1..], rest, arg, consumed);
      match FormatFrom(rest, arg, consumed)
      case Success(v) => assert [pre[0]] + (pre[1..] + v) == pre + v;
      case Failure(_) =>
    }
  }

  /** A template whose only directive is one `%s` puts the argument, verbatim, between
      the text before and after it. */
  lemma FormatSingleDirective(prefix: string, suffix: string, arg: string)
    requires '%' !in prefix && '%' !in suffix
    ensures Format(prefix + "%s" + suffix, arg) == Success(prefix + arg + suffix)
  {
    var rest := "%s" + suffix;
    assert prefix + "%s" + suffix == prefix + rest;
    FormatPlainPrefix(prefix, rest, arg, false);
    assert rest[2..] == suffix;
    FormatPlainPrefix(suffix, "", arg, true);
    assert suffix + "" == suffix;
    assert FormatFrom(rest, arg, false) == Prepend(arg, FormatFrom(suffix, arg, true));
    assert FormatFrom(rest, arg, false) == Success(arg + suffix);
    assert prefix + (arg + suffix) == prefix + arg + suffix;
  }

  /** A template without any directive raises "not all arguments converted". */
  lemma FormatWithoutDirective(t: string, arg: string)
    requires '%' !in t
    ensures Format(t, arg) == Failure(NotAllArgumentsConverted)
  {
    FormatPlainPrefix(t, "", arg, false);
    assert t + "" == t;
  }

  /** A second conversion after a `%s` finds no argument left, whatever its conversion
      character, as long as that character is not read as a mapping key, a flag, a width, a
      precision or a length modifier. */
  lemma FormatTwoDirectives(prefix: string, middle: string, c: char, suffix: string, arg: string)
    requires '%' !in prefix && '%' !in middle
    requires c != '%' && c != '(' && c !in SPEC_CHARS && c !in LENGTH_MODIFIERS
    ensures Format(prefix + "%s" + middle + ['%', c] + suffix, arg) == Failure(NotEnoughArguments)
  {
    var second := ['%', c] + suffix;
    var rest := "%s" + middle + second;
    assert prefix + "%s" + middle + ['%', c] + suffix == prefix + rest;
    FormatPlainPrefix(prefix, rest, arg, false);
    assert rest[2..] == middle + second;
    FormatPlainPrefix(middle, second, arg, true);
    assert second[0] == '%' && second[1] == c;
  }

  /** A mapping key raises "format requires a mapping", whatever follows it. */
  lemma FormatMappingKey(prefix: string, suffix: string, arg: string)
    requires '%' !in prefix
    ensures Format(prefix + "%(" + suffix, arg) == Failure(MappingRequired)
  {
    var rest := "%(" + suffix;
    assert prefix + "%(" + suffix == prefix + rest;
    FormatPlainPrefix(prefix, rest, arg, false);
    assert rest[0] == '%' && rest[1] == '(';
  }

  /** A length modifier before `s` is ignored: `%hs`, `%ls` and `%Ls` format as `%s`. */
  lemma FormatLengthModifier(prefix: string, m: char, suffix: string, arg: string)
    requires '%' !in prefix && m in LENGTH_MODIFIERS
    ensures Format(prefix + ['%', m, 's'] + suffix, arg) == Format(prefix + "%s" + suffix, arg)
  {
    var modified := ['%', m, 's'] + suffix;
    var plain := "%s" + suffix;
    assert prefix + ['%', m, 's'] + suffix == prefix + modified;
    assert prefix + "%s" + suffix == prefix + plain;
    FormatPlainPrefix(prefix, modified, arg, false);
    FormatPlainPrefix(prefix, plain, arg, false);
    assert modified[1] == m && modified[2] == 's' && modified[3..] == suffix;
    assert plain[1] == 's' && plain[2..] == suffix;
  }

  /** A template ending in `%` and a length modifier is incomplete. */
  lemma FormatTrailingModifier(prefix: string, m: char, arg: string)
    requires '%' !in prefix && m in LENGTH_MODIFIERS
    ensures Format(prefix + ['%', m], arg) == Failure(IncompleteFormat)
  {
    FormatPlainPrefix(prefix, ['%', m], arg, false);
  }
}
