/**
 * animated_diagram.py: the edge that carries the pulsing animation classes, the
 * diagram's SVG file name, and the rewrite of the rendered SVG text that puts the
 * animation stylesheet into every `<svg ` opening tag.
 *
 * The layout engine behind the base classes is not part of this model: the
 * attributes the base edge sets, and the path and text of the SVG file it
 * renders, are inputs here.
 */
module AnimatedDiagram {
  import opened Outcomes
  import opened Text

  // ---------------------------------------------------------------------------
  // PulsatingEdge

  const CLASS_ATTRIBUTE := "class"
  const PULSE_SPEED_ATTRIBUTE := "data-pulse-speed"
  const STROKE_ATTRIBUTE := "stroke"

  const DEFAULT_COLOR := "blue"
  const DEFAULT_PULSE_SPEED := "3s"

  /** The `class` attribute of a pulsating edge drawn in `color`. */
  function EdgeClass(color: string): string {
    "pulsating-arrow " + color + "-pulse"
  }

  /** The attributes of an edge after the pulsating decoration: the three animation
      attributes are (over)written, whatever else the base edge set is kept. Neither
      argument is checked. */
  function Decorated(attributes: map<string, string>, color: string, pulseSpeed: string): (r: map<string, string>)
    ensures r.Keys == attributes.Keys + {CLASS_ATTRIBUTE, PULSE_SPEED_ATTRIBUTE, STROKE_ATTRIBUTE}
    ensures r[CLASS_ATTRIBUTE] == EdgeClass(color)
    ensures r[PULSE_SPEED_ATTRIBUTE] == pulseSpeed
    ensures r[STROKE_ATTRIBUTE] == color
    ensures forall k :: k in attributes && k != CLASS_ATTRIBUTE && k != PULSE_SPEED_ATTRIBUTE && k != STROKE_ATTRIBUTE
                        ==> r[k] == attributes[k]
  {
    attributes[CLASS_ATTRIBUTE := EdgeClass(color)][PULSE_SPEED_ATTRIBUTE := pulseSpeed][STROKE_ATTRIBUTE := color]
  }

  /** An edge of the diagram that pulses; `attributes` is the attribute dictionary the
      layout engine reads. */
  class PulsatingEdge {
    var attributes: map<string, string>

    /** `edgeAttributes` are the attributes the base edge's constructor sets from the
        remaining keyword arguments. */
    constructor (edgeAttributes: map<string, string>,
                 color: string := DEFAULT_COLOR, pulseSpeed: string := DEFAULT_PULSE_SPEED)
      ensures attributes == Decorated(edgeAttributes, color, pulseSpeed)
    {
      attributes := edgeAttributes;
      new;
      attributes := attributes[CLASS_ATTRIBUTE := EdgeClass(color)];
      attributes := attributes[PULSE_SPEED_ATTRIBUTE := pulseSpeed];
      attributes := attributes[STROKE_ATTRIBUTE := color];
    }
  }

  /** Decorating again overwrites the earlier decoration completely: the last colour and
      speed win, and decorating twice alike is decorating once. */
  lemma RedecorateOverwrites(attributes: map<string, string>, color1: string, speed1: string,
                             color2: string, speed2: string)
    ensures Decorated(Decorated(attributes, color1, speed1), color2, speed2) == Decorated(attributes, color2, speed2)
  {
  }

  /** For a colour without whitespace, the edge's class list is exactly `pulsating-arrow`
      and `<color>-pulse`, palette colour or not. */
  lemma EdgeClassNames(color: string)
    requires FreeOfWhitespace(color)
    ensures ClassTokens(EdgeClass(color)) == {"pulsating-arrow", color + "-pulse"}
  {
    assert ' ' !in color by {
      assert forall i :: 0 <= i < |color| ==> color[i] != ' ';
    }
    var name := color + "-pulse";
    assert ' ' !in "-pulse";
    assert forall i :: 0 <= i < |name| ==> name[i] == (if i < |color| then color[i] else "-pulse"[i - |color|]);
    assert ' ' !in "pulsating-arrow";
    assert EdgeClass(color) == "pulsating-arrow" + " " + name;
    ClassTokensOfPair("pulsating-arrow", name);
  }

  // ---------------------------------------------------------------------------
  // The palette and the animation stylesheet

  /** The colours the stylesheet has a rule for. */
  datatype Colour = Blue | Green | Red | Orange | Purple

  function ColourName(c: Colour): string {
    match c
    case Blue => "blue"
    case Green => "green"
    case Red => "red"
    case Orange => "orange"
    case Purple => "purple"
  }

  /** The stroke colour the stylesheet binds to each palette class. */
  function PaletteStroke(c: Colour): string {
    match c
    case Blue => "#0066cc"
    case Green => "#00cc66"
    case Red => "#cc3300"
    case Orange => "#ff9900"
    case Purple => "#9900cc"
  }

  /** The default pulse period the stylesheet binds to each palette class. */
  function PalettePulseSpeed(c: Colour): string {
    match c
    case Blue => "3s"
    case Green => "2.5s"
    case Red => "2s"
    case Orange => "4s"
    case Purple => "5s"
  }

  const KEYFRAMES := "@keyframes pulse"

  const INDENT := "            "
  const STYLE_BLANK_LINE := "            \n"

  const KEYFRAMES_BODY :=
      " {\n"
    + "                0% { stroke-width: 1; stroke-opacity: 0.8; }\n"
    + "                50% { stroke-width: 3; stroke-opacity: 1; }\n"
    + "                100% { stroke-width: 1; stroke-opacity: 0.8; }\n"
    + "            }\n"

  const KEYFRAMES_RULE := INDENT + KEYFRAMES + KEYFRAMES_BODY

  const PULSATING_ARROW_RULE :=
      "            .pulsating-arrow {\n"
    + "                animation: pulse var(--pulse-speed, 3s) infinite;\n"
    + "            }\n"

  /** The rule for one palette class. */
  function ColourRule(c: Colour): string {
      "            ." + ColourName(c) + "-pulse {\n"
    + "                stroke: " + PaletteStroke(c) + ";\n"
    + "                --pulse-speed: " + PalettePulseSpeed(c) + ";\n"
    + "            }\n"
  }

  /** The palette rules, one blank line between two of them. */
  const PALETTE_RULES :=
      ColourRule(Blue) + STYLE_BLANK_LINE
    + ColourRule(Green) + STYLE_BLANK_LINE
    + ColourRule(Red) + STYLE_BLANK_LINE
    + ColourRule(Orange) + STYLE_BLANK_LINE
    + ColourRule(Purple)

  const STYLE_OPEN := "\n        <style>\n"
  const STYLE_CLOSE := "        </style>\n        "

  /** The `<style>` block put after every `<svg ` tag. */
  const ANIMATION_STYLES :=
      STYLE_OPEN
    + KEYFRAMES_RULE + STYLE_BLANK_LINE
    + PULSATING_ARROW_RULE + STYLE_BLANK_LINE
    + PALETTE_RULES
    + STYLE_CLOSE

  /** The stylesheet defines the `pulse` keyframes. */
  lemma StylesheetHasKeyframes()
    ensures Contains(ANIMATION_STYLES, KEYFRAMES)
  {
    ContainsInfix(INDENT, KEYFRAMES, KEYFRAMES_BODY);
    ContainsPrepended(STYLE_OPEN, KEYFRAMES_RULE, KEYFRAMES);
    ContainsAppended(STYLE_OPEN + KEYFRAMES_RULE, KEYFRAMES, STYLE_BLANK_LINE);
    ContainsAppended(STYLE_OPEN + KEYFRAMES_RULE + STYLE_BLANK_LINE, KEYFRAMES, PULSATING_ARROW_RULE);
    ContainsAppended(STYLE_OPEN + KEYFRAMES_RULE + STYLE_BLANK_LINE + PULSATING_ARROW_RULE, KEYFRAMES, STYLE_BLANK_LINE);
    ContainsAppended(STYLE_OPEN + KEYFRAMES_RULE + STYLE_BLANK_LINE + PULSATING_ARROW_RULE + STYLE_BLANK_LINE,
                     KEYFRAMES, PALETTE_RULES);
    ContainsAppended(STYLE_OPEN + KEYFRAMES_RULE + STYLE_BLANK_LINE + PULSATING_ARROW_RULE + STYLE_BLANK_LINE + PALETTE_RULES,
                     KEYFRAMES, STYLE_CLOSE);
  }

  /** The palette rules hold the rule of every palette colour. */
  lemma PaletteRulesHaveColourRule(c: Colour)
    ensures Contains(PALETTE_RULES, ColourRule(c))
  {
    var x := ColourRule(c);
    ContainsInfix("", x, "");
    assert "" + x + "" == x;
    // the palette rules up to and including the blue, green, red, orange and purple rule
    var s0 := ColourRule(Blue);
    var s1 := s0 + STYLE_BLANK_LINE + ColourRule(Green);
    var s2 := s1 + STYLE_BLANK_LINE + ColourRule(Red);
    var s3 := s2 + STYLE_BLANK_LINE + ColourRule(Orange);
    var s4 := s3 + STYLE_BLANK_LINE + ColourRule(Purple);
    match c {
      case Blue =>
      case Green => ContainsPrepended(s0 + STYLE_BLANK_LINE, x, x);
      case Red => ContainsPrepended(s1 + STYLE_BLANK_LINE, x, x);
      case Orange => ContainsPrepended(s2 + STYLE_BLANK_LINE, x, x);
      case Purple => ContainsPrepended(s3 + STYLE_BLANK_LINE, x, x);
    }
    if c == Blue {
      ContainsAppended(s0, x, STYLE_BLANK_LINE);
      ContainsAppended(s0 + STYLE_BLANK_LINE, x, ColourRule(Green));
    }
    if c == Blue || c == Green {
      ContainsAppended(s1, x, STYLE_BLANK_LINE);
      ContainsAppended(s1 + STYLE_BLANK_LINE, x, ColourRule(Red));
    }
    if c == Blue || c == Green || c == Red {
      ContainsAppended(s2, x, STYLE_BLANK_LINE);
      ContainsAppended(s2 + STYLE_BLANK_LINE, x, ColourRule(Orange));
    }
    if c != Purple {
      ContainsAppended(s3, x, STYLE_BLANK_LINE);
      ContainsAppended(s3 + STYLE_BLANK_LINE, x, ColourRule(Purple));
    }
  }

  /** The stylesheet has the rule of every palette colour, with its stroke and period. */
  lemma StylesheetHasColourRule(c: Colour)
    ensures Contains(ANIMATION_STYLES, ColourRule(c))
  {
    PaletteRulesHaveColourRule(c);
    ContainsWithin(PALETTE_RULES, ColourRule(c),
                   STYLE_OPEN + KEYFRAMES_RULE + STYLE_BLANK_LINE + PULSATING_ARROW_RULE + STYLE_BLANK_LINE, STYLE_CLOSE);
  }

  // ---------------------------------------------------------------------------
  // AnimatedDiagram

  /** A diagram as the base class receives it. */
  datatype Diagram = Diagram(name: string, filename: Option<string>, direction: string, outformat: string)

  /** A non-empty file name that does not end in `.svg` gets `.svg` appended; a missing
      or empty one is passed on as it is. */
  function NormalizeFilename(filename: Option<string>): (r: Option<string>)
    ensures filename.None? || filename.value == "" ==> r == filename
    ensures filename.Some? && filename.value != "" ==>
              r.Some? && EndsWith(r.value, ".svg") && IsPrefix(filename.value, r.value)
    ensures r == filename || (filename.Some? && !EndsWith(filename.value, ".svg") && r == Some(filename.value + ".svg"))
  {
    match filename
    case None => None
    case Some(f) => if f != "" && !EndsWith(f, ".svg") then Some(f + ".svg") else filename
  }

  /** Normalising an already normalised name changes nothing. */
  lemma NormalizeFilenameIdempotent(filename: Option<string>)
    ensures NormalizeFilename(NormalizeFilename(filename)) == NormalizeFilename(filename)
  {
  }

  /** `AnimatedDiagram(name, filename, direction)`: the base diagram gets the normalised
      file name and the SVG output format. */
  function NewDiagram(name: string, filename: Option<string> := None, direction: string := "LR"): Diagram {
    Diagram(name, NormalizeFilename(filename), direction, "svg")
  }

  const SVG_OPEN := "<svg "

  /** What every `<svg ` becomes: the tag prefix, a line break and the stylesheet. */
  const STYLED_SVG_OPEN := SVG_OPEN + "\n" + ANIMATION_STYLES

  /** The text rewrite of `render`: `svg.replace("<svg ", "<svg \n" + styles)`. */
  function InjectStyles(svg: string): string {
    ReplaceAll(svg, SVG_OPEN, STYLED_SVG_OPEN)
  }

  /** Two occurrences of `<svg ` never overlap. */
  lemma SvgOpenNoSelfOverlap()
    ensures NoSelfOverlap(SVG_OPEN)
  {
    forall k | 0 < k < |SVG_OPEN|
      ensures SVG_OPEN[k..] != SVG_OPEN[..|SVG_OPEN| - k]
    {
      assert SVG_OPEN[k..][0] == SVG_OPEN[k] != '<';
    }
  }

  /** Cutting the SVG at its `<svg ` occurrences, the pieces are those of the output cut at
      its styled tags: the text between occurrences is unchanged and every occurrence is
      followed by the line break and the stylesheet. */
  lemma InjectStylesPieces(svg: string)
    ensures var pieces := Split(svg, SVG_OPEN);
            && Join(pieces, SVG_OPEN) == svg
            && InjectStyles(svg) == Join(pieces, STYLED_SVG_OPEN)
            && forall k :: 0 <= k < |pieces| ==> !Contains(pieces[k], SVG_OPEN)
  {
    SplitJoin(svg, SVG_OPEN);
    ReplaceAllIsJoin(svg, SVG_OPEN, STYLED_SVG_OPEN);
    SplitPiecesAvoid(svg, SVG_OPEN);
  }

  /** The output is longer than the input by one line break and one stylesheet for every
      position at which `<svg ` occurs. */
  lemma InjectStylesLength(svg: string)
    ensures |InjectStyles(svg)| == |svg| + CountAll(svg, SVG_OPEN) * (1 + |ANIMATION_STYLES|)
  {
    ReplaceAllLength(svg, SVG_OPEN, STYLED_SVG_OPEN);
    SvgOpenNoSelfOverlap();
    CountIsCountAll(svg, SVG_OPEN);
  }

  /** The rewrite leaves the text unchanged exactly when there is no `<svg ` in it; no
      error is raised either way. */
  lemma InjectStylesUnchangedIff(svg: string)
    ensures InjectStyles(svg) == svg <==> !Contains(svg, SVG_OPEN)
  {
    ReplaceAllUnchangedIff(svg, SVG_OPEN, STYLED_SVG_OPEN);
  }

  /** With a single `<svg ` the stylesheet appears once, right after it, and the text
      before and after is kept byte for byte. */
  lemma InjectStylesOnce(svg: string)
    requires CountAll(svg, SVG_OPEN) == 1
    ensures var pieces := Split(svg, SVG_OPEN);
            && |pieces| == 2
            && svg == pieces[0] + SVG_OPEN + pieces[1]
            && InjectStyles(svg) == pieces[0] + STYLED_SVG_OPEN + pieces[1]
  {
    SvgOpenNoSelfOverlap();
    ReplaceAllOnce(svg, SVG_OPEN, STYLED_SVG_OPEN);
  }

  /** An SVG with an opening tag comes out carrying the `pulse` keyframes. */
  lemma InjectedSvgHasKeyframes(svg: string)
    requires Contains(svg, SVG_OPEN)
    ensures Contains(InjectStyles(svg), KEYFRAMES)
  {
    ReplaceAllContainsReplacement(svg, SVG_OPEN, STYLED_SVG_OPEN);
    StylesheetHasKeyframes();
    ContainsPrepended(SVG_OPEN + "\n", ANIMATION_STYLES, KEYFRAMES);
    ContainsTransitive(InjectStyles(svg), STYLED_SVG_OPEN, KEYFRAMES);
  }

  /** `render`: the file the base renderer wrote at `svgPath` is read, rewritten and written
      back under the same path, which is returned. A missing file raises. */
  function Render(files: FileSystem, svgPath: string): (r: Result<(string, FileSystem), IoError>)
    ensures svgPath !in files ==> r == Failure(FileNotFound(svgPath))
    ensures svgPath in files ==> r == Success((svgPath, Write(files, svgPath, InjectStyles(files[svgPath]))))
  {
    match Read(files, svgPath)
    case Failure(e) => Failure(e)
    case Success(svgContent) =>
      var enhancedSvg := InjectStyles(svgContent);
      Success((svgPath, Write(files, svgPath, enhancedSvg)))
  }
}
