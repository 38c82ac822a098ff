/**
 * html_exporter.py: the page `HtmlExporter.export` writes around an SVG diagram
 * (the stylesheet with speed and colour-theme rules, the control buttons, the
 * container the SVG is embedded in, and the script of the buttons), and the path
 * it is written to.
 */
module HtmlExport {
  import opened Outcomes
  import opened Text
  import opened Paths
  import opened ViewerScript
  import AnimatedDiagram

  // ---------------------------------------------------------------------------
  // Output path

  /** The path written: the given one when it is neither `None` nor empty, otherwise the
      SVG path with its extension replaced by `.html`. */
  function HtmlOutputPath(svgPath: string, outputPath: Option<string>): string {
    if outputPath.None? || outputPath.value == "" then Root(svgPath) + ".html" else outputPath.value
  }

  /** Unless the final component of the SVG path's root is empty or all dots, the default
      page path splits into that root and `.html`; an empty path given selects the default
      too. */
  lemma DefaultHtmlPathReplacesExtension(svgPath: string)
    requires !AllDots(FinalComponent(Root(svgPath)))
    ensures Splitext(HtmlOutputPath(svgPath, None)) == (Root(svgPath), ".html")
    ensures HtmlOutputPath(svgPath, Some("")) == HtmlOutputPath(svgPath, None)
  {
    assert IsExtension(".html");
    AppendExtension(Root(svgPath), ".html");
  }

  // ---------------------------------------------------------------------------
  // Colour themes

  /** The stroke a theme gives to each palette class; the default theme repeats the
      palette of the SVG's own stylesheet. */
  function ThemeStroke(t: Theme, c: AnimatedDiagram.Colour): (stroke: string)
    ensures t == Default ==> stroke == AnimatedDiagram.PaletteStroke(c)
  {
    match (t, c)
    case (Default, Blue) => "#0066cc"
    case (Default, Green) => "#00cc66"
    case (Default, Red) => "#cc3300"
    case (Default, Orange) => "#ff9900"
    case (Default, Purple) => "#9900cc"
    case (Neon, Blue) => "#00ffff"
    case (Neon, Green) => "#00ff00"
    case (Neon, Red) => "#ff00ff"
    case (Neon, Orange) => "#ffff00"
    case (Neon, Purple) => "#9d00ff"
    case (Pastel, Blue) => "#aaccff"
    case (Pastel, Green) => "#aaffcc"
    case (Pastel, Red) => "#ffaacc"
    case (Pastel, Orange) => "#ffddaa"
    case (Pastel, Purple) => "#ddaaff"
  }

  /** The rule colouring one palette class under one theme. */
  function ThemeRule(t: Theme, c: AnimatedDiagram.Colour): string {
    "                ." + ThemeClass(t) + " ." + AnimatedDiagram.ColourName(c) + "-pulse { stroke: "
    + ThemeStroke(t, c) + "; }\n"
  }

  /** The five rules of one theme, in palette order. */
  function ThemeRules(t: Theme): string {
    ThemeRule(t, AnimatedDiagram.Blue) + ThemeRule(t, AnimatedDiagram.Green) + ThemeRule(t, AnimatedDiagram.Red)
    + ThemeRule(t, AnimatedDiagram.Orange) + ThemeRule(t, AnimatedDiagram.Purple)
  }

  const PAGE_BLANK_LINE := "                \n"

  const THEME_STYLES := ThemeRules(Default) + PAGE_BLANK_LINE + ThemeRules(Neon) + PAGE_BLANK_LINE + ThemeRules(Pastel)

  // ---------------------------------------------------------------------------
  // The button script

  /** The `id` of each button. */
  function ButtonId(button: Button): string {
    match button
    case PauseButton => "pause-btn"
    case PlayButton => "play-btn"
    case SpeedButton(s) => SpeedClass(s)
    case ThemeButton(t) => ThemeClass(t)
  }

  /** Class names as JavaScript string arguments: `'a', 'b'`. */
  function QuotedList(names: seq<string>): string
    decreases |names|
  {
    if names == [] then ""
    else if |names| == 1 then "'" + names[0] + "'"
    else "'" + names[0] + "', " + QuotedList(names[1..])
  }

  /** The click listener registered for one button: it removes `RemovedClasses(button)` from
      the container's class list and adds `AddedClasses(button)`. */
  function Handler(button: Button): string {
    var listen := "                document.getElementById('" + ButtonId(button) + "').addEventListener('click', function() {\n";
    var body :=
      match button
      case PauseButton =>
        "                    document.getElementById('diagram').classList.add(" + QuotedList(AddedClasses(button)) + ");\n"
      case PlayButton =>
        "                    document.getElementById('diagram').classList.remove(" + QuotedList(RemovedClasses(button)) + ");\n"
      case _ =>
        "                    const diagram = document.getElementById('diagram');\n"
        + "                    diagram.classList.remove(" + QuotedList(RemovedClasses(button)) + ");\n"
        + "                    diagram.classList.add(" + QuotedList(AddedClasses(button)) + ");\n";
    listen + body + "                });\n"
  }

  const PAUSE_HANDLERS := Handler(PauseButton) + PAGE_BLANK_LINE + Handler(PlayButton) + PAGE_BLANK_LINE

  const SPEED_HANDLERS :=
    Handler(SpeedButton(Normal)) + PAGE_BLANK_LINE + Handler(SpeedButton(Slow)) + PAGE_BLANK_LINE + Handler(SpeedButton(Fast)) + PAGE_BLANK_LINE

  const THEME_HANDLERS :=
    Handler(ThemeButton(Default)) + PAGE_BLANK_LINE + Handler(ThemeButton(Neon)) + PAGE_BLANK_LINE + Handler(ThemeButton(Pastel))

  const SCRIPT_OPEN := "            <script>\n" + "                // Animation controls\n"
  const THEME_COMMENT := "                // Theme controls\n"
  const SCRIPT_CLOSE := "            </script>\n"

  const SCRIPT := SCRIPT_OPEN + PAUSE_HANDLERS + SPEED_HANDLERS + THEME_COMMENT + THEME_HANDLERS + SCRIPT_CLOSE

  // ---------------------------------------------------------------------------
  // The page

  const PAGE_HEAD :=
    "\n"
    + "        <!DOCTYPE html>\n"
    + "        <html>\n"
    + "        <head>\n"
    + "            <title>Animated Data Pipeline</title>\n"
    + "            <style>\n"
    + "                body {\n"
    + "                    font-family: Arial, sans-serif;\n"
    + "                    margin: 20px;\n"
    + "                    background-color: #f5f5f5;\n"
    + "                }\n"
    + "                \n"
    + "                h1 {\n"
    + "                    color: #333;\n"
    + "                    margin-bottom: 20px;\n"
    + "                }\n"
    + "                \n"
    + "                .controls {\n"
    + "                    margin-bottom: 20px;\n"
    + "                    padding: 15px;\n"
    + "                    background-color: #fff;\n"
    + "                    border-radius: 8px;\n"
    + "                    box-shadow: 0 2px 4px rgba(0,0,0,0.1);\n"
    + "                }\n"
    + "                \n"
    + "                .diagram-container {\n"
    + "                    border: 1px solid #ddd;\n"
    + "                    padding: 20px;\n"
    + "                    border-radius: 8px;\n"
    + "                    background-color: white;\n"
    + "                    box-shadow: 0 2px 4px rgba(0,0,0,0.1);\n"
    + "                    overflow: auto;\n"
    + "                }\n"
    + "                \n"
    + "                button {\n"
    + "                    padding: 8px 15px;\n"
    + "                    margin-right: 10px;\n"
    + "                    cursor: pointer;\n"
    + "                    background-color: #4a86e8;\n"
    + "                    color: white;\n"
    + "                    border: none;\n"
    + "                    border-radius: 4px;\n"
    + "                    font-weight: bold;\n"
    + "                }\n"
    + "                \n"
    + "                button:hover {\n"
    + "                    background-color: #3a76d8;\n"
    + "                }\n"
    + "                \n"
    + "                /* Animation speeds */\n"
    + "                .speed-normal .pulsating-arrow {\n"
    + "                    animation-duration: var(--pulse-speed, 3s);\n"
    + "                }\n"
    + "                \n"
    + "                .speed-fast .pulsating-arrow {\n"
    + "                    animation-duration: calc(var(--pulse-speed, 3s) / 2);\n"
    + "                }\n"
    + "                \n"
    + "                .speed-slow .pulsating-arrow {\n"
    + "                    animation-duration: calc(var(--pulse-speed, 3s) * 2);\n"
    + "                }\n"
    + "                \n"
    + "                .paused .pulsating-arrow {\n"
    + "                    animation-play-state: paused;\n"
    + "                }\n"
    + "                \n"
    + "                /* Color themes */\n"

  const PAGE_BODY :=
    "            </style>\n"
    + "        </head>\n"
    + "        <body>\n"
    + "            <h1>Animated Data Pipeline</h1>\n"
    + "            \n"
    + "            <div class=\"controls\">\n"
    + "                <h3>Animation Controls</h3>\n"
    + "                <button id=\"pause-btn\">Pause</button>\n"
    + "                <button id=\"play-btn\">Play</button>\n"
    + "                <button id=\"speed-normal\">Normal Speed</button>\n"
    + "                <button id=\"speed-slow\">Slow</button>\n"
    + "                <button id=\"speed-fast\">Fast</button>\n"
    + "                \n"
    + "                <h3>Color Themes</h3>\n"
    + "                <button id=\"theme-default\">Default</button>\n"
    + "                <button id=\"theme-neon\">Neon</button>\n"
    + "                <button id=\"theme-pastel\">Pastel</button>\n"
    + "            </div>\n"
    + "            \n"

  /** The attribute that gives the container its initial class list. */
  const CONTAINER_CLASS := "class=\"" + CONTAINER_CLASS_ATTRIBUTE + "\""

  const CONTAINER_LINE := "            <div " + CONTAINER_CLASS + " id=\"diagram\">\n"

  const SVG_INDENT := "                "

  /** The template up to its `%s`, and after it. */
  const PAGE_PREFIX := PAGE_HEAD + THEME_STYLES + PAGE_BODY + CONTAINER_LINE + SVG_INDENT
  const PAGE_SUFFIX := "\n" + "            </div>\n" + "            \n" + SCRIPT + "        </body>\n" + "        </html>\n" + "        "

  /** The template the SVG text is substituted into. */
  const HTML_TEMPLATE := PAGE_PREFIX + "%s" + PAGE_SUFFIX

  /** The page written for an SVG: the template with the SVG text in place of its `%s`. */
  function Page(svg: string): string {
    PAGE_PREFIX + svg + PAGE_SUFFIX
  }

  /** With no `%` outside its `%s`, the template formats to the page: the SVG text is put
      in verbatim, with no escaping and no other substitution. */
  lemma TemplateSubstitution(svg: string)
    requires '%' !in PAGE_PREFIX && '%' !in PAGE_SUFFIX
    ensures Format(HTML_TEMPLATE, svg) == Success(Page(svg))
  {
    FormatSingleDirective(PAGE_PREFIX, PAGE_SUFFIX, svg);
  }

  /** The page is the fixed prefix, the SVG text unchanged, and the fixed suffix. */
  lemma PageEmbedsSvg(svg: string)
    ensures Contains(Page(svg), svg)
  {
    ContainsInfix(PAGE_PREFIX, svg, PAGE_SUFFIX);
  }

  lemma PrefixPartInPage(svg: string, x: string)
    requires Contains(PAGE_PREFIX, x)
    ensures Contains(Page(svg), x)
  {
    ContainsAppended(PAGE_PREFIX, x, svg);
    ContainsAppended(PAGE_PREFIX + svg, x, PAGE_SUFFIX);
  }

  lemma SuffixPartInPage(svg: string, x: string)
    requires Contains(PAGE_SUFFIX, x)
    ensures Contains(Page(svg), x)
  {
    ContainsPrepended(PAGE_PREFIX + svg, PAGE_SUFFIX, x);
  }

  /** Whatever the SVG, the page has the container whose class attribute parses to the
      initial class list of the viewer: the container and default-theme classes, no speed
      class and no `paused`. */
  lemma PageHasInitialContainer(svg: string)
    ensures Contains(Page(svg), CONTAINER_CLASS)
    ensures ClassTokens(CONTAINER_CLASS_ATTRIBUTE) == Classes(INITIAL_STATE)
    ensures PAUSED !in Classes(INITIAL_STATE) && Classes(INITIAL_STATE) * SPEED_CLASSES == {}
  {
    ContainsInfix("            <div ", CONTAINER_CLASS, " id=\"diagram\">\n");
    ContainsWithin(CONTAINER_LINE, CONTAINER_CLASS, PAGE_HEAD + THEME_STYLES + PAGE_BODY, SVG_INDENT);
    PrefixPartInPage(svg, CONTAINER_CLASS);
    InitialClassList();
  }

  lemma ThemeRulesHaveRule(t: Theme, c: AnimatedDiagram.Colour)
    ensures Contains(ThemeRules(t), ThemeRule(t, c))
  {
    var x := ThemeRule(t, c);
    ContainsSelf(x);
    var s0 := ThemeRule(t, AnimatedDiagram.Blue);
    var s1 := s0 + ThemeRule(t, AnimatedDiagram.Green);
    var s2 := s1 + ThemeRule(t, AnimatedDiagram.Red);
    var s3 := s2 + ThemeRule(t, AnimatedDiagram.Orange);
    match c {
      case Blue =>
      case Green => ContainsPrepended(s0, x, x);
      case Red => ContainsPrepended(s1, x, x);
      case Orange => ContainsPrepended(s2, x, x);
      case Purple => ContainsPrepended(s3, x, x);
    }
    if c == AnimatedDiagram.Blue {
      ContainsAppended(s0, x, ThemeRule(t, AnimatedDiagram.Green));
    }
    if c == AnimatedDiagram.Blue || c == AnimatedDiagram.Green {
      ContainsAppended(s1, x, ThemeRule(t, AnimatedDiagram.Red));
    }
    if c != AnimatedDiagram.Orange && c != AnimatedDiagram.Purple {
      ContainsAppended(s2, x, ThemeRule(t, AnimatedDiagram.Orange));
    }
    if c != AnimatedDiagram.Purple {
      ContainsAppended(s3, x, ThemeRule(t, AnimatedDiagram.Purple));
    }
  }

  lemma ThemeStylesHaveRules(t: Theme)
    ensures Contains(THEME_STYLES, ThemeRules(t))
  {
    var t0, t1, t2 := ThemeRules(Default), ThemeRules(Neon), ThemeRules(Pastel);
    match t
    case Default =>
      ContainsSelf(t0);
      ContainsAppended(t0, t0, PAGE_BLANK_LINE);
      ContainsAppended(t0 + PAGE_BLANK_LINE, t0, t1);
      ContainsAppended(t0 + PAGE_BLANK_LINE + t1, t0, PAGE_BLANK_LINE);
      ContainsAppended(t0 + PAGE_BLANK_LINE + t1 + PAGE_BLANK_LINE, t0, t2);
    case Neon =>
      ContainsInfix(t0 + PAGE_BLANK_LINE, t1, PAGE_BLANK_LINE);
      ContainsAppended(t0 + PAGE_BLANK_LINE + t1 + PAGE_BLANK_LINE, t1, t2);
    case Pastel =>
      ContainsSelf(t2);
      ContainsPrepended(t0 + PAGE_BLANK_LINE + t1 + PAGE_BLANK_LINE, t2, t2);
  }

  /** The page's stylesheet has the rule of every theme for every palette class. */
  lemma PageHasThemeRule(svg: string, t: Theme, c: AnimatedDiagram.Colour)
    ensures Contains(Page(svg), ThemeRule(t, c))
  {
    ThemeRulesHaveRule(t, c);
    ThemeStylesHaveRules(t);
    ContainsTransitive(THEME_STYLES, ThemeRules(t), ThemeRule(t, c));
    ContainsInfix(PAGE_HEAD, THEME_STYLES, PAGE_BODY);
    ContainsAppended(PAGE_HEAD + THEME_STYLES + PAGE_BODY, THEME_STYLES, CONTAINER_LINE);
    ContainsAppended(PAGE_HEAD + THEME_STYLES + PAGE_BODY + CONTAINER_LINE, THEME_STYLES, SVG_INDENT);
    ContainsTransitive(PAGE_PREFIX, THEME_STYLES, ThemeRule(t, c));
    PrefixPartInPage(svg, ThemeRule(t, c));
  }

  lemma PauseHandlersHave(button: Button)
    requires button.PauseButton? || button.PlayButton?
    ensures Contains(PAUSE_HANDLERS, Handler(button))
  {
    var x := Handler(button);
    if button.PauseButton? {
      ContainsSelf(x);
      ContainsAppended(x, x, PAGE_BLANK_LINE);
      ContainsAppended(x + PAGE_BLANK_LINE, x, Handler(PlayButton));
      ContainsAppended(x + PAGE_BLANK_LINE + Handler(PlayButton), x, PAGE_BLANK_LINE);
    } else {
      ContainsInfix(Handler(PauseButton) + PAGE_BLANK_LINE, x, PAGE_BLANK_LINE);
    }
  }

  lemma SpeedHandlersHave(speed: Speed)
    ensures Contains(SPEED_HANDLERS, Handler(SpeedButton(speed)))
  {
    var n, w, f := Handler(SpeedButton(Normal)), Handler(SpeedButton(Slow)), Handler(SpeedButton(Fast));
    var x := Handler(SpeedButton(speed));
    match speed
    case Normal =>
      ContainsSelf(n);
      ContainsAppended(n, x, PAGE_BLANK_LINE);
      ContainsAppended(n + PAGE_BLANK_LINE, x, w);
      ContainsAppended(n + PAGE_BLANK_LINE + w, x, PAGE_BLANK_LINE);
      ContainsAppended(n + PAGE_BLANK_LINE + w + PAGE_BLANK_LINE, x, f);
      ContainsAppended(n + PAGE_BLANK_LINE + w + PAGE_BLANK_LINE + f, x, PAGE_BLANK_LINE);
    case Slow =>
      ContainsInfix(n + PAGE_BLANK_LINE, w, PAGE_BLANK_LINE);
      ContainsAppended(n + PAGE_BLANK_LINE + w + PAGE_BLANK_LINE, x, f);
      ContainsAppended(n + PAGE_BLANK_LINE + w + PAGE_BLANK_LINE + f, x, PAGE_BLANK_LINE);
    case Fast =>
      ContainsInfix(n + PAGE_BLANK_LINE + w + PAGE_BLANK_LINE, f, PAGE_BLANK_LINE);
  }

  lemma ThemeHandlersHave(theme: Theme)
    ensures Contains(THEME_HANDLERS, Handler(ThemeButton(theme)))
  {
    var d, ne, pa := Handler(ThemeButton(Default)), Handler(ThemeButton(Neon)), Handler(ThemeButton(Pastel));
    var x := Handler(ThemeButton(theme));
    match theme
    case Default =>
      ContainsSelf(d);
      ContainsAppended(d, x, PAGE_BLANK_LINE);
      ContainsAppended(d + PAGE_BLANK_LINE, x, ne);
      ContainsAppended(d + PAGE_BLANK_LINE + ne, x, PAGE_BLANK_LINE);
      ContainsAppended(d + PAGE_BLANK_LINE + ne + PAGE_BLANK_LINE, x, pa);
    case Neon =>
      ContainsInfix(d + PAGE_BLANK_LINE, ne, PAGE_BLANK_LINE);
      ContainsAppended(d + PAGE_BLANK_LINE + ne + PAGE_BLANK_LINE, x, pa);
    case Pastel =>
      ContainsSelf(pa);
      ContainsPrepended(d + PAGE_BLANK_LINE + ne + PAGE_BLANK_LINE, pa, pa);
  }

  lemma ScriptHasHandler(button: Button)
    ensures Contains(SCRIPT, Handler(button))
  {
    var group;
    if button.PauseButton? || button.PlayButton? {
      PauseHandlersHave(button);
      group := PAUSE_HANDLERS;
      ContainsInfix(SCRIPT_OPEN, PAUSE_HANDLERS, SPEED_HANDLERS);
      ContainsAppended(SCRIPT_OPEN + PAUSE_HANDLERS + SPEED_HANDLERS, group, THEME_COMMENT);
      ContainsAppended(SCRIPT_OPEN + PAUSE_HANDLERS + SPEED_HANDLERS + THEME_COMMENT, group, THEME_HANDLERS);
      ContainsAppended(SCRIPT_OPEN + PAUSE_HANDLERS + SPEED_HANDLERS + THEME_COMMENT + THEME_HANDLERS, group, SCRIPT_CLOSE);
    } else if button.SpeedButton? {
      SpeedHandlersHave(button.speed);
      group := SPEED_HANDLERS;
      ContainsInfix(SCRIPT_OPEN + PAUSE_HANDLERS, SPEED_HANDLERS, THEME_COMMENT);
      ContainsAppended(SCRIPT_OPEN + PAUSE_HANDLERS + SPEED_HANDLERS + THEME_COMMENT, group, THEME_HANDLERS);
      ContainsAppended(SCRIPT_OPEN + PAUSE_HANDLERS + SPEED_HANDLERS + THEME_COMMENT + THEME_HANDLERS, group, SCRIPT_CLOSE);
    } else {
      ThemeHandlersHave(button.theme);
      group := THEME_HANDLERS;
      ContainsInfix(SCRIPT_OPEN + PAUSE_HANDLERS + SPEED_HANDLERS + THEME_COMMENT, THEME_HANDLERS, SCRIPT_CLOSE);
    }
    ContainsTransitive(SCRIPT, group, Handler(button));
  }

  /** The page's script registers, for every button, the listener that removes and adds
      exactly the classes the click model `Click` removes and adds. */
  lemma PageHasHandler(svg: string, button: Button)
    ensures Contains(Page(svg), Handler(button))
  {
    ScriptHasHandler(button);
    var before := "\n" + "            </div>\n" + "            \n";
    ContainsInfix(before, SCRIPT, "        </body>\n");
    ContainsAppended(before + SCRIPT + "        </body>\n", SCRIPT, "        </html>\n");
    ContainsAppended(before + SCRIPT + "        </body>\n" + "        </html>\n", SCRIPT, "        ");
    ContainsTransitive(PAGE_SUFFIX, SCRIPT, Handler(button));
    SuffixPartInPage(svg, Handler(button));
  }

  // ---------------------------------------------------------------------------
  // HtmlExporter

  /** An exporter for the SVG file at `svgPath`. */
  datatype HtmlExporter = HtmlExporter(svgPath: string) {

    /** `export(output_path)`: reads the SVG, writes the page to the output path and
        returns that path. */
    function Export(files: FileSystem, outputPath: Option<string> := None): Result<(string, FileSystem), IoError> {
      var output := HtmlOutputPath(svgPath, outputPath);
      match Read(files, svgPath)
      case Failure(e) => Failure(e)
      case Success(svgContent) => Success((output, Write(files, output, Page(svgContent))))
    }
  }

  /** A missing SVG file raises before anything is written; otherwise the page of the SVG
      text is written to the output path, which is returned, and no other file changes. */
  lemma ExportWritesPage(files: FileSystem, svgPath: string, outputPath: Option<string>)
    ensures svgPath !in files ==> HtmlExporter(svgPath).Export(files, outputPath) == Failure(FileNotFound(svgPath))
    ensures svgPath in files ==>
              var output := HtmlOutputPath(svgPath, outputPath);
              HtmlExporter(svgPath).Export(files, outputPath) == Success((output, Write(files, output, Page(files[svgPath]))))
  {
  }

  /** Exporting an SVG file just written: the page written holds that content. */
  lemma ExportEmbedsWrittenSvg(files: FileSystem, svgPath: string, content: string, outputPath: Option<string>)
    ensures var exported := HtmlExporter(svgPath).Export(Write(files, svgPath, content), outputPath);
            && exported.Success?
            && exported.value.0 in exported.value.1
            && Contains(exported.value.1[exported.value.0], content)
  {
    var written := Write(files, svgPath, content);
    ExportWritesPage(written, svgPath, outputPath);
    PageEmbedsSvg(content);
  }

  /** Rendering an animated diagram and exporting its SVG: for any SVG file, the page
      written holds the rendered SVG verbatim. */
  lemma RenderThenExport(files: FileSystem, svgPath: string, outputPath: Option<string>)
    requires svgPath in files
    ensures var rendered := AnimatedDiagram.Render(files, svgPath);
            && rendered.Success?
            && var exported := HtmlExporter(svgPath).Export(rendered.value.1, outputPath);
            && exported.Success?
            && Contains(exported.value.1[exported.value.0], AnimatedDiagram.InjectStyles(files[svgPath]))
  {
    var styled := AnimatedDiagram.InjectStyles(files[svgPath]);
    assert AnimatedDiagram.Render(files, svgPath) == Success((svgPath, Write(files, svgPath, styled)));
    ExportEmbedsWrittenSvg(files, svgPath, styled, outputPath);
  }

  /** When the SVG had an `<svg ` tag, the page exported from the rendered diagram also
      holds the `pulse` keyframes. */
  lemma RenderThenExportHasKeyframes(files: FileSystem, svgPath: string, outputPath: Option<string>)
    requires svgPath in files && Contains(files[svgPath], AnimatedDiagram.SVG_OPEN)
    ensures var rendered := AnimatedDiagram.Render(files, svgPath);
            && rendered.Success?
            && var exported := HtmlExporter(svgPath).Export(rendered.value.1, outputPath);
            && exported.Success?
            && Contains(exported.value.1[exported.value.0], AnimatedDiagram.KEYFRAMES)
  {
    var styled := AnimatedDiagram.InjectStyles(files[svgPath]);
    var written := Write(files, svgPath, styled);
    RenderThenExport(files, svgPath, outputPath);
    AnimatedDiagram.InjectedSvgHasKeyframes(files[svgPath]);
    var exported := HtmlExporter(svgPath).Export(written, outputPath);
    ContainsTransitive(exported.value.1[exported.value.0], styled, AnimatedDiagram.KEYFRAMES);
  }
}
