# Pulsating data pipeline — a Dafny model

The Python package `pulsating-data-pipeline` draws data-pipeline diagrams whose edges pulse.
Its own logic is textual:

- an edge's attribute dictionary gets a CSS class, a pulse period and a stroke colour;
- a diagram's file name is forced to end in `.svg`;
- the rendered SVG text is rewritten so that every `<svg ` tag is followed by an animation stylesheet;
- an optional GIF preview repeats one rasterised frame `duration * fps` times, in a temporary directory it always removes;
- an HTML exporter embeds the SVG text in a fixed page. The page has speed and colour-theme controls, whose script toggles classes on the diagram container.

This project models those pieces and proves what they promise. Graph layout, rasterisation and GIF encoding are foreign code: their results are inputs of the model.

Modules, one concept each:

- `Outcomes` — `Option`, `Result`, and a file system as a map from path to contents (`Read`, `Write`).
- `Text` — the Python string operations the code relies on:
  - `str.replace` (leftmost, non-overlapping, every occurrence) as `ReplaceAll`, with `Split`/`Join`/`Count`;
  - `%` formatting with one string argument as `Format`;
  - the tokenisation of a `class` attribute into a DOM class list as `ClassTokens`, for attributes whose only whitespace is spaces.
- `Paths` — `os.path.splitext` as it behaves on POSIX: the last `.ext` of the final path component, ignoring the component's leading dots.
- `AnimatedDiagram` — `PulsatingEdge.__init__`, `AnimatedDiagram.__init__` and `AnimatedDiagram.render` (animated_diagram.py).
- `GifPreview` — `create_gif_from_svg` (animated_diagram.py). A `Workspace` class holds the temporary directories and the GIFs written. The frame loop is a `while` loop.
- `ViewerScript` — the embedded JavaScript's class-list state machine (html_exporter.py):
  - a `DiagramElement` class with a `classList: set<string>` field and one method per button;
  - the pure `Click` function they are proved against;
  - an abstract `ViewState` that every reachable class list encodes.
- `HtmlExport` — `HtmlExporter.export`. The page is modelled as
  - the fixed text before the `%s`,
  - the SVG text,
  - the fixed text after it.

  That fixed text is assembled from the theme rules and the button handlers, so that lemmas can locate them in it.

The code replaces every `<svg ` in the SVG text, including any inside embedded content, not only the first opening tag. The model follows the code (`InjectStylesPieces`, `InjectStylesLength`). `InjectStylesOnce` states the single-tag case.

## Model

| member | source | states |
|---|---|---|
| AnimatedDiagram.Decorated | animated_diagram.py:9-13 | the three animation keys are added or overwritten: `class` = `pulsating-arrow <color>-pulse`, `data-pulse-speed` = the speed, `stroke` = the colour, all unvalidated; every other attribute of the base edge is kept |
| AnimatedDiagram.PulsatingEdge.constructor | animated_diagram.py:9-13 | after the base edge sets its attributes, the three in-place dictionary updates leave exactly the decorated map; defaults `blue` and `3s` |
| AnimatedDiagram.RedecorateOverwrites | animated_diagram.py:11-13 | decorating an already decorated edge keeps only the last colour and speed |
| AnimatedDiagram.EdgeClassNames | animated_diagram.py:11 | for any colour without ASCII whitespace (space, tab, line feed, form feed, carriage return), even one outside the palette, the edge's class list is exactly `pulsating-arrow` and `<color>-pulse` |
| AnimatedDiagram.StylesheetHasKeyframes | animated_diagram.py:34-40 | the injected stylesheet defines the `pulse` keyframes |
| AnimatedDiagram.PaletteRulesHaveColourRule | animated_diagram.py:46-69 | the palette section has a rule for each of the five palette colours |
| AnimatedDiagram.StylesheetHasColourRule | animated_diagram.py:34-71 | the stylesheet has each palette colour's rule, with its stroke and pulse period |
| AnimatedDiagram.NormalizeFilename | animated_diagram.py:19-20 | a non-empty name not ending in `.svg` becomes name + `.svg`; a name ending in `.svg`, an empty name and no name pass unchanged; a non-empty result always ends in `.svg` and starts with the given name |
| AnimatedDiagram.NormalizeFilenameIdempotent | animated_diagram.py:19-20 | normalising twice is normalising once |
| AnimatedDiagram.SvgOpenNoSelfOverlap | animated_diagram.py:74 | two occurrences of `<svg ` cannot overlap |
| AnimatedDiagram.InjectStylesPieces | animated_diagram.py:74 | cutting the SVG at its `<svg ` occurrences, the text between them is unchanged and each occurrence becomes `<svg ` + line break + stylesheet |
| AnimatedDiagram.InjectStylesLength | animated_diagram.py:34-74 | output length = input length + (number of `<svg ` occurrences) × (1 + stylesheet length) |
| AnimatedDiagram.InjectStylesUnchangedIff | animated_diagram.py:74 | the text is left unchanged if and only if it has no `<svg ` |
| AnimatedDiagram.InjectStylesOnce | animated_diagram.py:74 | with exactly one `<svg `, the stylesheet follows it once and the text before and after is kept |
| AnimatedDiagram.InjectedSvgHasKeyframes | animated_diagram.py:34-74 | an SVG with an opening tag comes out with the `pulse` keyframes in it |
| AnimatedDiagram.Render | animated_diagram.py:25-80 | the file at the rendered path is read, rewritten by the style injection, written back under the same path, and that path is returned; a missing file raises and writes nothing |
| GifPreview.Repeat | animated_diagram.py:121-122 | `n` frames, every one the given image |
| GifPreview.DefaultGifPathReplacesExtension | animated_diagram.py:100-101 | whenever the final component of the SVG path's root is neither empty nor all dots (so `diagram.svg` and `diagram` alike), the default GIF path splits into that root and `.gif` |
| GifPreview.Workspace.MakeTempDir | animated_diagram.py:104 | a directory that did not exist before is created; nothing else changes |
| GifPreview.Workspace.RemoveTree | animated_diagram.py:129-131 | the directory is removed; the GIFs are untouched |
| GifPreview.Workspace.WriteGif | animated_diagram.py:120-122 | the writer leaves at its path exactly the frames appended to it |
| GifPreview.CreateGifFromSvg | animated_diagram.py:91-131 | without the packages it returns `None` before any path or directory is made; a rasterising failure and `fps == 0` raise with no GIF written; otherwise the GIF at the given path (or root + `.gif` when none is given) holds `max(duration*fps, 0)` copies of the one image and that path is returned; the temporary directory is gone on every exit |
| ViewerScript.Click | html_exporter.py:128-171 | pause adds `paused` and play removes it, touching nothing else; a speed (theme) button leaves its class the only speed (theme) class and keeps every other class, `paused` included |
| ViewerScript.InitialClassList | html_exporter.py:122 | the container's class attribute parses to `{diagram-container, theme-default}`: no speed class, not paused |
| ViewerScript.ClickRefinesStep | html_exporter.py:128-171 | each handler, applied to the class list encoding a viewer state, gives the class list of the state after that button |
| ViewerScript.RunRefines | html_exporter.py:128-171 | over any sequence of clicks the class list is the encoding of the state reached by the same buttons |
| ViewerScript.ClassesWellFormed | html_exporter.py:122-171 | every encoded state has the container class, exactly one theme class and at most one speed class |
| ViewerScript.ReachableWellFormed | html_exporter.py:122-171 | after any sequence of clicks from the initial page, `diagram-container` is present, exactly one theme class is present and at most one speed class is |
| ViewerScript.ClickIdempotent | html_exporter.py:128-171 | clicking any button twice in a row is clicking it once |
| ViewerScript.DiagramElement.constructor | html_exporter.py:122 | the element starts with the class list of its `class` attribute, encoding the initial state |
| ViewerScript.DiagramElement.PauseClicked | html_exporter.py:128-130 | the class list becomes `Click(old, pause)`: `paused` added, the encoded state paused |
| ViewerScript.DiagramElement.PlayClicked | html_exporter.py:132-134 | the class list becomes `Click(old, play)`: `paused` removed, the encoded state playing |
| ViewerScript.DiagramElement.SpeedNormalClicked | html_exporter.py:136-140 | the other two speed classes removed, `speed-normal` added; the state's speed becomes normal |
| ViewerScript.DiagramElement.SpeedSlowClicked | html_exporter.py:142-146 | the other two speed classes removed, `speed-slow` added; the state's speed becomes slow |
| ViewerScript.DiagramElement.SpeedFastClicked | html_exporter.py:148-152 | the other two speed classes removed, `speed-fast` added; the state's speed becomes fast |
| ViewerScript.DiagramElement.ThemeDefaultClicked | html_exporter.py:155-159 | the other two theme classes removed, `theme-default` added; the state's theme becomes default |
| ViewerScript.DiagramElement.ThemeNeonClicked | html_exporter.py:161-165 | the other two theme classes removed, `theme-neon` added; the state's theme becomes neon |
| ViewerScript.DiagramElement.ThemePastelClicked | html_exporter.py:167-171 | the other two theme classes removed, `theme-pastel` added; the state's theme becomes pastel |
| HtmlExport.DefaultHtmlPathReplacesExtension | html_exporter.py:11-12 | an empty output path selects the default just as `None` does; whenever the final component of the SVG path's root is neither empty nor all dots, the default page path splits into that root and `.html` |
| HtmlExport.ThemeStroke | html_exporter.py:85-102 | the fifteen theme colours as literals; the default theme's five (lines 86-90) equal, class by class, the strokes of the SVG's own stylesheet (`AnimatedDiagram.PaletteStroke`, animated_diagram.py:46-69) |
| HtmlExport.TemplateSubstitution | html_exporter.py:19-175 | when the fixed text has no `%` besides the one `%s`, formatting the template with the SVG text gives prefix + SVG text + suffix: inserted verbatim, no escaping |
| HtmlExport.PageEmbedsSvg | html_exporter.py:122-124 | the page contains the SVG text unchanged |
| HtmlExport.PageHasInitialContainer | html_exporter.py:122 | every page contains `class="diagram-container theme-default"`, whose class list has no speed class and no `paused` |
| HtmlExport.PageHasThemeRule | html_exporter.py:85-102 | every page's stylesheet has the rule of every theme for every palette class |
| HtmlExport.PageHasHandler | html_exporter.py:126-172 | every page's script registers each button's listener, which removes and adds exactly the classes `Click` removes and adds |
| HtmlExport.ExportWritesPage | html_exporter.py:9-181 | a missing SVG file raises with nothing written; otherwise the page of the SVG text is written to the output path, the path written is the path returned, and no other file changes |
| HtmlExport.ExportEmbedsWrittenSvg | html_exporter.py:15-16 | exporting an SVG file writes a page holding that file's text |
| HtmlExport.RenderThenExport | html_exporter.py:15-179 | for any existing SVG file, rendering succeeds and exporting the rendered file writes a page holding the styled SVG verbatim |
| HtmlExport.RenderThenExportHasKeyframes | html_exporter.py:15-179 | when the SVG had an `<svg ` tag, the page exported from the rendered diagram also holds the `pulse` keyframes |
| Paths.LastIndexOf | html_exporter.py:12 | the last position of a character, or -1 when absent |
| Paths.Splitext | html_exporter.py:12 | root + extension is the path; the extension is empty or a dot followed by non-dots |
| Paths.ExtensionIff | html_exporter.py:12 | a path has an extension if and only if its final component has a dot after some non-dot |
| Paths.AppendExtension | html_exporter.py:12 | appending an extension to a name that is not all dots splits back into that name and extension |
| Paths.ReplaceExtension | animated_diagram.py:101 | root + a new extension splits into the same root and the new extension |
| Paths.DotfileHasNoExtension | html_exporter.py:12 | a name like `.svg` (leading dot only) has no extension |
| Text.SplitJoin | animated_diagram.py:74 | joining the pieces of a split with the separator gives back the text |
| Text.ReplaceAllIsJoin | animated_diagram.py:74 | replacing every occurrence is splitting at the pattern and joining with the replacement |
| Text.SplitPiecesAvoid | animated_diagram.py:74 | no piece of a split contains the separator |
| Text.SplitCount | animated_diagram.py:74 | a split has one more piece than there are matches |
| Text.ContainsIffCount | animated_diagram.py:74 | a text contains the pattern if and only if the replace count is positive |
| Text.ReplaceAllLength | animated_diagram.py:74 | replacing grows the text by count × (replacement length − pattern length) |
| Text.ReplaceAllUnchangedIff | animated_diagram.py:74 | a replacement of different length leaves the text unchanged if and only if the pattern is absent |
| Text.CountIsCountAll | animated_diagram.py:74 | for a pattern that cannot overlap itself, non-overlapping matches are all matches |
| Text.ReplaceAllOnce | animated_diagram.py:74 | with exactly one match, the result is before + replacement + after |
| Text.ReplaceAllContainsReplacement | animated_diagram.py:74 | when the pattern occurs, the result contains the replacement |
| Text.ClassTokensOfPair | html_exporter.py:122 | an attribute `a b` gives the class list `{a, b}` |
| Text.FormatSingleDirective | html_exporter.py:123-175 | `%` with one argument on a template whose only directive is one `%s` puts the argument in its place |
| Text.FormatWithoutDirective | html_exporter.py:175 | a template with no directive raises "not all arguments converted" |
| Text.FormatTwoDirectives | html_exporter.py:175 | after a `%s`, a second conversion (`%s`, `%d`, `%y`, …) raises "not enough arguments", the argument being fetched before the character is checked; the character after that `%` is not a mapping key, flag, width, precision or length modifier |
| Text.FormatMappingKey | html_exporter.py:175 | a `%(` mapping key raises "format requires a mapping", since a string argument is not a mapping |
| Text.FormatLengthModifier | html_exporter.py:175 | an `h`, `l` or `L` length modifier before `s` is ignored: the template formats as with a plain `%s` |
| Text.FormatTrailingModifier | html_exporter.py:175 | a template ending in `%` and a length modifier raises "incomplete format" |
| AnimatedDiagram.EdgeClass | animated_diagram.py:11 | `pulsating-arrow <color>-pulse`; its class list is stated by `AnimatedDiagram.EdgeClassNames` |
| AnimatedDiagram.NewDiagram | animated_diagram.py:18-23 | the base diagram gets the name, the direction (default `LR`), the normalised file name and the output format `svg`; the file name's contract is `AnimatedDiagram.NormalizeFilename` |
| AnimatedDiagram.InjectStyles | animated_diagram.py:74 | `svg.replace("<svg ", "<svg \n" + styles)`; its contract is stated by `InjectStylesPieces`, `InjectStylesLength`, `InjectStylesUnchangedIff`, `InjectStylesOnce` and `InjectedSvgHasKeyframes` |
| GifPreview.GifOutputPath | animated_diagram.py:100-101 | only `None` selects root + `.gif`, a given path (even empty) is kept; stated by `GifPreview.DefaultGifPathReplacesExtension` |
| HtmlExport.HtmlOutputPath | html_exporter.py:11-12 | `None` or an empty path selects root + `.html`, any other path is kept; stated by `HtmlExport.DefaultHtmlPathReplacesExtension` |
| HtmlExport.Handler | html_exporter.py:128-171 | the listener text of one button, built from the lists `RemovedClasses` and `AddedClasses` that `ViewerScript.Click` applies; placed in every page by `HtmlExport.PageHasHandler` |
| HtmlExport.Page | html_exporter.py:19-175 | fixed prefix + SVG text + fixed suffix; equal to the formatted template by `HtmlExport.TemplateSubstitution`, contents stated by `PageEmbedsSvg`, `PageHasInitialContainer`, `PageHasThemeRule`, `PageHasHandler` |
| HtmlExport.HtmlExporter.Export | html_exporter.py:9-181 | computes the output path, reads the SVG, writes the page and returns the path; its contract is `HtmlExport.ExportWritesPage` |
| Text.ReplaceAll | animated_diagram.py:74 | `str.replace` scanning left to right, each match skipping past itself; stated by `Text.ReplaceAllIsJoin`, `ReplaceAllLength`, `ReplaceAllUnchangedIff`, `ReplaceAllOnce` |
| Text.Count | animated_diagram.py:74 | the non-overlapping left-to-right match count of `str.count`; stated by `Text.ContainsIffCount`, `SplitCount`, `CountIsCountAll` |
| Text.Split | animated_diagram.py:74 | `str.split` at the same matches; stated by `Text.SplitJoin`, `SplitPiecesAvoid`, `SplitCount` |
| Text.ClassTokens | html_exporter.py:122 | the non-empty space-separated tokens of a `class` attribute; stated by `Text.ClassTokensOfPair` |
| Text.Format | html_exporter.py:175 | `template % arg` for one string argument: `%s` inserts it, `%%` is a percent, a template without a directive raises "not all arguments converted", a conversion after the first `%s` raises "not enough arguments", a mapping key raises "format requires a mapping", and a length modifier is skipped; stated by `Text.FormatSingleDirective`, `FormatWithoutDirective`, `FormatTwoDirectives`, `FormatMappingKey`, `FormatLengthModifier`, `FormatTrailingModifier` |

## Left out

- HtmlExport.TemplateSubstitution: the hypothesis that the page's fixed text holds no `%` besides the `%s` is stated, not proved. The fixed text is thousands of characters of literals, and discharging the hypothesis literal by literal (split into pieces of a few dozen characters, joined by a lemma that `%`-freeness survives concatenation) is too costly to be worth it here. `Export` therefore writes `Page(svg)` = prefix + SVG + suffix directly.
- HtmlExport.PageEmbedsSvg: states that the SVG text occurs in the page. It does not state the offsets at which the SVG, prefix and suffix sit, because arithmetic on the length of the fixed text is beyond the prover's resource budget.
- The `diagrams`/graphviz base classes, `super().__init__` with its keyword arguments, and `super().render()`. They are external layout and rendering. The SVG path and text they produce are inputs; `NewDiagram` only records what is passed on.
- File I/O: reading and writing are a map from path to contents, holding the text as it is. Python's text mode translates CR LF and CR to LF on reading, so for a file containing a carriage return `AnimatedDiagram.Render` and `HtmlExport.ExportEmbedsWrittenSvg` keep text the program would have changed. A missing file is the one read error. Write failures, permissions and text encodings are not modelled.
- GifPreview.CreateGifFromSvg: cairosvg, PIL, numpy and imageio are foreign.
  - Whether the imports succeed and what rasterising yields are parameters.
  - The frame period `1/fps` is floating point and is not modelled beyond its division by zero.
  - A non-integer `duration * fps` is not modelled; the arguments are integers.
  - What the writer does with zero frames is not modelled.
  - The PNG written inside the temporary directory is not modelled.
- `print` diagnostics: console output only.
- CSS and animation semantics (keyframe timing, `calc` speed scaling, how the browser resolves colours) are not modelled. The model shows where the rules sit in the text.
- ViewerScript: the class list is a set, so the order of tokens in the DOM is not kept.
- Text.ClassTokens: splits on spaces only, where a browser splits on all ASCII whitespace. Every use is restricted accordingly: the page's container attribute holds only spaces, and `AnimatedDiagram.EdgeClassNames` requires a colour free of all ASCII whitespace.
- Text.Format: only a single string argument is modelled, with the `%s` and `%%` conversions, `%(` mapping keys (an error with a string argument) and the ignored `h`/`l`/`L` length modifiers. Any other character after a `%`, or after its length modifier, is an unsupported conversion while the argument is unused and "not enough arguments" once it is used. Flags, widths, precisions and `*` (the characters `-`, `+`, space, `#`, `*`, `.` and the digits) are not parsed. The model reads such a character as the conversion character, so for those templates its result is not CPython's: CPython pads or truncates the `%s`, fetches an argument for `*`, or reports an incomplete format. Conversions other than `s`, which would format the string argument or reject it, are not modelled either. The page template holds a single `%s` and none of these.
- GifPreview.Workspace: the GIFs are kept in a store of their own, apart from the `Outcomes.FileSystem` that `Render` and `Export` write. The model therefore cannot show a GIF overwriting the SVG or the page, e.g. when the GIF path equals the SVG path. The rasterised image is a parameter, not tied to the SVG file's contents or to whether that file exists.
- Paths.Splitext: only POSIX separators. Windows drive letters and backslashes are not modelled.
- The example pipelines, `setup.py` and `__init__.py`: demo scripts, packaging and re-exports.
