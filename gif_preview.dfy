/**
 * `create_gif_from_svg` in animated_diagram.py: a static GIF preview of a rendered SVG.
 *
 * Rasterising the SVG (cairosvg, PIL, numpy) and encoding the GIF (imageio) are
 * foreign code: whether the optional packages import, and the image rasterising
 * produces (or that it raises), are inputs; the GIF writer is the sequence of frames
 * appended to it, stored under the output path when the writer closes.
 */
module GifPreview {
  import opened Outcomes
  import opened Paths

  const DEFAULT_DURATION := 10
  const DEFAULT_FPS := 15

  /** The number of iterations of `for _ in range(n)`. */
  function RangeLength(n: int): nat {
    if n > 0 then n else 0
  }

  /** `n` copies of `x`. */
  function Repeat<T>(x: T, n: nat): (r: seq<T>)
    ensures |r| == n
    ensures forall i :: 0 <= i < n ==> r[i] == x
  {
    if n == 0 then [] else Repeat(x, n - 1) + [x]
  }

  /** The GIF path: the given one, or the SVG path with its extension replaced by `.gif`.
      Only `None` selects the default; an empty path is kept. */
  function GifOutputPath(svgPath: string, outputGif: Option<string>): string {
    match outputGif
    case None => Root(svgPath) + ".gif"
    case Some(path) => path
  }

  /** Unless the final component of the SVG path's root is empty or all dots, the default
      GIF path splits into that root and `.gif`: the extension is swapped, or added when
      there was none. */
  lemma DefaultGifPathReplacesExtension(svgPath: string)
    requires !AllDots(FinalComponent(Root(svgPath)))
    ensures Splitext(GifOutputPath(svgPath, None)) == (Root(svgPath), ".gif")
  {
    assert IsExtension(".gif");
    AppendExtension(Root(svgPath), ".gif");
  }

  /** What a call to `create_gif_from_svg` comes to. */
  datatype GifOutcome =
    | PackagesMissing          // returned `None`
    | Created(path: string)    // returned the GIF path
    | Raised(error: GifError)  // an exception left the function

  datatype GifError =
    | RasterisationFailed      // svg2png or Image.open raised
    | ZeroDivision             // `1/fps` with fps == 0

  /** The part of the file system the conversion touches: the temporary directories that
      exist, and the GIF files written, each as the frames it holds. */
  class Workspace<Image> {
    var tempDirs: set<nat>
    var nextTempDir: nat
    var gifs: map<string, seq<Image>>

    /** Every existing temporary directory was handed out before. */
    ghost predicate Valid()
      reads this
    {
      forall d :: d in tempDirs ==> d < nextTempDir
    }

    constructor ()
      ensures Valid() && tempDirs == {} && gifs == map[]
    {
      tempDirs := {};
      nextTempDir := 0;
      gifs := map[];
    }

    /** `tempfile.mkdtemp()`: a directory that did not exist before. */
    method MakeTempDir() returns (dir: nat)
      requires Valid()
      modifies this
      ensures Valid()
      ensures dir !in old(tempDirs) && tempDirs == old(tempDirs) + {dir}
      ensures gifs == old(gifs)
    {
      dir := nextTempDir;
      tempDirs := tempDirs + {dir};
      nextTempDir := nextTempDir + 1;
    }

    /** `shutil.rmtree(dir)`. */
    method RemoveTree(dir: nat)
      requires Valid()
      modifies this
      ensures Valid()
      ensures tempDirs == old(tempDirs) - {dir}
      ensures gifs == old(gifs)
    {
      tempDirs := tempDirs - {dir};
    }

    /** Closing a GIF writer: the file at `path` holds the frames appended to it. */
    method WriteGif(path: string, frames: seq<Image>)
      requires Valid()
      modifies this
      ensures Valid()
      ensures tempDirs == old(tempDirs)
      ensures gifs == old(gifs)[path := frames]
    {
      gifs := gifs[path := frames];
    }
  }

  /** `create_gif_from_svg(svg_path, output_gif, duration, fps)`. `packagesInstalled` says
      whether the optional imports succeed; `rasterised` is the image the SVG rasterises
      to, `None` when rasterising raises. */
  method CreateGifFromSvg<Image>(workspace: Workspace<Image>, svgPath: string,
                                 packagesInstalled: bool, rasterised: Option<Image>,
                                 outputGif: Option<string> := None,
                                 duration: int := DEFAULT_DURATION, fps: int := DEFAULT_FPS)
    returns (outcome: GifOutcome)
    requires workspace.Valid()
    modifies workspace
    ensures workspace.Valid()
    // the temporary directory is gone again on every path
    ensures workspace.tempDirs == old(workspace.tempDirs)
    // without the packages nothing is created at all, not even a temporary directory
    ensures !packagesInstalled ==> outcome == PackagesMissing && workspace.nextTempDir == old(workspace.nextTempDir)
    ensures packagesInstalled && rasterised.None? ==> outcome == Raised(RasterisationFailed)
    ensures packagesInstalled && rasterised.Some? && fps == 0 ==> outcome == Raised(ZeroDivision)
    ensures !outcome.Created? ==> workspace.gifs == old(workspace.gifs)
    ensures packagesInstalled && rasterised.Some? && fps != 0 ==>
              && outcome == Created(GifOutputPath(svgPath, outputGif))
              && workspace.gifs == old(workspace.gifs)[outcome.path := Repeat(rasterised.value, RangeLength(duration * fps))]
  {
    if !packagesInstalled {
      return PackagesMissing;
    }
    var outputPath := GifOutputPath(svgPath, outputGif);
    var tempDir := workspace.MakeTempDir();
    var frameCount := duration * fps;
    if rasterised.None? {
      outcome := Raised(RasterisationFailed);
    } else if fps == 0 {
      outcome := Raised(ZeroDivision);
    } else {
      var baseImage := rasterised.value;
      var frames: seq<Image> := [];
      var n := RangeLength(frameCount);
      var i := 0;
      while i < n
        invariant 0 <= i <= n
        invariant frames == Repeat(baseImage, i)
      {
        frames := frames + [baseImage];
        i := i + 1;
      }
      workspace.WriteGif(outputPath, frames);
      outcome := Created(outputPath);
    }
    workspace.RemoveTree(tempDir);
  }
}
