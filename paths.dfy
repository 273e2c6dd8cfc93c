/** Where waybl keeps its cache and the blurred image of each output. */
module Paths {
  import opened Util

  /** The cache directory under the user's home directory. */
  function WayblDir(homeDir: string): (dir: string)
    ensures |dir| == |homeDir| + 7 && dir[..|homeDir|] == homeDir && dir[|homeDir|..] == "/.waybl"
  {
    homeDir + "/.waybl"
  }

  /** The blurred copy of an output's wallpaper: `<wayblDir>/<output>.jpg`. */
  function BlurredWallpaperPath(output: string, wayblDir: string): (path: string)
    ensures |path| == |wayblDir| + |output| + 5
  {
    wayblDir + "/" + output + ".jpg"
  }

  /** Inverse of BlurredWallpaperPath for a fixed directory: recovers the output name. */
  function OutputOfBlurredPath(path: string, wayblDir: string): (output: Option<string>)
  {
    if |path| >= |wayblDir| + 5 && path[..|wayblDir|] == wayblDir && path[|wayblDir|] == '/'
       && path[|path| - 4..] == ".jpg"
    then Some(path[|wayblDir| + 1..|path| - 4])
    else None
  }

  /** Every blurred path names its output back. */
  lemma BlurredPathRoundTrip(output: string, wayblDir: string)
    ensures OutputOfBlurredPath(BlurredWallpaperPath(output, wayblDir), wayblDir) == Some(output)
  {
    var path := BlurredWallpaperPath(output, wayblDir);
    assert path[..|wayblDir|] == wayblDir;
    assert path[|wayblDir|] == '/';
    assert path[|path| - 4..] == ".jpg";
    assert path[|wayblDir| + 1..|path| - 4] == output;
  }

  /** A path the inverse accepts is exactly the blurred path of the name it returns. */
  lemma OutputOfBlurredPathSound(path: string, wayblDir: string)
    requires OutputOfBlurredPath(path, wayblDir).Some?
    ensures BlurredWallpaperPath(OutputOfBlurredPath(path, wayblDir).value, wayblDir) == path
  {
    var output := OutputOfBlurredPath(path, wayblDir).value;
    var n := |wayblDir|;
    assert path == path[..n] + [path[n]] + path[n + 1..|path| - 4] + path[|path| - 4..];
  }

  /** For one cache directory, two outputs never share a blurred file. */
  lemma BlurredPathInjective(a: string, b: string, wayblDir: string)
    ensures BlurredWallpaperPath(a, wayblDir) == BlurredWallpaperPath(b, wayblDir) ==> a == b
  {
    BlurredPathRoundTrip(a, wayblDir);
    BlurredPathRoundTrip(b, wayblDir);
  }
}
