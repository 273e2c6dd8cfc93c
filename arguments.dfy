/**
 * The command line of waybl: `[-b|--blur <amount>] [<wallpaper>] [<output>:<wallpaper> ...]`,
 * read by the argument loop at the top of main in main.go.
 */
module Arguments {
  import opened Util

  /** The blur amount used when no `-b` is given. */
  const DefaultBlurAmount: string := "0x2"

  /** What the arguments set: the global wallpaper, the blur amount and the wallpaper of each named output. */
  datatype Config = Config(globalWallpaper: string, blurAmount: string, outputWalls: map<string, string>)

  /** The configuration before any argument is read. */
  const Defaults: Config := Config("", DefaultBlurAmount, map[])

  /** A blur flag given as the last argument, with no amount after it (an index-out-of-range panic in main.go). */
  datatype ArgError = MissingBlurValue(flag: string)

  predicate IsBlurFlag(arg: string)
  {
    arg == "-b" || arg == "--blur"
  }

  /** strings.Split(s, ":"): the pieces between the colons, in order. */
  function Split(s: string): (parts: seq<string>)
    ensures |parts| >= 1
    ensures forall k :: 0 <= k < |parts| ==> ':' !in parts[k]
    ensures ':' in s <==> |parts| >= 2
  {
    if s == [] then [[]]
    else
      var rest := Split(s[1..]);
      if s[0] == ':' then [[]] + rest
      else [[s[0]] + rest[0]] + rest[1..]
  }

  /** strings.Join(parts, ":"). */
  function Join(parts: seq<string>): string
    requires |parts| >= 1
  {
    if |parts| == 1 then parts[0] else parts[0] + ":" + Join(parts[1..])
  }

  /** Joining the pieces again gives back the argument. */
  lemma {:induction false} SplitJoin(s: string)
    ensures Join(Split(s)) == s
  {
    if s != [] {
      SplitJoin(s[1..]);
      var rest := Split(s[1..]);
      if s[0] != ':' {
        if |rest| > 1 {
          assert ([[s[0]] + rest[0]] + rest[1..])[1..] == rest[1..];
          assert Join(rest) == rest[0] + ":" + Join(rest[1..]);
        }
      }
    }
  }

  /** A colon-free prefix only extends the first piece. */
  lemma {:induction false} SplitColonFreePrefix(p: string, t: string)
    requires ':' !in p
    ensures Split(p + t) == [p + Split(t)[0]] + Split(t)[1..]
  {
    if p == [] {
      assert p + t == t && p + Split(t)[0] == Split(t)[0];
      assert Split(t) == [Split(t)[0]] + Split(t)[1..];
    } else {
      assert (p + t)[0] == p[0] && (p + t)[1..] == p[1..] + t;
      SplitColonFreePrefix(p[1..], t);
      var rest := Split(p[1..] + t);
      assert rest[0] == p[1..] + Split(t)[0] && rest[1..] == Split(t)[1..];
      assert [p[0]] + (p[1..] + Split(t)[0]) == p + Split(t)[0];
    }
  }

  /** Splitting colon-free pieces joined by colons gives the pieces back. */
  lemma {:induction false} JoinSplit(parts: seq<string>)
    requires |parts| >= 1
    requires forall k :: 0 <= k < |parts| ==> ':' !in parts[k]
    ensures Split(Join(parts)) == parts
  {
    if |parts| == 1 {
      SplitColonFreePrefix(parts[0], []);
      assert parts[0] + [] == parts[0];
    } else {
      JoinSplit(parts[1..]);
      var tail := ":" + Join(parts[1..]);
      assert Join(parts) == parts[0] + tail;
      assert tail[1..] == Join(parts[1..]);
      SplitColonFreePrefix(parts[0], tail);
      assert Split(tail) == [[]] + parts[1..];
      assert parts[0] + [] == parts[0];
    }
  }

  /**
   * Reads the arguments after the program name from left to right, starting
   * from `cfg`: a blur flag takes the next argument as the blur amount, an
   * argument with a colon maps the text before the first colon to the
   * expansion of the text between the first and second colon, and any other
   * argument replaces the global wallpaper.
   */
  function ParseRest(rest: seq<string>, cfg: Config, expand: string -> string): (r: Result<Config, ArgError>)
    ensures r.Err? ==> |rest| > 0 && IsBlurFlag(rest[|rest| - 1])
    decreases |rest|
  {
    if rest == [] then Ok(cfg)
    else if IsBlurFlag(rest[0]) then
      if |rest| < 2 then Err(MissingBlurValue(rest[0]))
      else ParseRest(rest[2..], cfg.(blurAmount := rest[1]), expand)
    else if ':' in rest[0] then
      var split := Split(rest[0]);
      ParseRest(rest[1..], cfg.(outputWalls := cfg.outputWalls[split[0] := expand(split[1])]), expand)
    else ParseRest(rest[1..], cfg.(globalWallpaper := rest[0]), expand)
  }

  /** The whole command line; the first argument, the program name, is never read. */
  function Parse(args: seq<string>, expand: string -> string): Result<Config, ArgError>
  {
    if |args| <= 1 then Ok(Defaults) else ParseRest(args[1..], Defaults, expand)
  }

  /** The argument loop of main, over the whole command line with its index. */
  method ParseArgs(args: seq<string>, expand: string -> string) returns (r: Result<Config, ArgError>)
    ensures r == Parse(args, expand)
  {
    var globalWallpaper, blurAmount, outputWalls := "", DefaultBlurAmount, map[];
    var i := 0;
    while i < |args|
      invariant 0 <= i <= |args|
      invariant i == 0 ==> Config(globalWallpaper, blurAmount, outputWalls) == Defaults
      invariant i > 0 ==> Parse(args, expand) == ParseRest(args[i..], Config(globalWallpaper, blurAmount, outputWalls), expand)
    {
      if i == 0 {
        i := i + 1;
        continue;
      }
      var arg := args[i];
      if arg == "-b" || arg == "--blur" {
        if i + 1 >= |args| {
          return Err(MissingBlurValue(arg));
        }
        blurAmount := args[i + 1];
        i := i + 2;
        continue;
      }
      if ':' in arg {
        var split := Split(arg);
        outputWalls := outputWalls[split[0] := expand(split[1])];
      } else {
        globalWallpaper := arg;
      }
      i := i + 1;
    }
    r := Ok(Config(globalWallpaper, blurAmount, outputWalls));
  }

  /** Reading more arguments after a clean parse continues from the configuration reached. */
  lemma {:induction false} ParseRestAppend(a: seq<string>, b: seq<string>, cfg: Config, expand: string -> string)
    requires ParseRest(a, cfg, expand).Ok?
    ensures ParseRest(a + b, cfg, expand) == ParseRest(b, ParseRest(a, cfg, expand).value, expand)
    decreases |a|
  {
    if a == [] {
      assert a + b == b;
    } else if IsBlurFlag(a[0]) {
      assert (a + b)[2..] == a[2..] + b;
      ParseRestAppend(a[2..], b, cfg.(blurAmount := a[1]), expand);
    } else {
      assert (a + b)[1..] == a[1..] + b;
      var split := Split(a[0]);
      if ':' in a[0] {
        ParseRestAppend(a[1..], b, cfg.(outputWalls := cfg.outputWalls[split[0] := expand(split[1])]), expand);
      } else {
        ParseRestAppend(a[1..], b, cfg.(globalWallpaper := a[0]), expand);
      }
    }
  }

  /** A later `<output>:<wallpaper>` argument overrides every earlier one for the same output. */
  lemma LaterOutputArgWins(a: seq<string>, arg: string, cfg: Config, expand: string -> string)
    requires ParseRest(a, cfg, expand).Ok? && ':' in arg
    ensures ParseRest(a + [arg], cfg, expand).Ok?
    ensures Split(arg)[0] in ParseRest(a + [arg], cfg, expand).value.outputWalls
    ensures ParseRest(a + [arg], cfg, expand).value.outputWalls[Split(arg)[0]] == expand(Split(arg)[1])
  {
    ParseRestAppend(a, [arg], cfg, expand);
  }

  /** A later plain argument replaces the global wallpaper, and leaves the output wallpapers alone. */
  lemma LaterPlainArgWins(a: seq<string>, arg: string, cfg: Config, expand: string -> string)
    requires ParseRest(a, cfg, expand).Ok? && ':' !in arg && !IsBlurFlag(arg)
    ensures ParseRest(a + [arg], cfg, expand) == Ok(ParseRest(a, cfg, expand).value.(globalWallpaper := arg))
  {
    ParseRestAppend(a, [arg], cfg, expand);
  }

  /** A blur flag with nothing after it is an error: this is how the parse fails, and the only way. */
  lemma TrailingBlurFlagFails(a: seq<string>, flag: string, cfg: Config, expand: string -> string)
    requires ParseRest(a, cfg, expand).Ok? && IsBlurFlag(flag)
    ensures ParseRest(a + [flag], cfg, expand) == Err(MissingBlurValue(flag))
  {
    ParseRestAppend(a, [flag], cfg, expand);
  }

  /**
   * Every output the parse configures was configured before or is named by an
   * argument with a colon, and the blur amount is the default or an argument
   * that follows a blur flag.
   */
  lemma {:induction false} ParseRestProvenance(rest: seq<string>, cfg: Config, expand: string -> string)
    requires ParseRest(rest, cfg, expand).Ok?
    ensures forall name :: name in ParseRest(rest, cfg, expand).value.outputWalls ==>
      name in cfg.outputWalls || exists j :: 0 <= j < |rest| && ':' in rest[j] && Split(rest[j])[0] == name
    ensures var amount := ParseRest(rest, cfg, expand).value.blurAmount;
      amount == cfg.blurAmount || exists j :: 0 <= j < |rest| - 1 && IsBlurFlag(rest[j]) && rest[j + 1] == amount
    decreases |rest|
  {
    if rest != [] {
      var next: Config;
      var skip: nat;
      if IsBlurFlag(rest[0]) {
        next, skip := cfg.(blurAmount := rest[1]), 2;
      } else if ':' in rest[0] {
        var split := Split(rest[0]);
        next, skip := cfg.(outputWalls := cfg.outputWalls[split[0] := expand(split[1])]), 1;
      } else {
        next, skip := cfg.(globalWallpaper := rest[0]), 1;
      }
      assert ParseRest(rest, cfg, expand) == ParseRest(rest[skip..], next, expand);
      ParseRestProvenance(rest[skip..], next, expand);
      var r := ParseRest(rest, cfg, expand).value;
      forall name | name in r.outputWalls
        ensures name in cfg.outputWalls || exists j :: 0 <= j < |rest| && ':' in rest[j] && Split(rest[j])[0] == name
      {
        if name !in next.outputWalls {
          var j :| 0 <= j < |rest[skip..]| && ':' in rest[skip..][j] && Split(rest[skip..][j])[0] == name;
          assert rest[skip..][j] == rest[j + skip];
        } else if name !in cfg.outputWalls {
          assert ':' in rest[0] && Split(rest[0])[0] == name;
        }
      }
      if r.blurAmount != next.blurAmount {
        var j :| 0 <= j < |rest[skip..]| - 1 && IsBlurFlag(rest[skip..][j]) && rest[skip..][j + 1] == r.blurAmount;
        assert rest[skip..][j] == rest[j + skip] && rest[skip..][j + 1] == rest[j + skip + 1];
      }
    }
  }
}
