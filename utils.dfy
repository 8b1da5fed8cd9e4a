/** code/utils.cpp: where walng keeps its files, the expansion of a leading
    "~/", and the shape of temporary file names. The process environment is
    a map parameter; the random draws and the temp directory lookup are
    parameters too. Paths are POSIX std::filesystem::path strings. */
module Utils {
  import opened Wrappers

  /** The process environment: variable name to value; a variable that is
      set (even to "") is a key. */
  type Env = map<string, string>

  /** A std::system_error: its error code and the context text it was built
      with. */
  datatype SystemError = SystemError(code: int, context: string)

  const ENOENT := 2

  predicate StartsWith(s: string, prefix: string) {
    |prefix| <= |s| && s[..|prefix|] == prefix
  }

  predicate EndsWith(s: string, suffix: string) {
    |suffix| <= |s| && s[|s| - |suffix|..] == suffix
  }

  predicate IsAbsolute(p: string) {
    |p| > 0 && p[0] == '/'
  }

  /** `p / q` for POSIX paths: an absolute `q` replaces `p`; otherwise a
      separator is inserted when `p` has a file name (is non-empty and does
      not end in '/'), and `q` is appended. */
  function Join(p: string, q: string): (r: string)
    ensures IsAbsolute(q) ==> r == q
    ensures !IsAbsolute(q) ==> EndsWith(r, q) && StartsWith(r, p)
    ensures !IsAbsolute(q) && p != [] && p[|p| - 1] != '/' ==> |r| == |p| + 1 + |q| && r[|p|] == '/'
  {
    if IsAbsolute(q) then q
    else if p == [] || p[|p| - 1] == '/' then p + q
    else p + "/" + q
  }

  /** getHomePath: $HOME, or ENOENT when it is not set. */
  function HomePath(env: Env): (r: Result<string, SystemError>)
    ensures r.Success? <==> "HOME" in env
    ensures r.Success? ==> r.value == env["HOME"]
    ensures r.Failure? ==> r.error == SystemError(ENOENT, "HOME env variable not set")
  {
    if "HOME" in env then Success(env["HOME"])
    else Failure(SystemError(ENOENT, "HOME env variable not set"))
  }

  /** The directory rule shared by getConfigPath and getCachePath: the XDG
      variable's value / "walng" when it is set, else $HOME / `dotDir` /
      "walng". */
  function XdgPath(env: Env, xdgVar: string, dotDir: string): (r: Result<string, SystemError>)
    ensures r.Failure? <==> xdgVar !in env && "HOME" !in env
    ensures r.Failure? ==> r.error == SystemError(ENOENT, "HOME env variable not set")
    ensures r.Success? ==> r.value == "walng" || EndsWith(r.value, "/walng")
  {
    assert "/" + "walng" == "/walng";
    if xdgVar in env then
      JoinNamesLastComponent(env[xdgVar], "walng");
      Success(Join(env[xdgVar], "walng"))
    else
      var home :- HomePath(env);
      JoinNamesLastComponent(Join(home, dotDir), "walng");
      Success(Join(Join(home, dotDir), "walng"))
  }

  /** getConfigPath: fails only when neither $XDG_CONFIG_HOME nor $HOME is
      set, and otherwise names a directory called walng. */
  function ConfigPath(env: Env): (r: Result<string, SystemError>)
    ensures r.Success? <==> "XDG_CONFIG_HOME" in env || "HOME" in env
    ensures r.Success? ==> r.value == "walng" || EndsWith(r.value, "/walng")
  {
    XdgPath(env, "XDG_CONFIG_HOME", ".config")
  }

  /** getCachePath: fails only when neither $XDG_CACHE_HOME nor $HOME is
      set, and otherwise names a directory called walng. */
  function CachePath(env: Env): (r: Result<string, SystemError>)
    ensures r.Success? <==> "XDG_CACHE_HOME" in env || "HOME" in env
    ensures r.Success? ==> r.value == "walng" || EndsWith(r.value, "/walng")
  {
    XdgPath(env, "XDG_CACHE_HOME", ".cache")
  }

  /** getConfigPath takes $XDG_CONFIG_HOME when it is set, whatever $HOME is,
      falls back to $HOME/.config, and fails only when neither is set. */
  lemma ConfigPathSelection(env: Env)
    ensures "XDG_CONFIG_HOME" in env ==> ConfigPath(env) == Success(Join(env["XDG_CONFIG_HOME"], "walng"))
    ensures "XDG_CONFIG_HOME" !in env && "HOME" in env ==>
              ConfigPath(env) == Success(Join(Join(env["HOME"], ".config"), "walng"))
    ensures ConfigPath(env).Failure? <==> "XDG_CONFIG_HOME" !in env && "HOME" !in env
    ensures ConfigPath(env).Failure? ==> ConfigPath(env).error == SystemError(ENOENT, "HOME env variable not set")
  {
  }

  /** getCachePath follows the same rule with $XDG_CACHE_HOME and .cache. */
  lemma CachePathSelection(env: Env)
    ensures "XDG_CACHE_HOME" in env ==> CachePath(env) == Success(Join(env["XDG_CACHE_HOME"], "walng"))
    ensures "XDG_CACHE_HOME" !in env && "HOME" in env ==>
              CachePath(env) == Success(Join(Join(env["HOME"], ".cache"), "walng"))
    ensures CachePath(env).Failure? <==> "XDG_CACHE_HOME" !in env && "HOME" !in env
  {
  }

  /** Joining a relative name that holds no '/' makes it the last component:
      the result is the name itself or ends in '/' and the name. */
  lemma JoinNamesLastComponent(base: string, name: string)
    requires name != [] && name[0] != '/'
    ensures var p := Join(base, name);
      p == name || EndsWith(p, "/" + name)
  {
    var p := Join(base, name);
    if base == [] {
      assert p == name;
    } else if base[|base| - 1] == '/' {
      assert p == base + name;
      assert p[|p| - |name| - 1..] == [base[|base| - 1]] + name;
    } else {
      assert p == base + ("/" + name);
    }
  }


  /** expandTilda on the path `path`: a path starting with "~/" becomes
      $HOME / the rest; any other path ("~", "~user/x", "a/~/b") is kept. */
  function TildeExpanded(path: string, env: Env): (r: Result<string, SystemError>)
    ensures r.Failure? <==> StartsWith(path, "~/") && "HOME" !in env
    ensures r.Failure? ==> r.error == SystemError(ENOENT, "HOME env variable not set")
    ensures !StartsWith(path, "~/") ==> r == Success(path)
  {
    if StartsWith(path, "~/") then
      var home :- HomePath(env);
      Success(Join(home, path[2..]))
    else Success(path)
  }

  /** A std::filesystem::path, which expandTilda updates in place. */
  class FsPath {
    var native: string

    constructor (s: string)
      ensures native == s
    {
      native := s;
    }

    /** expandTilda: on success the path is replaced by its expansion; on
        failure it is left as it was. */
    method ExpandTilda(env: Env) returns (r: Outcome<SystemError>)
      modifies this
      ensures r.Pass? <==> TildeExpanded(old(native), env).Success?
      ensures r.Pass? ==> native == TildeExpanded(old(native), env).value
      ensures r.Fail? ==> r.error == TildeExpanded(old(native), env).error && native == old(native)
    {
      var str := native;
      if |str| >= 2 && str[..2] == "~/" {
        var homePath := HomePath(env);
        if homePath.Failure? {
          return Fail(homePath.error);
        }
        native := Join(homePath.value, str[2..]);
      }
      return Pass;
    }
  }

  /** For "~/rest" with $HOME set the path becomes $HOME / rest: a relative
      rest is put under $HOME, and an absolute $HOME gives an absolute path. */
  lemma TildeExpansionUnderHome(path: string, env: Env)
    requires StartsWith(path, "~/") && "HOME" in env
    ensures TildeExpanded(path, env) == Success(Join(env["HOME"], path[2..]))
    ensures !IsAbsolute(path[2..]) ==> StartsWith(TildeExpanded(path, env).value, env["HOME"])
                                       && EndsWith(TildeExpanded(path, env).value, path[2..])
    ensures IsAbsolute(env["HOME"]) ==> IsAbsolute(TildeExpanded(path, env).value)
  {
    var home, rest := env["HOME"], path[2..];
    var r := Join(home, rest);
    if IsAbsolute(home) && !IsAbsolute(rest) {
      assert r[..|home|] == home;
      assert r[0] == home[0];
    }
  }

  /** Expanding twice is expanding once when $HOME is absolute: the result
      of the first expansion no longer starts with "~/". */
  lemma TildeExpansionIdempotent(path: string, env: Env)
    requires "HOME" in env && IsAbsolute(env["HOME"])
    ensures TildeExpanded(path, env).Success?
    ensures var once := TildeExpanded(path, env).value;
      StartsWith(path, "~/") ==> TildeExpanded(once, env) == Success(once)
  {
    if StartsWith(path, "~/") {
      TildeExpansionUnderHome(path, env);
      var once := TildeExpanded(path, env).value;
      assert once[0] == '/';
      assert !StartsWith(once, "~/");
    }
  }

  /** kAllowedChars: 36 characters, but 'p' is missing and 'a' is listed
      twice, so 'p' never appears and 'a' is drawn twice as often. */
  const AllowedChars := "abcdefghijklmnaoqrstuvwxyz1234567890"

  lemma AllowedCharsShape()
    ensures |AllowedChars| == 36
    ensures 'p' !in AllowedChars
    ensures AllowedChars[0] == 'a' && AllowedChars[14] == 'a'
    ensures forall i :: 0 <= i < |AllowedChars| && AllowedChars[i] == 'a' ==> i == 0 || i == 14
  {
  }

  /** The 16-character name the draws select: the i-th character is the
      allowed character at the i-th draw. */
  function TempName(draws: seq<nat>): (name: string)
    requires |draws| == 16 && forall i :: 0 <= i < 16 ==> draws[i] < |AllowedChars|
    ensures |name| == 16
  {
    seq(16, i requires 0 <= i < 16 => AllowedChars[draws[i]])
  }

  /** The name part of makeTempFilePath: a std::array<char, 16> filled one
      character at a time with kAllowedChars[dist(gen)]; `draws` are the
      values dist(gen) returned, each in [0, 35]. */
  method MakeTempName(draws: seq<nat>) returns (name: string)
    requires |draws| == 16 && forall i :: 0 <= i < 16 ==> draws[i] < |AllowedChars|
    ensures name == TempName(draws)
  {
    var tmpName := new char[16];
    for i := 0 to 16
      invariant forall j :: 0 <= j < i ==> tmpName[j] == AllowedChars[draws[j]]
    {
      tmpName[i] := AllowedChars[draws[i]];
    }
    name := tmpName[..];
  }

  /** Every character of a temporary name is an allowed one and none is 'p'. */
  lemma TempNameAlphabet(draws: seq<nat>)
    requires |draws| == 16 && forall i :: 0 <= i < 16 ==> draws[i] < |AllowedChars|
    ensures forall i :: 0 <= i < 16 ==> TempName(draws)[i] in AllowedChars
    ensures 'p' !in TempName(draws)
  {
    AllowedCharsShape();
    forall i | 0 <= i < 16
      ensures TempName(draws)[i] in AllowedChars && TempName(draws)[i] != 'p'
    {
      assert TempName(draws)[i] == AllowedChars[draws[i]];
    }
  }

  /** makeTempFilePath: the temp directory (an error code when it cannot be
      obtained) joined with a fresh 16-character name. */
  method MakeTempFilePath(draws: seq<nat>, tempDir: Result<string, int>) returns (r: Result<string, SystemError>)
    requires |draws| == 16 && forall i :: 0 <= i < 16 ==> draws[i] < |AllowedChars|
    ensures r.Failure? <==> tempDir.Failure?
    ensures r.Failure? ==> r.error == SystemError(tempDir.error, "can't obtain temp directory path")
    ensures r.Success? ==> r.value == Join(tempDir.value, TempName(draws))
  {
    var tmpName := MakeTempName(draws);
    if tempDir.Failure? {
      return Failure(SystemError(tempDir.error, "can't obtain temp directory path"));
    }
    return Success(Join(tempDir.value, tmpName));
  }

  /** A temporary file path is its directory, a separator where one is
      needed, and the 16-character name as its last component. */
  lemma TempFilePathShape(dir: string, draws: seq<nat>)
    requires |draws| == 16 && forall i :: 0 <= i < 16 ==> draws[i] < |AllowedChars|
    ensures var p := Join(dir, TempName(draws));
      && StartsWith(p, dir) && EndsWith(p, TempName(draws))
      && (dir != [] ==> p[|p| - 17] == '/')
  {
    var name := TempName(draws);
    assert !IsAbsolute(name) by {
      TempNameAlphabet(draws);
      assert name[0] in AllowedChars;
    }
  }
}
