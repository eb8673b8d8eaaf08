/** The command line of tinyimg: `tinyimg [/e eps] [/k] source [dest]` or
    `tinyimg [/e eps] [/k] source1 source2 ...`. Parsing yields the tolerance
    and the list of (input, output) file pairs; an empty list means "show the
    usage text".

    Parsing a number and splitting a path are left to the platform; they are
    parameters here (`tryParse`, `PathRules`). */
module CommandLine {

  datatype Option<T> = None | Some(value: T)

  /** Tolerance used when no `/e` option is given. */
  const DefaultEps: real := 0.02

  /** The suffix added to the file name stem when `/k` keeps the originals. */
  const TinySuffix: string := "_tiny"

  /** The three spellings that ask for the usage text. */
  predicate IsHelp(arg: string)
  {
    arg == "/?" || arg == "--help" || arg == "-h"
  }

  /** A token that the parser treats as an option rather than a file. */
  predicate IsOption(arg: string)
  {
    IsHelp(arg) || arg == "/e" || arg == "/k"
  }

  /** The platform's path operations: directory part, file name without its
      extension, the extension (with its dot), and joining a directory and a
      file name. */
  datatype PathRules = PathRules(
    directoryName: string -> string,
    fileNameWithoutExtension: string -> string,
    extension: string -> string,
    combine: (string, string) -> string)

  /** The output name `/k` gives a file: `<dir>/<stem>_tiny<ext>`. */
  function TinyName(paths: PathRules, file: string): string
  {
    paths.combine(paths.directoryName(file), paths.fileNameWithoutExtension(file) + TinySuffix + paths.extension(file))
  }

  /** What a left-to-right scan of some arguments produces.
      `lastEps` is the value written to the tolerance by the scanned
      arguments, if any; `keep` records a `/k`. */
  datatype ScanResult =
    | Usage(lastEps: Option<real>)
    | Scanned(files: seq<string>, keep: bool, lastEps: Option<real>)

  /** The later of two tolerance writes. */
  function Later(first: Option<real>, second: Option<real>): Option<real>
  {
    if second.Some? then second else first
  }

  /** The tolerance reported for a scan: the last value written, else the default. */
  function EpsOf(lastEps: Option<real>): real
  {
    if lastEps.Some? then lastEps.value else DefaultEps
  }

  /** A clean scan (`files`, `keep`, `eps`) followed by the scan `rest` of the
      arguments after it. */
  function Then(files: seq<string>, keep: bool, eps: Option<real>, rest: ScanResult): ScanResult
  {
    match rest
    case Usage(e) => Usage(Later(eps, e))
    case Scanned(f, k, e) => Scanned(files + f, keep || k, Later(eps, e))
  }

  /** The meaning of the argument list, token by token from the left:
      a help flag stops with the usage text; `/e` takes the next token as the
      tolerance and stops with the usage text when there is none or it does
      not parse (a failed parse still writes 0 to the tolerance); `/k` sets
      `keep`; any other token is a file. */
  function Scan(args: seq<string>, tryParse: string -> Option<real>): ScanResult
    decreases |args|
  {
    if args == [] then Scanned([], false, None)
    else if IsHelp(args[0]) then Usage(None)
    else if args[0] == "/e" then
      if |args| < 2 then Usage(None)
      else if tryParse(args[1]).None? then Usage(Some(0.0))
      else Then([], false, tryParse(args[1]), Scan(args[2..], tryParse))
    else if args[0] == "/k" then Then([], true, None, Scan(args[1..], tryParse))
    else Then([args[0]], false, None, Scan(args[1..], tryParse))
  }

  lemma ThenThen(f1: seq<string>, k1: bool, e1: Option<real>, f2: seq<string>, k2: bool, e2: Option<real>, rest: ScanResult)
    ensures Then(f1, k1, e1, Then(f2, k2, e2, rest)) == Then(f1 + f2, k1 || k2, Later(e1, e2), rest)
  {
  }

  /** One step of `Scan` at position `i` of the argument list. */
  lemma ScanAt(args: seq<string>, i: nat, tryParse: string -> Option<real>)
    requires i < |args|
    ensures IsHelp(args[i]) ==> Scan(args[i..], tryParse) == Usage(None)
    ensures !IsHelp(args[i]) && args[i] == "/e" && i + 1 == |args| ==> Scan(args[i..], tryParse) == Usage(None)
    ensures !IsHelp(args[i]) && args[i] == "/e" && i + 1 < |args| && tryParse(args[i + 1]).None? ==>
              Scan(args[i..], tryParse) == Usage(Some(0.0))
    ensures !IsHelp(args[i]) && args[i] == "/e" && i + 1 < |args| && tryParse(args[i + 1]).Some? ==>
              Scan(args[i..], tryParse) == Then([], false, tryParse(args[i + 1]), Scan(args[i + 2..], tryParse))
    ensures !IsHelp(args[i]) && args[i] == "/k" ==> Scan(args[i..], tryParse) == Then([], true, None, Scan(args[i + 1..], tryParse))
    ensures !IsOption(args[i]) ==> Scan(args[i..], tryParse) == Then([args[i]], false, None, Scan(args[i + 1..], tryParse))
  {
  }

  /** Program.cs's parser. It walks `args` with an index, collects files,
      clears `overwrite` on `/k` and writes `eps`; then it pairs the files.
      The result is empty on a help flag, on a bad `/e`, and when no file was
      given; with `/k` and exactly two files it is the single pair
      (first, second); otherwise it has one pair per file, in order, whose
      output is the file itself, or its `_tiny` name under `/k`. */
  method ParseArgs(args: seq<string>, tryParse: string -> Option<real>, paths: PathRules)
    returns (result: seq<(string, string)>, eps: real)
    ensures eps == EpsOf(Scan(args, tryParse).lastEps)
    ensures Scan(args, tryParse).Usage? ==> result == []
    ensures Scan(args, tryParse).Scanned? ==>
              var files, keep := Scan(args, tryParse).files, Scan(args, tryParse).keep;
              if files == [] then result == []
              else if keep && |files| == 2 then result == [(files[0], files[1])]
              else
                && |result| == |files|
                && forall i :: 0 <= i < |result| ==>
                     result[i] == (files[i], if keep then TinyName(paths, files[i]) else files[i])
  {
    result := [];
    eps := DefaultEps;
    ghost var lastEps: Option<real> := None;
    ghost var whole := Scan(args, tryParse);

    var overwrite := true;
    var files: seq<string> := [];

    var i := 0;
    while i < |args|
      invariant 0 <= i <= |args|
      invariant eps == EpsOf(lastEps)
      invariant whole == Then(files, !overwrite, lastEps, Scan(args[i..], tryParse))
    {
      var arg := args[i];
      ScanAt(args, i, tryParse);

      if IsHelp(arg) {
        return [], eps;
      } else if arg == "/e" {
        if i + 1 < |args| && tryParse(args[i + 1]).Some? {
          eps := tryParse(args[i + 1]).value;
          ThenThen(files, !overwrite, lastEps, [], false, tryParse(args[i + 1]), Scan(args[i + 2..], tryParse));
          assert files + [] == files;
          lastEps := tryParse(args[i + 1]);
          i := i + 1;
        } else {
          if i + 1 < |args| {
            eps := 0.0;
          }
          return [], eps;
        }
      } else if arg == "/k" {
        ThenThen(files, !overwrite, lastEps, [], true, None, Scan(args[i + 1..], tryParse));
        assert files + [] == files;
        overwrite := false;
      } else {
        ThenThen(files, !overwrite, lastEps, [arg], false, None, Scan(args[i + 1..], tryParse));
        files := files + [arg];
      }
      i := i + 1;
    }
    assert args[i..] == [];

    if files == [] {
      return [], eps;
    }

    result := PairFiles(files, overwrite, paths);
  }

  /** The second half of Program.cs's parser: with `/k` (`overwrite` off) and
      exactly two files, the single pair (first, second); otherwise one pair
      per file, in order, from the file to itself, or to its `_tiny` name
      when `overwrite` is off. */
  method PairFiles(files: seq<string>, overwrite: bool, paths: PathRules) returns (result: seq<(string, string)>)
    ensures !overwrite && |files| == 2 ==> result == [(files[0], files[1])]
    ensures !(!overwrite && |files| == 2) ==>
              && |result| == |files|
              && forall i :: 0 <= i < |result| ==>
                   result[i] == (files[i], if overwrite then files[i] else TinyName(paths, files[i]))
  {
    result := [];
    if |files| == 2 && !overwrite {
      result := [(files[0], files[1])];
    } else {
      var j := 0;
      while j < |files|
        invariant 0 <= j <= |files|
        invariant |result| == j
        invariant forall k :: 0 <= k < j ==>
                    result[k] == (files[k], if overwrite then files[k] else TinyName(paths, files[k]))
      {
        var file := files[j];
        var inName := file;
        var outName := if overwrite then file else TinyName(paths, inName);
        result := result + [(inName, outName)];
        j := j + 1;
      }
    }
  }

  /** Scanning a concatenation: a prefix that scans cleanly contributes its
      files, its `/k` and its tolerance, and the rest is scanned on its own. */
  lemma {:induction false} ScanAppend(a: seq<string>, b: seq<string>, tryParse: string -> Option<real>)
    requires Scan(a, tryParse).Scanned?
    ensures var s := Scan(a, tryParse);
            Scan(a + b, tryParse) == Then(s.files, s.keep, s.lastEps, Scan(b, tryParse))
  {
    if a == [] {
      assert a + b == b;
      match Scan(b, tryParse)
      case Usage(e) =>
      case Scanned(f, k, e) => assert [] + f == f;
    } else {
      assert (a + b)[0] == a[0];
      if a[0] == "/e" {
        assert (a + b)[1] == a[1] && (a + b)[2..] == a[2..] + b;
        ScanAppend(a[2..], b, tryParse);
        var r := Scan(a[2..], tryParse);
        ThenThen([], false, tryParse(a[1]), r.files, r.keep, r.lastEps, Scan(b, tryParse));
      } else {
        assert (a + b)[1..] == a[1..] + b;
        ScanAppend(a[1..], b, tryParse);
        var r := Scan(a[1..], tryParse);
        if a[0] == "/k" {
          ThenThen([], true, None, r.files, r.keep, r.lastEps, Scan(b, tryParse));
        } else {
          ThenThen([a[0]], false, None, r.files, r.keep, r.lastEps, Scan(b, tryParse));
        }
      }
    }
  }

  /** A help flag anywhere stops the parse, provided it is not a number
      (so that it cannot be taken as the value of a preceding `/e`). */
  lemma {:induction false} HelpAborts(args: seq<string>, j: nat, tryParse: string -> Option<real>)
    requires j < |args| && IsHelp(args[j])
    requires tryParse(args[j]).None?
    ensures Scan(args, tryParse).Usage?
  {
    if j == 0 {
    } else if args[0] == "/e" {
      if |args| >= 2 && tryParse(args[1]).Some? {
        assert j >= 2;
        assert args[2..][j - 2] == args[j];
        HelpAborts(args[2..], j - 2, tryParse);
      }
    } else if !IsHelp(args[0]) {
      assert args[1..][j - 1] == args[j];
      HelpAborts(args[1..], j - 1, tryParse);
    }
  }

  /** An `/e` that is the last argument, or whose next argument is not a
      number, stops the parse (given that `/e` itself is not a number). */
  lemma {:induction false} BadEpsAborts(args: seq<string>, j: nat, tryParse: string -> Option<real>)
    requires j < |args| && args[j] == "/e"
    requires j + 1 == |args| || tryParse(args[j + 1]).None?
    requires tryParse("/e").None?
    ensures Scan(args, tryParse).Usage?
  {
    if j == 0 {
    } else if args[0] == "/e" {
      if |args| >= 2 && tryParse(args[1]).Some? {
        assert j >= 2;
        assert args[2..][j - 2] == args[j];
        assert j + 1 < |args| ==> args[2..][j - 1] == args[j + 1];
        BadEpsAborts(args[2..], j - 2, tryParse);
      }
    } else if !IsHelp(args[0]) {
      assert args[1..][j - 1] == args[j];
      assert j + 1 < |args| ==> args[1..][j] == args[j + 1];
      BadEpsAborts(args[1..], j - 1, tryParse);
    }
  }

  /** Without any `/e`, nothing writes the tolerance, so it stays the default. */
  lemma {:induction false} NoEpsOptionKeepsDefault(args: seq<string>, tryParse: string -> Option<real>)
    requires forall i :: 0 <= i < |args| ==> args[i] != "/e"
    ensures Scan(args, tryParse).lastEps == None
    ensures EpsOf(Scan(args, tryParse).lastEps) == DefaultEps
  {
    if args != [] && !IsHelp(args[0]) {
      assert args[0] != "/e";
      NoEpsOptionKeepsDefault(args[1..], tryParse);
    }
  }

  /** A well-formed `/e v` after a clean prefix `a` is consumed whole: the
      scan goes on with `b` as if `/e v` were absent, except that the
      tolerance is now `v`. So `v` never becomes a file. */
  lemma EpsValueConsumed(a: seq<string>, v: string, b: seq<string>, tryParse: string -> Option<real>)
    requires Scan(a, tryParse).Scanned?
    requires tryParse(v).Some?
    ensures var sa := Scan(a, tryParse);
            Scan(a + ["/e", v] + b, tryParse) == Then(sa.files, sa.keep, Later(sa.lastEps, tryParse(v)), Scan(b, tryParse))
  {
    var ev := ["/e", v];
    assert Scan(ev, tryParse) == Scanned([], false, tryParse(v)) by {
      assert ev[2..] == [];
    }
    ScanAppend(a, ev, tryParse);
    var sa := Scan(a, tryParse);
    assert Scan(a + ev, tryParse) == Scanned(sa.files, sa.keep, Later(sa.lastEps, tryParse(v))) by {
      assert sa.files + [] == sa.files;
    }
    ScanAppend(a + ev, b, tryParse);
  }

  /** The last well-formed `/e` wins: with no `/e` after `/e v`, the
      tolerance is `v`, whether or not the rest of the scan succeeds. */
  lemma LastEpsWins(a: seq<string>, v: string, b: seq<string>, tryParse: string -> Option<real>)
    requires Scan(a, tryParse).Scanned?
    requires tryParse(v).Some?
    requires forall i :: 0 <= i < |b| ==> b[i] != "/e"
    ensures Scan(a + ["/e", v] + b, tryParse).lastEps == tryParse(v)
  {
    EpsValueConsumed(a, v, b, tryParse);
    NoEpsOptionKeepsDefault(b, tryParse);
  }

  /** Arguments that are none of the options are all files, in order. */
  lemma {:induction false} PlainArgumentsAreFiles(args: seq<string>, tryParse: string -> Option<real>)
    requires forall i :: 0 <= i < |args| ==> !IsOption(args[i])
    ensures Scan(args, tryParse) == Scanned(args, false, None)
  {
    if args != [] {
      assert !IsOption(args[0]);
      PlainArgumentsAreFiles(args[1..], tryParse);
      assert [args[0]] + args[1..] == args;
    }
  }

  /** A clean scan yields only tokens of the argument list that are not
      options, and records `/k` exactly when it is present (given that `/k`
      is not a number). */
  lemma {:induction false} ScannedFilesAndKeep(args: seq<string>, tryParse: string -> Option<real>)
    requires Scan(args, tryParse).Scanned?
    requires tryParse("/k").None?
    ensures forall f :: f in Scan(args, tryParse).files ==> f in args && !IsOption(f)
    ensures Scan(args, tryParse).keep <==> "/k" in args
  {
    if args != [] {
      if args[0] == "/e" {
        ScannedFilesAndKeep(args[2..], tryParse);
        assert args == args[..2] + args[2..];
        assert args[1] != "/k";
      } else {
        ScannedFilesAndKeep(args[1..], tryParse);
        assert args == [args[0]] + args[1..];
      }
    }
  }
}
