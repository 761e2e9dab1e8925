/** POSIX paths as pathlib sees them: a sequence of parts, the first of which
    may be the root "/". Parsing a string, printing a path, joining with `/`,
    `.name`, `.parent`, `.stem`, and the FLAC location the backup scripts
    derive from a WAV path. */
module Paths {
  import opened Wrappers

  /** `Path(...).parts` */
  type Path = seq<string>

  const Root: string := "/"

  /** A part that is not the root: non-empty, not ".", no separator. */
  predicate IsName(s: string) {
    s != "" && s != "." && '/' !in s
  }

  /** The parts pathlib produces: names, with the root only in front. */
  predicate WellFormed(p: Path) {
    forall i :: 0 <= i < |p| ==> IsName(p[i]) || (i == 0 && p[i] == Root)
  }

  /** The pieces of a string between separators. */
  function Split(s: string): (r: seq<string>)
    ensures |r| >= 1
    ensures forall i :: 0 <= i < |r| ==> '/' !in r[i]
  {
    if s == [] then [""]
    else if s[0] == '/' then [""] + Split(s[1..])
    else
      var rest := Split(s[1..]);
      [[s[0]] + rest[0]] + rest[1..]
  }

  /** Empty pieces (from repeated separators) and "." pieces are dropped. */
  function Names(pieces: seq<string>): (r: seq<string>)
    ensures forall i :: 0 <= i < |r| ==> IsName(r[i])
    ensures |r| <= |pieces|
  {
    if pieces == [] then []
    else if IsName(pieces[0]) then [pieces[0]] + Names(pieces[1..])
    else Names(pieces[1..])
  }

  /** `Path(s).parts` for a POSIX string. */
  function ParsePath(s: string): (p: Path)
    ensures WellFormed(p)
  {
    (if s != [] && s[0] == '/' then [Root] else []) + Names(Split(s))
  }

  /** Parts joined by single separators. */
  function JoinSlash(parts: seq<string>): string {
    if parts == [] then ""
    else if |parts| == 1 then parts[0]
    else parts[0] + "/" + JoinSlash(parts[1..])
  }

  /** `str(path)`; the empty path prints as ".". */
  function PathString(p: Path): string {
    if p == [] then "."
    else if p[0] == Root then "/" + JoinSlash(p[1..])
    else JoinSlash(p)
  }

  /** `p / q`: a rooted right-hand side replaces the left. */
  function Join(p: Path, q: Path): Path {
    if q != [] && q[0] == Root then q else p + q
  }

  /** `p / s` for a string `s`. */
  function Child(p: Path, s: string): Path {
    Join(p, ParsePath(s))
  }

  /** `.name`: the last part, "" for the empty path and the root. */
  function Name(p: Path): string {
    if p == [] || p[|p| - 1] == Root then "" else p[|p| - 1]
  }

  /** `.parent`: the root and the empty path are their own parents. */
  function Parent(p: Path): Path {
    if p == [] || p == [Root] then p else p[..|p| - 1]
  }

  /** `str.rfind(c)`: the last position of `c`, or -1. */
  function RFind(s: string, c: char): (r: int)
    ensures -1 <= r < |s|
    ensures r >= 0 ==> s[r] == c
    ensures forall j :: r < j < |s| ==> s[j] != c
  {
    if s == [] then -1
    else if s[|s| - 1] == c then |s| - 1
    else RFind(s[..|s| - 1], c)
  }

  /** `.stem`: the name without its suffix; a suffix is a final "." that is
      neither the first nor the last character. */
  function Stem(name: string): (stem: string)
    ensures stem <= name
  {
    var i := RFind(name, '.');
    if 0 < i < |name| - 1 then name[..i] else name
  }

  datatype PathError = IndexError

  /** The directory create_flac_path creates: the root, then the 4th- and
      3rd-last parts of the WAV path, then "data". */
  function FlacDir(wav: Path, root: Path): Result<Path, PathError> {
    if |wav| < 4 then Err(IndexError)
    else Ok(Child(Child(Child(root, wav[|wav| - 4]), wav[|wav| - 3]), "data"))
  }

  /** create_flac_path(wav, root): the WAV's stem with ".flac", in FlacDir. */
  function FlacPath(wav: Path, root: Path): Result<Path, PathError> {
    match FlacDir(wav, root)
    case Err(e) => Err(e)
    case Ok(dir) => Ok(Child(dir, Stem(Name(wav)) + ".flac"))
  }

  /** The directories `mkdir(parents=True, exist_ok=True)` leaves in place. */
  function Ancestors(dir: Path): set<Path> {
    set k | 1 <= k <= |dir| :: dir[..k]
  }

  // ---------------------------------------------------------------------
  // Properties

  lemma {:induction false} SplitName(a: string, rest: string)
    requires '/' !in a
    ensures Split(a + rest) == [a + Split(rest)[0]] + Split(rest)[1..]
    decreases |a|
  {
    if a != [] {
      assert (a + rest)[0] == a[0];
      assert (a + rest)[1..] == a[1..] + rest;
      SplitName(a[1..], rest);
      assert [a[0]] + (a[1..] + Split(rest)[0]) == a + Split(rest)[0];
    } else {
      assert a + rest == rest;
      assert a + Split(rest)[0] == Split(rest)[0];
      assert Split(rest) == [Split(rest)[0]] + Split(rest)[1..];
    }
  }

  /** Splitting undoes joining, for parts without separators. */
  lemma {:induction false} SplitJoin(parts: seq<string>)
    requires parts != [] && forall i :: 0 <= i < |parts| ==> '/' !in parts[i]
    ensures Split(JoinSlash(parts)) == parts
    decreases |parts|
  {
    if |parts| == 1 {
      SplitName(parts[0], "");
      assert parts[0] + "" == parts[0];
    } else {
      var rest := JoinSlash(parts[1..]);
      SplitName(parts[0], "/" + rest);
      assert ("/" + rest)[0] == '/' && ("/" + rest)[1..] == rest;
      SplitJoin(parts[1..]);
      assert Split("/" + rest) == [""] + parts[1..];
      assert parts[0] + "" == parts[0];
      assert parts[0] + "/" + rest == parts[0] + ("/" + rest);
      assert [parts[0]] + parts[1..] == parts;
    }
  }

  lemma {:induction false} NamesKeepsNames(parts: seq<string>)
    requires forall i :: 0 <= i < |parts| ==> IsName(parts[i])
    ensures Names(parts) == parts
    decreases |parts|
  {
    if parts != [] {
      NamesKeepsNames(parts[1..]);
      assert [parts[0]] + parts[1..] == parts;
    }
  }

  /** `Path(str(p)) == p`: a path survives being stored as a string and read
      back, which is how record_path reaches the backup script. */
  lemma {:induction false} ParsePrinted(p: Path)
    requires WellFormed(p)
    ensures ParsePath(PathString(p)) == p
  {
    if p == [] {
      SplitName(".", "");
      assert "." + "" == ".";
      assert Split(".") == ["."];
    } else if p[0] == Root {
      var names := p[1..];
      assert forall i :: 0 <= i < |names| ==> IsName(names[i]) by {
        forall i | 0 <= i < |names| ensures IsName(names[i]) {
          assert names[i] == p[i + 1];
        }
      }
      var s := "/" + JoinSlash(names);
      assert s[0] == '/' && s[1..] == JoinSlash(names);
      if names == [] {
        assert Split(s) == [""] + Split("");
        assert Names(Split(s)) == [];
      } else {
        SplitJoin(names);
        NamesKeepsNames(names);
        assert Split(s) == [""] + names;
        assert Names([""] + names) == Names(names);
      }
      assert PathString(p) == s;
      assert ParsePath(s) == [Root] + Names(Split(s));
      assert [Root] + names == p;
    } else {
      SplitJoin(p);
      NamesKeepsNames(p);
      var s := JoinSlash(p);
      assert s != [] && s[0] != '/' by {
        if |p| == 1 {
          assert s == p[0];
        } else {
          assert s == p[0] + ("/" + JoinSlash(p[1..]));
        }
        assert s[0] == p[0][0];
      }
    }
  }

  /** A single name parses to itself. */
  lemma ParseName(n: string)
    requires IsName(n)
    ensures ParsePath(n) == [n]
  {
    SplitName(n, "");
    assert n + "" == n;
    assert Split(n) == [n];
    assert n[0] != '/';
  }

  /** A name ending in ".wav" has the rest as its stem, unless that rest is
      empty: ".wav" is a hidden file without a suffix. */
  lemma WavStem(base: string)
    ensures Stem(base + ".wav") == if base == "" then ".wav" else base
  {
    var name := base + ".wav";
    var i := RFind(name, '.');
    assert name[|base|] == '.';
    assert i == |base| by {
      assert name[|base| + 1] == 'w' && name[|base| + 2] == 'a' && name[|base| + 3] == 'v';
    }
    assert name[..|base|] == base;
  }

  /** The FLAC name is a plain name: the stem keeps no separator. */
  lemma FlacNameIsName(n: string)
    requires '/' !in n
    ensures IsName(Stem(n) + ".flac")
  {
    var s := Stem(n) + ".flac";
    assert Stem(n) <= n;
    assert '/' !in s by {
      forall i | 0 <= i < |s| ensures s[i] != '/' {
        if i < |Stem(n)| {
          assert s[i] == n[i];
        } else {
          assert s[i] == ".flac"[i - |Stem(n)|];
        }
      }
    }
    assert |s| >= 5;
  }

  /** Joining a plain name appends it. */
  lemma ChildName(p: Path, n: string)
    requires IsName(n)
    ensures Child(p, n) == p + [n]
  {
    ParseName(n);
    assert n != Root by {
      assert '/' in Root;
    }
  }

  /** create_flac_path: `root/parts[-4]/parts[-3]/data/<stem>.flac` for a path
      of four or more parts whose last, 3rd-last and 4th-last parts are names. */
  lemma FlacPathShape(wav: Path, root: Path)
    requires |wav| >= 4 && IsName(wav[|wav| - 4]) && IsName(wav[|wav| - 3]) && IsName(wav[|wav| - 1])
    ensures FlacPath(wav, root)
         == Ok(root + [wav[|wav| - 4], wav[|wav| - 3], "data", Stem(wav[|wav| - 1]) + ".flac"])
  {
    var n := |wav|;
    var dir := root + [wav[n - 4], wav[n - 3], "data"];
    FlacDirShape(wav, root);
    FlacNameIsName(wav[n - 1]);
    assert wav[n - 1] != Root by {
      assert '/' in Root;
    }
    assert Name(wav) == wav[n - 1];
    ChildName(dir, Stem(wav[n - 1]) + ".flac");
    assert dir + [Stem(wav[n - 1]) + ".flac"] == root + [wav[n - 4], wav[n - 3], "data", Stem(wav[n - 1]) + ".flac"];
  }

  lemma FlacDirShape(wav: Path, root: Path)
    requires |wav| >= 4 && IsName(wav[|wav| - 4]) && IsName(wav[|wav| - 3])
    ensures FlacDir(wav, root) == Ok(root + [wav[|wav| - 4], wav[|wav| - 3], "data"])
  {
    var n := |wav|;
    var d1 := Child(root, wav[n - 4]);
    ChildName(root, wav[n - 4]);
    var d2 := Child(d1, wav[n - 3]);
    ChildName(d1, wav[n - 3]);
    ChildName(d2, "data");
    assert d2 + ["data"] == root + [wav[n - 4], wav[n - 3], "data"];
  }

  /** A path of fewer than four parts makes create_flac_path raise IndexError. */
  lemma FlacPathShort(wav: Path, root: Path)
    requires |wav| < 4
    ensures FlacPath(wav, root) == Err(IndexError)
  {
  }

  /** Only the 4th-last part, the 3rd-last part and the stem matter. */
  lemma FlacPathDependsOnlyOn(wav: Path, wav': Path, root: Path)
    requires |wav| >= 4 && |wav'| >= 4
    requires wav[|wav| - 4] == wav'[|wav'| - 4] && wav[|wav| - 3] == wav'[|wav'| - 3]
    requires Stem(Name(wav)) == Stem(Name(wav'))
    ensures FlacPath(wav, root) == FlacPath(wav', root)
  {
  }

  /** A rooted path of exactly four parts has the root as its 4th-last part,
      and joining the root replaces the FLAC root: the FLAC file lands
      outside it, under the WAV's own first directory. */
  lemma FlacPathFourRooted(a: string, b: string, n: string, root: Path)
    requires IsName(a) && IsName(b) && IsName(n)
    ensures FlacPath([Root, a, b, n], root) == Ok([Root, a, "data", Stem(n) + ".flac"])
  {
    var wav := [Root, a, b, n];
    FlacDirFourRooted(a, b, n, root);
    FlacNameIsName(n);
    assert n != Root by {
      assert '/' in Root;
    }
    assert Name(wav) == n;
    ChildName([Root, a, "data"], Stem(n) + ".flac");
    assert [Root, a, "data"] + [Stem(n) + ".flac"] == [Root, a, "data", Stem(n) + ".flac"];
  }

  lemma FlacDirFourRooted(a: string, b: string, n: string, root: Path)
    requires IsName(a)
    ensures FlacDir([Root, a, b, n], root) == Ok([Root, a, "data"])
  {
    var wav := [Root, a, b, n];
    assert Split(Root) == [""] + Split("");
    assert ParsePath(Root) == [Root];
    assert Child(root, Root) == [Root];
    ChildName([Root], a);
    assert Child([Root], a) == [Root, a];
    ChildName([Root, a], "data");
    assert Child([Root, a], "data") == [Root, a, "data"];
    assert wav[|wav| - 4] == Root && wav[|wav| - 3] == a;
  }

  /** The unit test's example: /home/user/data/2023-11-01/location_123/data/file.wav
      under /home/user/flac becomes
      /home/user/flac/2023-11-01/location_123/data/file.flac. */
  lemma FlacPathExample()
    ensures FlacPath([Root, "home", "user", "data", "2023-11-01", "location_123", "data", "file" + ".wav"],
                     [Root, "home", "user", "flac"])
         == Ok([Root, "home", "user", "flac"] + ["2023-11-01", "location_123", "data", "file" + ".flac"])
  {
    var wav := [Root, "home", "user", "data", "2023-11-01", "location_123", "data", "file" + ".wav"];
    WavStem("file");
    assert IsName("2023-11-01") && IsName("location_123") && IsName("file" + ".wav");
    assert |wav| == 8 && wav[4] == "2023-11-01" && wav[5] == "location_123" && wav[7] == "file" + ".wav";
    var root := [Root, "home", "user", "flac"];
    FlacPathShape(wav, root);
    var tail := ["2023-11-01", "location_123", "data", "file" + ".flac"];
    assert FlacPath(wav, root) == Ok(root + tail);
  }

  /** The unit test's short path: "invalid_path.wav" is one part, so
      create_flac_path raises IndexError. */
  lemma FlacPathExampleShort(root: Path)
    ensures FlacPath(ParsePath("invalid_path.wav"), root) == Err(IndexError)
  {
    ParseName("invalid_path.wav");
  }

  /** mkdir(parents=True) leaves the directory and all its ancestors. */
  lemma AncestorsHoldDir(dir: Path)
    requires dir != []
    ensures dir in Ancestors(dir)
    ensures forall q :: q in Ancestors(dir) ==> q <= dir && q != []
  {
    assert dir[..|dir|] == dir;
  }
}
