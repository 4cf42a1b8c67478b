/**
 * `java.nio.file.Path` on a Unix file system, as far as the EvoSuite adapter
 * uses it: parsing a path string (`Paths.get`), `resolve`, `getFileName`,
 * `getParent` and `toString`. A path is a flag for a leading `/` and the list
 * of its name elements; `.` and `..` are ordinary names (java.nio does not
 * normalise them either).
 */
module JvmPaths {
  import opened Wrappers
  import opened KotlinText

  datatype Path = Path(absolute: bool, names: seq<string>)

  /** A name element: not empty and free of the separator. */
  predicate ProperName(n: string) {
    n != "" && '/' !in n
  }

  predicate ProperNames(ns: seq<string>) {
    forall k :: 0 <= k < |ns| ==> ProperName(ns[k])
  }

  /** The non-empty pieces, in order. */
  function NonEmpty(pieces: seq<string>): (r: seq<string>)
    ensures forall k :: 0 <= k < |r| ==> r[k] != ""
    ensures |r| <= |pieces|
  {
    if |pieces| == 0 then []
    else (if pieces[0] == "" then [] else [pieces[0]]) + NonEmpty(pieces[1..])
  }

  lemma {:induction false} NonEmptyAppend(a: seq<string>, b: seq<string>)
    decreases |a|
    ensures NonEmpty(a + b) == NonEmpty(a) + NonEmpty(b)
  {
    if |a| > 0 {
      NonEmptyAppend(a[1..], b);
      assert (a + b)[1..] == a[1..] + b;
    } else {
      assert a + b == b;
    }
  }

  lemma {:induction false} NonEmptyKeepsProperNames(a: seq<string>)
    requires ProperNames(a)
    decreases |a|
    ensures NonEmpty(a) == a
  {
    if |a| > 0 {
      NonEmptyKeepsProperNames(a[1..]);
    }
  }

  lemma {:induction false} SlashFree(pieces: seq<string>)
    requires forall k :: 0 <= k < |pieces| ==> !Contains(pieces[k], "/")
    ensures forall k :: 0 <= k < |pieces| ==> '/' !in pieces[k]
  {
    forall k, i | 0 <= k < |pieces| && 0 <= i < |pieces[k]|
      ensures pieces[k][i] != '/'
    {
      if pieces[k][i] == '/' {
        MatchChar(pieces[k], '/', i);
        assert Contains(pieces[k], "/");
      }
    }
  }

  lemma {:induction false} NonEmptyKeepsSlashFree(a: seq<string>)
    requires forall k :: 0 <= k < |a| ==> '/' !in a[k]
    decreases |a|
    ensures ProperNames(NonEmpty(a))
  {
    if |a| > 0 {
      NonEmptyKeepsSlashFree(a[1..]);
    }
  }

  /** `Paths.get(s)`: a leading `/` makes the path absolute; empty names (from `//` or a trailing `/`) vanish. */
  function Parse(s: string): (p: Path)
    ensures p.absolute <==> StartsWith(s, "/")
    ensures ProperNames(p.names)
  {
    SplitPiecesAvoidDelimiter(s, "/");
    SlashFree(Split(s, "/"));
    NonEmptyKeepsSlashFree(Split(s, "/"));
    Path(|s| > 0 && s[0] == '/', NonEmpty(Split(s, "/")))
  }

  /** `Path.toString()`. */
  function ToString(p: Path): string {
    (if p.absolute then "/" else "") + Join(p.names, "/")
  }

  /**
   * The string `Paths.get(first, more...)` parses: the non-empty parts of
   * `more` appended to `first`, with a separator only between non-empty text.
   */
  function JoinedPathString(first: string, more: seq<string>): string
    decreases |more|
  {
    if |more| == 0 then first
    else if more[0] == "" then JoinedPathString(first, more[1..])
    else if first == "" then JoinedPathString(more[0], more[1..])
    else JoinedPathString(first + "/" + more[0], more[1..])
  }

  /** `Paths.get(first, more...)`. */
  function Get(first: string, more: seq<string>): Path {
    Parse(JoinedPathString(first, more))
  }

  /** `base.resolve(other)`: an absolute `other` wins, an empty one leaves `base`. */
  function Resolve(base: Path, other: Path): (r: Path)
    ensures !other.absolute ==> r.names == base.names + other.names && r.absolute == base.absolute
    ensures other.absolute ==> r == other
  {
    if other.absolute then other
    else if |other.names| == 0 then base
    else Path(base.absolute, base.names + other.names)
  }

  /** `getFileName()`: the last name, absent for a path without names. */
  function FileName(p: Path): (r: Option<string>)
    ensures r.Some? <==> |p.names| > 0
    ensures r.Some? ==> r.value == p.names[|p.names| - 1]
  {
    if |p.names| == 0 then None else Some(p.names[|p.names| - 1])
  }

  /** `getParent()`: absent for a path without names and for a relative path of one name. */
  function Parent(p: Path): (r: Option<Path>)
    ensures r.Some? <==> |p.names| >= 2 || (p.absolute && |p.names| == 1)
    ensures r.Some? ==> r.value.absolute == p.absolute && r.value.names + [p.names[|p.names| - 1]] == p.names
  {
    if |p.names| == 0 || (|p.names| == 1 && !p.absolute) then None
    else Some(Path(p.absolute, p.names[..|p.names| - 1]))
  }

  lemma {:induction false} SplitJoinedNames(names: seq<string>)
    requires |names| > 0 && ProperNames(names)
    ensures Split(Join(names, "/"), "/") == names
  {
    SplitJoin(names, '/');
  }

  /** Printing a path and parsing the text back gives the same path. */
  lemma {:induction false} ParseToString(p: Path)
    requires ProperNames(p.names)
    ensures Parse(ToString(p)) == p
  {
    var j := Join(p.names, "/");
    if |p.names| == 0 {
      assert Split("", "/") == [""];
      if p.absolute {
        SplitAround("", '/', "");
        assert ToString(p) == "" + "/" + "";
      }
    } else {
      SplitJoinedNames(p.names);
      NonEmptyKeepsProperNames(p.names);
      if p.absolute {
        SplitAround("", '/', j);
        assert ToString(p) == "" + "/" + j;
        assert Split("", "/") == [""];
        NonEmptyAppend([""], p.names);
      } else {
        assert j[0] == p.names[0][0] by { JoinHead(p.names); }
        assert p.names[0][0] != '/' by { assert ProperName(p.names[0]); }
        assert ToString(p) == j;
      }
    }
  }

  lemma {:induction false} JoinHead(names: seq<string>)
    requires |names| > 0 && names[0] != ""
    ensures |Join(names, "/")| > 0 && Join(names, "/")[0] == names[0][0]
  {
  }

  /** A separator between two strings makes their names concatenate. */
  lemma {:induction false} ParseAround(x: string, y: string)
    ensures Parse(x + "/" + y).names == Parse(x).names + Parse(y).names
  {
    SplitAround(x, '/', y);
    NonEmptyAppend(Split(x, "/"), Split(y, "/"));
  }

  lemma {:induction false} ParseName(n: string)
    requires ProperName(n)
    ensures Parse(n).names == [n]
  {
    SplitWithoutDelimiter(n, '/');
  }

  lemma {:induction false} ParseEmpty()
    ensures Parse("").names == []
  {
    assert Split("", "/") == [""];
  }

  lemma {:induction false} JoinedTwo(location: string, dir: string, leaf: string)
    requires dir != "" && leaf != ""
    ensures JoinedPathString(location, [dir, leaf])
         == (if location == "" then dir else location + "/" + dir) + "/" + leaf
  {
    var front := if location == "" then dir else location + "/" + dir;
    assert [dir, leaf][1..] == [leaf];
    assert [leaf][1..] == [];
    assert JoinedPathString(location, [dir, leaf]) == JoinedPathString(front, [leaf]);
  }

  /**
   * The path `Paths.get(location, dir, leaf)` builds: the names of `location`,
   * then those of `dir`, then `leaf`, whose file name it therefore has.
   */
  lemma {:induction false} CandidateLayout(location: string, dir: string, leaf: string)
    requires dir != "" && ProperName(leaf)
    ensures Get(location, [dir, leaf]).names == Parse(location).names + Parse(dir).names + [leaf]
    ensures FileName(Get(location, [dir, leaf])) == Some(leaf)
  {
    var front := if location == "" then dir else location + "/" + dir;
    JoinedTwo(location, dir, leaf);
    ParseAround(front, leaf);
    ParseName(leaf);
    if location == "" {
      ParseEmpty();
    } else {
      ParseAround(location, dir);
    }
  }

  /** The last name of a parsed path is the text after the last separator, when that text is not empty. */
  lemma {:induction false} ParseLastName(s: string)
    requires SubstringAfterLast(s, '/') != ""
    ensures |Parse(s).names| > 0
    ensures Parse(s).names[|Parse(s).names| - 1] == SubstringAfterLast(s, '/')
  {
    var parts := Split(s, "/");
    var last := parts[|parts| - 1];
    LastPieceIsAfterLast(s, '/');
    assert parts == parts[..|parts| - 1] + [last];
    NonEmptyAppend(parts[..|parts| - 1], [last]);
    assert NonEmpty([last]) == [last];
  }
}
