/** `pathlib.PurePosixPath`: parsing, printing, `parent` and `is_relative_to`. */
module Paths {
  import opened Text

  /** A parsed POSIX path: its anchor (`""`, `"/"` or `"//"`) and its parts. */
  datatype PurePath = PurePath(root: string, parts: seq<string>)

  /** A part as `PurePosixPath` keeps it: non-empty, not `.`, without `/`. */
  predicate IsPart(p: string) {
    p != "" && p != "." && '/' !in p
  }

  predicate WellFormed(p: PurePath) {
    (p.root == "" || p.root == "/" || p.root == "//")
    && forall i :: 0 <= i < |p.parts| ==> IsPart(p.parts[i])
  }

  /** Exactly two leading slashes are kept as the anchor; one or three or more collapse to `/`. */
  function RootOf(s: string): (r: string)
    ensures r == "" <==> !StartsWith(s, "/")
  {
    if StartsWith(s, "//") && !StartsWith(s, "///") then "//"
    else if StartsWith(s, "/") then "/"
    else ""
  }

  /** Drops the empty and `.` segments. */
  function KeepParts(segments: seq<string>): (r: seq<string>)
    ensures forall i :: 0 <= i < |r| ==> r[i] in segments && r[i] != "" && r[i] != "."
    ensures |r| <= |segments|
  {
    if segments == [] then []
    else if segments[0] == "" || segments[0] == "." then KeepParts(segments[1..])
    else [segments[0]] + KeepParts(segments[1..])
  }

  /** `PurePosixPath(s)`. */
  function FromString(s: string): (r: PurePath)
    ensures WellFormed(r)
  {
    var segments := Split(s, '/');
    var kept := KeepParts(segments);
    assert forall i :: 0 <= i < |kept| ==> '/' !in kept[i] by {
      forall i | 0 <= i < |kept| ensures '/' !in kept[i] {
        var k :| 0 <= k < |segments| && segments[k] == kept[i];
      }
    }
    PurePath(RootOf(s), kept)
  }

  /** `str(path)`: the empty relative path prints as `.`. */
  function ToString(p: PurePath): string {
    if p.root == "" && p.parts == [] then "." else p.root + Join(p.parts, "/")
  }

  /** `path.parent`: the path without its last part; an anchor or `.` is its own parent. */
  function Parent(p: PurePath): (r: PurePath)
    ensures r.root == p.root
    ensures p.parts == [] ==> r == p
    ensures p.parts != [] ==> r.parts + [p.parts[|p.parts| - 1]] == p.parts
  {
    if p.parts == [] then p else PurePath(p.root, p.parts[..|p.parts| - 1])
  }

  /** `path.is_relative_to(base)`: `base` is the path itself or one of its ancestors. */
  predicate IsRelativeTo(p: PurePath, base: PurePath) {
    p.root == base.root && |base.parts| <= |p.parts| && p.parts[..|base.parts|] == base.parts
  }

  lemma {:induction false} KeepPartsOfParts(parts: seq<string>)
    requires forall i :: 0 <= i < |parts| ==> IsPart(parts[i])
    ensures KeepParts(parts) == parts
  {
    if parts != [] {
      KeepPartsOfParts(parts[1..]);
      assert parts == [parts[0]] + parts[1..];
    }
  }

  /** The parts of a well-formed path survive printing and re-parsing, whatever the anchor. */
  lemma {:induction false} PartsOfPrinted(root: string, parts: seq<string>)
    requires root == "" || root == "/" || root == "//"
    requires forall i :: 0 <= i < |parts| ==> IsPart(parts[i])
    ensures KeepParts(Split(root + Join(parts, "/"), '/')) == parts
  {
    var body := Join(parts, "/");
    if root == "" {
      if parts == [] {
        assert Split("", '/') == [""];
      } else {
        SplitJoin(parts, '/');
        KeepPartsOfParts(parts);
        assert root + body == body;
      }
    } else {
      var rest := root[1..] + body;
      assert root + body == [] + ['/'] + rest;
      SplitAfterPiece([], '/', rest);
      assert KeepParts(Split(root + body, '/')) == KeepParts(Split(rest, '/'));
      PartsOfPrinted(root[1..], parts);
    }
  }

  /** The anchor of a printed well-formed path parses back to itself. */
  lemma RootOfPrinted(p: PurePath)
    requires WellFormed(p)
    ensures RootOf(ToString(p)) == p.root
  {
    var s := ToString(p);
    if p.parts != [] {
      var body := Join(p.parts, "/");
      JoinHead(p.parts);
      assert body[0] != '/';
      if p.root == "/" {
        assert s[..2] == ['/', body[0]];
      } else if p.root == "//" {
        assert s[..3] == ['/', '/', body[0]];
      } else {
        assert s[0] == body[0];
      }
    } else if p.root == "/" {
      assert s == "/";
      assert StartsWith(s, "/") && !StartsWith(s, "//");
    } else if p.root == "//" {
      assert s == "//";
      assert StartsWith(s, "//") && !StartsWith(s, "///");
      assert RootOf(s) == "//";
    } else {
      assert s == ".";
      assert s[..1] == ['.'] && !StartsWith(s, "/");
    }
  }

  /** Printing a parsed path and parsing it again gives the same path. */
  lemma ParsePrintRoundTrip(p: PurePath)
    requires WellFormed(p)
    ensures FromString(ToString(p)) == p
  {
    RootOfPrinted(p);
    if p.root == "" && p.parts == [] {
      assert Split(".", '/') == ["."];
    } else {
      PartsOfPrinted(p.root, p.parts);
    }
  }

  lemma JoinHead(parts: seq<string>)
    requires parts != [] && parts[0] != ""
    ensures Join(parts, "/") != [] && Join(parts, "/")[0] == parts[0][0]
  {
  }
}
