/** `scripts/birdseye_refresh.py`: reads the Birdseye docs directories from repeatable,
    comma-separated `--docs-dir` values, resolves each directory's `index.json`, and runs the
    codemap update over them with both the index and the capsules emitted. */
module BirdseyeRefresh {
  import opened Wrappers
  import opened Text
  import opened Json
  import Paths
  import Codemap

  /** The directories used when none are given. */
  function DefaultDocsDirs(): (r: seq<Paths.PurePath>)
    ensures |r| == 2
    ensures forall k :: 0 <= k < |r| ==> Paths.WellFormed(r[k])
  {
    Codemap.TargetPaths(["docs/birdseye", "workflow-cookbook/docs/birdseye"])
  }

  // ---------------------------------------------------------------------------
  // _parse_docs_dirs

  /** `f` applied to every element, the results concatenated in order: the shape of a loop
      that appends what each element yields. */
  function FlatMap<T, U>(xs: seq<T>, f: T -> seq<U>): seq<U> {
    if xs == [] then [] else FlatMap(xs[..|xs| - 1], f) + f(xs[|xs| - 1])
  }

  lemma {:induction false} FlatMapConcat<T, U>(a: seq<T>, b: seq<T>, f: T -> seq<U>)
    ensures FlatMap(a + b, f) == FlatMap(a, f) + FlatMap(b, f)
    decreases |b|
  {
    if b == [] {
      assert a + b == a;
    } else {
      var front := b[..|b| - 1];
      assert (a + b)[..|a + b| - 1] == a + front;
      assert (a + b)[|a + b| - 1] == b[|b| - 1];
      FlatMapConcat(a, front, f);
    }
  }

  /** One more element extends the result by what it yields. */
  lemma FlatMapStep<T, U>(xs: seq<T>, j: nat, f: T -> seq<U>)
    requires j < |xs|
    ensures FlatMap(xs[..j + 1], f) == FlatMap(xs[..j], f) + f(xs[j])
  {
    assert xs[..j + 1][..j] == xs[..j];
  }

  /** One comma-separated piece, trimmed, unless nothing is left. */
  function Kept(piece: string): seq<string> {
    var text := Strip(piece);
    if text != "" then [text] else []
  }

  /** The directory names one raw value holds, in order. */
  function ValuePieces(raw: string): seq<string> {
    FlatMap(Split(raw, ','), Kept)
  }

  /** The directory names all raw values hold, in order. */
  function Collected(raws: seq<string>): seq<string> {
    FlatMap(raws, ValuePieces)
  }

  /** What `_parse_docs_dirs` returns. */
  function DocsDirs(raws: seq<string>): seq<Paths.PurePath> {
    if raws == [] || Collected(raws) == [] then DefaultDocsDirs() else Codemap.TargetPaths(Collected(raws))
  }

  /** `_parse_docs_dirs`. */
  method ParseDocsDirs(raws: seq<string>) returns (dirs: seq<Paths.PurePath>)
    ensures dirs == DocsDirs(raws)
  {
    if raws == [] {
      return DefaultDocsDirs();
    }
    var collected: seq<Paths.PurePath> := [];
    for i := 0 to |raws|
      invariant collected == Codemap.TargetPaths(FlatMap(raws[..i], ValuePieces))
    {
      FlatMapStep(raws, i, ValuePieces);
      TargetPathsConcat(FlatMap(raws[..i], ValuePieces), ValuePieces(raws[i]));
      collected := CollectPieces(Split(raws[i], ','), collected);
    }
    assert raws[..|raws|] == raws;
    if collected == [] {
      return DefaultDocsDirs();
    }
    return collected;
  }

  /** The inner loop of `_parse_docs_dirs` over the comma-separated pieces of one raw value:
      the directories they name, appended. */
  method CollectPieces(pieces: seq<string>, collected: seq<Paths.PurePath>) returns (extended: seq<Paths.PurePath>)
    ensures extended == collected + Codemap.TargetPaths(FlatMap(pieces, Kept))
  {
    extended := collected;
    for j := 0 to |pieces|
      invariant extended == collected + Codemap.TargetPaths(FlatMap(pieces[..j], Kept))
    {
      CollectStep(collected, pieces, j);
      TargetPathsKept(pieces[j]);
      var text := Strip(pieces[j]);
      if text != "" {
        extended := extended + [Paths.FromString(text)];
      }
    }
    assert pieces[..|pieces|] == pieces;
  }

  /** One more piece appends the directories it names. */
  lemma CollectStep(collected: seq<Paths.PurePath>, pieces: seq<string>, j: nat)
    requires j < |pieces|
    ensures collected + Codemap.TargetPaths(FlatMap(pieces[..j + 1], Kept))
            == collected + Codemap.TargetPaths(FlatMap(pieces[..j], Kept)) + Codemap.TargetPaths(Kept(pieces[j]))
  {
    FlatMapStep(pieces, j, Kept);
    TargetPathsConcat(FlatMap(pieces[..j], Kept), Kept(pieces[j]));
  }

  /** The directory a piece names, if any. */
  lemma TargetPathsKept(piece: string)
    ensures Codemap.TargetPaths(Kept(piece)) == if Strip(piece) != "" then [Paths.FromString(Strip(piece))] else []
  {
  }

  /** Parsing each text into a path distributes over concatenation. */
  lemma TargetPathsConcat(a: seq<string>, b: seq<string>)
    ensures Codemap.TargetPaths(a + b) == Codemap.TargetPaths(a) + Codemap.TargetPaths(b)
  {
  }

  /** A piece that `strip` leaves alone and that is not empty. */
  predicate Trimmed(s: string) {
    s != [] && !IsSpace(s[0]) && !IsSpace(s[|s| - 1])
  }

  /** Every kept piece is trimmed and non-empty. */
  lemma {:induction false} KeptPiecesTrimmed(pieces: seq<string>)
    ensures forall k :: 0 <= k < |FlatMap(pieces, Kept)| ==> Trimmed(FlatMap(pieces, Kept)[k])
    decreases |pieces|
  {
    if pieces != [] {
      KeptPiecesTrimmed(pieces[..|pieces| - 1]);
    }
  }

  /** Pieces that are already trimmed and non-empty are all kept, in order. */
  lemma {:induction false} KeptPiecesAll(pieces: seq<string>)
    requires forall k :: 0 <= k < |pieces| ==> Trimmed(pieces[k])
    ensures FlatMap(pieces, Kept) == pieces
    decreases |pieces|
  {
    if pieces != [] {
      var front := pieces[..|pieces| - 1];
      var last := pieces[|pieces| - 1];
      assert forall k :: 0 <= k < |front| ==> front[k] == pieces[k];
      KeptPiecesAll(front);
      StripNoSpaceEnds(last);
      assert Kept(last) == [last];
      assert pieces == front + [last];
    }
  }

  /** Repeated values keep their order: the directories of a concatenation of values are the
      concatenated directories. */
  lemma CollectedConcat(a: seq<string>, b: seq<string>)
    ensures Collected(a + b) == Collected(a) + Collected(b)
  {
    FlatMapConcat(a, b, ValuePieces);
  }

  /** The result is never empty and every directory is a well-formed path. */
  lemma DocsDirsNonEmpty(raws: seq<string>)
    ensures DocsDirs(raws) != []
    ensures forall k :: 0 <= k < |DocsDirs(raws)| ==> Paths.WellFormed(DocsDirs(raws)[k])
  {
    if raws != [] && Collected(raws) != [] {
      assert DocsDirs(raws) == Codemap.TargetPaths(Collected(raws));
    }
  }

  /** Directories written out with commas come back as themselves, in order. */
  lemma {:induction false} DocsDirsJoined(dirs: seq<string>)
    requires dirs != []
    requires forall k :: 0 <= k < |dirs| ==> ',' !in dirs[k] && Trimmed(dirs[k])
    ensures DocsDirs([Join(dirs, ",")]) == Codemap.TargetPaths(dirs)
  {
    var raw := Join(dirs, ",");
    ValuePiecesJoined(dirs);
    CollectedOne(raw);
    var c := Collected([raw]);
    assert c == dirs;
    DocsDirsCollected([raw], c);
  }

  /** One comma-joined value splits back into the directories it was made from. */
  lemma {:induction false} ValuePiecesJoined(dirs: seq<string>)
    requires dirs != []
    requires forall k :: 0 <= k < |dirs| ==> ',' !in dirs[k] && Trimmed(dirs[k])
    ensures ValuePieces(Join(dirs, ",")) == dirs
  {
    SplitJoin(dirs, ',');
    KeptPiecesAll(dirs);
  }

  /** A single value collects what its pieces name. */
  lemma {:induction false} CollectedOne(raw: string)
    ensures Collected([raw]) == ValuePieces(raw)
  {
    FlatMapOne(raw, ValuePieces);
  }

  /** Values that name some directory give exactly those directories. */
  lemma {:induction false} DocsDirsCollected(raws: seq<string>, c: seq<string>)
    requires raws != [] && c == Collected(raws) && c != []
    ensures DocsDirs(raws) == Codemap.TargetPaths(c)
  {
  }

  lemma {:induction false} FlatMapOne<T, U>(x: T, f: T -> seq<U>)
    ensures FlatMap([x], f) == f(x)
  {
    assert [x][..0] == [];
  }

  /** Values that hold only commas and blanks fall back to the defaults. */
  lemma BlankValuesDefault(raws: seq<string>)
    requires forall k :: 0 <= k < |raws| ==> forall x :: x in Split(raws[k], ',') ==> Strip(x) == ""
    ensures DocsDirs(raws) == DefaultDocsDirs()
  {
    BlankCollected(raws);
  }

  lemma {:induction false} BlankCollected(raws: seq<string>)
    requires forall k :: 0 <= k < |raws| ==> forall x :: x in Split(raws[k], ',') ==> Strip(x) == ""
    ensures Collected(raws) == []
    decreases |raws|
  {
    if raws != [] {
      var front := raws[..|raws| - 1];
      var last := raws[|raws| - 1];
      assert forall k :: 0 <= k < |front| ==> front[k] == raws[k];
      BlankCollected(front);
      BlankPieces(Split(last, ','));
      assert ValuePieces(last) == [];
    }
  }

  lemma {:induction false} BlankPieces(pieces: seq<string>)
    requires forall x :: x in pieces ==> Strip(x) == ""
    ensures FlatMap(pieces, Kept) == []
    decreases |pieces|
  {
    if pieces != [] {
      var front := pieces[..|pieces| - 1];
      assert forall x :: x in front ==> x in pieces;
      BlankPieces(front);
      assert Kept(pieces[|pieces| - 1]) == [];
    }
  }

  // ---------------------------------------------------------------------------
  // _resolve_index_paths

  /** Why a refresh stops: a directory without `index.json`, or no directories at all. */
  datatype RefreshError = IndexNotFound(path: Paths.PurePath) | NoIndexResolved

  function IndexOf(dir: Paths.PurePath): Paths.PurePath {
    Codemap.Child(dir, "index.json")
  }

  /** What `_resolve_index_paths` returns; `present` stands for `Path.exists`. */
  function IndexPaths(dirs: seq<Paths.PurePath>, present: Paths.PurePath -> bool): (r: Result<seq<Paths.PurePath>, RefreshError>)
    ensures r.Ok? <==> dirs != [] && forall k :: 0 <= k < |dirs| ==> present(IndexOf(dirs[k]))
    ensures r.Ok? ==> |r.value| == |dirs| && forall k :: 0 <= k < |dirs| ==> r.value[k] == IndexOf(dirs[k])
    ensures r.Err? && r.error.IndexNotFound? ==>
              exists k :: 0 <= k < |dirs| && r.error.path == IndexOf(dirs[k]) && !present(r.error.path)
                          && forall m :: 0 <= m < k ==> present(IndexOf(dirs[m]))
    ensures r.Err? && r.error.NoIndexResolved? ==> dirs == []
  {
    if dirs == [] then Err(NoIndexResolved) else FirstMissing(dirs, present, 0)
  }

  /** The index paths from position `k` on, or the first one that is missing. */
  function FirstMissing(dirs: seq<Paths.PurePath>, present: Paths.PurePath -> bool, k: nat)
    : (r: Result<seq<Paths.PurePath>, RefreshError>)
    requires k <= |dirs|
    requires forall m :: 0 <= m < k ==> present(IndexOf(dirs[m]))
    ensures r.Ok? <==> forall m :: 0 <= m < |dirs| ==> present(IndexOf(dirs[m]))
    ensures r.Ok? ==> r.value == seq(|dirs|, m requires 0 <= m < |dirs| => IndexOf(dirs[m]))
    ensures r.Err? ==> r.error.IndexNotFound?
    ensures r.Err? ==> exists m :: k <= m < |dirs| && r.error.path == IndexOf(dirs[m]) && !present(r.error.path)
                                  && forall n :: 0 <= n < m ==> present(IndexOf(dirs[n]))
    decreases |dirs| - k
  {
    if k == |dirs| then Ok(seq(|dirs|, m requires 0 <= m < |dirs| => IndexOf(dirs[m])))
    else if !present(IndexOf(dirs[k])) then Err(IndexNotFound(IndexOf(dirs[k])))
    else FirstMissing(dirs, present, k + 1)
  }

  /** `_resolve_index_paths`. */
  method ResolveIndexPaths(dirs: seq<Paths.PurePath>, present: Paths.PurePath -> bool)
    returns (r: Result<seq<Paths.PurePath>, RefreshError>)
    ensures r == IndexPaths(dirs, present)
  {
    var indexPaths: seq<Paths.PurePath> := [];
    for i := 0 to |dirs|
      invariant |indexPaths| == i
      invariant forall m :: 0 <= m < i ==> indexPaths[m] == IndexOf(dirs[m]) && present(IndexOf(dirs[m]))
    {
      var indexPath := IndexOf(dirs[i]);
      if !present(indexPath) {
        return Err(IndexNotFound(indexPath));
      }
      indexPaths := indexPaths + [indexPath];
    }
    if indexPaths == [] {
      return Err(NoIndexResolved);
    }
    assert indexPaths == seq(|dirs|, m requires 0 <= m < |dirs| => IndexOf(dirs[m]));
    return Ok(indexPaths);
  }

  // ---------------------------------------------------------------------------
  // run_refresh

  /** `run_refresh` on the working tree `disk`: the codemap update over the resolved index
      files with both the index and the capsules emitted. `ok` is false when the refresh
      raised: an index missing, or the update failing. */
  method RunRefresh(disk: Codemap.Disk, docsDirs: seq<Paths.PurePath>, dryRun: bool, present: Paths.PurePath -> bool,
                    clock: nat -> string, listing: Paths.PurePath -> Option<seq<Paths.PurePath>>,
                    parse: string -> Option<Json>, dump: Json -> string) returns (ok: bool)
    modifies disk
    ensures IndexPaths(docsDirs, present).Err? ==> !ok && disk.files == old(disk.files)
    ensures IndexPaths(docsDirs, present).Ok? ==>
              Codemap.Run(disk.files, !ok)
              == Codemap.UpdateRun(old(disk.files), IndexPaths(docsDirs, present).value, 0, true, true, clock, listing,
                                   Codemap.Env(parse, dump, dryRun))
  {
    var indexPaths := ResolveIndexPaths(docsDirs, present);
    if indexPaths.Err? {
      return false;
    }
    ok := disk.RunUpdate(Codemap.UpdateOptions(indexPaths.value, true, true, dryRun), clock, listing, parse, dump);
  }

  /** A dry-run refresh changes no file. */
  lemma RefreshDryRun(files: Codemap.Files, indexPaths: seq<Paths.PurePath>, clock: nat -> string,
                      listing: Paths.PurePath -> Option<seq<Paths.PurePath>>, parse: string -> Option<Json>,
                      dump: Json -> string)
    ensures Codemap.UpdateRun(files, indexPaths, 0, true, true, clock, listing, Codemap.Env(parse, dump, true)).files == files
  {
    Codemap.UpdateDryRun(files, indexPaths, 0, true, true, clock, listing, Codemap.Env(parse, dump, true));
  }
}
