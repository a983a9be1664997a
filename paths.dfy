/**
 * Paths as sequences of components, already resolved (absolute, no symbolic
 * links, no "." or ".."): the empty sequence is the file-system root.
 * `JoinText` gives the directory that `os.path.join(dir, text)` names once
 * the operating system has resolved the text's '/', "." and "..".
 */
module Paths {
  import opened Strings

  type Path = seq<string>

  /** The directory holding `p`: all of it but the last component. */
  function Parent(p: Path): Path
    requires p != []
  {
    p[..|p| - 1]
  }

  /** The last component of `p`: the name of the entry it denotes. */
  function Last(p: Path): string
    requires p != []
  {
    p[|p| - 1]
  }

  /** `a` is `p` or one of its ancestors. */
  predicate IsPrefix(a: Path, p: Path)
  {
    |a| <= |p| && p[..|a|] == a
  }

  /** `a` is a proper ancestor of `p`. */
  predicate IsStrictAncestor(a: Path, p: Path)
  {
    |a| < |p| && p[..|a|] == a
  }

  /** `Path(p).parents` of Python's pathlib: every proper ancestor, the root included. */
  function Parents(p: Path): set<Path>
  {
    set k | 0 <= k < |p| :: p[..k]
  }

  /**
   * The test `process_directory` makes before looking at the files of
   * `dir`: the output base is one of `dir`'s parents.
   */
  predicate Skipped(base: Path, dir: Path)
    ensures Skipped(base, dir) ==> |base| < |dir| && dir[..|base|] == base
  {
    base in Parents(dir)
  }

  /**
   * A directory is skipped exactly when the output base is a proper ancestor
   * of it; the output base itself and directories outside it are walked.
   */
  lemma SkippedIffStrictAncestor(base: Path, dir: Path)
    ensures Skipped(base, dir) <==> IsStrictAncestor(base, dir)
    ensures !Skipped(base, base)
    ensures forall c :: Skipped(base, base + [c])
  {
    if IsStrictAncestor(base, dir) {
      assert dir[..|base|] in Parents(dir);
    }
    forall c ensures Skipped(base, base + [c]) {
      assert (base + [c])[..|base|] == base;
    }
  }

  // ---------------------------------------------------------------------
  // os.path.join(dir, text), as the file system resolves it
  // ---------------------------------------------------------------------

  /** One ordinary path component: no separator, not empty, not "." or "..". */
  predicate PlainComponent(s: string)
  {
    s != [] && '/' !in s && s != "." && s != ".."
  }

  /** Every component of `p` is ordinary, as in a resolved path. */
  predicate Resolved(p: Path)
  {
    forall i :: 0 <= i < |p| ==> PlainComponent(p[i])
  }

  /** Where one separator-free piece of a path text leads from `dir`. */
  function Step(dir: Path, piece: string): (r: Path)
    requires '/' !in piece
    ensures piece != ".." ==> IsPrefix(dir, r)
    ensures Resolved(dir) ==> Resolved(r)
  {
    if piece == [] || piece == "." then dir
    else if piece == ".." then (if dir == [] then [] else dir[..|dir| - 1])
    else dir + [piece]
  }

  /** Where the pieces lead from `dir`, one after the other. */
  function Descend(dir: Path, pieces: seq<string>): (r: Path)
    requires forall k :: 0 <= k < |pieces| ==> '/' !in pieces[k]
    ensures Resolved(dir) ==> Resolved(r)
    decreases |pieces|
  {
    if pieces == [] then dir else Descend(Step(dir, pieces[0]), pieces[1..])
  }

  /**
   * The directory `os.path.join(dir, text)` names: a text starting with '/'
   * discards `dir` and starts at the root; then each '/'-separated piece is
   * followed, empty pieces and "." staying put and ".." going up.
   */
  function JoinText(dir: Path, text: string): (r: Path)
    ensures Resolved(dir) ==> Resolved(r)
  {
    var start := if text != [] && text[0] == '/' then [] else dir;
    Descend(start, Split(text, '/'))
  }

  /** `text` cannot lead `os.path.join(dir, text)` out of `dir`: it is relative and has no ".." piece. */
  predicate Confined(text: string)
  {
    !(text != [] && text[0] == '/') && ".." !in Split(text, '/')
  }

  /** A text without a separator is split into itself alone. */
  lemma SplitOfFree(s: string, sep: char)
    requires sep !in s
    ensures Split(s, sep) == [s]
  {
    var f := FirstField(s, sep);
    assert |f| == |s|;
  }

  /** An ordinary component is appended as it is. */
  lemma JoinPlain(dir: Path, text: string)
    requires PlainComponent(text)
    ensures JoinText(dir, text) == dir + [text]
    ensures Confined(text)
  {
    SplitOfFree(text, '/');
    assert Descend(dir, [text]) == Descend(dir + [text], []);
  }

  /** Pieces without ".." only ever go down from `dir`, appending their ordinary pieces. */
  lemma {:induction false} DescendConfined(dir: Path, pieces: seq<string>)
    requires forall k :: 0 <= k < |pieces| ==> '/' !in pieces[k]
    requires ".." !in pieces
    ensures Descend(dir, pieces) == dir + PlainPieces(pieces)
    decreases |pieces|
  {
    if pieces != [] {
      var p, rest := pieces[0], pieces[1..];
      DescendConfined(Step(dir, p), rest);
      assert Descend(dir, pieces) == Descend(Step(dir, p), rest);
      if PlainComponent(p) {
        assert PlainPieces(pieces) == [p] + PlainPieces(rest);
        assert Step(dir, p) == dir + [p];
        assert (dir + [p]) + PlainPieces(rest) == dir + ([p] + PlainPieces(rest));
      } else {
        assert PlainPieces(pieces) == PlainPieces(rest);
        assert Step(dir, p) == dir;
      }
    }
  }

  /** The ordinary pieces of a split text, in order. */
  function PlainPieces(pieces: seq<string>): (r: seq<string>)
    ensures forall k :: 0 <= k < |r| ==> PlainComponent(r[k])
    decreases |pieces|
  {
    if pieces == [] then []
    else if PlainComponent(pieces[0]) then [pieces[0]] + PlainPieces(pieces[1..])
    else PlainPieces(pieces[1..])
  }

  /** A confined text names `dir` or a directory below it. */
  lemma JoinConfined(dir: Path, text: string)
    requires Confined(text)
    ensures IsPrefix(dir, JoinText(dir, text))
  {
    DescendConfined(dir, Split(text, '/'));
    assert (dir + PlainPieces(Split(text, '/')))[..|dir|] == dir;
  }

  /** A file name appended to a joined text: below `dir` when the text is confined. */
  lemma JoinThenName(dir: Path, text: string, name: string)
    ensures PlainComponent(text) ==> Confined(text) && JoinText(dir, text) + [name] == dir + [text, name]
    ensures Confined(text) ==> IsStrictAncestor(dir, JoinText(dir, text) + [name])
  {
    if PlainComponent(text) {
      JoinPlain(dir, text);
      assert (dir + [text]) + [name] == dir + [text, name];
    }
    if Confined(text) {
      var d := JoinText(dir, text);
      JoinConfined(dir, text);
      assert (d + [name])[..|dir|] == d[..|dir|];
    }
  }

  /** A text joined below the child `dir + [c]`: below `dir` when the text is confined. */
  lemma JoinBelowChild(dir: Path, c: string, text: string)
    ensures PlainComponent(text) ==> Confined(text) && JoinText(dir + [c], text) == dir + [c, text]
    ensures Confined(text) ==> IsStrictAncestor(dir, JoinText(dir + [c], text))
  {
    if PlainComponent(text) {
      JoinPlain(dir + [c], text);
      assert (dir + [c]) + [text] == dir + [c, text];
    }
    if Confined(text) {
      var d := JoinText(dir + [c], text);
      JoinConfined(dir + [c], text);
      assert d[..|dir|] == (dir + [c])[..|dir|];
    }
  }

  /**
   * The join as the intended behaviour would have it: the text stays
   * inside `dir` whatever it holds, only its ordinary pieces being followed.
   */
  function ConfinedJoin(dir: Path, text: string): (r: Path)
    ensures IsPrefix(dir, r)
    ensures Resolved(dir) ==> Resolved(r)
  {
    assert (dir + PlainPieces(Split(text, '/')))[..|dir|] == dir;
    dir + PlainPieces(Split(text, '/'))
  }

  /** On every text that cannot escape, the confined join is the join itself. */
  lemma ConfinedJoinAgrees(dir: Path, text: string)
    requires Confined(text)
    ensures ConfinedJoin(dir, text) == JoinText(dir, text)
  {
    DescendConfined(dir, Split(text, '/'));
  }
}
