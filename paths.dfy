/**
  Relative file paths as the directory walk produces them: a sequence of
  path elements joined by '/'. The empty sequence is the current directory,
  which Go's `filepath` package spells ".".
 */
module Paths {

  import Text

  type Path = seq<string>

  /** A path element as a directory listing yields it. */
  predicate IsSegment(s: string)
  {
    s != "" && s != "." && s != ".." && '/' !in s
  }

  /** A path as `filepath.Clean` leaves it: every element is a real name. */
  predicate IsCleanPath(p: Path)
  {
    forall i :: 0 <= i < |p| ==> IsSegment(p[i])
  }

  /** The text of a path, as `filepath.Clean` prints it. */
  function Render(p: Path): string
  {
    if p == [] then "." else Slashed(p)
  }

  function Slashed(p: Path): string
    requires p != []
  {
    if |p| == 1 then p[0] else Slashed(p[..|p| - 1]) + "/" + p[|p| - 1]
  }

  /** `filepath.Dir`: everything but the last element. */
  function Dir(p: Path): Path
  {
    if p == [] then [] else p[..|p| - 1]
  }

  /**
    `filepath.Base` of the directory half of `filepath.Split`: the name of the
    directory holding the last element, or "." when the path has no such part.
   */
  function ParentName(p: Path): string
  {
    if |p| >= 2 then p[|p| - 2] else "."
  }

  /** `filepath.Join` of a path and one name, where the name "." adds nothing. */
  function JoinName(p: Path, name: string): Path
  {
    if name == "." then p else p + [name]
  }

  /** A path that is not the current directory renders as its parent, a slash and its last element. */
  lemma {:induction false} RenderSnoc(p: Path, s: string)
    ensures Render(p + [s]) == if p == [] then s else Render(p) + "/" + s
  {
    assert (p + [s])[..|p + [s]| - 1] == p;
  }

  /** Only the current directory renders as "." (even up to case), since no clean element is ".". */
  lemma RenderIsDot(p: Path)
    requires IsCleanPath(p)
    ensures Render(p) == "." <==> p == []
    ensures Text.EqualFold(Render(p), ".") <==> p == []
  {
    if p != [] {
      var q, s := p[..|p| - 1], p[|p| - 1];
      assert p == q + [s];
      RenderSnoc(q, s);
      if q == [] {
        if Text.EqualFold(Render(p), ".") {
          assert Text.Fold(".")[0] == '.';
          Text.FoldNonLetter(s, '.');
          assert false;
        }
      } else {
        assert |Render(p)| >= 2;
      }
    }
  }

  /** Appending elements to a path other than "." makes its text strictly longer. */
  lemma {:induction false} RenderGrows(p: Path, q: Path)
    requires p != [] && q != []
    ensures |Render(p + q)| > |Render(p)|
  {
    var q', s := q[..|q| - 1], q[|q| - 1];
    assert p + q == (p + q') + [s];
    RenderSnoc(p + q', s);
    if q' == [] {
      assert p + q' == p;
    } else {
      RenderGrows(p, q');
    }
  }
}
