/**
 * The three functions of Node's `path` module (POSIX flavour) that the
 * modelled code calls: `join`, `basename` and `dirname`.
 */
module NodePath {

  /** The segments that are not the empty string, in order. */
  function NonEmpty(segments: seq<string>): (r: seq<string>)
    ensures |r| <= |segments|
    ensures forall i :: 0 <= i < |r| ==> r[i] != ""
    ensures r == [] <==> forall i :: 0 <= i < |segments| ==> segments[i] == ""
  {
    if segments == [] then []
    else if segments[0] == "" then NonEmpty(segments[1..])
    else [segments[0]] + NonEmpty(segments[1..])
  }

  /** The segments with a single `/` between each two. */
  function Interleave(segments: seq<string>): string
  {
    if segments == [] then ""
    else if |segments| == 1 then segments[0]
    else segments[0] + "/" + Interleave(segments[1..])
  }

  /**
   * `path.join(...segments)`: zero-length segments are ignored, the others
   * are joined with `/`, and nothing at all gives `"."`.
   */
  function Join(segments: seq<string>): (r: string)
    ensures r != ""
    ensures (forall i :: 0 <= i < |segments| ==> segments[i] == "") ==> r == "."
    ensures |NonEmpty(segments)| == 1 ==> r == NonEmpty(segments)[0]
  {
    var parts := NonEmpty(segments);
    if parts == [] then "."
    else
      InterleaveNonEmpty(parts);
      Interleave(parts)
  }

  lemma {:induction false} InterleaveNonEmpty(parts: seq<string>)
    requires parts != [] && parts[0] != ""
    ensures Interleave(parts) != ""
  {
    if |parts| > 1 {
      assert |Interleave(parts)| >= |parts[0]|;
    }
  }

  lemma {:induction false} NonEmptyAppend(a: seq<string>, b: seq<string>)
    ensures NonEmpty(a + b) == NonEmpty(a) + NonEmpty(b)
  {
    if a != [] {
      assert (a + b)[0] == a[0];
      assert (a + b)[1..] == a[1..] + b;
      NonEmptyAppend(a[1..], b);
    } else {
      assert a + b == b;
    }
  }

  /** An empty segment anywhere among the arguments makes no difference. */
  lemma JoinSkipsEmpty(before: seq<string>, after: seq<string>)
    ensures Join(before + [""] + after) == Join(before + after)
  {
    NonEmptyAppend(before + [""], after);
    NonEmptyAppend(before, [""]);
    assert [""][1..] == [];
    assert NonEmpty([""]) == [];
    assert NonEmpty(before + [""]) == NonEmpty(before);
    NonEmptyAppend(before, after);
    assert NonEmpty(before + [""] + after) == NonEmpty(before + after);
  }

  /** Joining three non-empty segments puts exactly one separator between each two. */
  lemma JoinThree(a: string, b: string, c: string)
    requires a != "" && b != "" && c != ""
    ensures Join([a, b, c]) == a + "/" + b + "/" + c
  {
    assert [a, b, c][1..] == [b, c];
    assert [b, c][1..] == [c];
    assert [c][1..] == [];
    assert NonEmpty([c]) == [c];
    assert NonEmpty([b, c]) == [b, c];
    assert NonEmpty([a, b, c]) == [a, b, c];
    assert Interleave([c]) == c;
    assert Interleave([b, c]) == b + "/" + c;
  }

  /** `p` with every trailing `/` removed. */
  function StripTrailingSlashes(p: string): (q: string)
    ensures |q| <= |p| && q == p[..|q|]
    ensures forall i :: |q| <= i < |p| ==> p[i] == '/'
    ensures q != "" ==> q[|q| - 1] != '/'
  {
    if p != "" && p[|p| - 1] == '/' then StripTrailingSlashes(p[..|p| - 1]) else p
  }

  /** The index of the last `/` in `q`, if any. */
  function LastSlash(q: string): (k: int)
    ensures -1 <= k < |q|
    ensures k >= 0 ==> q[k] == '/'
    ensures forall i :: k < i < |q| ==> q[i] != '/'
  {
    if q == "" then -1 else if q[|q| - 1] == '/' then |q| - 1 else LastSlash(q[..|q| - 1])
  }

  /**
   * `path.basename(p)`: the last segment of `p` once trailing slashes are
   * gone; `""` for the empty path and for a path made of slashes only.
   */
  function Basename(p: string): (r: string)
    ensures forall i :: 0 <= i < |r| ==> r[i] != '/'
    ensures var q := StripTrailingSlashes(p);
      |r| <= |q| && r == q[|q| - |r|..] && (|r| < |q| ==> q[|q| - |r| - 1] == '/')
  {
    var q := StripTrailingSlashes(p);
    q[LastSlash(q) + 1..]
  }

  /**
   * `path.dirname(p)`: what comes before the last segment; `"."` when there
   * is no `/` at all and `"/"` when only the root is left.  Node keeps a
   * leading `//` as the root of `"//a"` and answers `"//"` there; this model
   * answers `"/"`, a difference that no path built by the modelled code meets.
   */
  function Dirname(p: string): (r: string)
    ensures r != ""
    ensures (forall i :: 0 <= i < |p| ==> p[i] != '/') ==> r == "."
    ensures r != "." && r != "/" ==> |r| < |p| && r == p[..|r|] && p[|r|] == '/'
  {
    if p == "" then "."
    else
      var q := StripTrailingSlashes(p);
      if q == "" then "/"
      else
        var k := LastSlash(q);
        if k < 0 then "." else if k == 0 then "/" else q[..k]
  }

  /** The parent of `dir/name`, for a single segment `name`, is `dir`. */
  lemma DirnameOfChild(dir: string, name: string)
    requires dir != "" && name != ""
    requires forall i :: 0 <= i < |name| ==> name[i] != '/'
    ensures Dirname(dir + "/" + name) == dir
  {
    var p := dir + "/" + name;
    assert StripTrailingSlashes(p) == p by {
      assert p[|p| - 1] == name[|name| - 1];
    }
    assert LastSlash(p) == |dir| by {
      assert p[|dir|] == '/';
      forall i | |dir| < i < |p| ensures p[i] != '/' {
        assert p[i] == name[i - |dir| - 1];
      }
      LastSlashIsLast(p, |dir|);
    }
    assert p[..|dir|] == dir;
  }

  lemma LastSlashIsLast(q: string, k: nat)
    requires k < |q| && q[k] == '/'
    requires forall i :: k < i < |q| ==> q[i] != '/'
    ensures LastSlash(q) == k
  {
  }
}
