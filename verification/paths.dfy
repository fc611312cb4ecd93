/** D-Bus object paths (sdbusplus::message::object_path) and Redfish URLs
    (crow::utility::urlFromPieces). Escaping of path elements and
    percent-encoding of URL pieces are not modelled: paths and URLs are
    plain strings joined with '/'. */
module Paths {

  /** Index of the last '/' in p, or -1 when p has none. */
  function LastSlash(p: string): (i: int)
    ensures -1 <= i < |p|
    ensures i >= 0 ==> p[i] == '/'
    decreases |p|
  {
    if |p| == 0 then -1
    else if p[|p| - 1] == '/' then |p| - 1
    else LastSlash(p[..|p| - 1])
  }

  /** No '/' follows the last one. */
  lemma {:induction false} LastSlashIsLast(p: string)
    ensures forall k :: LastSlash(p) < k < |p| ==> p[k] != '/'
    decreases |p|
  {
    if |p| > 0 && p[|p| - 1] != '/' {
      LastSlashIsLast(p[..|p| - 1]);
    }
  }

  /** object_path::filename(): the text after the last '/', and "" for a
      path without any '/'. */
  function Filename(p: string): (r: string)
    ensures '/' !in r
    ensures |r| <= |p| && r == p[|p| - |r|..]
  {
    var i := LastSlash(p);
    LastSlashIsLast(p);
    if i < 0 then "" else p[i + 1..]
  }

  /** object_path::parent_path(): the text before the last '/', or "/" when
      that would be empty. */
  function ParentPath(p: string): string {
    var i := LastSlash(p);
    if i <= 0 then "/" else p[..i]
  }

  /** object_path::operator/: append one element. */
  function Join(p: string, leaf: string): string {
    p + "/" + leaf
  }

  lemma LastSlashOfJoin(p: string, leaf: string)
    requires '/' !in leaf
    ensures LastSlash(Join(p, leaf)) == |p|
  {
    var s := Join(p, leaf);
    LastSlashIsLast(s);
    assert s[|p|] == '/';
    assert forall k :: |p| < k < |s| ==> s[k] == leaf[k - |p| - 1];
  }

  /** The filename of a joined path is the element appended. */
  lemma FilenameOfJoin(p: string, leaf: string)
    requires '/' !in leaf
    ensures Filename(Join(p, leaf)) == leaf
  {
    LastSlashOfJoin(p, leaf);
    assert Join(p, leaf)[|p| + 1..] == leaf;
  }

  /** The parent of a joined path is the path joined onto, when non-empty. */
  lemma ParentOfJoin(p: string, leaf: string)
    requires '/' !in leaf
    requires |p| > 0
    ensures ParentPath(Join(p, leaf)) == p
  {
    LastSlashOfJoin(p, leaf);
    assert Join(p, leaf)[..|p|] == p;
  }

  /** crow::utility::urlFromPieces: each piece preceded by '/'. */
  function UrlFromPieces(pieces: seq<string>): (r: string)
    ensures |pieces| == 0 ==> r == ""
    decreases |pieces|
  {
    if |pieces| == 0 then ""
    else UrlFromPieces(pieces[..|pieces| - 1]) + "/" + pieces[|pieces| - 1]
  }

  /** The filename of a URL is its last piece. */
  lemma FilenameOfUrl(pieces: seq<string>)
    requires |pieces| > 0 && '/' !in pieces[|pieces| - 1]
    ensures Filename(UrlFromPieces(pieces)) == pieces[|pieces| - 1]
  {
    FilenameOfJoin(UrlFromPieces(pieces[..|pieces| - 1]), pieces[|pieces| - 1]);
  }

  /** The '/'-separated segments of a path or URL; a leading '/' gives an
      empty first segment. */
  function Segments(p: string): (r: seq<string>)
    ensures |r| >= 1
    decreases |p|
  {
    var i := LastSlash(p);
    if i < 0 then [p] else Segments(p[..i]) + [p[i + 1..]]
  }

  /** No segment contains a '/'. */
  lemma {:induction false} SegmentsNoSlash(p: string)
    ensures forall i :: 0 <= i < |Segments(p)| ==> '/' !in Segments(p)[i]
    decreases |p|
  {
    var i := LastSlash(p);
    LastSlashIsLast(p);
    if i >= 0 {
      SegmentsNoSlash(p[..i]);
      var init := Segments(p[..i]);
      var last := p[i + 1..];
      assert Segments(p) == init + [last];
      assert forall k :: 0 <= k < |last| ==> last[k] == p[i + 1 + k];
    } else {
      assert forall k :: 0 <= k < |p| ==> p[k] != '/';
    }
  }

  /** Joining a '/'-free element adds it as the last segment. */
  lemma SegmentsOfJoin(p: string, leaf: string)
    requires '/' !in leaf
    ensures Segments(Join(p, leaf)) == Segments(p) + [leaf]
  {
    var u := Join(p, leaf);
    LastSlashOfJoin(p, leaf);
    assert u[..|p|] == p;
    assert u[|p| + 1..] == leaf;
  }

  /** A non-empty sequence is its front followed by its last element. */
  lemma SnocOfFront<T>(s: seq<T>, x: T, t: seq<T>)
    requires |s| > 0 && t == s[..|s| - 1] && x == s[|s| - 1]
    ensures s == t + [x]
  {
  }

  lemma ConsSnoc<T>(h: T, t: seq<T>, x: T)
    ensures [h] + t + [x] == [h] + (t + [x])
  {
  }

  lemma SegmentsOfUrlStep(pieces: seq<string>)
    requires |pieces| > 0 && '/' !in pieces[|pieces| - 1]
    requires Segments(UrlFromPieces(pieces[..|pieces| - 1])) == [""] + pieces[..|pieces| - 1]
    ensures Segments(UrlFromPieces(pieces)) == [""] + pieces
  {
    var n := |pieces| - 1;
    var init, last := pieces[..n], pieces[n];
    SegmentsOfJoin(UrlFromPieces(init), last);
    SnocOfFront(pieces, last, init);
    ConsSnoc("", init, last);
  }

  /** Splitting a URL built from '/'-free pieces gives back the pieces. */
  lemma {:induction false} SegmentsOfUrl(pieces: seq<string>)
    requires forall i :: 0 <= i < |pieces| ==> '/' !in pieces[i]
    ensures Segments(UrlFromPieces(pieces)) == [""] + pieces
    decreases |pieces|
  {
    if |pieces| > 0 {
      var init := pieces[..|pieces| - 1];
      forall i | 0 <= i < |init|
        ensures '/' !in init[i]
      {
        assert init[i] == pieces[i];
      }
      SegmentsOfUrl(init);
      SegmentsOfUrlStep(pieces);
    }
  }

  /** Conversely, a path whose first segment is empty is the URL built from
      its other segments. */
  lemma {:induction false} UrlOfSegments(p: string)
    requires Segments(p)[0] == ""
    ensures UrlFromPieces(Segments(p)[1..]) == p
    decreases |p|
  {
    var i := LastSlash(p);
    if i >= 0 {
      var segs := Segments(p);
      var init := Segments(p[..i]);
      assert segs == init + [p[i + 1..]];
      assert init[0] == "";
      UrlOfSegments(p[..i]);
      assert segs[1..][..|segs[1..]| - 1] == init[1..];
      assert p == p[..i] + "/" + p[i + 1..];
    }
  }
}
