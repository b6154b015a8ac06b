/**
 * How CodeView turns a step's path into tree segments:
 * `path.split('/').filter(Boolean)` (Frontend/src/pages/CodeView.tsx, line 50).
 */
module PathSegments {
  import opened Common

  /** `s.split('/')`: the pieces between separators, empty pieces included. */
  function Split(s: string): (pieces: seq<string>)
    ensures |pieces| >= 1
    decreases |s|
  {
    if s == [] then [""]
    else
      var rest := Split(s[1..]);
      if s[0] == '/' then [""] + rest else [[s[0]] + rest[0]] + rest[1..]
  }

  /** `pieces.join('/')`, the inverse of `Split`. */
  function Join(pieces: seq<string>): string
  {
    if |pieces| <= 1 then (if pieces == [] then "" else pieces[0])
    else pieces[0] + "/" + Join(pieces[1..])
  }

  /** `.filter(Boolean)` on strings: keeps the non-empty pieces, in order. */
  function NonEmpty(pieces: seq<string>): (kept: seq<string>)
    ensures |kept| <= |pieces|
    ensures forall i :: 0 <= i < |kept| ==> kept[i] != "" && kept[i] in pieces
  {
    if pieces == [] then []
    else (if pieces[0] == "" then [] else [pieces[0]]) + NonEmpty(pieces[1..])
  }

  /** The directory and file names a path contributes to the file tree: non-empty names free of separators. */
  function Segments(path: string): (segs: seq<string>)
    ensures ValidSegments(segs)
  {
    SplitPiecesFree(path);
    NonEmptyFrom(Split(path));
    NonEmpty(Split(path))
  }

  /** Every segment is a non-empty name without a separator. */
  ghost predicate ValidSegments(segs: seq<string>)
  {
    forall i :: 0 <= i < |segs| ==> segs[i] != "" && '/' !in segs[i]
  }

  lemma {:induction false} JoinSplit(s: string)
    ensures Join(Split(s)) == s
    decreases |s|
  {
    if s != [] {
      var rest := Split(s[1..]);
      JoinSplit(s[1..]);
      if s[0] == '/' {
        assert Join([""] + rest) == "" + "/" + Join(rest);
      } else {
        JoinPrepend(s[0], rest);
      }
      assert [s[0]] + s[1..] == s;
    }
  }

  /** Extending the first piece by one character extends the joined text by it. */
  lemma JoinPrepend(c: char, pieces: seq<string>)
    requires |pieces| >= 1
    ensures Join([[c] + pieces[0]] + pieces[1..]) == [c] + Join(pieces)
  {
    var ext := [[c] + pieces[0]] + pieces[1..];
    assert ext[0] == [c] + pieces[0] && ext[1..] == pieces[1..];
    if |pieces| > 1 {
      ConcatAssoc([c], pieces[0], "/" + Join(pieces[1..]));
      ConcatAssoc(pieces[0], "/", Join(pieces[1..]));
      ConcatAssoc([c] + pieces[0], "/", Join(pieces[1..]));
    }
  }

  lemma {:induction false} SplitJoin(pieces: seq<string>)
    requires |pieces| >= 1
    requires forall i :: 0 <= i < |pieces| ==> '/' !in pieces[i]
    ensures Split(Join(pieces)) == pieces
  {
    SplitWhole(pieces[0]);
    if |pieces| > 1 {
      var rest := pieces[1..];
      SplitJoin(rest);
      SplitConcat(pieces[0], Join(rest));
      assert [pieces[0]] + rest == pieces;
    }
  }

  /** A string without separators is one piece. */
  lemma {:induction false} SplitWhole(s: string)
    requires '/' !in s
    ensures Split(s) == [s]
    decreases |s|
  {
    if s != [] {
      SplitWhole(s[1..]);
      assert [s[0]] + s[1..] == s;
    }
  }

  /** Splitting at one separator splits the pieces list at that point. */
  lemma {:induction false} SplitConcat(a: string, b: string)
    ensures Split(a + "/" + b) == Split(a) + Split(b)
    decreases |a|
  {
    var s := a + "/" + b;
    if a == [] {
      assert s == "/" + b && s[1..] == b;
    } else {
      assert s[0] == a[0] && s[1..] == a[1..] + "/" + b;
      SplitConcat(a[1..], b);
      var l, r := Split(a[1..]), Split(b);
      if a[0] == '/' {
        ConcatAssoc([""], l, r);
      } else {
        assert (l + r)[0] == l[0] && (l + r)[1..] == l[1..] + r;
        ConcatAssoc([[a[0]] + l[0]], l[1..], r);
      }
    }
  }

  lemma {:induction false} NonEmptyConcat(p: seq<string>, q: seq<string>)
    ensures NonEmpty(p + q) == NonEmpty(p) + NonEmpty(q)
  {
    if p == [] {
      assert p + q == q;
    } else {
      assert (p + q)[0] == p[0];
      assert (p + q)[1..] == p[1..] + q;
      NonEmptyConcat(p[1..], q);
    }
  }

  /** A separator contributes no segment of its own: segments of `a/b` are those of `a` then those of `b`. */
  lemma SegmentsConcat(a: string, b: string)
    ensures Segments(a + "/" + b) == Segments(a) + Segments(b)
  {
    SplitConcat(a, b);
    NonEmptyConcat(Split(a), Split(b));
  }

  /**
   * A leading separator and a doubled separator do not change the segments,
   * so `a/b`, `/a/b` and `a//b` reach the same leaf.
   */
  lemma SeparatorsCollapse(a: string, b: string)
    ensures Segments("/" + a) == Segments(a)
    ensures Segments(a + "//" + b) == Segments(a + "/" + b)
  {
    LeadingSeparator(a);
    calc {
      Segments(a + "//" + b);
      { assert a + "//" + b == a + "/" + ("/" + b); }
      Segments(a + "/" + ("/" + b));
      { SegmentsConcat(a, "/" + b); }
      Segments(a) + Segments("/" + b);
      { LeadingSeparator(b); }
      Segments(a) + Segments(b);
      { SegmentsConcat(a, b); }
      Segments(a + "/" + b);
    }
  }

  lemma LeadingSeparator(a: string)
    ensures Segments("/" + a) == Segments(a)
  {
    calc {
      Segments("/" + a);
      { assert "/" + a == "" + "/" + a; }
      Segments("" + "/" + a);
      { SegmentsConcat("", a); }
      Segments("") + Segments(a);
      { SplitWhole(""); assert Segments("") == []; }
      Segments(a);
    }
  }

  /** The empty path and a path made of separators only add nothing to the tree. */
  lemma {:induction false} OnlySeparators(n: nat)
    ensures Segments(seq(n, _ => '/')) == []
  {
    if n == 0 {
      assert Split("") == [""];
    } else {
      var s := seq(n, _ => '/');
      var t := seq(n - 1, _ => '/');
      assert s == "" + "/" + t;
      SegmentsConcat("", t);
      assert Split("") == [""];
      OnlySeparators(n - 1);
    }
  }

  /** Joining valid names with separators and taking the segments gives the names back. */
  lemma SegmentsOfJoin(segs: seq<string>)
    requires |segs| >= 1 && ValidSegments(segs)
    ensures Segments(Join(segs)) == segs
  {
    SplitJoin(segs);
    NonEmptyAllKept(segs);
  }

  lemma {:induction false} NonEmptyAllKept(segs: seq<string>)
    requires forall i :: 0 <= i < |segs| ==> segs[i] != ""
    ensures NonEmpty(segs) == segs
  {
    if segs != [] {
      NonEmptyAllKept(segs[1..]);
    }
  }

  /** No piece of a split contains the separator. */
  lemma {:induction false} SplitPiecesFree(s: string)
    ensures forall i :: 0 <= i < |Split(s)| ==> '/' !in Split(s)[i]
    decreases |s|
  {
    if s != [] {
      SplitPiecesFree(s[1..]);
      var rest := Split(s[1..]);
      if s[0] != '/' {
        assert '/' !in [s[0]] + rest[0];
      }
    }
  }

  lemma {:induction false} NonEmptyFrom(pieces: seq<string>)
    requires forall i :: 0 <= i < |pieces| ==> '/' !in pieces[i]
    ensures ValidSegments(NonEmpty(pieces))
  {
    if pieces != [] {
      NonEmptyFrom(pieces[1..]);
    }
  }
}
