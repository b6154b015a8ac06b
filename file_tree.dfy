/**
 * The nested file structure CodeView builds from the steps' paths
 * (Frontend/src/pages/CodeView.tsx, lines 46-71). In the source a directory is a
 * plain object and a file is the string it maps to; here the two are told apart
 * by a constructor.
 */
module FileTree {
  import opened Common

  datatype Node = File(code: string) | Directory(children: map<string, Node>)

  /** A directory's entries; the root of the structure is one of these. */
  type Dir = map<string, Node>

  /**
   * The walk of lines 53-69 for one step: every segment but the last names a
   * directory, reused when the entry is truthy and created as `{}` when it is
   * not; the last segment is assigned the code. `None` is the walk reaching a
   * non-empty file before its last segment: the source then assigns a property
   * of a string, which throws in module (strict-mode) code and aborts the build.
   * Every segment is read as an own key; inherited keys are not modelled.
   */
  function Insert(d: Dir, segs: seq<string>, code: string): (r: Option<Dir>)
    requires |segs| > 0
    ensures r.Some? ==> r.value.Keys == d.Keys + {segs[0]}
    ensures r.Some? ==> forall k :: k in d && k != segs[0] ==> r.value[k] == d[k]
    ensures r.Some? && |segs| > 1 ==> r.value[segs[0]].Directory?
    decreases |segs|
  {
    var part := segs[0];
    if |segs| == 1 then Some(d[part := File(code)])
    else if part in d && d[part].File? && d[part].code != "" then None
    else
      var sub := if part in d && d[part].Directory? then d[part].children else map[];
      match Insert(sub, segs[1..], code)
      case None => None
      case Some(c) => Some(d[part := Directory(c)])
  }

  /** The node reached by following the names `q` from `d`. */
  function Lookup(d: Dir, q: seq<string>): Option<Node>
    requires |q| > 0
    decreases |q|
  {
    if q[0] !in d then None
    else if |q| == 1 then Some(d[q[0]])
    else match d[q[0]]
      case File(_) => None
      case Directory(c) => Lookup(c, q[1..])
  }

  /** Neither path is a prefix of the other. */
  predicate Apart(p: seq<string>, q: seq<string>)
  {
    !(p <= q) && !(q <= p)
  }

  /** Last write wins: after a successful insertion the path holds exactly the inserted code. */
  lemma {:induction false} InsertThenLookup(d: Dir, segs: seq<string>, code: string)
    requires |segs| > 0 && Insert(d, segs, code).Some?
    ensures Lookup(Insert(d, segs, code).value, segs) == Some(File(code))
    decreases |segs|
  {
    if |segs| > 1 {
      var part := segs[0];
      var sub := if part in d && d[part].Directory? then d[part].children else map[];
      InsertThenLookup(sub, segs[1..], code);
    }
  }

  /**
   * Insertion touches only the inserted path: every path that is neither a
   * prefix nor an extension of it, siblings in reused directories included,
   * keeps what it held.
   */
  lemma {:induction false} InsertKeepsApart(d: Dir, segs: seq<string>, code: string, q: seq<string>)
    requires |segs| > 0 && |q| > 0 && Insert(d, segs, code).Some?
    requires Apart(segs, q)
    ensures Lookup(Insert(d, segs, code).value, q) == Lookup(d, q)
    decreases |segs|
  {
    var part := segs[0];
    var r := Insert(d, segs, code).value;
    if q[0] == part {
      assert |segs| > 1 && |q| > 1;
      var sub := if part in d && d[part].Directory? then d[part].children else map[];
      var c := Insert(sub, segs[1..], code).value;
      assert r[part] == Directory(c);
      assert segs == [part] + segs[1..] && q == [part] + q[1..];
      assert Apart(segs[1..], q[1..]);
      InsertKeepsApart(sub, segs[1..], code, q[1..]);
      assert Lookup(r, q) == Lookup(c, q[1..]);
      if part in d && d[part].Directory? {
        assert Lookup(d, q) == Lookup(sub, q[1..]);
      } else {
        LookupEmpty(q[1..]);
        assert Lookup(d, q) == None;
      }
    }
  }

  lemma LookupEmpty(q: seq<string>)
    requires |q| > 0
    ensures Lookup(map[], q) == None
  {
  }

  /** Every proper prefix of the inserted path is a directory afterwards. */
  lemma {:induction false} InsertMakesDirectories(d: Dir, segs: seq<string>, code: string, j: nat)
    requires 0 < j < |segs| && Insert(d, segs, code).Some?
    ensures Lookup(Insert(d, segs, code).value, segs[..j]).Some?
    ensures Lookup(Insert(d, segs, code).value, segs[..j]).value.Directory?
    decreases |segs|
  {
    var part := segs[0];
    var sub := if part in d && d[part].Directory? then d[part].children else map[];
    if j > 1 {
      InsertMakesDirectories(sub, segs[1..], code, j - 1);
      assert segs[..j][1..] == segs[1..][..j - 1];
    }
  }

  /** A ghost witness that the walk meets a non-empty file before the last segment. */
  ghost predicate BlockedAt(d: Dir, segs: seq<string>, j: nat)
    requires j < |segs|
  {
    0 < j && Lookup(d, segs[..j]).Some? && Lookup(d, segs[..j]).value.File? && Lookup(d, segs[..j]).value.code != ""
  }

  /**
   * The walk fails exactly when some proper prefix of the path is a non-empty
   * file; an empty file on the way is falsy and is replaced by a directory.
   */
  lemma {:induction false} InsertFailsIff(d: Dir, segs: seq<string>, code: string)
    requires |segs| > 0
    ensures Insert(d, segs, code).None? <==> exists j :: 0 < j < |segs| && BlockedAt(d, segs, j)
    decreases |segs|
  {
    var part := segs[0];
    if |segs| == 1 {
    } else if part in d && d[part].File? && d[part].code != "" {
      assert segs[..1] == [part];
      assert BlockedAt(d, segs, 1);
    } else {
      var sub := if part in d && d[part].Directory? then d[part].children else map[];
      InsertFailsIff(sub, segs[1..], code);
      if part in d && d[part].Directory? {
        forall j | 1 < j < |segs|
          ensures BlockedAt(d, segs, j) <==> BlockedAt(sub, segs[1..], j - 1)
        {
          assert segs[..j][1..] == segs[1..][..j - 1];
        }
        assert !BlockedAt(d, segs, 1) by { assert segs[..1] == [part]; }
        if Insert(d, segs, code).None? {
          var j' :| 0 < j' < |segs| - 1 && BlockedAt(sub, segs[1..], j');
          assert BlockedAt(d, segs, j' + 1);
        }
      } else {
        forall j | 0 < j < |segs|
          ensures !BlockedAt(d, segs, j)
        {
          assert segs[..j][0] == part;
          if j > 1 {
            assert segs[..j][1..] == segs[1..][..j - 1];
          } else {
            assert segs[..j] == [part];
          }
        }
      }
    }
  }
}
