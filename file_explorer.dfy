/**
 * The file explorer (Frontend/src/components/FileExplorer.tsx): which folders
 * are expanded, which file is selected, and the rows the tree renders.
 */
module FileExplorer {
  import opened Common
  import opened FileTree

  /** `toggleFolder`'s new set: removes the path when present, adds it otherwise. */
  function Toggled(expanded: set<string>, path: string): (r: set<string>)
    ensures path in r <==> path !in expanded
    ensures forall q :: q != path ==> (q in r <==> q in expanded)
  {
    if path in expanded then expanded - {path} else expanded + {path}
  }

  /** Toggling the same folder twice restores the expanded set. */
  lemma ToggleTwice(expanded: set<string>, path: string)
    ensures Toggled(Toggled(expanded, path), path) == expanded
  {
  }

  const InitiallyExpanded: set<string> := {"/src"}

  /** What one entry of `renderFileTree` shows, and the code a click on it passes on. */
  datatype Row = Row(key: string, fullPath: string, isFolder: bool, isExpanded: bool, isSelected: bool, code: string)

  /** Lines 30-33 for the entry `key` of a directory whose full path is `parentPath`. */
  function EntryRow(key: string, node: Node, parentPath: string, expanded: set<string>, selected: Option<string>): (row: Row)
    ensures row.fullPath == parentPath + "/" + key && row.key == key
    ensures row.isFolder <==> node.Directory?
    ensures row.isExpanded <==> row.fullPath in expanded
    ensures row.isSelected <==> node.File? && selected == Some(row.fullPath)
    ensures node.File? ==> row.code == node.code
  {
    var fullPath := parentPath + "/" + key;
    var isFolder := node.Directory?;
    Row(key, fullPath, isFolder, fullPath in expanded, !isFolder && selected == Some(fullPath),
        if isFolder then "" else node.code)
  }

  /** The entry's row and, for an expanded folder only, the rows of its children (line 66). */
  function RenderNode(key: string, node: Node, parentPath: string, expanded: set<string>, selected: Option<string>): set<Row>
    decreases node
  {
    var fullPath := parentPath + "/" + key;
    {EntryRow(key, node, parentPath, expanded, selected)} +
    (if node.Directory? && fullPath in expanded
     then set k, r | k in node.children && r in RenderNode(k, node.children[k], fullPath, expanded, selected) :: r
     else {})
  }

  /** `renderFileTree(structure, path)`: the rows of every entry, as a set (entry order is not modelled). */
  function RenderTree(d: Dir, path: string, expanded: set<string>, selected: Option<string>): set<Row>
  {
    set k, r | k in d && r in RenderNode(k, d[k], path, expanded, selected) :: r
  }

  lemma RenderNodeUnfold(key: string, node: Node, parentPath: string, expanded: set<string>, selected: Option<string>)
    requires node.Directory? && parentPath + "/" + key in expanded
    ensures RenderNode(key, node, parentPath, expanded, selected) ==
      {EntryRow(key, node, parentPath, expanded, selected)} + RenderTree(node.children, parentPath + "/" + key, expanded, selected)
  {
  }

  /** The full path of the node reached by the names `q` below `parent`. */
  function PathOf(parent: string, q: seq<string>): string
    decreases |q|
  {
    if q == [] then parent else PathOf(parent + "/" + q[0], q[1..])
  }

  /** Every folder strictly above the node reached by `q` is expanded. */
  ghost predicate AncestorsExpanded(parent: string, q: seq<string>, expanded: set<string>)
  {
    forall j :: 1 <= j < |q| ==> PathOf(parent, q[..j]) in expanded
  }

  /** The row `renderFileTree` shows for the node reached by the names `q`. */
  ghost predicate ShowsNode(d: Dir, parent: string, q: seq<string>, expanded: set<string>, selected: Option<string>, row: Row)
  {
    |q| > 0 && Lookup(d, q).Some? && AncestorsExpanded(parent, q, expanded) &&
    row == EntryRow(q[|q| - 1], Lookup(d, q).value, PathOf(parent, q[..|q| - 1]), expanded, selected)
  }

  /**
   * A row is rendered exactly when it is the row of some node of the tree all
   * of whose enclosing folders are expanded.
   */
  lemma RenderedIff(n: Node, parent: string, expanded: set<string>, selected: Option<string>, row: Row)
    requires n.Directory?
    ensures row in RenderTree(n.children, parent, expanded, selected) <==>
      exists q :: ShowsNode(n.children, parent, q, expanded, selected, row)
  {
    if row in RenderTree(n.children, parent, expanded, selected) {
      RenderedIsShown(n, parent, expanded, selected, row);
    }
    if exists q :: ShowsNode(n.children, parent, q, expanded, selected, row) {
      var q :| ShowsNode(n.children, parent, q, expanded, selected, row);
      ShownIsRendered(n, parent, q, expanded, selected, row);
    }
  }

  lemma {:induction false} RenderedIsShown(n: Node, parent: string, expanded: set<string>, selected: Option<string>, row: Row)
    requires n.Directory? && row in RenderTree(n.children, parent, expanded, selected)
    ensures exists q :: ShowsNode(n.children, parent, q, expanded, selected, row)
    decreases n
  {
    var d := n.children;
    var k :| k in d && row in RenderNode(k, d[k], parent, expanded, selected);
    var full := parent + "/" + k;
    if row == EntryRow(k, d[k], parent, expanded, selected) {
      assert ShowsNode(d, parent, [k], expanded, selected, row);
    } else {
      var c := d[k];
      assert c.Directory? && full in expanded;
      RenderNodeUnfold(k, c, parent, expanded, selected);
      RenderedIsShown(c, full, expanded, selected, row);
      var q' :| ShowsNode(c.children, full, q', expanded, selected, row);
      ShowsBelow(d, parent, k, q', expanded, selected, row);
    }
  }

  /** A node shown below an expanded folder `k` is shown from the folder's parent. */
  lemma ShowsBelow(d: Dir, parent: string, k: string, q': seq<string>, expanded: set<string>, selected: Option<string>, row: Row)
    requires k in d && d[k].Directory? && parent + "/" + k in expanded
    requires ShowsNode(d[k].children, parent + "/" + k, q', expanded, selected, row)
    ensures ShowsNode(d, parent, [k] + q', expanded, selected, row)
  {
    var q := [k] + q';
    assert q[1..] == q';
    assert q[..|q| - 1][1..] == q'[..|q'| - 1];
    assert AncestorsExpanded(parent, q, expanded) by {
      forall j | 1 <= j < |q| ensures PathOf(parent, q[..j]) in expanded {
        if j > 1 {
          assert q[..j][1..] == q'[..j - 1];
        }
      }
    }
  }

  lemma {:induction false} ShownIsRendered(n: Node, parent: string, q: seq<string>, expanded: set<string>, selected: Option<string>, row: Row)
    requires n.Directory? && ShowsNode(n.children, parent, q, expanded, selected, row)
    ensures row in RenderTree(n.children, parent, expanded, selected)
    decreases n
  {
    var d := n.children;
    var k := q[0];
    var full := parent + "/" + k;
    if |q| == 1 {
      assert row in RenderNode(k, d[k], parent, expanded, selected);
    } else {
      var c := d[k];
      assert c.Directory?;
      assert q[..1] == [k];
      assert PathOf(parent, q[..1]) == full;
      assert full in expanded;
      var q' := q[1..];
      assert q[..|q| - 1][1..] == q'[..|q'| - 1];
      assert AncestorsExpanded(full, q', expanded) by {
        forall j | 1 <= j < |q'| ensures PathOf(full, q'[..j]) in expanded {
          assert q[..j + 1][1..] == q'[..j];
        }
      }
      assert ShowsNode(c.children, full, q', expanded, selected, row);
      ShownIsRendered(c, full, q', expanded, selected, row);
      RenderNodeUnfold(k, c, parent, expanded, selected);
      assert row in RenderNode(k, c, parent, expanded, selected);
    }
  }

  /** The component's state: the expanded folders and the selected file. */
  class Explorer {
    var expanded: set<string>
    var selected: Option<string>

    /** Line 10-11: only `/src` is expanded and nothing is selected. */
    constructor ()
      ensures expanded == InitiallyExpanded && selected == None
    {
      expanded := InitiallyExpanded;
      selected := None;
    }

    /** Lines 13-21. */
    method ToggleFolder(path: string)
      modifies this
      ensures expanded == Toggled(old(expanded), path)
      ensures selected == old(selected)
    {
      var newExpanded := expanded;
      if path in newExpanded {
        newExpanded := newExpanded - {path};
      } else {
        newExpanded := newExpanded + {path};
      }
      expanded := newExpanded;
    }

    /** Lines 23-26: selects the file and returns the code passed to `onFileSelect`. */
    method HandleFileClick(path: string, code: string) returns (shown: string)
      modifies this
      ensures selected == Some(path) && shown == code
      ensures expanded == old(expanded)
    {
      selected := Some(path);
      shown := code;
    }

    /** Lines 41-47: a folder row toggles, a file row selects and passes its code on. */
    method Click(row: Row) returns (shown: Option<string>)
      modifies this
      ensures row.isFolder ==> expanded == Toggled(old(expanded), row.fullPath) && selected == old(selected) && shown == None
      ensures !row.isFolder ==> expanded == old(expanded) && selected == Some(row.fullPath) && shown == Some(row.code)
    {
      if row.isFolder {
        ToggleFolder(row.fullPath);
        shown := None;
      } else {
        var code := HandleFileClick(row.fullPath, row.code);
        shown := Some(code);
      }
    }

    /** Line 74: the rows shown for `fileStructure` in the current state. */
    function Rows(fileStructure: Dir): set<Row>
      reads this
    {
      RenderTree(fileStructure, "", expanded, selected)
    }
  }
}
