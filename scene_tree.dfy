/**
 * The window manager's scene tree, as a read-only snapshot, and the focus
 * detector that walks it (isDescendantFocused in main.go).
 */
module SceneTree {

  /** The node types sway reports for a tree node. */
  datatype NodeType = RootNode | OutputNode | WorkspaceNode | Con | FloatingCon | DockArea

  /** One node of a snapshot: its type, name, visibility and ordered children. */
  datatype Node = Node(kind: NodeType, name: string, visible: bool, nodes: seq<Node>)

  /** A tiled or floating container that sway reports as visible. */
  predicate IsVisibleContainer(n: Node)
  {
    (n.kind == Con || n.kind == FloatingCon) && n.visible
  }

  /** Reference definition: `m` is `root` itself or lies somewhere below it. */
  ghost predicate InSubtree(m: Node, root: Node)
    decreases root
  {
    m == root || exists i :: 0 <= i < |root.nodes| && InSubtree(m, root.nodes[i])
  }

  /**
   * Depth-first, pre-order search that stops at the first visible container;
   * the children are tried in their given order.
   */
  function IsDescendantFocused(root: Node): (focused: bool)
    ensures IsVisibleContainer(root) ==> focused
    ensures root.nodes == [] ==> (focused <==> IsVisibleContainer(root))
    decreases root, 1
  {
    if IsVisibleContainer(root) then true
    else AnyChildFocused(root, 0)
  }

  /** The loop over `root.nodes` from index `i` on, with its early return. */
  function AnyChildFocused(root: Node, i: nat): bool
    requires i <= |root.nodes|
    decreases root, 0, |root.nodes| - i
  {
    if i == |root.nodes| then false
    else if IsDescendantFocused(root.nodes[i]) then true
    else AnyChildFocused(root, i + 1)
  }

  /**
   * The detector answers true exactly when some node of the subtree, the root
   * included, is a visible container; in particular a node that is not one
   * and has no children is reported unfocused.
   */
  lemma {:induction false} FocusedIffVisibleContainer(root: Node)
    ensures IsDescendantFocused(root) <==> exists m :: InSubtree(m, root) && IsVisibleContainer(m)
    ensures root.nodes == [] && !IsVisibleContainer(root) ==> !IsDescendantFocused(root)
    decreases root, 1
  {
    AnyChildFocusedIff(root, 0);
    if IsVisibleContainer(root) {
      assert InSubtree(root, root);
    } else if IsDescendantFocused(root) {
      var j, m :| 0 <= j < |root.nodes| && InSubtree(m, root.nodes[j]) && IsVisibleContainer(m);
      assert InSubtree(m, root);
    } else {
      forall m | InSubtree(m, root) ensures !IsVisibleContainer(m) {
        if m != root {
          var j :| 0 <= j < |root.nodes| && InSubtree(m, root.nodes[j]);
        }
      }
    }
  }

  /** The children loop from `i` finds a visible container below some child `j >= i` and only then. */
  lemma {:induction false} AnyChildFocusedIff(root: Node, i: nat)
    requires i <= |root.nodes|
    ensures AnyChildFocused(root, i) <==>
      exists j, m :: i <= j < |root.nodes| && InSubtree(m, root.nodes[j]) && IsVisibleContainer(m)
    decreases root, 0, |root.nodes| - i
  {
    if i < |root.nodes| {
      FocusedIffVisibleContainer(root.nodes[i]);
      AnyChildFocusedIff(root, i + 1);
      if AnyChildFocused(root, i) {
        if IsDescendantFocused(root.nodes[i]) {
          var m :| InSubtree(m, root.nodes[i]) && IsVisibleContainer(m);
        }
      } else {
        forall j, m | i <= j < |root.nodes| && InSubtree(m, root.nodes[j])
          ensures !IsVisibleContainer(m)
        {
          if j == i {
            assert !IsDescendantFocused(root.nodes[i]);
          }
        }
      }
    }
  }
}
