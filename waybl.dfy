/**
 * The whole of main in main.go, run to completion in order: read the
 * arguments, make one reconciliation pass over the tree at start-up, then one
 * pass per relevant event until the event stream ends.
 */
module Waybl {
  import opened Util
  import opened SceneTree
  import opened Wallpaper
  import Paths
  import opened Arguments
  import opened Reconciler
  import opened Events

  /** How a run ends. */
  datatype Exit =
    | BadArguments(error: ArgError)              // the argument loop panicked
    | Panicked                                   // a wallpaper apply gave up
    | EventsEnded(blurBools: map<string, bool>)  // the subscription ran out, with the final flags

  /**
   * `tree` is the snapshot read at start-up and `trees[k]` the one read after
   * `events[k]`; `expand` stands for the environment expansion of the
   * per-output wallpaper paths.
   */
  method Run(args: seq<string>, expand: string -> string, homeDir: string, tree: Node,
             events: seq<Event>, trees: seq<Node>, swaymsg: Compositor) returns (exit: Exit)
    requires |trees| == |events|
    ensures exit.BadArguments? <==> Parse(args, expand).Err?
    ensures exit.BadArguments? ==> Parse(args, expand) == Err(exit.error)
    ensures exit.EventsEnded? ==> exit.blurBools == EventFlags(PassFlags(map[], tree.nodes), events, trees)
    ensures exit.Panicked? <==>
      && Parse(args, expand).Ok?
      && var wayblDir, outputWalls := Paths.WayblDir(homeDir), Parse(args, expand).value.outputWalls;
         !AllApplied(PassCommands(map[], tree.nodes, wayblDir, outputWalls)
                     + EventCommands(PassFlags(map[], tree.nodes), events, trees, wayblDir, outputWalls), swaymsg)
  {
    var wayblDir := Paths.WayblDir(homeDir);
    var parsed := ParseArgs(args, expand);
    if parsed.Err? {
      return BadArguments(parsed.error);
    }
    var state := new BlurState(wayblDir, parsed.value.outputWalls);
    var p := state.CheckOutputs(tree.nodes, swaymsg);
    ghost var start := PassCommands(map[], tree.nodes, wayblDir, parsed.value.outputWalls);
    ghost var later := EventCommands(PassFlags(map[], tree.nodes), events, trees, wayblDir, parsed.value.outputWalls);
    AllAppliedParts(start, later, swaymsg);
    if p.Some? {
      return Panicked;
    }
    var panicked := Listen(state, events, trees, swaymsg);
    if panicked {
      return Panicked;
    }
    return EventsEnded(state.blurBools);
  }

  /** An output whose only workspace is empty. */
  function EmptyOutput(name: string): Node
  {
    Node(OutputNode, name, true, [Node(WorkspaceNode, "1", true, [])])
  }

  /** The same output once its workspace shows a window. */
  function OutputWithWindow(name: string): Node
  {
    Node(OutputNode, name, true, [Node(WorkspaceNode, "1", true, [Node(Con, "terminal", true, [])])])
  }

  /**
   * As written, an output with an empty workspace counts as unfocused, so its
   * flag stays false and the start-up pass applies nothing to it.
   */
  lemma EmptyOutputIsLeftAlone(wayblDir: string, outputWalls: map<string, string>)
    ensures !IsDescendantFocused(EmptyOutput("DP-1"))
    ensures PassFlags(map[], [EmptyOutput("DP-1")]) == map[]
    ensures PassCommands(map[], [EmptyOutput("DP-1")], wayblDir, outputWalls) == []
  {
    FocusedIffVisibleContainer(EmptyOutput("DP-1").nodes[0]);
    FocusedIffVisibleContainer(EmptyOutput("DP-1"));
    assert [EmptyOutput("DP-1")][..0] == [];
  }

  /**
   * As written, a visible window on the output turns its blur flag on: the
   * pass applies the blurred image, and a later pass over the empty output
   * restores the configured wallpaper.
   */
  lemma VisibleWindowTurnsBlurOn(wayblDir: string, outputWalls: map<string, string>)
    ensures IsDescendantFocused(OutputWithWindow("DP-1"))
    ensures PassFlags(map[], [OutputWithWindow("DP-1")]) == map["DP-1" := true]
    ensures PassCommands(map[], [OutputWithWindow("DP-1")], wayblDir, outputWalls)
      == [Apply("DP-1", Paths.BlurredWallpaperPath("DP-1", wayblDir))]
    ensures PassCommands(map["DP-1" := true], [EmptyOutput("DP-1")], wayblDir, outputWalls)
      == [Apply("DP-1", ConfiguredWall(outputWalls, "DP-1"))]
  {
    var con := OutputWithWindow("DP-1").nodes[0].nodes[0];
    assert InSubtree(con, OutputWithWindow("DP-1").nodes[0]);
    assert InSubtree(con, OutputWithWindow("DP-1"));
    FocusedIffVisibleContainer(OutputWithWindow("DP-1"));
    EmptyOutputIsLeftAlone(wayblDir, outputWalls);
    assert [OutputWithWindow("DP-1")][..0] == [];
    assert [EmptyOutput("DP-1")][..0] == [];
  }
}
