/**
 * The event loop at the end of main in main.go: every window or workspace
 * event from the subscription starts a reconciliation pass over the current
 * tree, except a window event whose change is only its title.
 */
module Events {
  import opened Util
  import opened SceneTree
  import opened Wallpaper
  import opened Reconciler

  /** The two subscribed event kinds, with the change they report. */
  datatype Event = WindowEvent(change: string) | WorkspaceEvent(change: string)

  /** Whether an event starts a pass: every workspace event and every window event but a title change. */
  predicate TriggersPass(ev: Event): (triggers: bool)
    ensures ev.WorkspaceEvent? ==> triggers
    ensures ev.WindowEvent? ==> (triggers <==> ev.change != "title")
  {
    match ev
    case WindowEvent(change) => change != "title"
    case WorkspaceEvent(_) => true
  }

  /** The flags after handling `events`, `trees[k]` being the tree read for `events[k]`. */
  function EventFlags(blurBools: map<string, bool>, events: seq<Event>, trees: seq<Node>): map<string, bool>
    requires |trees| == |events|
    decreases |events|
  {
    if events == [] then blurBools
    else
      var n := |events| - 1;
      var prev := EventFlags(blurBools, events[..n], trees[..n]);
      if TriggersPass(events[n]) then PassFlags(prev, trees[n].nodes) else prev
  }

  /** The applies issued while handling `events`, in order. */
  function EventCommands(blurBools: map<string, bool>, events: seq<Event>, trees: seq<Node>,
                         wayblDir: string, outputWalls: map<string, string>): seq<Apply>
    requires |trees| == |events|
    decreases |events|
  {
    if events == [] then []
    else
      var n := |events| - 1;
      var prev := EventCommands(blurBools, events[..n], trees[..n], wayblDir, outputWalls);
      if TriggersPass(events[n])
      then prev + PassCommands(EventFlags(blurBools, events[..n], trees[..n]), trees[n].nodes, wayblDir, outputWalls)
      else prev
  }

  /** Dropping element `k` and then the last element is dropping the last element and then element `k`. */
  lemma DropCommutes<T>(s: seq<T>, k: nat)
    requires k < |s| - 1
    ensures var d := s[..k] + s[k + 1..];
      |d| == |s| - 1 && d[..|d| - 1] == s[..|s| - 1][..k] + s[..|s| - 1][k + 1..] && d[|d| - 1] == s[|s| - 1]
  {
    var d := s[..k] + s[k + 1..];
    assert d[..|d| - 1] == s[..|s| - 1][..k] + s[..|s| - 1][k + 1..];
  }

  /** Removing a title-only window event, together with its tree, leaves the flags as they were. */
  lemma {:induction false} TitleEventIgnoredFlags(blurBools: map<string, bool>, events: seq<Event>, trees: seq<Node>, k: nat)
    requires |trees| == |events| && k < |events| && events[k] == WindowEvent("title")
    ensures EventFlags(blurBools, events, trees)
      == EventFlags(blurBools, events[..k] + events[k + 1..], trees[..k] + trees[k + 1..])
    decreases |events|
  {
    var n := |events| - 1;
    var es, ts := events[..k] + events[k + 1..], trees[..k] + trees[k + 1..];
    if k == n {
      assert es == events[..n] && ts == trees[..n];
    } else {
      var es', ts' := events[..n], trees[..n];
      TitleEventIgnoredFlags(blurBools, es', ts', k);
      DropCommutes(events, k);
      DropCommutes(trees, k);
      var prev := EventFlags(blurBools, es[..n - 1], ts[..n - 1]);
      assert EventFlags(blurBools, es, ts)
        == if TriggersPass(events[n]) then PassFlags(prev, trees[n].nodes) else prev;
    }
  }

  /**
   * Removing a title-only window event, together with its tree, leaves the
   * applies as they were: such events never reach the reconciler.
   */
  lemma {:induction false} TitleEventIgnoredCommands(blurBools: map<string, bool>, events: seq<Event>, trees: seq<Node>,
                                                     k: nat, wayblDir: string, outputWalls: map<string, string>)
    requires |trees| == |events| && k < |events| && events[k] == WindowEvent("title")
    ensures EventCommands(blurBools, events, trees, wayblDir, outputWalls)
      == EventCommands(blurBools, events[..k] + events[k + 1..], trees[..k] + trees[k + 1..], wayblDir, outputWalls)
    decreases |events|
  {
    var n := |events| - 1;
    var es, ts := events[..k] + events[k + 1..], trees[..k] + trees[k + 1..];
    if k == n {
      assert es == events[..n] && ts == trees[..n];
    } else {
      var es', ts' := events[..n], trees[..n];
      TitleEventIgnoredCommands(blurBools, es', ts', k, wayblDir, outputWalls);
      TitleEventIgnoredFlags(blurBools, es', ts', k);
      DropCommutes(events, k);
      DropCommutes(trees, k);
      var prev := EventCommands(blurBools, es[..n - 1], ts[..n - 1], wayblDir, outputWalls);
      var flags := EventFlags(blurBools, es[..n - 1], ts[..n - 1]);
      assert EventCommands(blurBools, es, ts, wayblDir, outputWalls)
        == if TriggersPass(events[n]) then prev + PassCommands(flags, trees[n].nodes, wayblDir, outputWalls) else prev;
    }
  }

  /** Unfolds the handling of the first `k + 1` events into that of the first `k` and one more. */
  lemma EventStep(blurBools: map<string, bool>, events: seq<Event>, trees: seq<Node>, k: nat,
                  wayblDir: string, outputWalls: map<string, string>)
    requires |trees| == |events| && k < |events|
    ensures var prev := EventFlags(blurBools, events[..k], trees[..k]);
      EventFlags(blurBools, events[..k + 1], trees[..k + 1])
        == if TriggersPass(events[k]) then PassFlags(prev, trees[k].nodes) else prev
    ensures var prev := EventCommands(blurBools, events[..k], trees[..k], wayblDir, outputWalls);
      EventCommands(blurBools, events[..k + 1], trees[..k + 1], wayblDir, outputWalls)
        == if TriggersPass(events[k])
           then prev + PassCommands(EventFlags(blurBools, events[..k], trees[..k]), trees[k].nodes, wayblDir, outputWalls)
           else prev
  {
    assert events[..k + 1][..k] == events[..k] && trees[..k + 1][..k] == trees[..k];
  }

  /** One more handled event keeps the loop's account of the flags and the applies. */
  lemma ListenStep(flags0: map<string, bool>, log0: seq<Apply>, events: seq<Event>, trees: seq<Node>, k: nat,
                   flags: map<string, bool>, log: seq<Apply>, flags': map<string, bool>, log': seq<Apply>,
                   wayblDir: string, outputWalls: map<string, string>)
    requires |trees| == |events| && k < |events|
    requires flags == EventFlags(flags0, events[..k], trees[..k])
    requires log == log0 + EventCommands(flags0, events[..k], trees[..k], wayblDir, outputWalls)
    requires flags' == if TriggersPass(events[k]) then PassFlags(flags, trees[k].nodes) else flags
    requires log' == log + if TriggersPass(events[k]) then PassCommands(flags, trees[k].nodes, wayblDir, outputWalls) else []
    ensures flags' == EventFlags(flags0, events[..k + 1], trees[..k + 1])
    ensures log' == log0 + EventCommands(flags0, events[..k + 1], trees[..k + 1], wayblDir, outputWalls)
  {
    EventStep(flags0, events, trees, k, wayblDir, outputWalls);
  }

  /** One more event handled without a panic keeps every apply so far successful. */
  lemma ListenStepApplied(flags0: map<string, bool>, events: seq<Event>, trees: seq<Node>, k: nat,
                          wayblDir: string, outputWalls: map<string, string>, swaymsg: Compositor)
    requires |trees| == |events| && k < |events|
    requires AllApplied(EventCommands(flags0, events[..k], trees[..k], wayblDir, outputWalls), swaymsg)
    requires TriggersPass(events[k]) ==>
      AllApplied(PassCommands(EventFlags(flags0, events[..k], trees[..k]), trees[k].nodes, wayblDir, outputWalls), swaymsg)
    ensures AllApplied(EventCommands(flags0, events[..k + 1], trees[..k + 1], wayblDir, outputWalls), swaymsg)
  {
    EventStep(flags0, events, trees, k, wayblDir, outputWalls);
    if TriggersPass(events[k]) {
      AllAppliedParts(EventCommands(flags0, events[..k], trees[..k], wayblDir, outputWalls),
                      PassCommands(EventFlags(flags0, events[..k], trees[..k]), trees[k].nodes, wayblDir, outputWalls),
                      swaymsg);
    }
  }

  /** The applies for the first `n` events begin the applies for all of them. */
  lemma {:induction false} EventCommandsPrefix(blurBools: map<string, bool>, events: seq<Event>, trees: seq<Node>, n: nat,
                                               wayblDir: string, outputWalls: map<string, string>)
    requires |trees| == |events| && n <= |events|
    ensures var part := EventCommands(blurBools, events[..n], trees[..n], wayblDir, outputWalls);
      var whole := EventCommands(blurBools, events, trees, wayblDir, outputWalls);
      |part| <= |whole| && whole[..|part|] == part
    decreases |events| - n
  {
    if n == |events| {
      assert events[..n] == events && trees[..n] == trees;
    } else {
      EventCommandsPrefix(blurBools, events, trees, n + 1, wayblDir, outputWalls);
      EventStep(blurBools, events, trees, n, wayblDir, outputWalls);
      var part := EventCommands(blurBools, events[..n], trees[..n], wayblDir, outputWalls);
      var flags := EventFlags(blurBools, events[..n], trees[..n]);
      PrefixOfPrefix(part, if TriggersPass(events[n]) then PassCommands(flags, trees[n].nodes, wayblDir, outputWalls) else [],
                     EventCommands(blurBools, events, trees, wayblDir, outputWalls));
    }
  }

  /** A pass for `events[k]` that is not fully applied leaves the applies for all the events not fully applied. */
  lemma PanicSpoilsEvents(flags0: map<string, bool>, events: seq<Event>, trees: seq<Node>, k: nat,
                          wayblDir: string, outputWalls: map<string, string>, swaymsg: Compositor)
    requires |trees| == |events| && k < |events| && TriggersPass(events[k])
    requires !AllApplied(PassCommands(EventFlags(flags0, events[..k], trees[..k]), trees[k].nodes, wayblDir, outputWalls), swaymsg)
    ensures !AllApplied(EventCommands(flags0, events, trees, wayblDir, outputWalls), swaymsg)
  {
    EventStep(flags0, events, trees, k, wayblDir, outputWalls);
    EventCommandsPrefix(flags0, events, trees, k + 1, wayblDir, outputWalls);
    var part := EventCommands(flags0, events[..k + 1], trees[..k + 1], wayblDir, outputWalls);
    var whole := EventCommands(flags0, events, trees, wayblDir, outputWalls);
    AllAppliedParts(EventCommands(flags0, events[..k], trees[..k], wayblDir, outputWalls),
                    PassCommands(EventFlags(flags0, events[..k], trees[..k]), trees[k].nodes, wayblDir, outputWalls), swaymsg);
    assert whole == part + whole[|part|..];
    AllAppliedParts(part, whole[|part|..], swaymsg);
  }

  /** Handles one event: a pass over `tree` unless the event is a title-only window change. */
  method HandleEvent(state: BlurState, ev: Event, tree: Node, swaymsg: Compositor) returns (panicked: bool)
    requires state.Valid()
    modifies state
    ensures state.Valid()
    ensures !panicked ==>
      state.blurBools == (if TriggersPass(ev) then PassFlags(old(state.blurBools), tree.nodes) else old(state.blurBools))
    ensures !panicked ==>
      state.applied == old(state.applied)
        + (if TriggersPass(ev) then PassCommands(old(state.blurBools), tree.nodes, state.wayblDir, state.outputWalls) else [])
    ensures panicked <==>
      TriggersPass(ev) && !AllApplied(PassCommands(old(state.blurBools), tree.nodes, state.wayblDir, state.outputWalls), swaymsg)
  {
    panicked := false;
    match ev {
      case WindowEvent(change) =>
        if change != "title" {
          var p := state.CheckOutputs(tree.nodes, swaymsg);
          panicked := p.Some?;
        }
      case WorkspaceEvent(_) =>
        var p := state.CheckOutputs(tree.nodes, swaymsg);
        panicked := p.Some?;
    }
  }

  /**
   * Handles the events in order, reading `trees[k]` as the tree for
   * `events[k]`. Returns true when an apply gave up, which ends the process.
   */
  method Listen(state: BlurState, events: seq<Event>, trees: seq<Node>, swaymsg: Compositor) returns (panicked: bool)
    requires state.Valid() && |trees| == |events|
    modifies state
    ensures state.Valid()
    ensures !panicked ==> state.blurBools == EventFlags(old(state.blurBools), events, trees)
    ensures !panicked ==>
      state.applied == old(state.applied) + EventCommands(old(state.blurBools), events, trees, state.wayblDir, state.outputWalls)
    ensures !panicked <==> AllApplied(EventCommands(old(state.blurBools), events, trees, state.wayblDir, state.outputWalls), swaymsg)
  {
    ghost var flags0, log0 := state.blurBools, state.applied;
    var k := 0;
    while k < |events|
      invariant 0 <= k <= |events|
      invariant state.Valid()
      invariant state.blurBools == EventFlags(flags0, events[..k], trees[..k])
      invariant state.applied == log0 + EventCommands(flags0, events[..k], trees[..k], state.wayblDir, state.outputWalls)
      invariant AllApplied(EventCommands(flags0, events[..k], trees[..k], state.wayblDir, state.outputWalls), swaymsg)
    {
      ghost var flags, log := state.blurBools, state.applied;
      var p := HandleEvent(state, events[k], trees[k], swaymsg);
      if p {
        PanicSpoilsEvents(flags0, events, trees, k, state.wayblDir, state.outputWalls, swaymsg);
        return true;
      }
      ListenStepApplied(flags0, events, trees, k, state.wayblDir, state.outputWalls, swaymsg);
      ListenStep(flags0, log0, events, trees, k, flags, log, state.blurBools, state.applied,
                 state.wayblDir, state.outputWalls);
      k := k + 1;
    }
    assert events[..k] == events && trees[..k] == trees;
    return false;
  }
}
