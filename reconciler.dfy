/**
 * The per-output blur flags and the reconciliation pass over a tree snapshot
 * (setBlur and checkOutputs in main.go).
 */
module Reconciler {
  import opened Util
  import opened SceneTree
  import Paths
  import opened Wallpaper

  /** One wallpaper apply issued for an output. */
  datatype Apply = Apply(output: string, path: string)

  /** The stored flag of an output; a missing entry reads as false. */
  function Flag(blurBools: map<string, bool>, output: string): bool
  {
    if output in blurBools then blurBools[output] else false
  }

  /** The configured wallpaper of an output; a missing entry reads as the empty string. */
  function ConfiguredWall(outputWalls: map<string, string>, output: string): string
  {
    if output in outputWalls then outputWalls[output] else ""
  }

  /** The image an output shows for a given blur flag. */
  function TargetPath(output: string, blur: bool, wayblDir: string, outputWalls: map<string, string>): string
  {
    if blur then Paths.BlurredWallpaperPath(output, wayblDir) else ConfiguredWall(outputWalls, output)
  }

  /** The flags after setBlur(output, newBlur). */
  function BlurStep(blurBools: map<string, bool>, output: string, newBlur: bool): (r: map<string, bool>)
    ensures Flag(r, output) == newBlur
    ensures forall o :: o != output ==> (o in r <==> o in blurBools) && Flag(r, o) == Flag(blurBools, o)
    ensures Flag(blurBools, output) == newBlur ==> r == blurBools
  {
    if Flag(blurBools, output) == newBlur then blurBools else blurBools[output := newBlur]
  }

  /** The applies setBlur(output, newBlur) issues. */
  function BlurCommands(blurBools: map<string, bool>, output: string, newBlur: bool,
                        wayblDir: string, outputWalls: map<string, string>): (cmds: seq<Apply>)
    ensures |cmds| == if Flag(blurBools, output) == newBlur then 0 else 1
    ensures forall c :: c in cmds ==> c == Apply(output, TargetPath(output, newBlur, wayblDir, outputWalls))
  {
    if Flag(blurBools, output) == newBlur then []
    else [Apply(output, TargetPath(output, newBlur, wayblDir, outputWalls))]
  }

  /** The path last applied to `output` in `log`, if any. */
  function LastApplied(log: seq<Apply>, output: string): Option<string>
  {
    if log == [] then None
    else if log[|log| - 1].output == output then Some(log[|log| - 1].path)
    else LastApplied(log[..|log| - 1], output)
  }

  /**
   * The invariant the flags keep with the applies issued so far: an output with
   * a stored flag was last given the image for that flag, and an output without
   * one was never given any.
   */
  ghost predicate Consistent(blurBools: map<string, bool>, log: seq<Apply>,
                             wayblDir: string, outputWalls: map<string, string>)
  {
    forall o {:trigger LastApplied(log, o)} :: LastApplied(log, o) ==
      if o in blurBools then Some(TargetPath(o, blurBools[o], wayblDir, outputWalls)) else None
  }

  /** setBlur keeps the flags consistent with the applies. */
  lemma BlurStepKeepsConsistent(blurBools: map<string, bool>, log: seq<Apply>, output: string, newBlur: bool,
                                wayblDir: string, outputWalls: map<string, string>)
    requires Consistent(blurBools, log, wayblDir, outputWalls)
    ensures Consistent(BlurStep(blurBools, output, newBlur),
                       log + BlurCommands(blurBools, output, newBlur, wayblDir, outputWalls), wayblDir, outputWalls)
  {
    var log' := log + BlurCommands(blurBools, output, newBlur, wayblDir, outputWalls);
    if log' != log {
      assert log'[..|log'| - 1] == log;
    }
  }

  /** Repeating setBlur with the same flag is a no-op: the flags stay and nothing more is applied. */
  lemma BlurStepIdempotent(blurBools: map<string, bool>, output: string, newBlur: bool,
                           wayblDir: string, outputWalls: map<string, string>)
    ensures BlurStep(BlurStep(blurBools, output, newBlur), output, newBlur) == BlurStep(blurBools, output, newBlur)
    ensures BlurCommands(BlurStep(blurBools, output, newBlur), output, newBlur, wayblDir, outputWalls) == []
  {
  }

  /** Some top-level node of the snapshot is an output called `name`. */
  ghost predicate NamesOutput(outputs: seq<Node>, name: string)
  {
    exists i :: 0 <= i < |outputs| && outputs[i].kind == OutputNode && outputs[i].name == name
  }

  /** No two top-level output nodes share a name. */
  ghost predicate UniqueOutputNames(outputs: seq<Node>)
  {
    forall i, j :: 0 <= i < j < |outputs| && outputs[i].kind == OutputNode && outputs[j].kind == OutputNode
      ==> outputs[i].name != outputs[j].name
  }

  /** One pass of checkOutputs over `outputs`, element by element, taking the new flag from the focus detector. */
  function PassFlags(blurBools: map<string, bool>, outputs: seq<Node>): map<string, bool>
    decreases |outputs|
  {
    if outputs == [] then blurBools
    else StepFlags(PassFlags(blurBools, outputs[..|outputs| - 1]), outputs[|outputs| - 1])
  }

  /** A pass leaves alone every output that no top-level output node names: other node types change nothing. */
  lemma {:induction false} PassFlagsFrame(blurBools: map<string, bool>, outputs: seq<Node>, o: string)
    requires !NamesOutput(outputs, o)
    ensures o in PassFlags(blurBools, outputs) <==> o in blurBools
    ensures Flag(PassFlags(blurBools, outputs), o) == Flag(blurBools, o)
    decreases |outputs|
  {
    if outputs != [] {
      PassFlagsFrame(blurBools, outputs[..|outputs| - 1], o);
    }
  }

  /** The applies that one pass of checkOutputs issues, in order. */
  function PassCommands(blurBools: map<string, bool>, outputs: seq<Node>,
                        wayblDir: string, outputWalls: map<string, string>): seq<Apply>
    decreases |outputs|
  {
    if outputs == [] then []
    else
      var prefix := outputs[..|outputs| - 1];
      PassCommands(blurBools, prefix, wayblDir, outputWalls)
        + StepCommands(PassFlags(blurBools, prefix), outputs[|outputs| - 1], wayblDir, outputWalls)
  }

  /** The apply gives its output either the blurred image or the configured wallpaper. */
  predicate IsOutputImage(c: Apply, wayblDir: string, outputWalls: map<string, string>)
  {
    c.path == Paths.BlurredWallpaperPath(c.output, wayblDir) || c.path == ConfiguredWall(outputWalls, c.output)
  }

  /**
   * A pass issues at most one apply per top-level node, each for an output
   * node's name and with either the blurred image or the configured wallpaper
   * of that output.
   */
  lemma {:induction false} PassCommandsFromOutputs(blurBools: map<string, bool>, outputs: seq<Node>,
                                                   wayblDir: string, outputWalls: map<string, string>)
    ensures var cmds := PassCommands(blurBools, outputs, wayblDir, outputWalls);
      && |cmds| <= |outputs|
      && (forall k :: 0 <= k < |cmds| ==> NamesOutput(outputs, cmds[k].output))
      && (forall k :: 0 <= k < |cmds| ==> IsOutputImage(cmds[k], wayblDir, outputWalls))
    decreases |outputs|
  {
    if outputs != [] {
      var prefix := outputs[..|outputs| - 1];
      var node := outputs[|outputs| - 1];
      PassCommandsFromOutputs(blurBools, prefix, wayblDir, outputWalls);
      var before := PassCommands(blurBools, prefix, wayblDir, outputWalls);
      var step := StepCommands(PassFlags(blurBools, prefix), node, wayblDir, outputWalls);
      var cmds := before + step;
      forall k | 0 <= k < |cmds|
        ensures NamesOutput(outputs, cmds[k].output) && IsOutputImage(cmds[k], wayblDir, outputWalls)
      {
        if k < |before| {
          assert cmds[k] == before[k] && NamesOutput(prefix, before[k].output);
          assert IsOutputImage(before[k], wayblDir, outputWalls);
          var i :| 0 <= i < |prefix| && prefix[i].kind == OutputNode && prefix[i].name == before[k].output;
          assert outputs[i] == prefix[i];
        } else {
          assert cmds[k] == step[k - |before|];
          assert outputs[|outputs| - 1] == node;
        }
      }
    }
  }

  /** The applies the pass issues for one top-level node: none unless it is an output. */
  function StepCommands(blurBools: map<string, bool>, node: Node,
                        wayblDir: string, outputWalls: map<string, string>): seq<Apply>
  {
    if node.kind == OutputNode
    then BlurCommands(blurBools, node.name, IsDescendantFocused(node), wayblDir, outputWalls)
    else []
  }

  /** The flags after the pass reaches one more top-level node. */
  function StepFlags(blurBools: map<string, bool>, node: Node): map<string, bool>
  {
    if node.kind == OutputNode then BlurStep(blurBools, node.name, IsDescendantFocused(node)) else blurBools
  }

  /** Unfolds the pass over the first `i + 1` nodes into the pass over the first `i` and one step. */
  lemma PassStep(blurBools: map<string, bool>, outputs: seq<Node>, i: nat,
                 wayblDir: string, outputWalls: map<string, string>)
    requires i < |outputs|
    ensures PassFlags(blurBools, outputs[..i + 1]) == StepFlags(PassFlags(blurBools, outputs[..i]), outputs[i])
    ensures PassCommands(blurBools, outputs[..i + 1], wayblDir, outputWalls)
      == PassCommands(blurBools, outputs[..i], wayblDir, outputWalls)
         + StepCommands(PassFlags(blurBools, outputs[..i]), outputs[i], wayblDir, outputWalls)
  {
    assert outputs[..i + 1][..i] == outputs[..i];
  }

  /** One step of the pass keeps the flags consistent with the applies. */
  lemma StepKeepsConsistent(blurBools: map<string, bool>, log: seq<Apply>, node: Node,
                            wayblDir: string, outputWalls: map<string, string>)
    requires Consistent(blurBools, log, wayblDir, outputWalls)
    ensures Consistent(StepFlags(blurBools, node), log + StepCommands(blurBools, node, wayblDir, outputWalls),
                       wayblDir, outputWalls)
  {
    if node.kind == OutputNode {
      BlurStepKeepsConsistent(blurBools, log, node.name, IsDescendantFocused(node), wayblDir, outputWalls);
    } else {
      assert log + [] == log;
    }
  }

  /** A whole pass keeps the flags consistent with the applies. */
  lemma {:induction false} PassKeepsConsistent(blurBools: map<string, bool>, log: seq<Apply>, outputs: seq<Node>,
                                               wayblDir: string, outputWalls: map<string, string>)
    requires Consistent(blurBools, log, wayblDir, outputWalls)
    ensures Consistent(PassFlags(blurBools, outputs),
                       log + PassCommands(blurBools, outputs, wayblDir, outputWalls), wayblDir, outputWalls)
    decreases |outputs|
  {
    if outputs == [] {
      assert log + PassCommands(blurBools, outputs, wayblDir, outputWalls) == log;
    } else {
      var prefix := outputs[..|outputs| - 1];
      var node := outputs[|outputs| - 1];
      PassKeepsConsistent(blurBools, log, prefix, wayblDir, outputWalls);
      var flags := PassFlags(blurBools, prefix);
      var mid := log + PassCommands(blurBools, prefix, wayblDir, outputWalls);
      StepKeepsConsistent(flags, mid, node, wayblDir, outputWalls);
      assert log + PassCommands(blurBools, outputs, wayblDir, outputWalls)
        == mid + StepCommands(flags, node, wayblDir, outputWalls);
    }
  }

  /**
   * After a pass, an output node that no later output node shares a name with
   * has the flag the focus detector gives for it.
   */
  lemma {:induction false} PassSetsEachOutput(blurBools: map<string, bool>, outputs: seq<Node>, i: nat)
    requires i < |outputs| && outputs[i].kind == OutputNode
    requires forall j :: i < j < |outputs| && outputs[j].kind == OutputNode ==> outputs[j].name != outputs[i].name
    ensures Flag(PassFlags(blurBools, outputs), outputs[i].name) == IsDescendantFocused(outputs[i])
    decreases |outputs|
  {
    var prefix := outputs[..|outputs| - 1];
    if i < |outputs| - 1 {
      PassSetsEachOutput(blurBools, prefix, i);
    }
  }

  /**
   * With distinct output names, a second pass over the same snapshot changes no
   * flag and issues no apply.
   */
  lemma PassIdempotent(blurBools: map<string, bool>, outputs: seq<Node>,
                       wayblDir: string, outputWalls: map<string, string>)
    requires UniqueOutputNames(outputs)
    ensures PassFlags(PassFlags(blurBools, outputs), outputs) == PassFlags(blurBools, outputs)
    ensures PassCommands(PassFlags(blurBools, outputs), outputs, wayblDir, outputWalls) == []
  {
    SecondPassPrefix(blurBools, outputs, |outputs|, wayblDir, outputWalls);
    assert outputs[..|outputs|] == outputs;
  }

  lemma {:induction false} SecondPassPrefix(blurBools: map<string, bool>, outputs: seq<Node>, n: nat,
                                            wayblDir: string, outputWalls: map<string, string>)
    requires UniqueOutputNames(outputs) && n <= |outputs|
    ensures PassFlags(PassFlags(blurBools, outputs), outputs[..n]) == PassFlags(blurBools, outputs)
    ensures PassCommands(PassFlags(blurBools, outputs), outputs[..n], wayblDir, outputWalls) == []
  {
    if n > 0 {
      SecondPassPrefix(blurBools, outputs, n - 1, wayblDir, outputWalls);
      assert outputs[..n][..n - 1] == outputs[..n - 1];
      var node := outputs[n - 1];
      if node.kind == OutputNode {
        PassSetsEachOutput(blurBools, outputs, n - 1);
      }
    }
  }

  /** Every apply in `cmds` succeeds within the retry bound. */
  ghost predicate AllApplied(cmds: seq<Apply>, swaymsg: Compositor)
  {
    forall k :: 0 <= k < |cmds| ==> Retry(swaymsg, cmds[k].output, cmds[k].path).applied
  }

  lemma AllAppliedAppend(a: seq<Apply>, b: seq<Apply>, swaymsg: Compositor)
    requires AllApplied(a, swaymsg) && AllApplied(b, swaymsg)
    ensures AllApplied(a + b, swaymsg)
  {
    forall k | 0 <= k < |a + b| ensures Retry(swaymsg, (a + b)[k].output, (a + b)[k].path).applied {
      if k >= |a| {
        assert (a + b)[k] == b[k - |a|];
      }
    }
  }

  /** The last apply of `step` gives up; false when `step` is empty. */
  predicate GivesUp(step: seq<Apply>, swaymsg: Compositor)
  {
    step != [] && !Retry(swaymsg, step[|step| - 1].output, step[|step| - 1].path).applied
  }

  /** One more node handled by checkOutputs keeps the loop's account of the flags and the applies. */
  lemma PassStepState(flags0: map<string, bool>, log0: seq<Apply>, outputs: seq<Node>, i: nat,
                      flags: map<string, bool>, log: seq<Apply>, flags': map<string, bool>, log': seq<Apply>,
                      wayblDir: string, outputWalls: map<string, string>)
    requires i < |outputs|
    requires flags == PassFlags(flags0, outputs[..i])
    requires log == log0 + PassCommands(flags0, outputs[..i], wayblDir, outputWalls)
    requires flags' == StepFlags(flags, outputs[i])
    requires log' == log + StepCommands(flags, outputs[i], wayblDir, outputWalls)
    ensures flags' == PassFlags(flags0, outputs[..i + 1])
    ensures log' == log0 + PassCommands(flags0, outputs[..i + 1], wayblDir, outputWalls)
  {
    PassStep(flags0, outputs, i, wayblDir, outputWalls);
  }

  /** A node whose apply succeeds, or that applies nothing, keeps every apply of the pass so far successful. */
  lemma PassStepApplied(flags0: map<string, bool>, outputs: seq<Node>, i: nat,
                        wayblDir: string, outputWalls: map<string, string>, swaymsg: Compositor)
    requires i < |outputs|
    requires AllApplied(PassCommands(flags0, outputs[..i], wayblDir, outputWalls), swaymsg)
    requires !GivesUp(StepCommands(PassFlags(flags0, outputs[..i]), outputs[i], wayblDir, outputWalls), swaymsg)
    ensures AllApplied(PassCommands(flags0, outputs[..i + 1], wayblDir, outputWalls), swaymsg)
  {
    PassStep(flags0, outputs, i, wayblDir, outputWalls);
    var step := StepCommands(PassFlags(flags0, outputs[..i]), outputs[i], wayblDir, outputWalls);
    assert AllApplied(step, swaymsg);
    AllAppliedAppend(PassCommands(flags0, outputs[..i], wayblDir, outputWalls), step, swaymsg);
  }

  /** A node whose apply gives up ends the applies of the pass so far, all the earlier ones having succeeded. */
  lemma PassStepGivesUp(flags0: map<string, bool>, outputs: seq<Node>, i: nat,
                        wayblDir: string, outputWalls: map<string, string>, swaymsg: Compositor)
    requires i < |outputs|
    requires AllApplied(PassCommands(flags0, outputs[..i], wayblDir, outputWalls), swaymsg)
    requires GivesUp(StepCommands(PassFlags(flags0, outputs[..i]), outputs[i], wayblDir, outputWalls), swaymsg)
    ensures var cmds := PassCommands(flags0, outputs[..i + 1], wayblDir, outputWalls);
      && cmds != []
      && AllApplied(cmds[..|cmds| - 1], swaymsg)
      && !Retry(swaymsg, cmds[|cmds| - 1].output, cmds[|cmds| - 1].path).applied
  {
    PassStep(flags0, outputs, i, wayblDir, outputWalls);
    var before := PassCommands(flags0, outputs[..i], wayblDir, outputWalls);
    var step := StepCommands(PassFlags(flags0, outputs[..i]), outputs[i], wayblDir, outputWalls);
    assert |step| == 1;
    assert (before + step)[..|before + step| - 1] == before;
  }

  /** An apply that gives up anywhere in `a` still gives up in `a + b`, and the other way round for `b`. */
  lemma AllAppliedParts(a: seq<Apply>, b: seq<Apply>, swaymsg: Compositor)
    ensures AllApplied(a + b, swaymsg) <==> AllApplied(a, swaymsg) && AllApplied(b, swaymsg)
  {
    if AllApplied(a + b, swaymsg) {
      forall k | 0 <= k < |a| ensures Retry(swaymsg, a[k].output, a[k].path).applied {
        assert (a + b)[k] == a[k];
      }
      forall k | 0 <= k < |b| ensures Retry(swaymsg, b[k].output, b[k].path).applied {
        assert (a + b)[|a| + k] == b[k];
      }
    } else if AllApplied(a, swaymsg) && AllApplied(b, swaymsg) {
      AllAppliedAppend(a, b, swaymsg);
    }
  }

  /** When the last apply of `part` gives up, so does some apply of any sequence `part` begins. */
  lemma GiveUpSpoilsWhole(part: seq<Apply>, whole: seq<Apply>, swaymsg: Compositor)
    requires part != [] && !Retry(swaymsg, part[|part| - 1].output, part[|part| - 1].path).applied
    requires |part| <= |whole| && whole[..|part|] == part
    ensures !AllApplied(whole, swaymsg)
  {
    assert whole[|part| - 1] == part[|part| - 1];
  }

  /** When `a + x` begins `c`, so does `a`. */
  lemma PrefixOfPrefix<T>(a: seq<T>, x: seq<T>, c: seq<T>)
    requires |a + x| <= |c| && c[..|a + x|] == a + x
    ensures |a| <= |c| && c[..|a|] == a
  {
    assert c[..|a|] == (a + x)[..|a|];
  }

  /** The applies of a pass over a prefix of the nodes begin the applies of the whole pass. */
  lemma {:induction false} PassCommandsPrefix(blurBools: map<string, bool>, outputs: seq<Node>, n: nat,
                                              wayblDir: string, outputWalls: map<string, string>)
    requires n <= |outputs|
    ensures var part := PassCommands(blurBools, outputs[..n], wayblDir, outputWalls);
      var whole := PassCommands(blurBools, outputs, wayblDir, outputWalls);
      |part| <= |whole| && whole[..|part|] == part
    decreases |outputs| - n
  {
    if n == |outputs| {
      assert outputs[..n] == outputs;
    } else {
      PassCommandsPrefix(blurBools, outputs, n + 1, wayblDir, outputWalls);
      PassStep(blurBools, outputs, n, wayblDir, outputWalls);
      PrefixOfPrefix(PassCommands(blurBools, outputs[..n], wayblDir, outputWalls),
                     StepCommands(PassFlags(blurBools, outputs[..n]), outputs[n], wayblDir, outputWalls),
                     PassCommands(blurBools, outputs, wayblDir, outputWalls));
    }
  }

  /** An apply that gives up while handling `outputs[i]` means the whole pass is not applied. */
  lemma GiveUpSpoilsPass(flags0: map<string, bool>, outputs: seq<Node>, i: nat,
                         wayblDir: string, outputWalls: map<string, string>, swaymsg: Compositor)
    requires i < |outputs|
    requires var cmds := PassCommands(flags0, outputs[..i + 1], wayblDir, outputWalls);
      cmds != [] && !Retry(swaymsg, cmds[|cmds| - 1].output, cmds[|cmds| - 1].path).applied
    ensures !AllApplied(PassCommands(flags0, outputs, wayblDir, outputWalls), swaymsg)
  {
    PassCommandsPrefix(flags0, outputs, i + 1, wayblDir, outputWalls);
    GiveUpSpoilsWhole(PassCommands(flags0, outputs[..i + 1], wayblDir, outputWalls),
                      PassCommands(flags0, outputs, wayblDir, outputWalls), swaymsg);
  }

  /** The per-output blur flags together with the applies issued so far. */
  class BlurState {
    /** The last-applied blur flag of each output (blurBools in main.go). */
    var blurBools: map<string, bool>
    /** Every wallpaper apply issued so far, oldest first. */
    ghost var applied: seq<Apply>
    /** The cache directory of the blurred images. */
    const wayblDir: string
    /** The configured wallpaper of each output, fixed once the arguments are read. */
    const outputWalls: map<string, string>

    ghost predicate Valid()
      reads this
    {
      Consistent(blurBools, applied, wayblDir, outputWalls)
    }

    constructor (wayblDir: string, outputWalls: map<string, string>)
      ensures Valid()
      ensures blurBools == map[] && applied == []
      ensures this.wayblDir == wayblDir && this.outputWalls == outputWalls
    {
      this.wayblDir := wayblDir;
      this.outputWalls := outputWalls;
      blurBools := map[];
      applied := [];
    }

    /**
     * Records the new flag of `output` and, when it changed, applies the
     * blurred or the configured image. `status` is None when nothing changed;
     * otherwise it is how the apply ended, and `applied == false` there is
     * the panic of main.go.
     */
    method SetBlur(output: string, newBlur: bool, swaymsg: Compositor) returns (status: Option<Outcome>)
      requires Valid()
      modifies this
      ensures Valid()
      ensures blurBools == BlurStep(old(blurBools), output, newBlur)
      ensures applied == old(applied) + BlurCommands(old(blurBools), output, newBlur, wayblDir, outputWalls)
      ensures status.None? <==> Flag(old(blurBools), output) == newBlur
      ensures status.Some? ==> status.value == Retry(swaymsg, output, TargetPath(output, newBlur, wayblDir, outputWalls))
    {
      BlurStepKeepsConsistent(blurBools, applied, output, newBlur, wayblDir, outputWalls);
      var current := Flag(blurBools, output);
      if (current && newBlur) || (!current && !newBlur) {
        return None;
      }

      blurBools := blurBools[output := newBlur];

      var path;
      if newBlur {
        path := Paths.BlurredWallpaperPath(output, wayblDir);
      } else {
        path := ConfiguredWall(outputWalls, output);
      }
      applied := applied + [Apply(output, path)];
      var attempts, ok := SetWallpaper(output, path, swaymsg);
      status := Some(Outcome(attempts, ok));
    }

    /**
     * The body of the loop of checkOutputs for one top-level node: an output
     * node gets setBlur with the focus detector's answer, any other node is
     * skipped. `gaveUp` is whether the apply it caused gave up.
     */
    method VisitNode(node: Node, swaymsg: Compositor) returns (gaveUp: bool)
      requires Valid()
      modifies this
      ensures Valid()
      ensures blurBools == StepFlags(old(blurBools), node)
      ensures applied == old(applied) + StepCommands(old(blurBools), node, wayblDir, outputWalls)
      ensures gaveUp == GivesUp(StepCommands(old(blurBools), node, wayblDir, outputWalls), swaymsg)
    {
      gaveUp := false;
      if node.kind == OutputNode {
        var status := SetBlur(node.name, IsDescendantFocused(node), swaymsg);
        gaveUp := status.Some? && !status.value.applied;
      }
    }

    /**
     * One reconciliation pass over the top-level nodes of a snapshot. Each
     * output node gets setBlur with the focus detector's answer; other nodes
     * are skipped. `panicked` is the index of the output whose apply gave up,
     * which ends the process and so the pass.
     */
    method CheckOutputs(outputs: seq<Node>, swaymsg: Compositor) returns (panicked: Option<nat>)
      requires Valid()
      modifies this
      ensures Valid()
      ensures panicked.Some? ==> panicked.value < |outputs|
      ensures panicked.None? ==>
        && blurBools == PassFlags(old(blurBools), outputs)
        && applied == old(applied) + PassCommands(old(blurBools), outputs, wayblDir, outputWalls)
        && AllApplied(PassCommands(old(blurBools), outputs, wayblDir, outputWalls), swaymsg)
      ensures panicked.Some? ==>
        && blurBools == PassFlags(old(blurBools), outputs[..panicked.value + 1])
        && applied == old(applied) + PassCommands(old(blurBools), outputs[..panicked.value + 1], wayblDir, outputWalls)
      ensures panicked.Some? ==> !AllApplied(PassCommands(old(blurBools), outputs, wayblDir, outputWalls), swaymsg)
      ensures panicked.Some? ==>
        var cmds := PassCommands(old(blurBools), outputs[..panicked.value + 1], wayblDir, outputWalls);
        && cmds != []
        && AllApplied(cmds[..|cmds| - 1], swaymsg)
        && !Retry(swaymsg, cmds[|cmds| - 1].output, cmds[|cmds| - 1].path).applied
    {
      ghost var flags0, log0 := blurBools, applied;
      panicked := None;
      var i := 0;
      while i < |outputs|
        invariant 0 <= i <= |outputs| && panicked == None
        invariant Valid()
        invariant blurBools == PassFlags(flags0, outputs[..i])
        invariant applied == log0 + PassCommands(flags0, outputs[..i], wayblDir, outputWalls)
        invariant AllApplied(PassCommands(flags0, outputs[..i], wayblDir, outputWalls), swaymsg)
      {
        ghost var flags, log := blurBools, applied;
        var gaveUp := VisitNode(outputs[i], swaymsg);
        PassStepState(flags0, log0, outputs, i, flags, log, blurBools, applied, wayblDir, outputWalls);
        if gaveUp {
          PassStepGivesUp(flags0, outputs, i, wayblDir, outputWalls, swaymsg);
          GiveUpSpoilsPass(flags0, outputs, i, wayblDir, outputWalls, swaymsg);
          return Some(i);
        }
        PassStepApplied(flags0, outputs, i, wayblDir, outputWalls, swaymsg);
        i := i + 1;
      }
      assert outputs[..i] == outputs;
    }
  }
}
