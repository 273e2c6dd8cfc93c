# waybl — a Dafny model of the blur reconciler

waybl blurs the wallpaper of a sway output and later restores it, driven by
sway's window and workspace events. It keeps one blur flag per output
(`blurBools`). On every relevant event it reads the scene tree. For each output
node it asks the focus detector whether a visible container lies below it, and
it takes that answer as the output's new blur flag. When the flag changes, it
applies either the blurred copy `<cache>/<output>.jpg` or the output's
configured wallpaper through `swaymsg`, retrying up to five times.

This project models that core in Dafny:

- `scene_tree.dfy`: the scene tree snapshot and the focus detector.
- `paths.dfy`: the cache directory and the blurred-image path, with its inverse.
- `wallpaper.dfy`: the bounded retry of the compositor command.
- `reconciler.dfy`: the class `BlurState`, which holds `blurBools` and a ghost
  log of every wallpaper apply. `SetBlur` and `CheckOutputs` are proved against
  the reference functions `BlurStep`/`BlurCommands` and `PassFlags`/`PassCommands`.
- `events.dfy`: the event filter and the event loop.
- `arguments.dfy`: the command-line loop.
- `waybl.dfy`: `main` run as one sequence.

The object invariant `Consistent` is kept by every state change. It says:

- an output with a stored flag was last given the image for that flag;
- an output with no stored flag was never given any image.

Behaviour modelled as the code has it:

- **Flag mapping.** The new flag is the focus detector's answer
  (main.go:192). So an output that shows a visible window gets the *blurred*
  image, and an empty output keeps or gets back its configured wallpaper.
  `Waybl.VisibleWindowTurnsBlurOn` and `Waybl.EmptyOutputIsLeftAlone` show
  both cases.
- **No global fallback.** Restoring an output with no `<output>:<path>`
  argument applies the empty path. The global wallpaper argument is stored but
  never read anywhere (main.go:14, 60, 154).
- **Giving up ends the process.** After five failed `swaymsg` invocations
  main.go panics, and a panic in any goroutine ends the whole process. The
  model therefore stops the pass, and the run, at that output.
- **Shadowed `err` in `setWallpaper`.** The loop body declares its own `err`
  (main.go:118), so the loop condition's `err` never changes. The loop is left
  only by the `break` on success or by the panic. `SetWallpaper` keeps this
  shape, and its contract shows the behaviour is still "stop at the first
  success, at most five attempts".
- **Fixed configuration.** main.go passes the cache directory and the
  per-output wallpaper map to every `setBlur` and `checkOutputs` call. It
  passes the same values each time once the arguments are read. The model
  makes them constant fields of `BlurState`, set by its constructor.
- **Trailing blur flag.** A `-b`/`--blur` given as the last argument indexes
  past the end of the arguments (main.go:44). The model returns
  `MissingBlurValue` for it.

## Model

| member | source | states |
|---|---|---|
| `SceneTree.IsDescendantFocused` | main.go:163-181 | a visible `Con` or `FloatingCon` is reported focused; a node without children is focused iff it is one (the full characterisation is `FocusedIffVisibleContainer`) |
| `SceneTree.FocusedIffVisibleContainer` | main.go:163-181 | the detector returns true iff some node of the subtree, root included, is a visible `Con` or `FloatingCon`; a childless node that is not one gives false |
| `SceneTree.AnyChildFocusedIff` | main.go:174-180 | the loop over the children from index i returns true iff a visible container lies below some child j ≥ i |
| `Paths.WayblDir` | main.go:29 | the cache directory is the home directory followed by `/.waybl` |
| `Paths.BlurredWallpaperPath` | main.go:158-160 | the blurred path is the directory, a slash, the output name and `.jpg` (length \|dir\| + \|output\| + 5) |
| `Paths.BlurredPathRoundTrip` | main.go:158-160 | the output name can be read back from its blurred path |
| `Paths.OutputOfBlurredPathSound` | main.go:158-160 | any path that the inverse accepts is exactly the blurred path of the name it returns |
| `Paths.BlurredPathInjective` | main.go:158-160 | for one cache directory, two different outputs never share a blurred file |
| `Wallpaper.SetWallpaper` | main.go:110-137 | the retry loop makes exactly the attempts of the reference `Retry` and succeeds exactly when it does |
| `Wallpaper.RetryFromStopsAtFirstSuccess` | main.go:113-136 | after `done` failures, the retry stops at the first success, never passes 5 attempts, and fails only with all 5 used |
| `Wallpaper.RetryStopsAtFirstSuccess` | main.go:113-136 | one apply makes 1 to 5 invocations, none after the first success, and succeeds iff its last invocation did |
| `Wallpaper.RetryGivesUpIffAllFail` | main.go:116-131 | the apply gives up (the panic) iff all five invocations fail, and it has then made exactly five |
| `Reconciler.BlurStep` | main.go:141-145 | afterwards the output's flag (missing = false) is the new one; every other key keeps its presence and flag; an unchanged flag leaves the map equal |
| `Reconciler.BlurCommands` | main.go:141-155 | no apply when the flag is unchanged; otherwise exactly one, for that output, with the blurred path or the configured wallpaper ("" when none) |
| `Reconciler.BlurStepKeepsConsistent` | main.go:140-156 | setBlur keeps every stored flag matched by the image last applied to that output, and keeps outputs without a flag untouched |
| `Reconciler.BlurStepIdempotent` | main.go:141-143 | repeating setBlur with the same flag changes nothing and applies nothing |
| `Reconciler.PassFlagsFrame` | main.go:188-194 | a pass leaves the flag and the presence of every name that no top-level output node carries; other node types change nothing |
| `Reconciler.PassCommandsFromOutputs` | main.go:188-194 | a pass issues at most one apply per top-level node, each for a name an output node carries and with that output's blurred path or its configured wallpaper |
| `Reconciler.PassKeepsConsistent` | main.go:188-194 | a whole pass keeps the flags consistent with the applies issued |
| `Reconciler.PassSetsEachOutput` | main.go:189-192 | after a pass, an output node with no later namesake has the flag `isDescendantFocused` gives it |
| `Reconciler.PassIdempotent` | main.go:188-194 | with distinct output names, a second pass over the same snapshot changes no flag and applies nothing |
| `Reconciler.BlurState.constructor` | main.go:16 | the flags start empty, nothing has been applied, and the invariant holds |
| `Reconciler.BlurState.SetBlur` | main.go:140-156 | the new flags are `BlurStep`, the log grows by `BlurCommands`, nothing runs when the flag is unchanged, and otherwise the apply ends as `Retry` says |
| `Reconciler.BlurState.VisitNode` | main.go:189-192 | one node of the pass: the flags become `StepFlags`, the log grows by `StepCommands`, and `gaveUp` is whether that apply gave up |
| `Reconciler.BlurState.CheckOutputs` | main.go:188-194 | the state after the pass is `PassFlags`/`PassCommands` of the nodes handled; without a panic every apply of the pass succeeded; with one, the pass stops at the output whose apply gave up, every earlier apply succeeded, and so the pass's applies are not all successful |
| `Arguments.Split` | main.go:57 | the pieces hold no colon, there is at least one, and there are two or more iff the argument has a colon |
| `Arguments.SplitJoin` | main.go:57 | joining the pieces with colons gives the argument back |
| `Arguments.JoinSplit` | main.go:57 | splitting colon-free pieces joined with colons gives the pieces back |
| `Arguments.ParseRest` | main.go:35-61 | a parse fails only when the last argument is a blur flag |
| `Arguments.ParseArgs` | main.go:35-61 | the argument loop, skipping index 0 and consuming the token after a blur flag, computes `Parse` |
| `Arguments.ParseRestAppend` | main.go:35-61 | reading more arguments after a clean parse continues from the configuration reached |
| `Arguments.LaterOutputArgWins` | main.go:56-58 | a later `<output>:<path>` sets that output to the expanded text between its first and second colon, overriding earlier ones |
| `Arguments.LaterPlainArgWins` | main.go:59-61 | a later plain argument replaces the global wallpaper and leaves everything else alone |
| `Arguments.TrailingBlurFlagFails` | main.go:43-45 | a blur flag as the last argument, after a clean parse, is the `MissingBlurValue` error |
| `Arguments.ParseRestProvenance` | main.go:42-58 | every configured output comes from an earlier config or a colon argument naming it; the blur amount is the default or a token after a blur flag |
| `Events.TriggersPass` | main.go:74-82 | every workspace event and every window event except a title change starts a pass (that a title event then has no effect is `TitleEventIgnoredFlags`/`TitleEventIgnoredCommands`) |
| `Events.TitleEventIgnoredFlags` | main.go:74-82 | removing a title-only window event, with its tree, leaves the final flags unchanged |
| `Events.TitleEventIgnoredCommands` | main.go:74-82 | removing a title-only window event, with its tree, leaves the applies unchanged |
| `Events.HandleEvent` | main.go:74-82 | a workspace event or a non-title window event runs one pass over the tree read for it; a title-only window event changes nothing; it panics iff the event starts a pass and some apply of that pass gives up |
| `Events.Listen` | main.go:71-83 | without a panic, the flags and the applies after the event stream are `EventFlags`/`EventCommands` of the events and their trees; it panics iff some apply in `EventCommands` gives up |
| `Waybl.Run` | main.go:19-84 | a run fails on the arguments iff the parse fails; it panics iff the arguments parse and some apply of the start-up pass or of the event passes gives up; if the events run out, the flags are those of the start-up pass followed by the event passes |
| `Waybl.EmptyOutputIsLeftAlone` | main.go:188-194 | as written, an empty output is unfocused, keeps flag false and gets no apply from a fresh state |
| `Waybl.VisibleWindowTurnsBlurOn` | main.go:188-194 | as written, a visible window turns blur on with the blurred path, and a later empty snapshot restores the configured wallpaper |

## Left out

- Goroutines and the unused mutex (main.go:17, 88, 192). Each `setBlur` runs to completion, in the order of the nodes. Races on `blurBools` and out-of-order applies are not modelled.
- The image command `convert` (`makeBlurs`, `makeSingleBlur`, main.go:63, 86-108). It is an external process. Whether the blurred file exists when it is applied is not modelled.
- The `swaymsg` process (main.go:117-118) is the parameter `Compositor`: whether its k-th invocation for an output and a path exits with status 0. Because that answer is a fixed function of output, path and attempt number, two applies of the same path to the same output in one run see the same answers.
- The two-second sleep between attempts (main.go:124). Only attempts are counted.
- The log lines written with `println`, throughout.
- `os.UserHomeDir` and `os.Mkdir` (main.go:25-32). The home directory is an input, and the cache directory is assumed to exist.
- `os.ExpandEnv` (main.go:58) is the uninterpreted parameter `expand`.
- The sway IPC library: `sway.Subscribe` and `sway.GetTree` (main.go:71-72, 184). Events and trees are inputs, paired one tree per event. A failing `GetTree`, whose error main.go drops, is not modelled.
- Floating children of a node. `isDescendantFocused` walks only `Nodes`, not `FloatingNodes`, so `Node` has no field for them.
- Reconciler.BlurState.CheckOutputs: where several top-level outputs share a name, the model states only what a pass leaves for the last of them (`PassSetsEachOutput`); sway does not report such trees.
- Events.Listen: after a panic, the contract does not describe the flags and the log left behind, only that the invariant holds; the process is gone at that point.
