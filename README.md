# WaveInterferenceSpace, modelled in Dafny

WaveInterferenceSpace is a browser toy that draws the interference pattern of
a handful of wave sources ("points": a position in the unit square, a
frequency, an amplitude, a phase and a phase speed). This project models the
program's logic, not its pixels. It covers:

- the point registry every front end shares: the `createPoint` id counter, the
  guarded remove that never empties the list, appends, and the per-frame phase
  advance;
- the packing of the points into the shader's fixed 100-slot uniform arrays;
- the dist4 front end (`initApp`): its uniform refresh with the amplitude
  normalisation, its callbacks, its save/load record mapping, and its pointer
  and keyboard handlers as a state machine;
- the older entry points `main_dist4` (scripts/dist4.js) and the stand-alone
  dist3 page;
- the particle integrator, with the force-field gradient as a parameter;
- the command interpreter: a script language of point commands
  (`p(1,3-5).xy(0.2,0.8)`, `p.rem`, `p(2).grid`), blend commands
  (`b.mode(max)`) and particle commands;
- the deterministic parts of the tile-grid game: occupancy-guarded moves and
  the NPCs' nearest-target searches.

The model is all Dafny. Values are datatypes, and everything the JavaScript
mutates is a class:

- the shared `points` array is `Registry.PointList`;
- the shader material's uniforms are `ShaderSystem.Uniforms`;
- the particle list is `ParticleSystem.ParticleSystem`;
- the closures of `initApp`, `main_dist4`, dist3 and the game are one class
  each.

The command interpreter comes in two parts:

- `CommandSemantics` is a pure semantics: statements, selectors, extension,
  removal, setters, arrangements, blend and particle commands.
- `CommandInterpreter` is the loop the program runs. It edits the registry and
  the blend-mode uniform in place, and each of its methods is proved to do
  what the semantics says.

Modules:

| file | module | models |
|---|---|---|
| wrappers.dfy | Wrappers | `Option` |
| text.dfy | Text | the JavaScript string built-ins the interpreter uses: `trim`, `split`, `toLowerCase`, `indexOf`, `parseInt`, `parseFloat`, `\w` |
| registry.dfy | Registry | points, the id lookup, `removePoint`, the phase advance, the shared point list |
| utils.dfy | Utils | `createPoint`, `mix`, `smoothstep` |
| shader_system.dfy | ShaderSystem | `UNIFORM_SIZE`, `getUniformPoints`, `getUniformPhases`, the uniforms |
| particle_system.dfy | ParticleSystem | `spawnParticle`, `updateParticles`, `particleParams` |
| command_parse.dfy | CommandParse | statement splitting, the three statement patterns, selectors |
| command_semantics.dfy | CommandSemantics | what a script does to the points and the blend mode |
| command_interpreter.dfy | CommandInterpreter | `interpretCommand` as an in-place loop |
| event_handlers.dfy | EventHandlers | `setupEventHandlers`: hit test, drag state, key handling |
| app_core.dfy | AppCore | `initApp` |
| dist4_main.dfy | Dist4Main | `main_dist4` |
| dist3.dfy | Dist3 | the dist3 page |
| game.dfy | Game | the tile-grid game |

Where the model names JavaScript behaviour the code has and its comments do
not announce, it follows the code:

- Failures are not always reported as feedback. A selector `p(0)` produces
  index -1. The setters, `circle` and `grid` then write through `points[-1]`,
  which is undefined, so the call throws before anything is written.
- `rem` can throw too. Auto-extended points take their index as id, so ids can
  repeat. The follow-up `removePoint(rem.id)` can then remove a second point,
  and a later `splice` may find nothing to remove, so `rem.id` throws.
- In both cases the model ends the run and reports `threw`. Its edits so far
  stay and its feedback is lost, since `interpretCommand` never returns.
- Every statement that starts with `p` takes the point branch, so the `part.`
  branch is unreachable.
- `initApp` builds the interpreter's context with `blendModes:
  guiSys.blendModes` (scripts/dist4/appCore.js:171), but `setupGuiSystem`
  returns no `blendModes` (scripts/dist4/guiSystem.js:59). The lookup
  `context.blendModes[m]` then throws, so in the running app every
  `b.mode(NAME)` with a non-empty argument ends the run. `AppCore.App.RunCommand`
  runs the interpreter without a table; the table version is kept as the
  intended behaviour (see Findings).
- Where a table is present, `blendModes[m] !== undefined` is a plain object
  lookup, so it also finds what every object inherits. Of the lower-cased
  names, `constructor` and `__proto__` hit: they set the uniform to the
  `Object` function or to `Object.prototype`. `ShaderSystem.BlendValue` keeps
  such a value apart from the codes 0 to 6.
- scripts/dist4.js passes `renderer` where `setupEventHandlers` expects a
  canvas (scripts/dist4/appCore.js:184 passes `renderer.domElement`). The
  renderer comes from `setupRenderer` in scripts/dist4/rendererSetup.js, which
  is not part of this model. If it is a three.js `WebGLRenderer`, as the one
  scripts/dist4/sceneSetup.js builds, it has no `addEventListener`. Then
  `setupEventHandlers` throws at its first `canvas.addEventListener`
  (scripts/dist4/eventHandlers.js:37), and so does `main_dist4`:
  - no pointer or keyboard listener on the canvas is installed;
  - `animate()` (scripts/dist4.js:108) never starts;
  - the only listener left is the document `pointermove` one, and it throws on
    `canvas.getBoundingClientRect`.
  `Dist4Main`'s callbacks and its `Animate` model this entry point as
  intended, with a canvas passed and the frame loop running, not as written.
  Even then dist4.js passes no `syncGui`. The miss branch of pointerdown, the
  drag branch of pointermove and the hit branch of Space would then throw on
  their last line, after their callbacks have run. The state they model is
  the state after those callbacks.

## Model

| member | source | states |
|---|---|---|
| Registry.IndexOfId | scripts/dist4/appCore.js:76 | the index of the first point with the id, or -1 exactly when no point has it |
| Registry.WithoutId | scripts/dist4/appCore.js:71-83 | the guarded remove on values: a non-empty list stays non-empty |
| Registry.WithoutIdSpec | scripts/dist4/appCore.js:71-83 | a list of at most one point and an absent id leave the list as it is; otherwise exactly the first point with the id is cut out |
| Registry.WithoutUniqueId | scripts/dist4.js:63-75 | with unique ids, removing a present id drops exactly that point, shrinks the list by one, keeps the ids unique and leaves no point with that id |
| Registry.PhasesAdvanced | scripts/dist4/appCore.js:202 | one frame keeps the number of points |
| Registry.PhaseAdvanceOnlyTouchesPhase | scripts/dist4/appCore.js:202 | a frame adds `phaseSpeed * dt` to each phase and changes no other field and no order |
| Registry.PhaseAdvanceAdditive | scripts/dist4.js:103 | frames of `a` and `b` seconds equal one frame of `a + b` seconds |
| Registry.PointList.constructor | scripts/dist4/appCore.js:95-96 | the list holds exactly the given points |
| Registry.PointList.Push | scripts/dist4/appCore.js:63 | `push` appends exactly the point |
| Registry.PointList.SpliceOut | scripts/dist4/commandInterpreter.js:51 | `splice(k, 1)` returns the point at `k` and leaves the others in order |
| Registry.PointList.RemoveById | scripts/dist4/appCore.js:71-83 | the list becomes `WithoutId`; a point is removed exactly when there were more than one and the id is present, and then the length drops by one |
| Registry.PointList.AdvancePhases | scripts/dist4/appCore.js:202 | the loop leaves the list equal to `PhasesAdvanced` of the old list |
| Utils.IdCounter.constructor | scripts/dist4/utils.js:4 | the counter starts at 0 |
| Utils.IdCounter.CreatePoint | scripts/dist4/utils.js:2-8 | the id is the old counter value and the counter goes up by one; the fields are copied, and `phaseSpeed` defaults to 0 |
| Utils.Mix | scripts/dist4/utils.js:10-12 | `t = 0` gives `a`, `t = 1` gives `b` |
| Utils.MixBetween | scripts/dist4/utils.js:10-12 | for `t` in [0, 1] the mix lies between its ends |
| Utils.MixOffset | scripts/dist4/utils.js:10-12 | the mix is the start plus the fraction `t` of the way to the end |
| Utils.MixSwap | scripts/dist4/utils.js:10-12 | mixing from `a` to `b` by `t` is mixing from `b` to `a` by `1 - t` |
| Utils.Smoothstep | scripts/dist4/utils.js:14-18 | 1 at or below `edge1`; 0 above `edge1` once `x >= edge0` |
| Utils.SmoothstepIsRamp | scripts/dist4/utils.js:17 | strictly between the edges it is the linear ramp `mix(1, 0, (x - edge1) / (edge0 - edge1))` |
| Utils.SmoothstepInUnit | scripts/dist4/utils.js:14-18 | with `edge1 < edge0` the result lies in [0, 1] |
| Utils.SmoothstepNonIncreasing | scripts/dist4/utils.js:14-18 | with `edge1 < edge0` the result never increases as `x` grows |
| Utils.SmoothstepDegenerate | scripts/dist4/utils.js:15-16 | with `edge0 <= edge1` the result is a step at `edge1` |
| ShaderSystem.Uniforms.constructor | scripts/dist4/shaderSystem.js:30-39 | the uniforms start empty, with count 0, blend code 0, `uSumAmp` 1 and map mode 0 |
| ShaderSystem.PackingIsDeterminate | scripts/dist4/shaderSystem.js:5-28 | each packing of a point list is unique |
| ShaderSystem.PackingIgnoresOverflow | scripts/dist4/shaderSystem.js:7 | points past slot 100 do not affect either packing |
| ShaderSystem.GetUniformPoints | scripts/dist4/shaderSystem.js:5-16 | exactly 100 entries: `(x, y, frequency, amplitude)` of point `i` while there is one, zeros after |
| ShaderSystem.GetUniformPhases | scripts/dist4/shaderSystem.js:18-28 | exactly 100 entries: the phase of point `i` while there is one, 0 after |
| ParticleSystem.Step | scripts/dist4/particleSystem.js:31-39 | one particle's update: the velocity gains `forceEffect * grad * delta` and is damped by 0.98, then the position moves by the new velocity times `delta` (its properties are the lemmas below) |
| ParticleSystem.StepWithoutForce | scripts/dist4/particleSystem.js:32-39 | without force the velocity is damped by 0.98 even when `delta` is 0, and the position moves by the damped velocity times `delta` |
| ParticleSystem.StepVelocityPerAxis | scripts/dist4/particleSystem.js:32-37 | each axis's new velocity is `0.98 * (v + forceEffect * grad * delta)`, independent of the other axis |
| ParticleSystem.RestIsFixedPoint | scripts/dist4/particleSystem.js:32-39 | a particle at rest under zero force is unchanged by a step |
| ParticleSystem.RestForever | scripts/dist4/particleSystem.js:29-42 | with `forceEffect` 0 a particle at rest never moves, over any sequence of frames |
| ParticleSystem.ParticleSystem.constructor | scripts/dist4/particleSystem.js:8-11 | no particles, `forceEffect` 0.5 and the default info text |
| ParticleSystem.ParticleSystem.SpawnParticle | scripts/dist4/particleSystem.js:13-27 | exactly one particle is appended, at `uv`, at rest; the parameters are unchanged |
| ParticleSystem.ParticleSystem.UpdateParticles | scripts/dist4/particleSystem.js:29-42 | the number and order of particles are kept; each becomes one `Step` from its old value with the gradient read at its old position |
| CommandParse.TrimmedNonEmpty | scripts/dist4/commandInterpreter.js:5 | the kept pieces are non-empty, with no white space at either end |
| CommandParse.TrimmedNonEmptyChars | scripts/dist4/commandInterpreter.js:5 | trimming adds no character, so pieces free of separators stay free of them |
| CommandParse.Statements | scripts/dist4/commandInterpreter.js:5 | every statement is non-empty, trimmed, and free of `\n` and `;` |
| CommandParse.StatementsOfSequence | scripts/dist4/commandInterpreter.js:5 | the statements of `a;b` (or `a` newline `b`) are those of `a` followed by those of `b` |
| CommandParse.SingleStatement | scripts/dist4/commandInterpreter.js:5 | a trimmed, non-empty text with no separator is one statement, itself |
| CommandParse.SplitOnNoSeparator | scripts/dist4/commandInterpreter.js:5 | a string with no separator splits into itself alone |
| CommandParse.SplitOnAppend | scripts/dist4/commandInterpreter.js:5 | splitting at a separator splits the two sides independently |
| CommandParse.TrimmedNonEmptyAppend | scripts/dist4/commandInterpreter.js:5 | trimming and filtering works piece by piece |
| CommandParse.ParsePointCmd | scripts/dist4/commandInterpreter.js:9-16 | `/^p(?:\(([^)]+)\))?\.(\w+)(?:\(([^)]*)\))?$/i`: a `p` or `P`, an optional non-empty selector up to the first `)`, a dot, a word and optional arguments (its properties are `ParsePointCmdText` and `PointCmdOfParse`) |
| CommandParse.ParseBlendCmd | scripts/dist4/commandInterpreter.js:110-111 | the tail pattern after `b.` |
| CommandParse.ParsePartCmd | scripts/dist4/commandInterpreter.js:125-126 | the tail pattern after `part.` |
| CommandParse.ParseTail | scripts/dist4/commandInterpreter.js:9 | an accepted tail is a non-empty `\w` word and optional `)`-free arguments |
| CommandParse.ParseTailText | scripts/dist4/commandInterpreter.js:9 | every well-formed word and arguments are read back unchanged from their text |
| CommandParse.ParseTailInverse | scripts/dist4/commandInterpreter.js:9 | an accepted tail is exactly the text of what it parsed to |
| CommandParse.ParsePointCmdText | scripts/dist4/commandInterpreter.js:9-15 | every well-formed point command is recognised, with selector, action and arguments read back unchanged |
| CommandParse.PointCmdOfParse | scripts/dist4/commandInterpreter.js:9-15 | whatever the pattern accepts is well formed, starts with `p` or `P`, and is the text of what it parsed to |
| CommandParse.ParseSelectedText | scripts/dist4/commandInterpreter.js:9 | a non-empty selector without `)` is cut at its `)` |
| CommandParse.SelectedCmdOfParse | scripts/dist4/commandInterpreter.js:9 | an accepted `p(...)` command is the text of what it parsed to |
| CommandParse.SelectedText | scripts/dist4/commandInterpreter.js:9 | the text of a command with a selector is `p(`, the selector, `).`, then the tail |
| CommandParse.SelectedOfParse | scripts/dist4/commandInterpreter.js:9 | an accepted selector part is a selector, `).` and a tail, read back unchanged |
| CommandParse.PartIsNotAPointCmd | scripts/dist4/commandInterpreter.js:7-13 | a statement starting `part.` starts with `p` and fails the point pattern |
| CommandParse.RangeTargets | scripts/dist4/commandInterpreter.js:25 | `a - 1` through `b - 1` in order, and nothing when `a > b` |
| CommandParse.TrimEach | scripts/dist4/commandInterpreter.js:20 | every part is trimmed and none is dropped |
| CommandParse.Insert | scripts/dist4/commandInterpreter.js:34 | the list stays strictly increasing and gains exactly `x` |
| CommandParse.Normalize | scripts/dist4/commandInterpreter.js:34 | `new Set` then `sort`: strictly increasing, with exactly the input's values |
| CommandParse.NormalizeIncreasing | scripts/dist4/commandInterpreter.js:34 | an already strictly increasing list is kept as it is |
| CommandParse.InsertLast | scripts/dist4/commandInterpreter.js:34 | a value above every element is appended |
| CommandParse.PartTargets | scripts/dist4/commandInterpreter.js:22-29 | one selector part: `a-b` gives `a - 1` through `b - 1`, `k` gives `k - 1`, NaN gives nothing (see `SinglePartTarget`, `RangePartTarget`, `PartWithoutDigits`) |
| CommandParse.SelectorTargets | scripts/dist4/commandInterpreter.js:18-34 | the parts' indices, or every index without a selector, deduplicated and sorted (see `Normalize`, `NoSelectorTargetsAll`) |
| CommandParse.NoSelectorTargetsAll | scripts/dist4/commandInterpreter.js:32-34 | without a selector the targets are all indices 0 to count - 1, in order |
| CommandParse.SinglePartTarget | scripts/dist4/commandInterpreter.js:27-28 | a part `k` selects index `k - 1` |
| CommandParse.RangePartTarget | scripts/dist4/commandInterpreter.js:22-25 | a part `a-b` selects `a - 1` through `b - 1` |
| CommandParse.PartWithoutDigits | scripts/dist4/commandInterpreter.js:24-28 | a part with no digit is NaN and selects nothing |
| CommandParse.SplitOnChars | scripts/dist4/commandInterpreter.js:20 | every character of a piece comes from the split string |
| CommandParse.NoDigitsParseInt | scripts/dist4/commandInterpreter.js:27 | a string with no digit reads as NaN |
| Text.Trim | scripts/dist4/commandInterpreter.js:5 | the result is the middle of `s` between its leading and trailing white space, and starts and ends with a non-space |
| Text.TrimChars | scripts/dist4/commandInterpreter.js:5 | every character of the trimmed string comes from the original |
| Text.Lower | scripts/dist4/commandInterpreter.js:16 | only A-Z are mapped, each to its lower-case letter |
| Text.LowerStr | scripts/dist4/commandInterpreter.js:16 | character by character `Lower`, same length |
| Text.TrimTrimmed | scripts/dist4/commandInterpreter.js:113 | a string that neither starts nor ends with white space is its own trim |
| Text.LowerStrNoUpper | scripts/dist4/commandInterpreter.js:16 | a string without upper-case letters is unchanged |
| Text.LowerStrIdempotent | scripts/dist4/commandInterpreter.js:113 | lower-casing twice is lower-casing once |
| Text.SplitOn | scripts/dist4/commandInterpreter.js:20 | at least one piece, no piece holds a separator, one piece more than separators |
| Text.SplitJoin | scripts/dist4/commandInterpreter.js:20 | splitting on a character and joining with it gives the string back |
| Text.IndexOfChar | scripts/dist4/commandInterpreter.js:22 | the first occurrence, or -1 exactly when the character is absent |
| Text.IndexOfCharAfter | scripts/dist4/commandInterpreter.js:9 | the first `c` after a `c`-free prefix is at the prefix's length |
| Text.DigitPrefix | scripts/dist4/commandInterpreter.js:27 | the longest prefix made of digits |
| Text.WordPrefix | scripts/dist4/commandInterpreter.js:9 | the longest prefix made of `\w` characters |
| Text.WordPrefixOfWord | scripts/dist4/commandInterpreter.js:9 | a word followed by a non-word character is exactly the longest word prefix |
| Text.FracValueBounds | scripts/dist4/commandInterpreter.js:60 | the digits after the point read as a value in [0, 1) |
| Text.Sign | scripts/dist4/commandInterpreter.js:27 | a leading `-` gives sign -1 and the rest, a leading `+` gives 1 and the rest, anything else gives 1 and the whole string |
| Text.ParseInt | scripts/dist4/commandInterpreter.js:23-28 | `parseInt(s, 10)`: leading white space, one sign, the longest digit run; NaN without a digit (see `ParseIntNatToString`, `ParseIntWithoutMinus`, `NoDigitsParseInt`) |
| Text.ParseFloat | scripts/dist4/commandInterpreter.js:60 | `parseFloat`: leading white space, one sign, digits and a fraction; NaN without a digit (see `FracValueBounds`) |
| Text.NatToString | scripts/dist4/commandInterpreter.js:40 | a natural number is written as a non-empty run of digits |
| Text.DigitsValueOfNatToString | scripts/dist4/commandInterpreter.js:27 | the written digits read back as the number |
| Text.ParseIntNatToString | scripts/dist4/commandInterpreter.js:27 | `parseInt` of a written natural number is that number |
| Text.ParseIntWithoutMinus | scripts/dist4/commandInterpreter.js:27 | a string without `-` never reads as a negative integer |
| CommandSemantics.MaxTarget | scripts/dist4/commandInterpreter.js:36 | `Math.max(..., -1)`: at least -1, no target above it, and -1 or one of the targets |
| CommandSemantics.Extend | scripts/dist4/commandInterpreter.js:37-41 | the list grows to `maxIdx + 1` exactly when it was shorter |
| CommandSemantics.ExtendShape | scripts/dist4/commandInterpreter.js:37-41 | the old points are kept; each appended point is the default with its index as id, and is reported with its 1-based index and id |
| CommandSemantics.ExtendCovers | scripts/dist4/commandInterpreter.js:36-41 | after extension every target is an index of the list |
| CommandSemantics.OneBased | scripts/dist4/commandInterpreter.js:66 | feedback prints every target plus one |
| CommandSemantics.Edit | scripts/dist4/commandInterpreter.js:62-65 | a `forEach` over in-range targets keeps the length |
| CommandSemantics.EditUntouched | scripts/dist4/commandInterpreter.js:62-78 | a point no target names is unchanged |
| CommandSemantics.EditAt | scripts/dist4/commandInterpreter.js:62-78 | over increasing targets, the target of rank `j` is rewritten once, from its old value |
| CommandSemantics.EditFrame | scripts/dist4/commandInterpreter.js:62-78 | over increasing targets, exactly the targets are rewritten |
| CommandSemantics.SpliceStart | scripts/dist4/commandInterpreter.js:51 | `splice` starts at the index when it is in range, and below the length for a negative index |
| CommandSemantics.Reverse | scripts/dist4/commandInterpreter.js:46 | the same targets, strictly decreasing when the selector's list is strictly increasing, as `sort((a,b)=>b-a)` gives |
| CommandSemantics.RemoveDescending | scripts/dist4/commandInterpreter.js:44-54 | the `rem` loop over descending targets: stop at the last point, `splice`, `removePoint` of the spliced id, a throw when the splice removed nothing (see `RemoveKeepsOne`, `RemoveUniqueIds`, `DuplicateIdThrows`, `RemoveExactlyTargets`, `RemoveAllStopsAtLast`) |
| CommandSemantics.RemoveKeepsOne | scripts/dist4/commandInterpreter.js:46-50 | `rem` never empties a non-empty list |
| CommandSemantics.SpliceThenRemoveUnique | scripts/dist4/commandInterpreter.js:51-52 | with unique ids the follow-up `removePoint` finds nothing more to remove, and the ids stay unique |
| CommandSemantics.RemoveUniqueIds | scripts/dist4/commandInterpreter.js:44-54 | with unique ids and in-range descending targets, `rem` never throws, keeps the ids unique, and each "removed" line stands for exactly one point gone |
| CommandSemantics.KeepIndices | scripts/dist4/commandInterpreter.js:44-54 | the reference for what `rem` leaves: the points whose index is not dropped, in order, never more than there were |
| CommandSemantics.KeepIndicesMembers | scripts/dist4/commandInterpreter.js:44-54 | with unique ids, a point is kept exactly when its index is not dropped |
| CommandSemantics.RemoveExactlyTargets | scripts/dist4/commandInterpreter.js:44-54 | with unique ids and fewer descending in-range targets than points, `rem` does not throw, leaves exactly `KeepIndices` of the targets, and reports one removal per target with its id and 1-based index, highest first |
| CommandSemantics.RemoveAllStopsAtLast | scripts/dist4/commandInterpreter.js:44-54 | with unique ids, targeting every point (descending) removes all but the first point, reports one removal per point from the last down to the second, then stops with the last-point notice, without throwing |
| CommandSemantics.RemAllStopsAtLast | scripts/dist4/commandInterpreter.js:44-54 | the `rem` action targeting every point, as `all` does, leaves only the first point and ends its feedback with the last-point notice |
| CommandSemantics.RemRemovesTargets | scripts/dist4/commandInterpreter.js:44-54 | the `rem` action on the selector's targets (fewer than the points, ids unique) removes exactly the targeted points and keeps the others in order |
| CommandSemantics.DuplicateIdRemovesTwo | scripts/dist4/commandInterpreter.js:37-53 | with a repeated id, one `p(3).rem` removes two points |
| CommandSemantics.DuplicateIdThrows | scripts/dist4/commandInterpreter.js:51-53 | with a repeated id, `p(4,5).rem` reaches a splice that removes nothing and throws |
| CommandSemantics.ArgValues | scripts/dist4/commandInterpreter.js:60 | one value per comma-separated piece, at least one |
| CommandSemantics.FitNonNegative | scripts/dist4/commandInterpreter.js:62-78 | increasing in-range targets whose first is not negative are all indices of the list |
| CommandSemantics.AcceptedShape | scripts/dist4/commandInterpreter.js:61-76 | the per-action argument test is: two numbers for `xy`, one number for the others |
| CommandSemantics.RunSetter | scripts/dist4/commandInterpreter.js:55-81 | the setter branch: no arguments, the per-action argument test, a throw on a `p(0)` target, else one write per target (its properties are the `Setter` lemmas) |
| CommandSemantics.SetterNoArgs | scripts/dist4/commandInterpreter.js:56-58 | a setter without arguments reports it and changes nothing |
| CommandSemantics.SetterRejected | scripts/dist4/commandInterpreter.js:79-80 | the wrong count or a NaN argument is reported and changes nothing |
| CommandSemantics.SetterThrows | scripts/dist4/commandInterpreter.js:62-78 | accepted arguments on a `p(0)` target throw before any write |
| CommandSemantics.SetterWrites | scripts/dist4/commandInterpreter.js:61-78 | accepted arguments write the setter's fields on every target and nothing else, and report the 1-based targets |
| CommandSemantics.CeilSqrt | scripts/dist4/commandInterpreter.js:96 | `Math.ceil(Math.sqrt(n))`: a side whose square covers `n`, with the side below too small |
| CommandSemantics.CeilSqrtLeast | scripts/dist4/commandInterpreter.js:96 | no smaller side covers `n` cells |
| CommandSemantics.GridPos | scripts/dist4/commandInterpreter.js:96-102 | the cell of rank `i` on an `n` by `n` grid of step `0.5 / (n - 1)` (0 when `n` is 1) from (0.25, 0.25), row-major (see `GridInRange`, `GridDistinct`) |
| CommandSemantics.GridInRange | scripts/dist4/commandInterpreter.js:96-103 | every target's grid position lies in [0.25, 0.75] on both axes |
| CommandSemantics.GridDistinct | scripts/dist4/commandInterpreter.js:96-103 | two different targets never share a grid position |
| CommandSemantics.ArrangeGrid | scripts/dist4/commandInterpreter.js:96-103 | the grid `forEach` on the points (see `ArrangeGridFrame`) |
| CommandSemantics.ArrangeGridFrame | scripts/dist4/commandInterpreter.js:92-104 | `grid` moves exactly the targets, the one of rank `j` to `GridPos(j, n)` with `n` the ceiling of the square root of the count, inside [0.25, 0.75] on both axes; every other field and every other point is kept |
| CommandSemantics.ArrangeCircle | scripts/dist4/commandInterpreter.js:86-90 | the circle `forEach` on the points (see `ArrangeCircleFrame`) |
| CommandSemantics.ArrangeCircleFrame | scripts/dist4/commandInterpreter.js:82-91 | `circle` moves exactly the targets, to the caller's positions, and keeps every other field |
| CommandSemantics.ArrangeNoTargets | scripts/dist4/commandInterpreter.js:84-95 | `circle` or `grid` with no target reports it and changes nothing |
| CommandSemantics.RunAction | scripts/dist4/commandInterpreter.js:43-107 | the action branches on the grown list: `rem`, the setters, `circle`, `grid`, unknown action |
| CommandSemantics.RunPoint | scripts/dist4/commandInterpreter.js:15-107 | a parsed point command: targets, extension, then the action, with the extension's lines first (see `ExtensionFirst`) |
| CommandSemantics.ActionCaseInsensitive | scripts/dist4/commandInterpreter.js:16 | actions differing only in case run identically |
| CommandSemantics.ExtensionFirst | scripts/dist4/commandInterpreter.js:36-106 | extension happens whatever the action and its lines come first; an unknown action leaves the grown list |
| CommandSemantics.RunBlend | scripts/dist4/commandInterpreter.js:109-122 | a blend statement: the pattern, `mode` with a non-empty argument, the table lookup (see `BlendModeCommand`) |
| CommandSemantics.BlendModeCommand | scripts/dist4/commandInterpreter.js:109-122 | `b.mode(NAME)` trims and lower-cases the name; an empty name is unknown; otherwise a missing table throws and changes nothing, a table name sets its code, `constructor` or `__proto__` sets the inherited member, any other name is reported invalid; the points never change |
| CommandSemantics.BlendModeMissing | scripts/dist4/commandInterpreter.js:112-121 | `b.mode` without arguments is an unknown blend command |
| CommandSemantics.BlendCommandEffect | scripts/dist4/guiSystem.js:10-18 | no blend command touches the points; only a missing table makes one throw, and then nothing changes; with the GUI's table the mode stays, becomes a code 0 to 6, or becomes one of the two inherited members |
| CommandSemantics.InheritedNamesMissTable | scripts/dist4/commandInterpreter.js:114-116 | with the GUI's table, `b.mode(constructor)` and `b.mode(__proto__)` are accepted and set the inherited member |
| CommandSemantics.ModeScript | scripts/dist4/commandInterpreter.js:5-6 | `b.mode(NAME)` with no separator in the name is a script of one blend statement |
| CommandSemantics.BlendWithoutTableThrows | scripts/dist4/commandInterpreter.js:114 | without a table, a script `b.mode(NAME)` with a non-empty name throws and changes nothing |
| CommandSemantics.BlendAfterEditsThrows | scripts/dist4/appCore.js:167-178 | without a table, `a;b.mode(NAME)` keeps the edits of `a` and throws, so no feedback is returned |
| CommandSemantics.BlendWithTableSets | scripts/dist4/guiSystem.js:19-21 | with the GUI's table, a script `b.mode(NAME)` of a table name sets its code and reports it |
| CommandSemantics.RunPart | scripts/dist4/commandInterpreter.js:124-138 | a text the `part.` regex rejects is an unknown particle command; a changed force or info is reported with its new value; anything else leaves the parameters |
| CommandSemantics.PartCommandEffect | scripts/dist4/commandInterpreter.js:124-138 | `part.force(V)` with a number sets exactly the force to `parseFloat(V)`; with a non-number it is invalid and nothing changes; `part.info(S)` sets exactly the info text, empty without arguments; any other word, or `force` without an argument, is unknown |
| CommandSemantics.RunStatement | scripts/dist4/commandInterpreter.js:7-141 | one statement by prefix: `p` first, then `b.`, else unknown prefix (see `PartCommandUnrecognized`) |
| CommandSemantics.RunAll | scripts/dist4/commandInterpreter.js:6-142 | the statements in order; a throw ends the run (see `RunAllFirst`, `RunAllAppend`) |
| CommandSemantics.Interpret | scripts/dist4/commandInterpreter.js:2-146 | `interpretCommand` on the points, the blend mode and the context's table (see `ScriptInOrder`, `BlankScript`) |
| CommandSemantics.RunAllFirst | scripts/dist4/commandInterpreter.js:6-142 | a run is its first statement, then the rest unless that threw |
| CommandSemantics.RunAllAppend | scripts/dist4/commandInterpreter.js:6-142 | running `a + b` is running `a`, then `b` from where `a` left unless it threw |
| CommandSemantics.ThenAfter | scripts/dist4/commandInterpreter.js:3-6 | feedback collected before a run stays in front of everything the run adds |
| CommandSemantics.OneStatementScript | scripts/dist4/commandInterpreter.js:5-6 | a script whose only statement is `cmd` runs as that statement |
| CommandSemantics.ScriptInOrder | scripts/dist4/commandInterpreter.js:5-6 | a script `a;b` runs `a`, then `b` from the state `a` left |
| CommandSemantics.MalformedContinues | scripts/dist4/commandInterpreter.js:11-13 | an unrecognised point statement adds one line and the rest still runs |
| CommandSemantics.PartCommandUnrecognized | scripts/dist4/commandInterpreter.js:7-13 | every `part.` statement is reported as an unrecognised point command |
| CommandSemantics.BlankScript | scripts/dist4/commandInterpreter.js:5 | an empty script changes nothing and says nothing |
| CommandInterpreter.PushPart | scripts/dist4/commandInterpreter.js:21-29 | the loop body appends exactly the part's indices |
| CommandInterpreter.PushRange | scripts/dist4/commandInterpreter.js:25 | the range loop appends exactly `RangeTargets` |
| CommandInterpreter.PushParts | scripts/dist4/commandInterpreter.js:21-30 | the parts' indices, in order |
| CommandInterpreter.CollectTargets | scripts/dist4/commandInterpreter.js:18-34 | the loop computes exactly the selector's targets |
| CommandInterpreter.ExtendPoints | scripts/dist4/commandInterpreter.js:36-41 | the while loop leaves the list and feedback that `Extend` describes |
| CommandInterpreter.RemoveTargets | scripts/dist4/commandInterpreter.js:44-54 | the in-place `rem` loop yields exactly `RemoveDescending` |
| CommandInterpreter.RemoveTurn | scripts/dist4/commandInterpreter.js:47-53 | one turn either ends the loop with its final effect, or removes a point and leaves the rest to go |
| CommandInterpreter.SpliceAndRemove | scripts/dist4/commandInterpreter.js:51-52 | the spliced point is returned and `removePoint` of its id follows |
| CommandInterpreter.RemoveStep | scripts/dist4/commandInterpreter.js:51-53 | a removing turn reports the id and the 1-based index, then continues on the shorter list |
| CommandInterpreter.WriteTargets | scripts/dist4/commandInterpreter.js:62-103 | the `forEach` leaves the list equal to `Edit` |
| CommandInterpreter.RunSetterAction | scripts/dist4/commandInterpreter.js:55-81 | the setter branch in place matches `RunSetter` |
| CommandInterpreter.RunActionBranch | scripts/dist4/commandInterpreter.js:44-107 | the action branch in place matches `RunAction` |
| CommandInterpreter.RunPointStatement | scripts/dist4/commandInterpreter.js:15-107 | a parsed point command in place matches `RunPoint` |
| CommandInterpreter.RunBlendStatement | scripts/dist4/commandInterpreter.js:109-122 | only the blend-mode uniform changes, as `RunBlend` says, and the statement throws exactly when `RunBlend` does |
| CommandInterpreter.RunOneStatement | scripts/dist4/commandInterpreter.js:7-141 | one statement in place matches `RunStatement`; no other uniform changes |
| CommandInterpreter.RunTurn | scripts/dist4/commandInterpreter.js:6-142 | one turn of the statement loop either throws with the final outcome or leaves the later statements to run |
| CommandInterpreter.InterpretCommand | scripts/dist4/commandInterpreter.js:2-146 | for the context's blend table, the in-place run ends in the state, feedback and throw that `Interpret` gives; no other uniform changes |
| EventHandlers.GetPointAtUV | scripts/dist4/eventHandlers.js:17-25 | the lowest index within 0.05 of `uv`, or none exactly when no point is that close |
| EventHandlers.Handlers.constructor | scripts/dist4/eventHandlers.js:13-15 | no selection, no drag, pointer at (0, 0) |
| EventHandlers.Handlers.PointerDown | scripts/dist4/eventHandlers.js:40-50 | a hit selects the first hit point and starts a drag; a miss requests a point at `uv` and keeps the drag state |
| EventHandlers.Handlers.PointerMove | scripts/dist4/eventHandlers.js:53-64 | the position is recorded; during a drag the selected point moves to `uv` and a redraw is requested |
| EventHandlers.Handlers.PointerUp | scripts/dist4/eventHandlers.js:67-70 | the drag and the selection are cleared |
| EventHandlers.Handlers.KeyDown | scripts/dist4/eventHandlers.js:73-87 | Space over a point requests its removal, Space elsewhere a circle toggle; Z requests a particle at the last position; other keys nothing |
| EventHandlers.DragMovesOnlySelected | scripts/dist4/eventHandlers.js:53-64 | a drag step moves only the first point with the selected id, and without a live drag it changes nothing |
| AppCore.AmplitudeSum | scripts/dist4/appCore.js:52 | `points.reduce((sum, p) => sum + p.amplitude, 0)`, folded from the left (see the lemmas below) |
| AppCore.SumAmpUniform | scripts/dist4/appCore.js:52-53 | `uSumAmp` is the amplitude sum when that is positive and 1 otherwise, so always positive |
| AppCore.AmplitudeSumAppend | scripts/dist4/appCore.js:52 | adding a point adds its amplitude to the sum |
| AppCore.AmplitudeSumBounds | scripts/dist4/appCore.js:52 | with non-negative amplitudes the sum is non-negative and bounds each amplitude |
| AppCore.SumAmpIsSumWhenPositive | scripts/dist4/appCore.js:52-53 | with non-negative amplitudes, `uSumAmp` is the true sum when some amplitude is positive, and 1 when all are zero |
| AppCore.AmplitudeSumZero | scripts/dist4/appCore.js:52 | all-zero amplitudes sum to zero |
| AppCore.Records | scripts/dist4/appCore.js:117-129 | one record per point |
| AppCore.Loaded | scripts/dist4/appCore.js:147-152 | one point per record |
| AppCore.LoadThenSave | scripts/dist4/appCore.js:117-152 | saving loaded records gives those records back |
| AppCore.SaveThenLoad | scripts/dist4/appCore.js:117-152 | saving then loading keeps every field and the order; only the ids change, to consecutive fresh values |
| AppCore.App.constructor | scripts/dist4/appCore.js:13-108 | two starting points from the counter, uniforms in sync, blend and map mode 0, no particles, idle handlers on the same list |
| AppCore.App.UpdateUniforms | scripts/dist4/appCore.js:47-54 | the uniforms agree with the points, `uSumAmp` included |
| AppCore.App.AddPoint | scripts/dist4/appCore.js:57-68 | one point at `uv` with frequency 100, amplitude 1, phase 0, phase speed 3, and a fresh id; uniforms in sync |
| AppCore.App.RemovePoint | scripts/dist4/appCore.js:71-83 | the guarded remove; the uniforms are refreshed only when a point went |
| AppCore.App.ToggleCircles | scripts/dist4/appCore.js:41-44 | the circle visibility flips |
| AppCore.App.SetMapMode | scripts/dist4/appCore.js:106-108 | `remap` selects 1, anything else 0; nothing else changes |
| AppCore.App.Tick | scripts/dist4/appCore.js:199-204 | phases advance by `phaseSpeed * dt`, the uniforms follow, each particle takes one step; blend mode, map mode, force and info keep their values |
| AppCore.App.Save | scripts/dist4/appCore.js:117-129 | the record holds the point records, both modes and the particle parameters |
| AppCore.App.Load | scripts/dist4/appCore.js:139-164 | the list becomes one fresh-id point per record, modes and parameters are restored, particles are kept |
| AppCore.App.RunCommand | scripts/dist4/appCore.js:167-178 | the interpreter's outcome for a context without a blend table, then the uniform refresh, which a throw skips; the map mode never changes |
| AppCore.App.Dispatch | scripts/dist4/appCore.js:184-194 | each handler request runs its callback: an add appends the point, advances the id counter and resyncs the uniforms; a remove that changed the points resyncs them, else the material is untouched; toggle, spawn or redraw change only their own state; the particles, the circles flag, the counter, blend and map mode are kept wherever the request does not concern them |
| Dist4Main.Dist4.constructor | scripts/dist4.js:20-31 | the two starting points, uniforms in sync, circles visible |
| Dist4Main.Dist4.UpdateUniforms | scripts/dist4.js:26-31 | the uniforms agree with the points; blend mode, `uSumAmp` and map mode are untouched |
| Dist4Main.Dist4.AddPointCallback | scripts/dist4.js:55-62 | one point at `uv` with frequency 10, amplitude 1, phase 0, phase speed 0, returned; the counter advances, the uniforms follow, blend mode, `uSumAmp` and map mode are kept |
| Dist4Main.Dist4.RemovePointCallback | scripts/dist4.js:63-75 | refused at one point, a no-op for an unknown id, else the id's point goes and the uniforms follow; blend mode, `uSumAmp` and map mode are kept |
| Dist4Main.Dist4.ToggleCircles | scripts/dist4.js:49-52 | the circle visibility flips |
| Dist4Main.Dist4.Animate | scripts/dist4.js:100-107 | phases advance by `phaseSpeed * delta`, the uniforms follow, and each particle takes one `Step` with the gradient at its old position against the advanced points, count and order kept; blend mode, `uSumAmp`, map mode and the force are kept |
| Dist3.Dist3.constructor | scripts/dist3.js:35-74 | the two starting points from the module counter, uniforms in sync, blend mode 0, idle pointer state |
| Dist3.Dist3.UpdatePoints | scripts/dist3.js:205-209 | the uniforms agree with the points; blend mode, `uSumAmp` and map mode are kept |
| Dist3.Dist3.RemovePoint | scripts/dist3.js:245-259 | refused at one point, a no-op for an unknown id, else exactly one point goes; blend mode, `uSumAmp` and map mode are kept |
| Dist3.Dist3.AddPointButton | scripts/dist3.js:157-163 | one default point at the centre with a fresh id; blend mode, `uSumAmp` and map mode are kept |
| Dist3.Dist3.SelectBlendMode | scripts/dist3.js:166-178 | the dropdown sets the table code and nothing else |
| Dist3.Dist3.PointerDown | scripts/dist3.js:270-284 | a hit selects the first hit point and starts a drag; a miss clears the drag state |
| Dist3.Dist3.PointerMove | scripts/dist3.js:286-301 | during a drag the selected point follows the pointer; blend mode, `uSumAmp` and map mode are kept |
| Dist3.Dist3.PointerUp | scripts/dist3.js:303-319 | a drag only ends; otherwise a release over empty space adds one default point there, advances the counter and repacks; when no point is added the counter and the uniforms are unchanged; blend mode, `uSumAmp` and map mode are kept |
| Dist3.Dist3.KeySpace | scripts/dist3.js:326-341 | over a point, it is removed only when more than one exists, and the uniforms are repacked; elsewhere the circles toggle and the uniforms are unchanged; blend mode, `uSumAmp` and map mode are kept |
| Dist3.Dist3.Animate | scripts/dist3.js:356-366 | phases advance by `phaseSpeed * delta`, the uniforms follow; blend mode, `uSumAmp` and map mode are kept |
| Game.TowardStep | scripts/game.js:111-112 | a step moves at most one and gets one closer unless already there, and it reaches the target exactly when it was within one |
| Game.World.constructor | scripts/game.js:25-71 | resource 10 where the caller says, the player at (2, 2), the NPCs on the diagonal; the occupancy invariant holds |
| Game.World.NoSharedTile | scripts/game.js:56-71 | under the invariant no two characters share a tile |
| Game.World.MoveCharacter | scripts/game.js:74-86 | a move happens exactly onto a free tile inside the board; the old tile is cleared and the new one names the character; nothing else changes, and a refused move changes nothing |
| Game.World.PlayerKey | scripts/game.js:164-171 | an arrow key steps the player one tile through `moveCharacter`; the NPCs stay |
| Game.World.NearestResource | scripts/game.js:97-109 | a resource tile at least Manhattan distance, the first in scan order on ties; none exactly when no tile holds a resource (together, `NearestResourceIs`) |
| Game.World.ScanColumn | scripts/game.js:99-108 | the inner scan extends the best tile so far to one more column |
| Game.World.NearestOther | scripts/game.js:134-141 | another NPC at least Manhattan distance, the first on ties, with that distance; none exactly when there is no other NPC (together, `NearestOtherIs`) |
| Game.World.Collect | scripts/game.js:113-116 | the gatherer's pickup: `gathered` grows by the tile's resource, that tile is left at 0, every other tile keeps its resource, and the board stays valid |
| Game.World.GathererAim | scripts/game.js:95-120 | the gatherer's intended tile is the `Toward` step to the first nearest resource tile (`NearestResourceIs`, on the board before the pickup), or the random step exactly when no tile holds a resource; it collects only on reaching that tile |
| Game.World.AttackerAim | scripts/game.js:131-149 | the attacker stays when there is no other NPC or the first nearest (`NearestOtherIs`) is within distance 1, else takes the `Toward` step to it; either way at most one tile per axis |
| Game.World.NpcIntent | scripts/game.js:91-158 | the role picks the intended tile (`Intended`): the defender stays and the builder takes the random step. The gatherer steps `Toward` the first nearest resource tile (`NearestResourceIs`), and steps randomly exactly when no tile holds a resource. The attacker stays when there is no other NPC or the nearest is within distance 1, else steps `Toward` the first nearest other NPC (`NearestOtherIs`). Only the gatherer collects, on the tile it aims at, which is left empty; nobody moves |
| Game.World.NpcTurn | scripts/game.js:91-159 | the intended tile, tied to the gatherer's and the attacker's searches as in `NpcIntent`, then `moveCharacter`: the NPC ends on it exactly when it is a free tile of the board, else stays; no other NPC and not the player moves; only the gatherer collects |
| Game.World.UpdateNPCs | scripts/game.js:89-161 | every NPC takes its turn in order, so each ends where it started or on a tile its role may aim at from there; the player stays, the invariant holds and the collected total never drops |

## Left out

- The GLSL fragment shaders and the force field (`fieldValue`, `getFieldGradient` in scripts/dist4/forceField.js, and the shader of scripts/distance.js) are GPU floating-point numerics. The particle update and frame take the gradient as a function parameter.
- The `circle` action's `cos`/`sin` coordinates are floating-point trigonometry. The position of the target of rank `j` of `N` is a caller-supplied function, so only the target set and the frame are modelled.
- `parseInt` and `parseFloat` are modelled as decimal readers. `parseInt` skips leading white space, reads a sign and the longest digit prefix. `parseFloat` reads a sign, digits and a fraction, with no exponent and no `Infinity`.
- `trim` strips only the ASCII white space, U+00A0 and U+FEFF, not every Unicode space.
- `toLowerCase` maps only A-Z.
- Feedback is a datatype carrying the indices, ids and values the messages print. The exact wording and `console.log` are left out.
- Numbers are exact reals, not doubles. `Math.hypot(...) < 0.05` is compared squared.
- `Math.max(...targets)` is left out on argument lists too long for the engine.
- The THREE.js scene, meshes, circle overlays, `updateCircles` and the dat.GUI folders (`syncGui`, `addPointGUI`) are left out.
- CommandInterpreter.SpliceAndRemove: models the interpreter's `removePoint` callback as the registry's guarded remove only. In `initApp` the callback is appCore's `removePoint`, which also refreshes the uniforms when it removes a point (possible only with a repeated id); the interpreter's contracts therefore say the uniforms other than the blend mode are untouched, which holds for the registry callback and not for that one.
- AppCore.App.RunCommand: does not state the uniforms after a throw. A callback removal of a point with a repeated id may have refreshed them part-way through the run, which the model's callback does not do.
- AppCore.App.Save: copies the blend value into the record as the uniform holds it. `JSON.stringify` would drop an inherited `Object` function and write `{}` for `Object.prototype`; that is not modelled.
- The DOM code in scripts/dist4/uiPanel.js, scripts/dist4/sceneSetup.js and the conversion of client coordinates to uv are left out. The handlers receive uv values.
- Blob, FileReader and JSON handling in `onSave` and `onLoad` are file I/O. Likewise `onLoad`'s try/catch and a file without `points`. `Load` receives the parsed configuration.
- The clock and `requestAnimationFrame` are left out. Each frame receives its time step.
- The game's `Math.random` is left out.
  - The random resource placement is a constructor parameter.
  - The builder's and gatherer's random steps are parameters of `NpcTurn` and `UpdateNPCs`.
- The sprite colouring in scripts/game.js is left out (the builder's recolouring, the attacker's and defender's colours).
- main.js (page loading, `fetch`, `localStorage`) and vite.config.js (dev-server middleware) are not part of this model.
- Game.World.NpcTurn: the random steps are any integers, while `randMove` draws -1 or 1.

## Findings

| source | as written | input that shows it | evidently intended | confidence | as-written member | corrected member |
|---|---|---|---|---|---|---|
| scripts/dist4/appCore.js:171 | the interpreter's context takes `blendModes` from `guiSys.blendModes`, which `setupGuiSystem` does not return (scripts/dist4/guiSystem.js:59), so the lookup at scripts/dist4/commandInterpreter.js:114 reads a property of `undefined` and throws | the script `p(1).xy(0.2,0.3);b.mode(add)`: point 1 moves, then the run throws, so the uniforms are not refreshed and no feedback is returned | `b.mode(NAME)` sets the code of the GUI's table, as the dropdown does (scripts/dist4/guiSystem.js:19-21) | not executed | CommandSemantics.BlendAfterEditsThrows | CommandSemantics.BlendWithTableSets |
