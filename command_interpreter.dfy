/**
 * `interpretCommand` as the program runs it: a loop over the statements that
 * edits the shared point list and the material's blend-mode uniform in place
 * and collects feedback, each step proved to do what `CommandSemantics` says.
 */
module CommandInterpreter {
  import opened Wrappers
  import opened Text
  import opened Registry
  import opened ShaderSystem
  import opened CommandParse
  import opened CommandSemantics

  /** The body of the selector loop for one part: a range pushes `i - 1` for `i` from `a` to `b`. */
  method PushPart(raw: seq<int>, part: string) returns (out: seq<int>)
    ensures out == raw + PartTargets(part)
  {
    out := raw;
    if '-' in part {
      CountInMember(part, '-');
      var pieces := SplitOn(part, {'-'});
      var a, b := ParseInt(pieces[0]), ParseInt(pieces[1]);
      if a.Some? && b.Some? {
        out := PushRange(raw, a.value, b.value);
      }
    } else {
      var idx := ParseInt(part);
      if idx.Some? {
        out := out + [idx.value - 1];
      }
    }
  }

  /** `for (let i = a; i <= b; i++) targetIndices.push(i - 1)`. */
  method PushRange(raw: seq<int>, a: int, b: int) returns (out: seq<int>)
    ensures out == raw + RangeTargets(a, b)
  {
    out := raw;
    var i := a;
    while i <= b
      invariant a <= i <= (if a <= b then b + 1 else a)
      invariant out == raw + RangeTargets(a, i - 1)
      decreases b - i
    {
      assert RangeTargets(a, i) == RangeTargets(a, i - 1) + [i - 1];
      out := out + [i - 1];
      i := i + 1;
    }
  }

  /** The selector loop: each part's indices pushed in order, then `new Set` and `sort`. */
  method CollectTargets(sel: Option<string>, count: nat) returns (targets: seq<int>)
    ensures targets == SelectorTargets(sel, count)
  {
    var raw: seq<int>;
    if sel.None? {
      raw := seq(count, i => i);
    } else {
      raw := PushParts(SelectorParts(sel.value));
    }
    targets := Normalize(raw);
  }

  /** `for (const part of parts)`: the parts' indices in order. */
  method PushParts(parts: seq<string>) returns (raw: seq<int>)
    ensures raw == RawTargets(parts)
  {
    raw := [];
    for k := 0 to |parts|
      invariant raw == RawTargets(parts[..k])
    {
      assert parts[..k + 1][..k] == parts[..k] && parts[..k + 1][k] == parts[k];
      raw := PushPart(raw, parts[k]);
    }
    assert parts[..|parts|] == parts;
  }

  /** `while (points.length <= maxIdx)`: push a default point, report it. */
  method ExtendPoints(reg: PointList, maxIdx: int) returns (created: seq<Feedback>)
    modifies reg
    ensures (reg.points, created) == Extend(old(reg.points), maxIdx)
  {
    created := [];
    assert [] + Extend(reg.points, maxIdx).1 == Extend(reg.points, maxIdx).1;
    while |reg.points| <= maxIdx
      invariant Extend(old(reg.points), maxIdx) == (Extend(reg.points, maxIdx).0, created + Extend(reg.points, maxIdx).1)
      decreases maxIdx + 1 - |reg.points|
    {
      var p := DefaultPoint(|reg.points|);
      ghost var rest := Extend(reg.points + [p], maxIdx).1;
      reg.Push(p);
      assert created + ([CreatedDefault(|reg.points|, p.id)] + rest) == (created + [CreatedDefault(|reg.points|, p.id)]) + rest;
      created := created + [CreatedDefault(|reg.points|, p.id)];
    }
    assert created + [] == created;
  }

  /** The `rem` loop over the targets in descending order. */
  method RemoveTargets(reg: PointList, desc: seq<int>) returns (feedback: seq<Feedback>, threw: bool)
    modifies reg
    ensures var e := RemoveDescending(old(reg.points), desc);
      reg.points == e.points && feedback == e.feedback && threw == e.threw
  {
    feedback, threw := [], false;
    var i := 0;
    ghost var goal := RemoveDescending(reg.points, desc);
    assert goal == After([], goal);
    while i < |desc|
      invariant 0 <= i <= |desc|
      invariant !threw
      invariant goal == After(feedback, RemoveDescending(reg.points, desc[i..]))
    {
      HeadTail(desc, i);
      var done;
      feedback, done, threw := RemoveTurn(reg, feedback, desc[i], desc[i + 1..]);
      if done {
        return;
      }
      i := i + 1;
    }
    assert desc[i..] == [];
  }

  /**
   * One turn of the `rem` loop for the target `idx`, with `fb` reported so
   * far: the turn that stops at the last point or throws ends the loop
   * (`done`), any other turn removes a point and leaves the `later` targets
   * to go.
   */
  method RemoveTurn(reg: PointList, fb: seq<Feedback>, idx: int, later: seq<int>)
    returns (feedback: seq<Feedback>, done: bool, threw: bool)
    modifies reg
    ensures done ==> After(fb, RemoveDescending(old(reg.points), [idx] + later)) == Effect(reg.points, feedback, threw)
    ensures !done ==> !threw
    ensures !done ==> After(fb, RemoveDescending(old(reg.points), [idx] + later)) == After(feedback, RemoveDescending(reg.points, later))
  {
    assert ([idx] + later)[0] == idx && ([idx] + later)[1..] == later;
    threw := false;
    if |reg.points| <= 1 {
      feedback, done := fb + [CannotRemoveLast], true;
      return;
    }
    var start := SpliceStart(idx, |reg.points|);
    if start == |reg.points| {
      feedback, done, threw := fb, true, true;
      assert fb + [] == fb;
      return;
    }
    ghost var ps := reg.points;
    var gone := SpliceAndRemove(reg, start);
    RemoveStep(ps, idx, later, start, reg.points);
    AfterAppend(fb, [Removed(gone.id, idx + 1)], RemoveDescending(reg.points, later));
    feedback, done := fb + [Removed(gone.id, idx + 1)], false;
  }

  /** The effect `e` with `fb` reported before it. */
  function After(fb: seq<Feedback>, e: Effect): Effect
  {
    Effect(e.points, fb + e.feedback, e.threw)
  }

  lemma AfterAppend(fb: seq<Feedback>, lines: seq<Feedback>, e: Effect)
    ensures After(fb, After(lines, e)) == After(fb + lines, e)
  {
    assert fb + (lines + e.feedback) == (fb + lines) + e.feedback;
  }

  /** `const [rem] = points.splice(idx, 1); context.removePoint(rem.id)` when the splice removes a point. */
  method SpliceAndRemove(reg: PointList, start: nat) returns (gone: Point)
    requires start < |reg.points|
    modifies reg
    ensures gone == old(reg.points)[start]
    ensures reg.points == WithoutId(old(reg.points)[..start] + old(reg.points)[start + 1..], gone.id)
  {
    gone := reg.SpliceOut(start);
    var removed := reg.RemoveById(gone.id);
  }

  /** One turn of the `rem` loop that removes a point. */
  lemma RemoveStep(ps: seq<Point>, first: int, later: seq<int>, start: nat, rest: seq<Point>)
    requires |ps| > 1 && start == SpliceStart(first, |ps|) && start < |ps|
    requires rest == WithoutId(ps[..start] + ps[start + 1..], ps[start].id)
    ensures RemoveDescending(ps, [first] + later) == After([Removed(ps[start].id, first + 1)], RemoveDescending(rest, later))
  {
    assert ([first] + later)[0] == first && ([first] + later)[1..] == later;
  }

  /** An action's `targetIndices.forEach`: the target of rank `j` is written by `w`, in rank order. */
  method WriteTargets(reg: PointList, targets: seq<int>, w: Write)
    requires forall j :: 0 <= j < |targets| ==> 0 <= targets[j] < |reg.points|
    modifies reg
    ensures reg.points == Edit(old(reg.points), targets, w)
  {
    for j := 0 to |targets|
      invariant |reg.points| == |old(reg.points)|
      invariant reg.points == Edit(old(reg.points), targets[..j], w)
    {
      assert targets[..j + 1][..j] == targets[..j] && targets[..j + 1][j] == targets[j];
      var k := targets[j];
      reg.points := reg.points[k := Apply(w, j, reg.points[k])];
    }
    assert targets[..|targets|] == targets;
  }

  /** The setter branch: argument checks, then one field write per target. */
  method RunSetterAction(reg: PointList, action: string, args: Option<string>, targets: seq<int>, cmd: string)
    returns (feedback: seq<Feedback>, threw: bool)
    requires IsSetter(action) && TargetsFit(targets, |reg.points|)
    modifies reg
    ensures var e := RunSetter(old(reg.points), action, args, targets, cmd);
      reg.points == e.points && feedback == e.feedback && threw == e.threw
  {
    threw := false;
    if args.None? || args.value == [] {
      feedback := [NoArgs(action, cmd)];
      return;
    }
    var vals := ArgValues(args.value);
    if action == "xy" && |vals| == 2 && vals[0].Some? && vals[1].Some? {
      if WritesThrow(targets) {
        feedback, threw := [], true;
        return;
      }
      FitNonNegative(targets, |reg.points|);
      WriteTargets(reg, targets, MoveTo(vals[0].value, vals[1].value));
      feedback := [SetXY(vals[0].value, vals[1].value, OneBased(targets))];
    } else if action != "xy" && |vals| == 1 && vals[0].Some? {
      if WritesThrow(targets) {
        feedback, threw := [], true;
        return;
      }
      FitNonNegative(targets, |reg.points|);
      WriteTargets(reg, targets, SetTo(FieldOf(action).value, vals[0].value));
      feedback := [SetField(FieldOf(action).value, vals[0].value, OneBased(targets))];
    } else {
      feedback := [InvalidArgs(action, cmd)];
    }
  }

  /** The action branches of a point command, on the grown registry. */
  method RunActionBranch(reg: PointList, action: string, args: Option<string>, targets: seq<int>, cmd: string,
                         position: (nat, nat) -> UV) returns (feedback: seq<Feedback>, threw: bool)
    requires TargetsFit(targets, |reg.points|)
    modifies reg
    ensures var e := RunAction(old(reg.points), action, args, targets, cmd, position);
      reg.points == e.points && feedback == e.feedback && threw == e.threw
  {
    threw := false;
    if action == "rem" {
      feedback, threw := RemoveTargets(reg, Reverse(targets));
    } else if IsSetter(action) {
      feedback, threw := RunSetterAction(reg, action, args, targets, cmd);
    } else if action == "circle" || action == "grid" {
      if targets == [] {
        feedback := [NoTargets(action, cmd)];
      } else if WritesThrow(targets) {
        feedback, threw := [], true;
      } else {
        FitNonNegative(targets, |reg.points|);
        if action == "circle" {
          WriteTargets(reg, targets, OnCircle(position, |targets|));
          feedback := [ArrangedCircle(OneBased(targets))];
        } else {
          var n := CeilSqrt(|targets|);
          WriteTargets(reg, targets, OnGrid(n));
          feedback := [ArrangedGrid(OneBased(targets), n)];
        }
      }
    } else {
      feedback := [UnknownAction(action, cmd)];
    }
  }

  /** A parsed point command: targets, extension, then the action. */
  method RunPointStatement(reg: PointList, pc: PointCmd, cmd: string, position: (nat, nat) -> UV)
    returns (feedback: seq<Feedback>, threw: bool)
    modifies reg
    ensures var e := RunPoint(old(reg.points), pc, cmd, position);
      reg.points == e.points && feedback == e.feedback && threw == e.threw
  {
    var action := LowerStr(pc.action);
    var targets := CollectTargets(pc.selector, |reg.points|);
    var created := ExtendPoints(reg, MaxTarget(targets));
    var more;
    more, threw := RunActionBranch(reg, action, pc.args, targets, cmd, position);
    feedback := created + more;
  }

  /**
   * `b.NAME(ARGS)`: only `b.mode(NAME)` whose lookup finds a value writes the
   * blend-mode uniform; reading the name from a missing table throws.
   */
  method RunBlendStatement(points: seq<Point>, material: Uniforms, cmd: string, modes: BlendTable)
    returns (feedback: seq<Feedback>, threw: bool)
    requires StartsBlend(cmd)
    modifies material
    ensures var o := RunBlend(State(points, old(material.blendMode)), cmd, modes);
      material.blendMode == o.state.blendMode && feedback == o.feedback && threw == o.threw
    ensures material.points == old(material.points) && material.phases == old(material.phases)
    ensures material.pointCount == old(material.pointCount) && material.sumAmp == old(material.sumAmp)
    ensures material.mapMode == old(material.mapMode)
  {
    threw := false;
    var parsed := ParseBlendCmd(cmd);
    if parsed.Some? && parsed.value.1.Some? && LowerStr(parsed.value.0) == "mode" && parsed.value.1.value != [] {
      var m := LowerStr(Trim(parsed.value.1.value));
      if modes.None? {
        feedback, threw := [], true;
        return;
      }
      var found := BlendLookup(modes.value, m);
      if found.Some? {
        material.blendMode := found.value;
        feedback := [BlendSet(m)];
      } else {
        feedback := [InvalidBlend(m, cmd)];
      }
    } else {
      feedback := [UnknownBlend(cmd)];
    }
  }

  /**
   * `interpretCommand(script, context)`: the statements in order, each
   * editing the registry or the blend mode in place. When `threw` is set the
   * JavaScript call throws instead of returning the feedback.
   */
  method InterpretCommand(script: string, reg: PointList, material: Uniforms, position: (nat, nat) -> UV, modes: BlendTable)
    returns (feedback: seq<Feedback>, threw: bool)
    modifies reg, material
    ensures var o := Interpret(State(old(reg.points), old(material.blendMode)), script, position, modes);
      reg.points == o.state.points && material.blendMode == o.state.blendMode &&
      feedback == o.feedback && threw == o.threw
    ensures material.points == old(material.points) && material.phases == old(material.phases)
    ensures material.pointCount == old(material.pointCount) && material.sumAmp == old(material.sumAmp)
    ensures material.mapMode == old(material.mapMode)
  {
    var cmds := Statements(script);
    ghost var fin := Interpret(State(reg.points, material.blendMode), script, position, modes);
    assert fin == Reported([], fin);
    feedback, threw := [], false;
    var i := 0;
    while i < |cmds|
      invariant 0 <= i <= |cmds| && !threw
      invariant fin == Reported(feedback, RunAll(State(reg.points, material.blendMode), cmds[i..], position, modes))
      invariant material.points == old(material.points) && material.phases == old(material.phases)
      invariant material.pointCount == old(material.pointCount) && material.sumAmp == old(material.sumAmp)
      invariant material.mapMode == old(material.mapMode)
    {
      HeadTail(cmds, i);
      feedback, threw := RunTurn(reg, material, feedback, cmds[i], cmds[i + 1..], position, modes);
      if threw {
        return;
      }
      i := i + 1;
    }
    assert cmds[i..] == [];
  }

  /** The suffix from `i` is its first element followed by the suffix after it. */
  lemma HeadTail<T>(s: seq<T>, i: nat)
    requires i < |s|
    ensures s[i..] == [s[i]] + s[i + 1..]
  {
  }

  /** The outcome `o` with `fb` reported before it. */
  function Reported(fb: seq<Feedback>, o: Outcome): Outcome
  {
    Outcome(o.state, fb + o.feedback, o.threw)
  }

  /**
   * One turn of the statement loop, with `fb` reported so far: a statement
   * that throws ends the run, any other leaves the `later` statements to go.
   */
  method RunTurn(reg: PointList, material: Uniforms, fb: seq<Feedback>, cmd: string, later: seq<string>,
                 position: (nat, nat) -> UV, modes: BlendTable)
    returns (feedback: seq<Feedback>, threw: bool)
    modifies reg, material
    ensures threw ==>
      Reported(fb, RunAll(State(old(reg.points), old(material.blendMode)), [cmd] + later, position, modes))
      == Outcome(State(reg.points, material.blendMode), feedback, true)
    ensures !threw ==>
      Reported(fb, RunAll(State(old(reg.points), old(material.blendMode)), [cmd] + later, position, modes))
      == Reported(feedback, RunAll(State(reg.points, material.blendMode), later, position, modes))
    ensures material.points == old(material.points) && material.phases == old(material.phases)
    ensures material.pointCount == old(material.pointCount) && material.sumAmp == old(material.sumAmp)
    ensures material.mapMode == old(material.mapMode)
  {
    ghost var st := State(reg.points, material.blendMode);
    var more;
    more, threw := RunOneStatement(reg, material, cmd, position, modes);
    ghost var o := Outcome(State(reg.points, material.blendMode), more, threw);
    RunAllFirst(st, cmd, later, position, modes, o);
    if !threw {
      ghost var r := RunAll(o.state, later, position, modes);
      assert Then(o, later, position, modes) == Reported(more, r);
      ReportedCons(fb, more, r);
    }
    feedback := fb + more;
  }

  /** Feedback reported in two steps is the feedback reported at once. */
  lemma ReportedCons(fb: seq<Feedback>, lines: seq<Feedback>, r: Outcome)
    ensures Reported(fb, Reported(lines, r)) == Reported(fb + lines, r)
  {
    assert fb + (lines + r.feedback) == (fb + lines) + r.feedback;
  }

  /** One statement, dispatched on its prefix as `RunStatement` says. */
  method RunOneStatement(reg: PointList, material: Uniforms, cmd: string, position: (nat, nat) -> UV, modes: BlendTable)
    returns (feedback: seq<Feedback>, threw: bool)
    modifies reg, material
    ensures RunStatement(State(old(reg.points), old(material.blendMode)), cmd, position, modes)
      == Outcome(State(reg.points, material.blendMode), feedback, threw)
    ensures material.points == old(material.points) && material.phases == old(material.phases)
    ensures material.pointCount == old(material.pointCount) && material.sumAmp == old(material.sumAmp)
    ensures material.mapMode == old(material.mapMode)
  {
    threw := false;
    if cmd != [] && Lower(cmd[0]) == 'p' {
      var parsed := ParsePointCmd(cmd);
      if parsed.None? {
        feedback := [UnrecognizedPoint(cmd)];
      } else {
        feedback, threw := RunPointStatement(reg, parsed.value, cmd, position);
      }
    } else if StartsBlend(cmd) {
      feedback, threw := RunBlendStatement(reg.points, material, cmd, modes);
    } else {
      feedback := [UnrecognizedPrefix(cmd)];
    }
  }
}
