/**
 * What one run of the command interpreter does to the interpreter's context:
 * the point registry and the blend-mode uniform. Statements are run in
 * order; a statement that cannot be understood only adds feedback. A
 * statement that makes the JavaScript throw (a write through `points[-1]`
 * after a `p(0)` selector, `rem.id` on a splice that removed nothing, or
 * `b.mode(NAME)` read from a context without a blend table) ends the run: the edits made so far stay, the feedback is lost.
 */
module CommandSemantics {
  import opened Wrappers
  import opened Text
  import opened Registry
  import opened ShaderSystem
  import opened CommandParse

  /** The single-valued point fields the setters write. */
  datatype Field = Phase | Frequency | Amplitude | PhaseSpeed

  /** One feedback line; indices in feedback are 1-based, as the messages print them. */
  datatype Feedback =
    | UnrecognizedPoint(cmd: string)
    | CreatedDefault(index: int, id: int)
    | CannotRemoveLast
    | Removed(id: int, index: int)
    | NoArgs(action: string, cmd: string)
    | SetXY(x: real, y: real, indices: seq<int>)
    | SetField(field: Field, value: real, indices: seq<int>)
    | InvalidArgs(action: string, cmd: string)
    | NoTargets(action: string, cmd: string)
    | ArrangedCircle(indices: seq<int>)
    | ArrangedGrid(indices: seq<int>, n: nat)
    | UnknownAction(action: string, cmd: string)
    | BlendSet(mode: string)
    | InvalidBlend(mode: string, cmd: string)
    | UnknownBlend(cmd: string)
    | ForceSet(force: real)
    | InvalidForce(cmd: string)
    | InfoSet(info: string)
    | UnknownParticle(cmd: string)
    | UnrecognizedPrefix(cmd: string)

  /** The part of the interpreter's context that a run can change. */
  datatype State = State(points: seq<Point>, blendMode: BlendValue)

  /** The result of running statements: the new state, the feedback, and whether the run threw. */
  datatype Outcome = Outcome(state: State, feedback: seq<Feedback>, threw: bool)

  /** The result of one point action on the registry. */
  datatype Effect = Effect(points: seq<Point>, feedback: seq<Feedback>, threw: bool)

  /** The blend-mode table the GUI hands to the interpreter: name to shader code. */
  const BlendModes: map<string, int> :=
    map["add" := 0, "subtract" := 1, "multiply" := 2, "normalize" := 3, "min" := 4, "max" := 5, "average" := 6]

  /** The context's `blendModes`: a table, or `None` where the context carries none (`undefined`). */
  type BlendTable = Option<map<string, int>>

  /** The lower-case names every JavaScript object answers through `Object.prototype`. */
  const InheritedKeys: set<string> := {"constructor", "__proto__"}

  // ---------------------------------------------------------------------
  // Auto-extension

  /** The point appended when a selector names an index past the end. */
  function DefaultPoint(id: int): Point
  {
    Point(id, 0.5, 0.5, 10.0, 1.0, 0.0, 0.0)
  }

  /** `Math.max(...targetIndices, -1)`. */
  function MaxTarget(ts: seq<int>): (m: int)
    ensures m >= -1
    ensures forall j :: 0 <= j < |ts| ==> ts[j] <= m
    ensures m == -1 || m in ts
  {
    if ts == [] then -1
    else
      var m := MaxTarget(ts[..|ts| - 1]);
      assert m in ts[..|ts| - 1] ==> m in ts;
      if ts[|ts| - 1] > m then ts[|ts| - 1] else m
  }

  /**
   * `while (points.length <= maxIdx) points.push(default)`: the grown
   * registry and one "created" line per appended point.
   */
  function Extend(ps: seq<Point>, maxIdx: int): (r: (seq<Point>, seq<Feedback>))
    ensures |r.0| == if |ps| <= maxIdx then maxIdx + 1 else |ps|
    decreases maxIdx + 1 - |ps|
  {
    if |ps| <= maxIdx then
      var rest := Extend(ps + [DefaultPoint(|ps|)], maxIdx);
      (rest.0, [CreatedDefault(|ps| + 1, |ps|)] + rest.1)
    else (ps, [])
  }

  /**
   * Extension keeps the existing points, appends default points whose id is
   * their index, and reports each with its 1-based index and its id.
   */
  lemma {:induction false} ExtendShape(ps: seq<Point>, maxIdx: int)
    ensures var r := Extend(ps, maxIdx);
      |ps| <= |r.0| && r.0[..|ps|] == ps &&
      (forall i :: |ps| <= i < |r.0| ==> r.0[i] == DefaultPoint(i)) &&
      |r.1| == |r.0| - |ps| &&
      (forall j :: 0 <= j < |r.1| ==> r.1[j] == CreatedDefault(|ps| + j + 1, |ps| + j))
    decreases maxIdx + 1 - |ps|
  {
    if |ps| <= maxIdx {
      var qs := ps + [DefaultPoint(|ps|)];
      ExtendShape(qs, maxIdx);
      var r, rest := Extend(ps, maxIdx), Extend(qs, maxIdx);
      assert r.0 == rest.0;
      assert r.0[..|ps|] == rest.0[..|qs|][..|ps|];
      assert r.0[|ps|] == rest.0[..|qs|][|ps|];
      assert forall j :: 1 <= j < |r.1| ==> r.1[j] == rest.1[j - 1];
    }
  }

  /** After extension every target is an index of the registry. */
  lemma ExtendCovers(ps: seq<Point>, targets: seq<int>)
    ensures forall j :: 0 <= j < |targets| ==> targets[j] < |Extend(ps, MaxTarget(targets)).0|
  {
  }

  // ---------------------------------------------------------------------
  // Targets and field writes

  /** A target list as the action code sees it: strictly increasing and within the registry. */
  predicate TargetsFit(targets: seq<int>, n: nat)
  {
    StrictlyIncreasing(targets) && forall j :: 0 <= j < |targets| ==> targets[j] < n
  }

  /** The first write goes through a negative index, `points[-1]` is undefined and the write throws. */
  predicate WritesThrow(targets: seq<int>)
  {
    targets != [] && targets[0] < 0
  }

  /** The 1-based indices the feedback prints (`targetIndices.map(i => i + 1)`). */
  function OneBased(targets: seq<int>): (r: seq<int>)
    ensures |r| == |targets| && forall j :: 0 <= j < |r| ==> r[j] == targets[j] + 1
  {
    seq(|targets|, j requires 0 <= j < |targets| => targets[j] + 1)
  }

  /**
   * The body of an action's `targetIndices.forEach((ptIdx, j) => ...)`: what
   * it writes into the target of rank `j`.
   */
  datatype Write =
    | MoveTo(x: real, y: real)
    | SetTo(field: Field, value: real)
    | OnCircle(position: (nat, nat) -> UV, count: nat)
    | OnGrid(n: nat)

  function Apply(w: Write, j: nat, p: Point): Point
  {
    match w
    case MoveTo(x, y) => p.(x := x, y := y)
    case SetTo(f, v) => WithField(p, f, v)
    case OnCircle(position, count) => p.(x := position(j, count).x, y := position(j, count).y)
    case OnGrid(n) => if n == 0 then p else p.(x := GridPos(j, n).x, y := GridPos(j, n).y)
  }

  /** The `forEach` itself: the target of rank `j` is rewritten by `Apply(w, j, _)`, in rank order. */
  function Edit(ps: seq<Point>, targets: seq<int>, w: Write): (r: seq<Point>)
    requires forall j :: 0 <= j < |targets| ==> 0 <= targets[j] < |ps|
    ensures |r| == |ps|
  {
    if targets == [] then ps
    else
      var n := |targets| - 1;
      var r := Edit(ps, targets[..n], w);
      r[targets[n] := Apply(w, n, r[targets[n]])]
  }

  /** A point no target names is left as it was. */
  lemma {:induction false} EditUntouched(ps: seq<Point>, targets: seq<int>, w: Write, k: int)
    requires forall j :: 0 <= j < |targets| ==> 0 <= targets[j] < |ps|
    requires 0 <= k < |ps| && k !in targets
    ensures Edit(ps, targets, w)[k] == ps[k]
  {
    if targets != [] {
      var n := |targets| - 1;
      assert targets[..n][..] == targets[..n];
      assert k !in targets[..n] by {
        assert forall v :: v in targets[..n] ==> v in targets;
      }
      EditUntouched(ps, targets[..n], w, k);
    }
  }

  /** The target of rank `j` is rewritten once, from its old value. */
  lemma {:induction false} EditAt(ps: seq<Point>, targets: seq<int>, w: Write, j: nat)
    requires forall i :: 0 <= i < |targets| ==> 0 <= targets[i] < |ps|
    requires StrictlyIncreasing(targets) && j < |targets|
    ensures Edit(ps, targets, w)[targets[j]] == Apply(w, j, ps[targets[j]])
  {
    var n := |targets| - 1;
    var pre := targets[..n];
    assert StrictlyIncreasing(pre);
    if j == n {
      assert targets[n] !in pre;
      EditUntouched(ps, pre, w, targets[n]);
    } else {
      assert pre[j] == targets[j] && targets[j] != targets[n];
      EditAt(ps, pre, w, j);
    }
  }

  /** Writing `f` over strictly increasing targets: targets are rewritten, nothing else moves. */
  lemma EditFrame(ps: seq<Point>, targets: seq<int>, w: Write)
    requires forall i :: 0 <= i < |targets| ==> 0 <= targets[i] < |ps|
    requires StrictlyIncreasing(targets)
    ensures forall j :: 0 <= j < |targets| ==> Edit(ps, targets, w)[targets[j]] == Apply(w, j, ps[targets[j]])
    ensures forall k :: 0 <= k < |ps| && k !in targets ==> Edit(ps, targets, w)[k] == ps[k]
  {
    forall j | 0 <= j < |targets| ensures Edit(ps, targets, w)[targets[j]] == Apply(w, j, ps[targets[j]]) {
      EditAt(ps, targets, w, j);
    }
    forall k | 0 <= k < |ps| && k !in targets ensures Edit(ps, targets, w)[k] == ps[k] {
      EditUntouched(ps, targets, w, k);
    }
  }

  // ---------------------------------------------------------------------
  // rem

  /** Where `points.splice(idx, 1)` starts on an array of length `len`; at `len` it removes nothing. */
  function SpliceStart(idx: int, len: nat): (s: nat)
    ensures s <= len
    ensures 0 <= idx < len ==> s == idx
    ensures idx < 0 && len > 0 ==> s < len
  {
    if idx < 0 then (if len + idx < 0 then 0 else len + idx)
    else if idx > len then len
    else idx
  }

  /** `targetIndices.sort((a, b) => b - a)` on a strictly increasing list. */
  function Reverse(s: seq<int>): (r: seq<int>)
    ensures |r| == |s| && forall x :: x in r <==> x in s
    ensures StrictlyIncreasing(s) ==> forall i, j :: 0 <= i < j < |r| ==> r[i] > r[j]
  {
    var r := seq(|s|, j requires 0 <= j < |s| => s[|s| - 1 - j]);
    assert forall j :: 0 <= j < |s| ==> r[|s| - 1 - j] == s[j] && r[|s| - 1 - j] in r;
    r
  }

  /**
   * The `rem` loop over targets in descending order: stop with "cannot
   * remove last point" once one point is left; otherwise splice the index out
   * and pass the removed point's id to `removePoint`; a splice that removes
   * nothing makes `rem.id` throw.
   */
  function RemoveDescending(ps: seq<Point>, desc: seq<int>): Effect
    decreases |desc|
  {
    if desc == [] then Effect(ps, [], false)
    else if |ps| <= 1 then Effect(ps, [CannotRemoveLast], false)
    else
      var start := SpliceStart(desc[0], |ps|);
      if start == |ps| then Effect(ps, [], true)
      else
        var gone := ps[start];
        var e := RemoveDescending(WithoutId(ps[..start] + ps[start + 1..], gone.id), desc[1..]);
        Effect(e.points, [Removed(gone.id, desc[0] + 1)] + e.feedback, e.threw)
  }

  /** The number of "removed" lines in a feedback list. */
  function Removals(fb: seq<Feedback>): nat
  {
    if fb == [] then 0 else (if fb[0].Removed? then 1 else 0) + Removals(fb[1..])
  }

  /** `rem` never empties a non-empty registry. */
  lemma {:induction false} RemoveKeepsOne(ps: seq<Point>, desc: seq<int>)
    requires |ps| >= 1
    ensures |RemoveDescending(ps, desc).points| >= 1
    decreases |desc|
  {
    if desc != [] && |ps| > 1 {
      var start := SpliceStart(desc[0], |ps|);
      if start < |ps| {
        RemoveKeepsOne(WithoutId(ps[..start] + ps[start + 1..], ps[start].id), desc[1..]);
      }
    }
  }

  /** When the spliced point's id is unique, the follow-up `removePoint(id)` finds nothing to remove. */
  lemma SpliceThenRemoveUnique(ps: seq<Point>, k: nat)
    requires UniqueIds(ps) && k < |ps|
    ensures WithoutId(ps[..k] + ps[k + 1..], ps[k].id) == ps[..k] + ps[k + 1..]
    ensures UniqueIds(ps[..k] + ps[k + 1..])
  {
    var r := ps[..k] + ps[k + 1..];
    if |ps| > 1 {
      WithoutUniqueId(ps, k);
    }
    assert forall i :: 0 <= i < |r| ==> r[i].id != ps[k].id;
    WithoutIdSpec(r, ps[k].id);
  }

  /**
   * With unique ids and descending in-range targets, `rem` never throws,
   * keeps the ids unique, and every "removed" line stands for exactly one
   * point gone.
   */
  lemma {:induction false} RemoveUniqueIds(ps: seq<Point>, desc: seq<int>)
    requires UniqueIds(ps)
    requires forall i, j :: 0 <= i < j < |desc| ==> desc[i] > desc[j]
    requires forall i :: 0 <= i < |desc| ==> desc[i] < |ps|
    ensures !RemoveDescending(ps, desc).threw
    ensures UniqueIds(RemoveDescending(ps, desc).points)
    ensures |RemoveDescending(ps, desc).points| == |ps| - Removals(RemoveDescending(ps, desc).feedback)
    decreases |desc|
  {
    if desc != [] && |ps| > 1 {
      var start := SpliceStart(desc[0], |ps|);
      assert start < |ps|;
      SpliceThenRemoveUnique(ps, start);
      var rest := ps[..start] + ps[start + 1..];
      DescendingTail(desc, |rest|);
      RemoveUniqueIds(rest, desc[1..]);
      var e := RemoveDescending(rest, desc[1..]);
      var fb := [Removed(ps[start].id, desc[0] + 1)] + e.feedback;
      assert RemoveDescending(ps, desc) == Effect(e.points, fb, e.threw);
      assert fb[1..] == e.feedback;
      assert Removals(fb) == 1 + Removals(e.feedback);
    } else if desc != [] {
      assert Removals([CannotRemoveLast]) == 0;
    }
  }

  /** The rest of a descending target list is descending and below its head. */
  lemma DescendingTail(desc: seq<int>, n: int)
    requires desc != [] && desc[0] <= n
    requires forall i, j :: 0 <= i < j < |desc| ==> desc[i] > desc[j]
    ensures forall i, j :: 0 <= i < j < |desc[1..]| ==> desc[1..][i] > desc[1..][j]
    ensures forall i :: 0 <= i < |desc[1..]| ==> desc[1..][i] < n
  {
    assert forall i :: 1 <= i < |desc| ==> desc[i] < desc[0];
  }

  /** The points whose index is not in `drop`, in their order. */
  function KeepIndices(ps: seq<Point>, drop: set<int>): (r: seq<Point>)
    ensures |r| <= |ps|
    ensures forall q :: q in r ==> q in ps
  {
    if ps == [] then []
    else
      var n := |ps| - 1;
      var init := KeepIndices(ps[..n], drop);
      assert forall q :: q in init ==> q in ps by {
        assert forall q :: q in ps[..n] ==> q in ps;
      }
      init + (if n in drop then [] else [ps[n]])
  }

  /** With unique ids, a point is kept exactly when its index is not dropped. */
  lemma {:induction false} KeepIndicesMembers(ps: seq<Point>, drop: set<int>, k: int)
    requires UniqueIds(ps) && 0 <= k < |ps|
    ensures ps[k] in KeepIndices(ps, drop) <==> k !in drop
  {
    var n := |ps| - 1;
    var init := ps[..n];
    assert UniqueIds(init);
    if k < n {
      KeepIndicesMembers(init, drop, k);
      assert init[k] == ps[k] && ps[n].id != ps[k].id;
    } else {
      assert ps[n] !in init by {
        forall q | q in init ensures q != ps[n] {
          var i :| 0 <= i < n && init[i] == q;
          assert ps[i].id != ps[n].id;
        }
      }
    }
  }

  /** Only the dropped indices inside the list matter. */
  lemma {:induction false} KeepIndicesInRange(ps: seq<Point>, s: set<int>, t: set<int>)
    requires forall i :: 0 <= i < |ps| ==> (i in s <==> i in t)
    ensures KeepIndices(ps, s) == KeepIndices(ps, t)
  {
    if ps != [] {
      KeepIndicesInRange(ps[..|ps| - 1], s, t);
    }
  }

  /** Dropping only indices of `a` leaves the points of `b` all kept. */
  lemma {:induction false} KeepIndicesAppend(a: seq<Point>, b: seq<Point>, drop: set<int>)
    requires forall i :: i in drop ==> i < |a|
    ensures KeepIndices(a + b, drop) == KeepIndices(a, drop) + b
  {
    if b == [] {
      assert a + b == a;
    } else {
      var m := |b| - 1;
      assert (a + b)[..|a| + m] == a + b[..m];
      KeepIndicesAppend(a, b[..m], drop);
      assert b[..m] + [b[m]] == b;
    }
  }

  /** Dropping `d` above every other dropped index cuts `ps[d]` out of the kept prefix. */
  lemma KeepIndicesTop(ps: seq<Point>, drop: set<int>, d: int)
    requires 0 <= d < |ps| && forall i :: i in drop ==> i < d
    ensures KeepIndices(ps, drop + {d}) == KeepIndices(ps[..d], drop) + ps[d + 1..]
  {
    var pre, post := ps[..d + 1], ps[d + 1..];
    assert KeepIndices(ps, drop + {d}) == KeepIndices(pre, drop + {d}) + post by {
      assert ps == pre + post;
      KeepIndicesAppend(pre, post, drop + {d});
    }
    assert KeepIndices(pre, drop + {d}) == KeepIndices(ps[..d], drop + {d}) by {
      assert pre[..d] == ps[..d];
    }
    KeepIndicesInRange(ps[..d], drop + {d}, drop);
  }

  /** One "removed" line per target: the point's id and its 1-based index. */
  function RemovedLines(ps: seq<Point>, desc: seq<int>): (r: seq<Feedback>)
    requires forall j :: 0 <= j < |desc| ==> 0 <= desc[j] < |ps|
    ensures |r| == |desc|
  {
    seq(|desc|, j requires 0 <= j < |desc| => Removed(ps[desc[j]].id, desc[j] + 1))
  }

  /** The targets of a descending list as a set: its head and the targets of its tail. */
  lemma DropOfDescending(desc: seq<int>)
    requires desc != []
    ensures (set x | x in desc) == (set x | x in desc[1..]) + {desc[0]}
  {
    assert desc == [desc[0]] + desc[1..];
  }

  /** One unfolding of `rem` when the spliced point's id is unique and the target is in range. */
  lemma RemoveDescendingHead(ps: seq<Point>, desc: seq<int>)
    requires UniqueIds(ps) && desc != [] && 0 <= desc[0] < |ps| && |ps| > 1
    ensures var d := desc[0];
      var e := RemoveDescending(ps[..d] + ps[d + 1..], desc[1..]);
      RemoveDescending(ps, desc) == Effect(e.points, [Removed(ps[d].id, d + 1)] + e.feedback, e.threw)
  {
    var d := desc[0];
    var rest := ps[..d] + ps[d + 1..];
    assert SpliceStart(d, |ps|) == d;
    assert WithoutId(rest, ps[d].id) == rest by {
      SpliceThenRemoveUnique(ps, d);
    }
  }

  /** The removal lines of the tail read the same points before and after the splice. */
  lemma RemovedLinesHead(ps: seq<Point>, desc: seq<int>)
    requires desc != [] && 0 <= desc[0] < |ps|
    requires forall i :: 1 <= i < |desc| ==> 0 <= desc[i] < desc[0]
    ensures var d := desc[0];
      [Removed(ps[d].id, d + 1)] + RemovedLines(ps[..d] + ps[d + 1..], desc[1..]) == RemovedLines(ps, desc)
  {
    var d := desc[0];
    var rest := ps[..d] + ps[d + 1..];
    assert forall j :: 0 <= j < |desc| - 1 ==> rest[desc[1..][j]] == ps[desc[j + 1]];
  }

  /**
   * With unique ids and fewer descending in-range targets than points, `rem`
   * removes exactly the targeted indices, keeps the rest in order, and
   * reports one removal per target, highest index first.
   */
  lemma {:induction false} RemoveExactlyTargets(ps: seq<Point>, desc: seq<int>)
    requires UniqueIds(ps)
    requires forall i, j :: 0 <= i < j < |desc| ==> desc[i] > desc[j]
    requires forall i :: 0 <= i < |desc| ==> 0 <= desc[i] < |ps|
    requires |desc| < |ps|
    ensures var e := RemoveDescending(ps, desc);
      !e.threw && e.points == KeepIndices(ps, set x | x in desc) &&
      e.feedback == RemovedLines(ps, desc)
    decreases |desc|
  {
    if desc == [] {
      KeepIndicesInRange(ps, set x | x in desc, {});
      KeepIndicesAll(ps);
    } else {
      var d := desc[0];
      var rest := ps[..d] + ps[d + 1..];
      var tail := desc[1..];
      SpliceThenRemoveUnique(ps, d);
      DescendingTail(desc, d);
      RemoveExactlyTargets(rest, tail);
      RemoveDescendingHead(ps, desc);
      var dropTail := set x | x in tail;
      KeepIndicesAppend(ps[..d], ps[d + 1..], dropTail);
      KeepIndicesTop(ps, dropTail, d);
      DropOfDescending(desc);
      RemovedLinesHead(ps, desc);
    }
  }

  /**
   * `rem` over every index, highest first, with unique ids: all points but
   * the first are removed and reported, then the loop stops at the last
   * point with "cannot remove last point"; nothing throws.
   */
  lemma {:induction false} RemoveAllStopsAtLast(ps: seq<Point>, desc: seq<int>)
    requires UniqueIds(ps) && |ps| >= 1
    requires |desc| == |ps| && forall i :: 0 <= i < |desc| ==> desc[i] == |ps| - 1 - i
    ensures var e := RemoveDescending(ps, desc);
      !e.threw && e.points == [ps[0]] &&
      e.feedback == RemovedLines(ps, desc[..|ps| - 1]) + [CannotRemoveLast]
    decreases |ps|
  {
    if |ps| == 1 {
      RemoveLastOnly(ps, desc);
    } else {
      var d := |ps| - 1;
      var rest := ps[..d] + ps[d + 1..];
      assert |rest| == d && rest[0] == ps[0];
      SpliceThenRemoveUnique(ps, d);
      CountdownTail(desc, d);
      RemoveAllStopsAtLast(rest, desc[1..]);
      RemoveAllStep(ps, desc);
    }
  }

  /**
   * One step of `RemoveAllStopsAtLast`: when `rem` over the countdown on the
   * points without the last one stops at the first point, so does `rem` over
   * the full countdown, with the last point's removal line in front.
   */
  lemma RemoveAllStep(ps: seq<Point>, desc: seq<int>)
    requires UniqueIds(ps) && |ps| >= 2
    requires |desc| == |ps| && forall i :: 0 <= i < |desc| ==> desc[i] == |ps| - 1 - i
    requires var d := |ps| - 1;
      var e := RemoveDescending(ps[..d] + ps[d + 1..], desc[1..]);
      !e.threw && e.points == [ps[0]] &&
      e.feedback == RemovedLines(ps[..d] + ps[d + 1..], desc[1..][..d - 1]) + [CannotRemoveLast]
    ensures var e := RemoveDescending(ps, desc);
      !e.threw && e.points == [ps[0]] &&
      e.feedback == RemovedLines(ps, desc[..|ps| - 1]) + [CannotRemoveLast]
  {
    var d := |ps| - 1;
    var rest := ps[..d] + ps[d + 1..];
    var tail := desc[1..];
    var lines := RemovedLines(rest, tail[..d - 1]);
    var f := Removed(ps[d].id, d + 1);
    var e := RemoveDescending(rest, tail);
    assert RemoveDescending(ps, desc) == Effect(e.points, [f] + e.feedback, e.threw) by {
      RemoveDescendingHead(ps, desc);
    }
    CountdownLines(ps, desc);
    ConsThenLast(f, lines);
  }

  /** The removal lines of the countdown, last point first, then the rest after the splice. */
  lemma CountdownLines(ps: seq<Point>, desc: seq<int>)
    requires |ps| >= 2
    requires |desc| == |ps| && forall i :: 0 <= i < |desc| ==> desc[i] == |ps| - 1 - i
    ensures var d := |ps| - 1;
      [Removed(ps[d].id, d + 1)] + RemovedLines(ps[..d] + ps[d + 1..], desc[1..][..d - 1]) == RemovedLines(ps, desc[..d])
  {
    var d := |ps| - 1;
    CountdownTail(desc, d);
    var head := desc[..d];
    assert head[0] == d && head[1..] == desc[1..][..d - 1];
    RemovedLinesHead(ps, head);
  }

  /** The countdown from `d` without its head is the countdown from `d - 1`. */
  lemma CountdownTail(desc: seq<int>, d: nat)
    requires d >= 1 && |desc| == d + 1 && forall i :: 0 <= i < |desc| ==> desc[i] == d - i
    ensures desc[0] == d && |desc[1..]| == d
    ensures forall i :: 0 <= i < |desc[1..]| ==> desc[1..][i] == d - 1 - i
    ensures forall i :: 0 <= i < d ==> desc[..d][i] == d - i
  {
  }

  /** On a single point, `rem` stops at once with "cannot remove last point". */
  lemma RemoveLastOnly(ps: seq<Point>, desc: seq<int>)
    requires |ps| == 1 && |desc| == 1 && 0 <= desc[0] < 1
    ensures RemoveDescending(ps, desc) == Effect([ps[0]], RemovedLines(ps, desc[..0]) + [CannotRemoveLast], false)
  {
    assert ps == [ps[0]];
    assert RemovedLines(ps, desc[..0]) == [];
  }

  /** Regrouping a removal line, the lines after it and the final "cannot remove" line. */
  lemma ConsThenLast(f: Feedback, fs: seq<Feedback>)
    ensures [f] + (fs + [CannotRemoveLast]) == ([f] + fs) + [CannotRemoveLast]
  {
  }

  /** Dropping nothing keeps every point. */
  lemma {:induction false} KeepIndicesAll(ps: seq<Point>)
    ensures KeepIndices(ps, {}) == ps
  {
    if ps != [] {
      KeepIndicesAll(ps[..|ps| - 1]);
      assert ps[..|ps| - 1] + [ps[|ps| - 1]] == ps;
    }
  }

  function Pt(id: int, x: real): Point
  {
    Point(id, x, 0.5, 10.0, 1.0, 0.0, 0.0)
  }

  /**
   * Auto-extended points take their index as id, so a later `createPoint`
   * can repeat an id: ids [0, 1, 2, 3, 2]. Then `p(3).rem` splices index 2
   * (id 2) and `removePoint(2)` removes the other id-2 point: one command,
   * two points gone.
   */
  lemma DuplicateIdRemovesTwo()
    ensures var ps := [Pt(0, 0.24), Pt(1, 0.81), DefaultPoint(2), DefaultPoint(3), Pt(2, 0.1)];
      RemoveDescending(ps, [2]) == Effect([Pt(0, 0.24), Pt(1, 0.81), DefaultPoint(3)], [Removed(2, 3)], false)
  {
    var ps := [Pt(0, 0.24), Pt(1, 0.81), DefaultPoint(2), DefaultPoint(3), Pt(2, 0.1)];
    var rest := ps[..2] + ps[3..];
    assert rest == [Pt(0, 0.24), Pt(1, 0.81), DefaultPoint(3), Pt(2, 0.1)];
    assert rest[0].id == 0 && rest[1].id == 1 && rest[2].id == 3 && rest[3].id == 2;
    assert IndexOfId(rest, 2) == 3;
    assert WithoutId(rest, 2) == [Pt(0, 0.24), Pt(1, 0.81), DefaultPoint(3)];
  }

  /**
   * On the same registry `p(4,5).rem` removes index 4 and, through the
   * duplicate id, index 2; index 3 is then past the end, the splice removes
   * nothing and the run throws.
   */
  lemma DuplicateIdThrows()
    ensures var ps := [Pt(0, 0.24), Pt(1, 0.81), DefaultPoint(2), DefaultPoint(3), Pt(2, 0.1)];
      RemoveDescending(ps, [4, 3]) == Effect([Pt(0, 0.24), Pt(1, 0.81), DefaultPoint(3)], [Removed(2, 5)], true)
  {
    var ps := [Pt(0, 0.24), Pt(1, 0.81), DefaultPoint(2), DefaultPoint(3), Pt(2, 0.1)];
    var rest := ps[..4] + ps[5..];
    assert rest == [Pt(0, 0.24), Pt(1, 0.81), DefaultPoint(2), DefaultPoint(3)];
    assert rest[0].id == 0 && rest[1].id == 1 && rest[2].id == 2;
    assert IndexOfId(rest, 2) == 2;
    var left := WithoutId(rest, 2);
    assert left == [Pt(0, 0.24), Pt(1, 0.81), DefaultPoint(3)];
    assert RemoveDescending(left, [3]) == Effect(left, [], true);
  }

  // ---------------------------------------------------------------------
  // Setters

  /** The field a single-valued setter writes, by its lower-cased action name. */
  function FieldOf(action: string): Option<Field>
  {
    if action == "phase" then Some(Phase)
    else if action == "freq" then Some(Frequency)
    else if action == "ampl" then Some(Amplitude)
    else if action == "phasespeed" then Some(PhaseSpeed)
    else None
  }

  predicate IsSetter(action: string)
  {
    action == "xy" || FieldOf(action).Some?
  }

  function WithField(p: Point, f: Field, v: real): Point
  {
    match f
    case Phase => p.(phase := v)
    case Frequency => p.(frequency := v)
    case Amplitude => p.(amplitude := v)
    case PhaseSpeed => p.(phaseSpeed := v)
  }

  /** `argsStr.split(',').map(n => parseFloat(n.trim()))`; `None` is NaN. */
  function ArgValues(args: string): (r: seq<Option<real>>)
    ensures |r| == |SplitOn(args, {','})| && |r| >= 1
  {
    var pieces := SplitOn(args, {','});
    seq(|pieces|, i requires 0 <= i < |pieces| => ParseFloat(Trim(pieces[i])))
  }

  /** The setter's argument count: two for `xy`, one otherwise. */
  function Arity(action: string): nat
  {
    if action == "xy" then 2 else 1
  }

  /** The arguments are accepted: the right count, and every one a number. */
  predicate ArgsAccepted(action: string, vals: seq<Option<real>>)
  {
    |vals| == Arity(action) && forall i :: 0 <= i < |vals| ==> vals[i].Some?
  }

  /** The setter branch: argument checks, then the field writes over the targets. */
  function RunSetter(ps: seq<Point>, action: string, args: Option<string>, targets: seq<int>, cmd: string): Effect
    requires IsSetter(action) && TargetsFit(targets, |ps|)
  {
    if args.None? || args.value == [] then Effect(ps, [NoArgs(action, cmd)], false)
    else
      var vals := ArgValues(args.value);
      if action == "xy" && |vals| == 2 && vals[0].Some? && vals[1].Some? then
        var x, y := vals[0].value, vals[1].value;
        if WritesThrow(targets) then Effect(ps, [], true)
        else
          FitNonNegative(targets, |ps|);
          Effect(Edit(ps, targets, MoveTo(x, y)), [SetXY(x, y, OneBased(targets))], false)
      else if action != "xy" && |vals| == 1 && vals[0].Some? then
        var v, fld := vals[0].value, FieldOf(action).value;
        if WritesThrow(targets) then Effect(ps, [], true)
        else
          FitNonNegative(targets, |ps|);
          Effect(Edit(ps, targets, SetTo(fld, v)), [SetField(fld, v, OneBased(targets))], false)
      else Effect(ps, [InvalidArgs(action, cmd)], false)
  }

  /** Fitting targets whose first is not negative are all indices of the registry. */
  lemma FitNonNegative(targets: seq<int>, n: nat)
    requires TargetsFit(targets, n) && !WritesThrow(targets)
    ensures forall j :: 0 <= j < |targets| ==> 0 <= targets[j] < n
  {
    forall j | 0 < j < |targets| ensures targets[0] < targets[j] { }
  }

  /** The argument test the setter branch spells out index by index is "right count, all numbers". */
  lemma AcceptedShape(action: string, vals: seq<Option<real>>)
    ensures ArgsAccepted(action, vals) <==>
      (action == "xy" && |vals| == 2 && vals[0].Some? && vals[1].Some?) ||
      (action != "xy" && |vals| == 1 && vals[0].Some?)
  {
  }

  /** A setter without arguments (none, or empty parentheses) reports it and changes nothing. */
  lemma SetterNoArgs(ps: seq<Point>, action: string, args: Option<string>, targets: seq<int>, cmd: string)
    requires IsSetter(action) && TargetsFit(targets, |ps|)
    requires args.None? || args.value == []
    ensures RunSetter(ps, action, args, targets, cmd) == Effect(ps, [NoArgs(action, cmd)], false)
  {
  }

  /** Arguments of the wrong count or not numbers are reported and change nothing. */
  lemma SetterRejected(ps: seq<Point>, action: string, args: string, targets: seq<int>, cmd: string)
    requires IsSetter(action) && TargetsFit(targets, |ps|)
    requires args != [] && !ArgsAccepted(action, ArgValues(args))
    ensures RunSetter(ps, action, Some(args), targets, cmd) == Effect(ps, [InvalidArgs(action, cmd)], false)
  {
    AcceptedShape(action, ArgValues(args));
  }

  /** Accepted arguments on a `p(0)`-style target throw before anything is written. */
  lemma SetterThrows(ps: seq<Point>, action: string, args: string, targets: seq<int>, cmd: string)
    requires IsSetter(action) && TargetsFit(targets, |ps|)
    requires args != [] && ArgsAccepted(action, ArgValues(args)) && WritesThrow(targets)
    ensures RunSetter(ps, action, Some(args), targets, cmd) == Effect(ps, [], true)
  {
    AcceptedShape(action, ArgValues(args));
  }

  /**
   * Accepted arguments write the setter's field(s) on every target and on no
   * other point; every other field keeps its value.
   */
  lemma SetterWrites(ps: seq<Point>, action: string, args: string, targets: seq<int>, cmd: string)
    requires IsSetter(action) && TargetsFit(targets, |ps|)
    requires args != [] && ArgsAccepted(action, ArgValues(args)) && !WritesThrow(targets)
    ensures var e := RunSetter(ps, action, Some(args), targets, cmd);
      !e.threw && |e.points| == |ps| &&
      (forall k :: 0 <= k < |ps| && k !in targets ==> e.points[k] == ps[k]) &&
      (forall j :: 0 <= j < |targets| ==>
        var vals, before := ArgValues(args), ps[targets[j]];
        e.points[targets[j]] ==
          if action == "xy" then before.(x := vals[0].value, y := vals[1].value)
          else WithField(before, FieldOf(action).value, vals[0].value))
  {
    AcceptedShape(action, ArgValues(args));
    FitNonNegative(targets, |ps|);
    var vals := ArgValues(args);
    var e := RunSetter(ps, action, Some(args), targets, cmd);
    var w := if action == "xy" then MoveTo(vals[0].value, vals[1].value) else SetTo(FieldOf(action).value, vals[0].value);
    assert e.points == Edit(ps, targets, w);
    EditFrame(ps, targets, w);
  }

  // ---------------------------------------------------------------------
  // circle and grid

  /** `Math.ceil(Math.sqrt(n))` for a natural number: the least `r` with `r * r >= n`. */
  function CeilSqrt(n: nat): (r: nat)
    ensures r * r >= n
    ensures r == 0 || (r - 1) * (r - 1) < n
  {
    CeilSqrtFrom(n, 0)
  }

  function CeilSqrtFrom(n: nat, k: nat): (r: nat)
    requires k == 0 || (k - 1) * (k - 1) < n
    ensures r * r >= n
    ensures r == 0 || (r - 1) * (r - 1) < n
    decreases n - k
  {
    if k * k >= n then k
    else
      assert k <= k * k;
      CeilSqrtFrom(n, k + 1)
  }

  /** No smaller side fits `n` cells. */
  lemma CeilSqrtLeast(n: nat, m: nat)
    requires m * m >= n
    ensures m >= CeilSqrt(n)
  {
    var r := CeilSqrt(n);
    if r > 0 {
      MulMonoIf(m, m, r - 1);
      MulMonoIf(r - 1, m, r - 1);
    }
  }

  lemma MulMonoIf(n: nat, a: nat, b: nat)
    ensures a <= b ==> n * a <= n * b
  {
    if a <= b {
      assert n * b - n * a == n * (b - a);
    }
  }

  /** `step = n > 1 ? span / (n - 1) : 0` with span 0.5. */
  function GridStep(n: nat): real
  {
    if n > 1 then 0.5 / (n - 1) as real else 0.0
  }

  /** Rank `i` goes to column `i % n`, row `floor(i / n)`, offset from 0.5 - span/2 = 0.25. */
  function GridPos(i: nat, n: nat): UV
    requires n > 0
  {
    UV(0.25 + (i % n) as real * GridStep(n), 0.25 + (i / n) as real * GridStep(n))
  }

  /** A coordinate at cell `c` of an `n`-cell row lies in [0.25, 0.75]. */
  lemma CellInRange(c: nat, n: nat)
    requires c < n
    ensures 0.25 <= 0.25 + c as real * GridStep(n) <= 0.75
  {
    if n > 1 {
      var d := (n - 1) as real;
      var q := 0.5 / d;
      assert q * d == 0.5;
      assert c as real <= d;
      assert c as real * q <= d * q;
    }
  }

  lemma RowBelow(i: nat, n: nat)
    requires n > 0 && i < n * n
    ensures i / n < n
  {
    MulMonoIf(n, n, i / n);
    assert i == n * (i / n) + i % n;
  }

  /** With `n = ceil(sqrt N)`, every one of the `N` targets lands inside [0.25, 0.75]². */
  lemma GridInRange(count: nat, i: nat)
    requires i < count
    ensures CeilSqrt(count) > 0
    ensures var p := GridPos(i, CeilSqrt(count)); 0.25 <= p.x <= 0.75 && 0.25 <= p.y <= 0.75
  {
    var n := CeilSqrt(count);
    RowBelow(i, n);
    CellInRange(i % n, n);
    CellInRange(i / n, n);
  }

  /** Two different targets never share a grid position. */
  lemma GridDistinct(count: nat, i: nat, j: nat)
    requires i < count && j < count && i != j
    ensures CeilSqrt(count) > 1
    ensures GridPos(i, CeilSqrt(count)) != GridPos(j, CeilSqrt(count))
  {
    var n := CeilSqrt(count);
    SideAboveOne(count, n);
    CellsApart(i, j, n);
  }

  /** Two or more cells need a side of at least 2. */
  lemma SideAboveOne(count: nat, n: nat)
    requires count >= 2 && n * n >= count
    ensures n > 1
  {
    MulMonoIf(n, n, 1);
  }

  /** On a side of at least 2, different ranks get different cells. */
  lemma CellsApart(i: nat, j: nat, n: nat)
    requires n > 1 && i != j
    ensures GridPos(i, n) != GridPos(j, n)
  {
    CellsDiffer(i, j, n);
    var step := GridStep(n);
    assert step > 0.0;
    ScaleInjective((i % n) as real, (j % n) as real, step);
    ScaleInjective((i / n) as real, (j / n) as real, step);
  }

  lemma CellsDiffer(i: nat, j: nat, n: nat)
    requires n > 0 && i != j
    ensures i % n != j % n || i / n != j / n
  {
    assert i == n * (i / n) + i % n;
    assert j == n * (j / n) + j % n;
  }

  lemma ScaleInjective(a: real, b: real, s: real)
    requires s > 0.0
    ensures a != b ==> 0.25 + a * s != 0.25 + b * s
  {
    assert 0.25 + a * s - (0.25 + b * s) == (a - b) * s;
  }

  /** The `circle` action: the caller's `position(j, N)` for the target of rank `j` of `N`. */
  function ArrangeCircle(ps: seq<Point>, targets: seq<int>, position: (nat, nat) -> UV): (r: seq<Point>)
    requires forall j :: 0 <= j < |targets| ==> 0 <= targets[j] < |ps|
  {
    Edit(ps, targets, OnCircle(position, |targets|))
  }

  /** The `grid` action on `N > 0` targets. */
  function ArrangeGrid(ps: seq<Point>, targets: seq<int>): (r: seq<Point>)
    requires forall j :: 0 <= j < |targets| ==> 0 <= targets[j] < |ps|
  {
    Edit(ps, targets, OnGrid(CeilSqrt(|targets|)))
  }

  /**
   * The grid moves exactly the targets, the one of rank `j` to cell `j` of
   * the `n` by `n` grid (`n` the ceiling of the square root of the count),
   * which lies inside [0.25, 0.75]²; every other field is kept and no other
   * point is touched.
   */
  lemma ArrangeGridFrame(ps: seq<Point>, targets: seq<int>)
    requires forall j :: 0 <= j < |targets| ==> 0 <= targets[j] < |ps|
    requires StrictlyIncreasing(targets)
    ensures |ArrangeGrid(ps, targets)| == |ps|
    ensures forall k :: 0 <= k < |ps| && k !in targets ==> ArrangeGrid(ps, targets)[k] == ps[k]
    ensures forall j :: 0 <= j < |targets| ==>
      var p, q, n := ps[targets[j]], ArrangeGrid(ps, targets)[targets[j]], CeilSqrt(|targets|);
      n > 0 && q == p.(x := GridPos(j, n).x, y := GridPos(j, n).y)
    ensures forall j :: 0 <= j < |targets| ==>
      var q := ArrangeGrid(ps, targets)[targets[j]];
      0.25 <= q.x <= 0.75 && 0.25 <= q.y <= 0.75
  {
    var n := CeilSqrt(|targets|);
    if targets != [] {
      EditFrame(ps, targets, OnGrid(n));
      forall j | 0 <= j < |targets| ensures 0.25 <= GridPos(j, n).x <= 0.75 && 0.25 <= GridPos(j, n).y <= 0.75 {
        GridInRange(|targets|, j);
      }
    }
  }

  /** The circle moves exactly the targets and keeps every other field. */
  lemma ArrangeCircleFrame(ps: seq<Point>, targets: seq<int>, position: (nat, nat) -> UV)
    requires forall j :: 0 <= j < |targets| ==> 0 <= targets[j] < |ps|
    requires StrictlyIncreasing(targets)
    ensures |ArrangeCircle(ps, targets, position)| == |ps|
    ensures forall k :: 0 <= k < |ps| && k !in targets ==> ArrangeCircle(ps, targets, position)[k] == ps[k]
    ensures forall j :: 0 <= j < |targets| ==>
      ArrangeCircle(ps, targets, position)[targets[j]] ==
        ps[targets[j]].(x := position(j, |targets|).x, y := position(j, |targets|).y)
  {
    EditFrame(ps, targets, OnCircle(position, |targets|));
  }

  // ---------------------------------------------------------------------
  // One point command

  /** The action branch on the grown registry, the action already lower-cased. */
  function RunAction(ps: seq<Point>, action: string, args: Option<string>, targets: seq<int>, cmd: string,
                     position: (nat, nat) -> UV): Effect
    requires TargetsFit(targets, |ps|)
  {
    if action == "rem" then RemoveDescending(ps, Reverse(targets))
    else if IsSetter(action) then RunSetter(ps, action, args, targets, cmd)
    else if action == "circle" || action == "grid" then
      if targets == [] then Effect(ps, [NoTargets(action, cmd)], false)
      else if WritesThrow(targets) then Effect(ps, [], true)
      else
        FitNonNegative(targets, |ps|);
        if action == "circle" then Effect(ArrangeCircle(ps, targets, position), [ArrangedCircle(OneBased(targets))], false)
        else Effect(ArrangeGrid(ps, targets), [ArrangedGrid(OneBased(targets), CeilSqrt(|targets|))], false)
    else Effect(ps, [UnknownAction(action, cmd)], false)
  }

  /**
   * `rem` on fewer in-range targets than points, with unique ids: exactly the
   * targeted points go, the rest keep their order, and each target is
   * reported once, from the highest index down.
   */
  lemma RemRemovesTargets(ps: seq<Point>, args: Option<string>, targets: seq<int>, cmd: string,
                          position: (nat, nat) -> UV)
    requires UniqueIds(ps) && TargetsFit(targets, |ps|) && |targets| < |ps|
    requires forall j :: 0 <= j < |targets| ==> targets[j] >= 0
    ensures var e := RunAction(ps, "rem", args, targets, cmd, position);
      !e.threw && e.points == KeepIndices(ps, set x | x in targets) &&
      e.feedback == RemovedLines(ps, Reverse(targets))
  {
    var desc := Reverse(targets);
    assert (set x | x in desc) == (set x | x in targets);
    assert forall i :: 0 <= i < |desc| ==> desc[i] in targets;
    RemoveExactlyTargets(ps, desc);
  }

  /**
   * `p.rem` on a list with unique ids: the targets are every index, so all
   * points but the first go, each reported, and the batch ends with
   * "cannot remove last point".
   */
  lemma RemAllStopsAtLast(ps: seq<Point>, args: Option<string>, cmd: string, position: (nat, nat) -> UV)
    requires UniqueIds(ps) && |ps| >= 1
    ensures TargetsFit(seq(|ps|, i => i), |ps|)
    ensures var e := RunAction(ps, "rem", args, seq(|ps|, i => i), cmd, position);
      !e.threw && e.points == [ps[0]] &&
      e.feedback == RemovedLines(ps, Reverse(seq(|ps|, i => i))[..|ps| - 1]) + [CannotRemoveLast]
  {
    var all := seq(|ps|, i => i);
    var desc := Reverse(all);
    assert forall i :: 0 <= i < |desc| ==> desc[i] == |ps| - 1 - i;
    RemoveAllStopsAtLast(ps, desc);
  }

  /** A parsed point command: targets, extension, then the action. */
  function RunPoint(ps: seq<Point>, pc: PointCmd, cmd: string, position: (nat, nat) -> UV): Effect
  {
    var targets := SelectorTargets(pc.selector, |ps|);
    var grown := Extend(ps, MaxTarget(targets));
    var e := RunAction(grown.0, LowerStr(pc.action), pc.args, targets, cmd, position);
    Effect(e.points, grown.1 + e.feedback, e.threw)
  }

  /** The action name is matched case-insensitively. */
  lemma ActionCaseInsensitive(ps: seq<Point>, pc: PointCmd, action: string, cmd: string, position: (nat, nat) -> UV)
    requires LowerStr(action) == LowerStr(pc.action)
    ensures RunPoint(ps, pc.(action := action), cmd, position) == RunPoint(ps, pc, cmd, position)
  {
  }

  /**
   * Extension happens first and whatever the action: the feedback starts with
   * one "created" line per appended point, and an unknown action leaves the
   * grown registry as it is.
   */
  lemma ExtensionFirst(ps: seq<Point>, pc: PointCmd, cmd: string, position: (nat, nat) -> UV)
    ensures var targets := SelectorTargets(pc.selector, |ps|);
      var grown := Extend(ps, MaxTarget(targets));
      var e := RunPoint(ps, pc, cmd, position);
      |grown.1| == |grown.0| - |ps| && e.feedback[..|grown.1|] == grown.1 &&
      (forall j :: 0 <= j < |targets| ==> targets[j] < |grown.0|) &&
      (var action := LowerStr(pc.action);
       action != "rem" && !IsSetter(action) && action != "circle" && action != "grid" ==>
         e == Effect(grown.0, grown.1 + [UnknownAction(action, cmd)], false))
  {
    var targets := SelectorTargets(pc.selector, |ps|);
    ExtendShape(ps, MaxTarget(targets));
  }

  /** `circle` or `grid` with no target reports it and changes nothing beyond the extension. */
  lemma ArrangeNoTargets(ps: seq<Point>, action: string, args: Option<string>, cmd: string, position: (nat, nat) -> UV)
    requires action == "circle" || action == "grid"
    ensures RunAction(ps, action, args, [], cmd, position) == Effect(ps, [NoTargets(action, cmd)], false)
  {
  }

  // ---------------------------------------------------------------------
  // Blend commands

  /** `table[m]` when it is not `undefined`: an own entry's code, else a member inherited from `Object.prototype`. */
  function BlendLookup(table: map<string, int>, m: string): Option<BlendValue>
  {
    if m in table then Some(Code(table[m]))
    else if m in InheritedKeys then Some(Inherited(m))
    else None
  }

  /**
   * `b.mode(NAME)`: the name is trimmed and lower-cased and looked up in the
   * context's table; reading a name from a missing table throws.
   */
  function RunBlend(st: State, cmd: string, modes: BlendTable): Outcome
    requires StartsBlend(cmd)
  {
    match ParseBlendCmd(cmd)
    case Some((act, Some(args))) =>
      if LowerStr(act) == "mode" && args != [] then
        var m := LowerStr(Trim(args));
        if modes.None? then Outcome(st, [], true)
        else match BlendLookup(modes.value, m)
          case Some(v) => Outcome(st.(blendMode := v), [BlendSet(m)], false)
          case None => Outcome(st, [InvalidBlend(m, cmd)], false)
      else Outcome(st, [UnknownBlend(cmd)], false)
    case _ => Outcome(st, [UnknownBlend(cmd)], false)
  }

  /**
   * `b.mode(NAME)` written out, with `m` the trimmed, lower-cased name: an
   * empty name is an unknown command; otherwise a missing table throws, a
   * table name sets its code, `constructor` or `__proto__` (when the table
   * has no such entry) sets the inherited member, and any other name reports
   * "invalid" and keeps the mode. The points never change.
   */
  lemma BlendModeCommand(st: State, name: string, modes: BlendTable)
    requires ')' !in name
    ensures StartsBlend("b.mode(" + name + ")")
    ensures var cmd, m := "b.mode(" + name + ")", LowerStr(Trim(name));
      var o := RunBlend(st, cmd, modes);
      (name == [] ==> o == Outcome(st, [UnknownBlend(cmd)], false)) &&
      (name != [] && modes.None? ==> o == Outcome(st, [], true)) &&
      (name != [] && modes.Some? && m in modes.value ==>
        o == Outcome(st.(blendMode := Code(modes.value[m])), [BlendSet(m)], false)) &&
      (name != [] && modes.Some? && m !in modes.value && m in InheritedKeys ==>
        o == Outcome(st.(blendMode := Inherited(m)), [BlendSet(m)], false)) &&
      (name != [] && modes.Some? && m !in modes.value && m !in InheritedKeys ==>
        o == Outcome(st, [InvalidBlend(m, cmd)], false))
  {
    var cmd := "b.mode(" + name + ")";
    BlendCmdShape(name);
    ParseTailText("mode", Some(name));
    assert ParseBlendCmd(cmd) == Some(("mode", Some(name)));
    assert LowerStr("mode") == "mode";
    if name != [] && modes.Some? {
      var m := LowerStr(Trim(name));
      assert RunBlend(st, cmd, modes) == match BlendLookup(modes.value, m)
        case Some(v) => Outcome(st.(blendMode := v), [BlendSet(m)], false)
        case None => Outcome(st, [InvalidBlend(m, cmd)], false);
    }
  }

  lemma BlendCmdShape(name: string)
    ensures |"b.mode(" + name + ")"| >= 2
    ensures ("b.mode(" + name + ")")[0] == 'b' && ("b.mode(" + name + ")")[1] == '.'
    ensures ("b.mode(" + name + ")")[2..] == TailText("mode", Some(name))
  {
  }

  /** `b.mode` without arguments is an unknown blend command, with or without a table. */
  lemma BlendModeMissing(st: State, modes: BlendTable)
    ensures StartsBlend("b.mode")
    ensures RunBlend(st, "b.mode", modes) == Outcome(st, [UnknownBlend("b.mode")], false)
  {
    assert "b.mode"[2..] == TailText("mode", None);
    ParseTailText("mode", None);
  }

  /**
   * Whatever it says, a blend command never touches the points; a throw
   * (only without a table) changes nothing; with the GUI's table the mode
   * stays, becomes a code 0 to 6, or becomes one of the two inherited members.
   */
  lemma BlendCommandEffect(st: State, cmd: string, modes: BlendTable)
    requires StartsBlend(cmd)
    ensures RunBlend(st, cmd, modes).state.points == st.points
    ensures RunBlend(st, cmd, modes).threw ==> modes.None? && RunBlend(st, cmd, modes) == Outcome(st, [], true)
    ensures modes == Some(BlendModes) ==>
      var v := RunBlend(st, cmd, modes).state.blendMode;
      v == st.blendMode || (v.Code? && 0 <= v.code <= 6) || (v.Inherited? && v.key in InheritedKeys)
  {
    match ParseBlendCmd(cmd)
    case Some((act, Some(args))) =>
      var m := LowerStr(Trim(args));
      if LowerStr(act) == "mode" && args != [] && modes == Some(BlendModes) && m in BlendModes {
        BlendCodeRange(m);
      }
    case _ =>
  }

  /** Every code in the table is one the shader knows, 0 to 6. */
  lemma BlendCodeRange(m: string)
    requires m in BlendModes
    ensures 0 <= BlendModes[m] <= 6
  {
  }

  /** The table has no `constructor` or `__proto__` entry of its own, so those two names reach `Object.prototype`. */
  lemma InheritedNamesMissTable(st: State, name: string)
    requires name == "constructor" || name == "__proto__"
    ensures RunBlend(st, "b.mode(" + name + ")", Some(BlendModes)) ==
      Outcome(st.(blendMode := Inherited(name)), [BlendSet(name)], false)
  {
    TrimTrimmed(name);
    LowerStrNoUpper(name);
    assert name !in BlendModes;
    BlendModeCommand(st, name, Some(BlendModes));
  }

  // ---------------------------------------------------------------------
  // Particle commands

  /** The particle parameters `part.` commands would edit. */
  datatype ParticleParams = ParticleParams(forceEffect: real, info: string)

  /**
   * The `part.` branch as written: `part.force(V)` sets the force effect
   * from `parseFloat(V)`, `part.info(S)` sets the info text (empty without
   * arguments). No statement reaches it (see `PartCommandUnrecognized`).
   */
  function RunPart(params: ParticleParams, cmd: string): (r: (ParticleParams, Feedback))
    requires StartsPart(cmd)
    ensures r.0.forceEffect != params.forceEffect ==> r.1 == ForceSet(r.0.forceEffect)
    ensures r.0.info != params.info ==> r.1 == InfoSet(r.0.info)
    ensures r.1.ForceSet? || r.1.InfoSet? || r.0 == params
    ensures ParsePartCmd(cmd).None? ==> r == (params, UnknownParticle(cmd))
  {
    match ParsePartCmd(cmd)
    case None => (params, UnknownParticle(cmd))
    case Some((act, args)) =>
      if LowerStr(act) == "force" && args.Some? && args.value != [] then
        match ParseFloat(args.value)
        case Some(v) => (params.(forceEffect := v), ForceSet(v))
        case None => (params, InvalidForce(cmd))
      else if LowerStr(act) == "info" then
        var info := if args.Some? then args.value else [];
        (params.(info := info), InfoSet(info))
      else (params, UnknownParticle(cmd))
  }

  /**
   * `part.WORD(ARGS)` written out: `force` with a number sets exactly the
   * force to `parseFloat(ARGS)`, `force` with a non-number is reported
   * invalid, `info` sets exactly the info text (empty without arguments),
   * and any other word, or `force` without an argument, is unknown.
   */
  lemma PartCommandEffect(params: ParticleParams, word: string, args: Option<string>)
    requires WellFormedTail(word, args)
    ensures StartsPart("part." + TailText(word, args))
    ensures var cmd := "part." + TailText(word, args);
      var r := RunPart(params, cmd);
      var force := LowerStr(word) == "force" && args.Some? && args.value != [];
      (force && ParseFloat(args.value).Some? ==>
        r == (params.(forceEffect := ParseFloat(args.value).value), ForceSet(ParseFloat(args.value).value))) &&
      (force && ParseFloat(args.value).None? ==> r == (params, InvalidForce(cmd))) &&
      (!force && LowerStr(word) == "info" ==>
        r == (params.(info := if args.Some? then args.value else []), InfoSet(if args.Some? then args.value else []))) &&
      (!force && LowerStr(word) != "info" ==> r == (params, UnknownParticle(cmd)))
  {
    var cmd := "part." + TailText(word, args);
    assert cmd[..4] == "part" && cmd[4] == '.';
    assert LowerStr("part") == "part";
    assert cmd[5..] == TailText(word, args);
    ParseTailText(word, args);
  }

  // ---------------------------------------------------------------------
  // Statements and scripts

  /** One trimmed, non-empty statement: the `p` prefix first, then `b.`, else an unknown prefix. */
  function RunStatement(st: State, cmd: string, position: (nat, nat) -> UV, modes: BlendTable): Outcome
  {
    if cmd != [] && Lower(cmd[0]) == 'p' then
      match ParsePointCmd(cmd)
      case None => Outcome(st, [UnrecognizedPoint(cmd)], false)
      case Some(pc) =>
        var e := RunPoint(st.points, pc, cmd, position);
        Outcome(st.(points := e.points), e.feedback, e.threw)
    else if StartsBlend(cmd) then RunBlend(st, cmd, modes)
    else Outcome(st, [UnrecognizedPrefix(cmd)], false)
  }

  /** The statements in order; a throw ends the run with the state reached so far. */
  function RunAll(st: State, cmds: seq<string>, position: (nat, nat) -> UV, modes: BlendTable): Outcome
    decreases |cmds|
  {
    if cmds == [] then Outcome(st, [], false)
    else
      var o := RunStatement(st, cmds[0], position, modes);
      if o.threw then o
      else
        var rest := RunAll(o.state, cmds[1..], position, modes);
        Outcome(rest.state, o.feedback + rest.feedback, rest.threw)
  }

  /** `interpretCommand(script, context)` on the part of the context it can change. */
  function Interpret(st: State, script: string, position: (nat, nat) -> UV, modes: BlendTable): Outcome
  {
    RunAll(st, Statements(script), position, modes)
  }

  /** Running `a` then, unless it threw, `b` from where `a` left off. */
  function Then(o: Outcome, cmds: seq<string>, position: (nat, nat) -> UV, modes: BlendTable): Outcome
  {
    if o.threw then o
    else
      var rest := RunAll(o.state, cmds, position, modes);
      Outcome(rest.state, o.feedback + rest.feedback, rest.threw)
  }

  /**
   * A run is its first statement's outcome `o` and then, unless that threw,
   * the rest of the run from the state `o` left, with `o`'s feedback first.
   */
  lemma RunAllFirst(st: State, cmd: string, later: seq<string>, position: (nat, nat) -> UV, modes: BlendTable, o: Outcome)
    requires RunStatement(st, cmd, position, modes) == o
    ensures RunAll(st, [cmd] + later, position, modes) == Then(o, later, position, modes)
  {
    assert ([cmd] + later)[0] == cmd && ([cmd] + later)[1..] == later;
  }

  lemma {:induction false} RunAllAppend(st: State, a: seq<string>, b: seq<string>, position: (nat, nat) -> UV, modes: BlendTable)
    ensures RunAll(st, a + b, position, modes) == Then(RunAll(st, a, position, modes), b, position, modes)
    decreases |a|
  {
    if a != [] {
      assert (a + b)[0] == a[0] && (a + b)[1..] == a[1..] + b;
      var o := RunStatement(st, a[0], position, modes);
      if !o.threw {
        RunAllAppend(o.state, a[1..], b, position, modes);
        ThenAfter(o.feedback, RunAll(o.state, a[1..], position, modes), b, position, modes);
      }
    } else {
      assert a + b == b;
      assert [] + RunAll(st, b, position, modes).feedback == RunAll(st, b, position, modes).feedback;
    }
  }

  /** Feedback `fb` reported before a run that goes on with `b` stays in front. */
  lemma ThenAfter(fb: seq<Feedback>, r: Outcome, b: seq<string>, position: (nat, nat) -> UV, modes: BlendTable)
    ensures Then(Outcome(r.state, fb + r.feedback, r.threw), b, position, modes) ==
      var t := Then(r, b, position, modes); Outcome(t.state, fb + t.feedback, t.threw)
  {
    if !r.threw {
      var rb := RunAll(r.state, b, position, modes);
      assert (fb + r.feedback) + rb.feedback == fb + (r.feedback + rb.feedback);
    }
  }

  /**
   * Statements run in order: `a;b` (or `a` newline `b`) is `a` followed, unless
   * it threw, by `b` from the state `a` left.
   */
  lemma ScriptInOrder(st: State, a: string, c: char, b: string, position: (nat, nat) -> UV, modes: BlendTable)
    requires c == ';' || c == '\n'
    ensures Interpret(st, a + [c] + b, position, modes) ==
      Then(Interpret(st, a, position, modes), Statements(b), position, modes)
  {
    StatementsOfSequence(a, c, b);
    RunAllAppend(st, Statements(a), Statements(b), position, modes);
  }

  /** A malformed point statement only adds its feedback line; the statements after it still run. */
  lemma MalformedContinues(st: State, cmd: string, rest: seq<string>, position: (nat, nat) -> UV, modes: BlendTable)
    requires cmd != [] && Lower(cmd[0]) == 'p' && ParsePointCmd(cmd).None?
    ensures RunAll(st, [cmd] + rest, position, modes) ==
      var o := RunAll(st, rest, position, modes); Outcome(o.state, [UnrecognizedPoint(cmd)] + o.feedback, o.threw)
  {
    assert ([cmd] + rest)[0] == cmd && ([cmd] + rest)[1..] == rest;
  }

  /** Every `part.` statement takes the point branch and fails its pattern: the particle branch is dead. */
  lemma PartCommandUnrecognized(st: State, cmd: string, position: (nat, nat) -> UV, modes: BlendTable)
    requires StartsPart(cmd)
    ensures RunStatement(st, cmd, position, modes) == Outcome(st, [UnrecognizedPoint(cmd)], false)
  {
    PartIsNotAPointCmd(cmd);
  }

  /** An empty or blank script changes nothing and says nothing. */
  lemma BlankScript(st: State, position: (nat, nat) -> UV, modes: BlendTable)
    ensures Interpret(st, "", position, modes) == Outcome(st, [], false)
  {
    assert SplitOn("", StatementSeparators) == [""];
    assert Trim("") == "";
    assert Statements("") == [];
  }

  /**
   * A script of one `b.mode(NAME)` statement with a non-empty name, run
   * without a blend table, throws before any feedback and leaves the state
   * as it was.
   */
  lemma BlendWithoutTableThrows(st: State, name: string, position: (nat, nat) -> UV)
    requires name != [] && ')' !in name && ';' !in name && '\n' !in name
    ensures Interpret(st, "b.mode(" + name + ")", position, None) == Outcome(st, [], true)
  {
    ModeScript(st, name, position, None);
    BlendModeCommand(st, name, None);
  }

  /**
   * Without a blend table, statements before a `b.mode(NAME)` keep their
   * edits and the run throws at the blend statement, so no feedback is
   * returned.
   */
  lemma BlendAfterEditsThrows(st: State, a: string, name: string, position: (nat, nat) -> UV)
    requires name != [] && ')' !in name && ';' !in name && '\n' !in name
    requires !Interpret(st, a, position, None).threw
    ensures var o := Interpret(st, a, position, None);
      Interpret(st, a + [';'] + ("b.mode(" + name + ")"), position, None) == Outcome(o.state, o.feedback, true)
  {
    var cmd := "b.mode(" + name + ")";
    var o := Interpret(st, a, position, None);
    ScriptInOrder(st, a, ';', cmd, position, None);
    ModeScript(o.state, name, position, None);
    BlendWithoutTableThrows(o.state, name, position);
    assert o.feedback + [] == o.feedback;
  }

  /** The same script run with the GUI's table sets the named mode's code and says so. */
  lemma BlendWithTableSets(st: State, name: string, position: (nat, nat) -> UV)
    requires name != [] && ')' !in name && ';' !in name && '\n' !in name
    requires LowerStr(Trim(name)) in BlendModes
    ensures var m := LowerStr(Trim(name));
      Interpret(st, "b.mode(" + name + ")", position, Some(BlendModes)) ==
      Outcome(st.(blendMode := Code(BlendModes[m])), [BlendSet(m)], false)
  {
    ModeScript(st, name, position, Some(BlendModes));
    BlendModeCommand(st, name, Some(BlendModes));
  }

  /** `b.mode(NAME)` without a separator in the name is a script of one blend statement. */
  lemma ModeScript(st: State, name: string, position: (nat, nat) -> UV, modes: BlendTable)
    requires ')' !in name && ';' !in name && '\n' !in name
    ensures StartsBlend("b.mode(" + name + ")") && Statements("b.mode(" + name + ")") == ["b.mode(" + name + ")"]
    ensures Interpret(st, "b.mode(" + name + ")", position, modes) == RunBlend(st, "b.mode(" + name + ")", modes)
  {
    var cmd := "b.mode(" + name + ")";
    BlendCmdShape(name);
    assert cmd[|cmd| - 1] == ')';
    assert '\n' !in "b.mode(" && ';' !in "b.mode(";
    SingleStatement(cmd);
    OneStatementScript(st, cmd, position, modes);
  }

  /** A script whose only statement is `cmd` runs as that statement. */
  lemma OneStatementScript(st: State, cmd: string, position: (nat, nat) -> UV, modes: BlendTable)
    requires Statements(cmd) == [cmd]
    ensures Interpret(st, cmd, position, modes) == RunStatement(st, cmd, position, modes)
  {
    var o := RunStatement(st, cmd, position, modes);
    assert [cmd][0] == cmd && [cmd][1..] == [];
    assert RunAll(o.state, [], position, modes) == Outcome(o.state, [], false);
    assert o.feedback + [] == o.feedback;
  }
}
