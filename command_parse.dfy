/**
 * The syntax side of `interpretCommand`: splitting a script into statements,
 * the three statement shapes (stand-ins for the source's regular
 * expressions) and the index selector with its ranges, deduplication and
 * sorting.
 */
module CommandParse {
  import opened Wrappers
  import opened Text

  const StatementSeparators: set<char> := {'\n', ';'}

  /** Trims every piece and drops the ones that are empty after trimming. */
  function TrimmedNonEmpty(pieces: seq<string>): (r: seq<string>)
    ensures |r| <= |pieces|
    ensures forall k :: 0 <= k < |r| ==> r[k] != [] && !IsSpace(r[k][0]) && !IsSpace(r[k][|r[k]| - 1])
  {
    if pieces == [] then []
    else
      var t := Trim(pieces[0]);
      (if t == [] then [] else [t]) + TrimmedNonEmpty(pieces[1..])
  }

  /** Trimming adds no character: pieces free of separators stay free of them. */
  lemma {:induction false} TrimmedNonEmptyChars(pieces: seq<string>, seps: set<char>)
    requires forall k, i :: 0 <= k < |pieces| && 0 <= i < |pieces[k]| ==> pieces[k][i] !in seps
    ensures forall k, i :: 0 <= k < |TrimmedNonEmpty(pieces)| && 0 <= i < |TrimmedNonEmpty(pieces)[k]| ==>
      TrimmedNonEmpty(pieces)[k][i] !in seps
  {
    if pieces != [] {
      TrimChars(pieces[0]);
      TrimmedNonEmptyChars(pieces[1..], seps);
    }
  }

  /**
   * `commandStr.split(/[\n;]+/).map(s => s.trim()).filter(s => s.length)`.
   * Splitting at every single separator gives the same list once the empty
   * pieces are filtered out, so the runs of the pattern need no extra case.
   */
  function Statements(script: string): (r: seq<string>)
    ensures forall k :: 0 <= k < |r| ==> r[k] != [] && !IsSpace(r[k][0]) && !IsSpace(r[k][|r[k]| - 1])
    ensures forall k, i :: 0 <= k < |r| && 0 <= i < |r[k]| ==> r[k][i] != '\n' && r[k][i] != ';'
  {
    TrimmedNonEmptyChars(SplitOn(script, StatementSeparators), StatementSeparators);
    TrimmedNonEmpty(SplitOn(script, StatementSeparators))
  }

  /** A string without separators splits into itself alone. */
  lemma {:induction false} SplitOnNoSeparator(s: string, seps: set<char>)
    requires forall i :: 0 <= i < |s| ==> s[i] !in seps
    ensures SplitOn(s, seps) == [s]
  {
    if s != [] {
      SplitOnNoSeparator(s[1..], seps);
      assert [s[0]] + s[1..] == s;
    }
  }

  /** Splitting `a`, a separator, `b` gives the pieces of `a` followed by those of `b`. */
  lemma {:induction false} SplitOnAppend(a: string, c: char, b: string, seps: set<char>)
    requires c in seps
    ensures SplitOn(a + [c] + b, seps) == SplitOn(a, seps) + SplitOn(b, seps)
  {
    var s := a + [c] + b;
    if a == [] {
      assert s[0] == c && s[1..] == b;
    } else {
      assert s[0] == a[0] && s[1..] == a[1..] + [c] + b;
      SplitOnAppend(a[1..], c, b, seps);
      var ra, rb := SplitOn(a[1..], seps), SplitOn(b, seps);
      if a[0] !in seps {
        GlueFirst([a[0]], ra, rb);
      } else {
        assert [[]] + (ra + rb) == ([[]] + ra) + rb;
      }
    }
  }

  /** Gluing `w` onto the first piece of `ra + rb` is gluing it onto the first piece of `ra`. */
  lemma GlueFirst(w: string, ra: seq<string>, rb: seq<string>)
    requires |ra| >= 1
    ensures [w + (ra + rb)[0]] + (ra + rb)[1..] == ([w + ra[0]] + ra[1..]) + rb
  {
    assert (ra + rb)[0] == ra[0] && (ra + rb)[1..] == ra[1..] + rb;
  }

  lemma {:induction false} TrimmedNonEmptyAppend(p: seq<string>, q: seq<string>)
    ensures TrimmedNonEmpty(p + q) == TrimmedNonEmpty(p) + TrimmedNonEmpty(q)
  {
    if p != [] {
      assert (p + q)[1..] == p[1..] + q;
      TrimmedNonEmptyAppend(p[1..], q);
    } else {
      assert p + q == q;
    }
  }

  /**
   * Statements keep their order: the statements of `a;b` (or `a` newline `b`)
   * are those of `a` followed by those of `b`.
   */
  lemma StatementsOfSequence(a: string, c: char, b: string)
    requires c == ';' || c == '\n'
    ensures Statements(a + [c] + b) == Statements(a) + Statements(b)
  {
    SplitOnAppend(a, c, b, StatementSeparators);
    TrimmedNonEmptyAppend(SplitOn(a, StatementSeparators), SplitOn(b, StatementSeparators));
  }

  /** A trimmed, non-empty statement without separators is the whole script's only statement. */
  lemma SingleStatement(s: string)
    requires s != [] && !IsSpace(s[0]) && !IsSpace(s[|s| - 1])
    requires '\n' !in s && ';' !in s
    ensures Statements(s) == [s]
  {
    SplitOnNoSeparator(s, StatementSeparators);
    assert SpacesFrom(s, 0) == 0;
    assert SpacesBefore(s, 0, |s|) == |s|;
    assert s[0..|s|] == s;
  }

  // ---------------------------------------------------------------------
  // Statement shapes

  /** The tail `(\w+)(?:\(([^)]*)\))?$` shared by the three statement patterns: a word and optional arguments. */
  function ParseTail(t: string): (r: Option<(string, Option<string>)>)
    ensures r.Some? ==> WellFormedTail(r.value.0, r.value.1)
  {
    var w := WordPrefix(t);
    var rest := t[|w|..];
    if w == [] then None
    else if rest == [] then Some((w, None))
    else if |rest| >= 2 && rest[0] == '(' && rest[|rest| - 1] == ')' && ')' !in rest[1..|rest| - 1] then
      Some((w, Some(rest[1..|rest| - 1])))
    else None
  }

  predicate IsWord(w: string)
  {
    w != [] && forall i :: 0 <= i < |w| ==> IsWordChar(w[i])
  }

  predicate WellFormedTail(word: string, args: Option<string>)
  {
    IsWord(word) && (args.Some? ==> ')' !in args.value)
  }

  function TailText(word: string, args: Option<string>): string
  {
    word + (if args.Some? then "(" + args.value + ")" else "")
  }

  /** The tail parser reads back exactly what `TailText` writes. */
  lemma ParseTailText(word: string, args: Option<string>)
    requires WellFormedTail(word, args)
    ensures ParseTail(TailText(word, args)) == Some((word, args))
  {
    var t := TailText(word, args);
    var w := WordPrefix(t);
    var x := if args.Some? then "(" + args.value + ")" else "";
    assert t == word + x;
    WordPrefixOfWord(word, x);
    assert w == word;
    if args.Some? {
      var rest := t[|w|..];
      assert rest == "(" + args.value + ")";
      assert rest[1..|rest| - 1] == args.value;
    }
  }

  /** The parsed form of `p(SELECTOR).ACTION(ARGS)`; the action is as written, not yet lower-cased. */
  datatype PointCmd = PointCmd(selector: Option<string>, action: string, args: Option<string>)

  /**
   * `/^p(?:\(([^)]+)\))?\.(\w+)(?:\(([^)]*)\))?$/i`: `p` or `P`, an optional
   * non-empty selector in parentheses up to the first `)`, a dot, a word,
   * optional arguments without `)` closed by the last character.
   */
  function ParsePointCmd(cmd: string): Option<PointCmd>
  {
    if cmd == [] || Lower(cmd[0]) != 'p' then None
    else if |cmd| >= 2 && cmd[1] == '(' then ParseSelected(cmd[2..])
    else if |cmd| >= 2 && cmd[1] == '.' then ParseAction(None, cmd[2..])
    else None
  }

  /** What follows `p(`: a non-empty selector up to the first `)`, then `.` and the tail. */
  function ParseSelected(b: string): Option<PointCmd>
  {
    var k := IndexOfChar(b, ')');
    if k <= 0 then None
    else
      var rest := b[k + 1..];
      if rest != [] && rest[0] == '.' then ParseAction(Some(b[..k]), rest[1..]) else None
  }

  /** What follows the dot: the action word and its optional arguments. */
  function ParseAction(selector: Option<string>, t: string): Option<PointCmd>
  {
    match ParseTail(t)
    case None => None
    case Some((w, args)) => Some(PointCmd(selector, w, args))
  }

  predicate WellFormedPointCmd(pc: PointCmd)
  {
    (pc.selector.Some? ==> pc.selector.value != [] && ')' !in pc.selector.value) &&
    WellFormedTail(pc.action, pc.args)
  }

  /** The text of a point command, written with a lower-case `p`. */
  function PointCmdText(pc: PointCmd): string
  {
    "p" + (if pc.selector.Some? then "(" + pc.selector.value + ")" else "") + "." + TailText(pc.action, pc.args)
  }

  /** Every well-formed point command is recognised, with its parts read back unchanged. */
  lemma ParsePointCmdText(pc: PointCmd)
    requires WellFormedPointCmd(pc)
    ensures ParsePointCmd(PointCmdText(pc)) == Some(pc)
  {
    var tail := TailText(pc.action, pc.args);
    ParseTailText(pc.action, pc.args);
    assert ParseAction(pc.selector, tail) == Some(pc);
    if pc.selector.Some? {
      var sel := pc.selector.value;
      var b := sel + [')'] + ("." + tail);
      SelectedCmdShape(sel, tail);
      ParseSelectedText(sel, tail);
      assert ParsePointCmd("p(" + b) == ParseSelected(b);
    } else {
      PlainCmdShape(tail);
      assert ParsePointCmd("p." + tail) == ParseAction(None, tail);
    }
  }

  lemma SelectedCmdShape(sel: string, tail: string)
    ensures "p" + ("(" + sel + ")") + "." + tail == "p(" + (sel + [')'] + ("." + tail))
    ensures ("p(" + (sel + [')'] + ("." + tail)))[2..] == sel + [')'] + ("." + tail)
  {
  }

  lemma PlainCmdShape(tail: string)
    ensures "p" + "" + "." + tail == "p." + tail
    ensures ("p." + tail)[2..] == tail
  {
  }

  lemma ParseSelectedText(sel: string, tail: string)
    requires sel != [] && ')' !in sel
    ensures ParseSelected(sel + [')'] + ("." + tail)) == ParseAction(Some(sel), tail)
  {
    var b := sel + [')'] + ("." + tail);
    IndexOfCharAfter(sel, ')', "." + tail);
    assert b[..|sel|] == sel;
    assert b[|sel| + 1..] == "." + tail;
  }

  /** Conversely, whatever the parser accepts is well formed and is the text of what it returns, up to the case of `p`. */
  lemma PointCmdOfParse(cmd: string)
    requires ParsePointCmd(cmd).Some?
    ensures WellFormedPointCmd(ParsePointCmd(cmd).value)
    ensures cmd[0] == 'p' || cmd[0] == 'P'
    ensures cmd[1..] == PointCmdText(ParsePointCmd(cmd).value)[1..]
  {
    assert Lower(cmd[0]) == 'p';
    if cmd[1] == '(' {
      SelectedCmdOfParse(cmd);
    } else {
      var pc := ParsePointCmd(cmd).value;
      var tail := TailText(pc.action, pc.args);
      ParseTailInverse(cmd[2..]);
      assert cmd[1..] == "." + cmd[2..];
      assert PointCmdText(pc) == "p" + ("." + tail);
    }
  }

  lemma SelectedCmdOfParse(cmd: string)
    requires |cmd| >= 2 && cmd[1] == '(' && ParseSelected(cmd[2..]).Some?
    ensures WellFormedPointCmd(ParseSelected(cmd[2..]).value)
    ensures cmd[1..] == PointCmdText(ParseSelected(cmd[2..]).value)[1..]
  {
    var b := cmd[2..];
    var pc := ParseSelected(b).value;
    SelectedOfParse(b);
    SelectedText(pc);
    var body := pc.selector.value + ")." + TailText(pc.action, pc.args);
    assert b == body;
    DropFirst(cmd);
  }

  lemma DropFirst(cmd: string)
    requires |cmd| >= 2
    ensures cmd[1..] == [cmd[1]] + cmd[2..]
  {
  }

  lemma SelectedText(pc: PointCmd)
    requires pc.selector.Some?
    ensures PointCmdText(pc)[1..] == "(" + (pc.selector.value + ")." + TailText(pc.action, pc.args))
  {
    var sel := pc.selector.value;
    var tail := TailText(pc.action, pc.args);
    var t := PointCmdText(pc);
    assert t == "p" + ("(" + sel + ")") + "." + tail;
    assert t[1..] == ("(" + sel + ")") + "." + tail;
  }

  lemma SelectedOfParse(b: string)
    requires ParseSelected(b).Some?
    ensures WellFormedPointCmd(ParseSelected(b).value)
    ensures ParseSelected(b).value.selector.Some?
    ensures b == ParseSelected(b).value.selector.value + ")." + TailText(ParseSelected(b).value.action, ParseSelected(b).value.args)
  {
    var k := IndexOfChar(b, ')');
    SelectedSplit(b, k);
    var t := b[k + 2..];
    var tr := ParseTail(t).value;
    SelectedJoin(b, k);
    ParseTailInverse(t);
    assert b == b[..k] + ")." + TailText(tr.0, tr.1);
  }

  /** Where `ParseSelected` cuts `b`: before the first `)`, and after the dot that must follow it. */
  lemma SelectedSplit(b: string, k: int)
    requires ParseSelected(b).Some? && k == IndexOfChar(b, ')')
    ensures 0 < k && k + 2 <= |b| && b[k] == ')' && b[k + 1] == '.'
    ensures ParseSelected(b) == ParseAction(Some(b[..k]), b[k + 2..])
  {
    assert ParseSelected(b) ==
      if k <= 0 then None
      else if b[k + 1..] != [] && b[k + 1..][0] == '.' then ParseAction(Some(b[..k]), b[k + 1..][1..])
      else None;
    var rest := b[k + 1..];
    assert rest[0] == b[k + 1] && rest[1..] == b[k + 2..];
  }

  lemma SelectedJoin(b: string, k: int)
    requires 0 <= k && k + 2 <= |b| && b[k] == ')' && b[k + 1] == '.'
    ensures b == b[..k] + ")." + b[k + 2..]
  {
    assert b == b[..k] + [b[k], b[k + 1]] + b[k + 2..];
  }

  lemma ParseTailInverse(t: string)
    requires ParseTail(t).Some?
    ensures t == TailText(ParseTail(t).value.0, ParseTail(t).value.1)
  {
    var w := WordPrefix(t);
    var rest := t[|w|..];
    assert t == w + rest;
    if rest != [] {
      assert rest == "(" + rest[1..|rest| - 1] + ")";
    }
  }

  /** `/^b\./i`: the statement is a blend command. */
  predicate StartsBlend(cmd: string)
  {
    |cmd| >= 2 && Lower(cmd[0]) == 'b' && cmd[1] == '.'
  }

  /** `/^b\.(\w+)(?:\(([^)]*)\))?$/i` on a statement that starts with `b.`. */
  function ParseBlendCmd(cmd: string): Option<(string, Option<string>)>
    requires StartsBlend(cmd)
  {
    ParseTail(cmd[2..])
  }

  /** `/^part\./i`: the statement is a particle command. */
  predicate StartsPart(cmd: string)
  {
    |cmd| >= 5 && LowerStr(cmd[..4]) == "part" && cmd[4] == '.'
  }

  /** `/^part\.(\w+)(?:\(([^)]*)\))?$/i` on a statement that starts with `part.`. */
  function ParsePartCmd(cmd: string): Option<(string, Option<string>)>
    requires StartsPart(cmd)
  {
    ParseTail(cmd[5..])
  }

  /** No statement that starts with `part.` has the point-command shape: its second character is a letter. */
  lemma PartIsNotAPointCmd(cmd: string)
    requires StartsPart(cmd)
    ensures Lower(cmd[0]) == 'p'
    ensures ParsePointCmd(cmd) == None
  {
    assert LowerStr(cmd[..4])[0] == 'p' && LowerStr(cmd[..4])[1] == 'a';
    assert Lower(cmd[1]) == 'a';
  }

  // ---------------------------------------------------------------------
  // Selectors

  /** `i - 1` for `i` from `a` to `b` inclusive (`for (let i = a; i <= b; i++) targetIndices.push(i-1)`). */
  function RangeTargets(a: int, b: int): (r: seq<int>)
    ensures |r| == (if a <= b then b - a + 1 else 0)
    ensures forall j :: 0 <= j < |r| ==> r[j] == a - 1 + j
  {
    seq(if a <= b then b - a + 1 else 0, j => a - 1 + j)
  }

  lemma CountInMember(s: string, c: char)
    requires c in s
    ensures CountIn(s, {c}) >= 1
  {
    if s[0] != c {
      assert c in s[1..];
      CountInMember(s[1..], c);
    }
  }

  /**
   * The 0-based indices one comma-separated selector part contributes: a
   * range `a-b` (the first two pieces around `-`), or a single index; a part
   * whose numbers read as NaN contributes nothing.
   */
  function PartTargets(part: string): seq<int>
  {
    if '-' in part then
      CountInMember(part, '-');
      var pieces := SplitOn(part, {'-'});
      var a := ParseInt(pieces[0]);
      var b := ParseInt(pieces[1]);
      if a.None? || b.None? then [] else RangeTargets(a.value, b.value)
    else
      var idx := ParseInt(part);
      if idx.None? then [] else [idx.value - 1]
  }

  /** The indices of the parts in order, each part's in its own order (the loop's pushes). */
  function RawTargets(parts: seq<string>): seq<int>
  {
    if parts == [] then [] else RawTargets(parts[..|parts| - 1]) + PartTargets(parts[|parts| - 1])
  }

  function TrimEach(pieces: seq<string>): (r: seq<string>)
    ensures |r| == |pieces| && forall i :: 0 <= i < |r| ==> r[i] == Trim(pieces[i])
  {
    seq(|pieces|, i requires 0 <= i < |pieces| => Trim(pieces[i]))
  }

  /** `indicesStr.split(',').map(s => s.trim())`. */
  function SelectorParts(sel: string): seq<string>
  {
    TrimEach(SplitOn(sel, {','}))
  }

  predicate StrictlyIncreasing(s: seq<int>)
  {
    forall i, j :: 0 <= i < j < |s| ==> s[i] < s[j]
  }

  /** Inserts `x` into a strictly increasing list unless it is already there. */
  function Insert(x: int, s: seq<int>): (r: seq<int>)
    requires StrictlyIncreasing(s)
    ensures StrictlyIncreasing(r)
    ensures forall v :: v in r <==> v == x || v in s
  {
    if s == [] then [x]
    else if x < s[0] then [x] + s
    else if x == s[0] then s
    else
      var t := Insert(x, s[1..]);
      assert forall j :: 0 <= j < |t| ==> s[0] < t[j] by {
        forall j | 0 <= j < |t|
          ensures s[0] < t[j]
        {
          assert t[j] in t;
          if t[j] != x {
            var m :| 0 <= m < |s[1..]| && s[1..][m] == t[j];
            assert s[m + 1] == t[j];
          }
        }
      }
      [s[0]] + t
  }

  /**
   * `Array.from(new Set(xs)).sort((a, b) => a - b)`: the distinct values of
   * `xs` in increasing order.
   */
  function Normalize(xs: seq<int>): (r: seq<int>)
    ensures StrictlyIncreasing(r)
    ensures forall v :: v in r <==> v in xs
  {
    if xs == [] then [] else Insert(xs[|xs| - 1], Normalize(xs[..|xs| - 1]))
  }

  /**
   * The 0-based target list of a point command: the parts' indices, or every
   * current index when there is no selector, deduplicated and sorted.
   */
  function SelectorTargets(sel: Option<string>, count: nat): seq<int>
  {
    Normalize(if sel.None? then seq(count, i => i) else RawTargets(SelectorParts(sel.value)))
  }

  /** Normalising a list that is already strictly increasing keeps it as it is. */
  lemma {:induction false} NormalizeIncreasing(xs: seq<int>)
    requires StrictlyIncreasing(xs)
    ensures Normalize(xs) == xs
  {
    if xs != [] {
      var init := xs[..|xs| - 1];
      NormalizeIncreasing(init);
      InsertLast(xs[|xs| - 1], init);
      assert init + [xs[|xs| - 1]] == xs;
    }
  }

  lemma {:induction false} InsertLast(x: int, s: seq<int>)
    requires StrictlyIncreasing(s) && forall v :: v in s ==> v < x
    ensures Insert(x, s) == s + [x]
  {
    if s != [] {
      assert s[0] in s;
      assert forall v :: v in s[1..] ==> v in s;
      InsertLast(x, s[1..]);
      assert [s[0]] + (s[1..] + [x]) == s + [x];
    }
  }

  /** Without a selector the targets are all current indices 0 .. count - 1, in order. */
  lemma NoSelectorTargetsAll(count: nat)
    ensures SelectorTargets(None, count) == seq(count, i => i)
  {
    NormalizeIncreasing(seq(count, i => i));
  }

  /** A selector part `k` (written in decimal) selects index `k - 1`. */
  lemma SinglePartTarget(k: nat)
    ensures PartTargets(NatToString(k)) == [k - 1]
  {
    ParseIntNatToString(k);
  }

  /** A selector part `a-b` selects `a - 1` through `b - 1`, nothing when `a > b`. */
  lemma RangePartTarget(a: nat, b: nat)
    ensures PartTargets(NatToString(a) + "-" + NatToString(b)) == RangeTargets(a, b)
  {
    var sa, sb := NatToString(a), NatToString(b);
    var part := sa + "-" + sb;
    assert part[|sa|] == '-';
    assert part == sa + ['-'] + sb;
    SplitOnAppend(sa, '-', sb, {'-'});
    SplitOnNoSeparator(sa, {'-'});
    SplitOnNoSeparator(sb, {'-'});
    ParseIntNatToString(a);
    ParseIntNatToString(b);
  }

  /** A part with no digit at all reads as NaN and contributes no index. */
  lemma PartWithoutDigits(part: string)
    requires forall i :: 0 <= i < |part| ==> !IsDigit(part[i])
    ensures PartTargets(part) == []
  {
    if '-' in part {
      CountInMember(part, '-');
      var pieces := SplitOn(part, {'-'});
      SplitOnChars(part, {'-'}, 0);
      NoDigitsParseInt(pieces[0]);
    } else {
      NoDigitsParseInt(part);
    }
  }

  /** Every character of a piece comes from the split string. */
  lemma {:induction false} SplitOnChars(s: string, seps: set<char>, k: nat)
    requires k < |SplitOn(s, seps)|
    ensures forall i :: 0 <= i < |SplitOn(s, seps)[k]| ==> SplitOn(s, seps)[k][i] in s
  {
    if s != [] {
      var rest := SplitOn(s[1..], seps);
      if s[0] in seps {
        if k > 0 { SplitOnChars(s[1..], seps, k - 1); }
      } else if k == 0 {
        SplitOnChars(s[1..], seps, 0);
      } else {
        SplitOnChars(s[1..], seps, k);
      }
    }
  }

  /** A string with no digit reads as NaN. */
  lemma NoDigitsParseInt(s: string)
    requires forall i :: 0 <= i < |s| ==> !IsDigit(s[i])
    ensures ParseInt(s) == None
  {
    var t := TrimStart(s);
    var rest := Sign(t).1;
    assert rest == t || rest == t[1..];
    assert rest == [] || !IsDigit(rest[0]);
  }
}
