/** Rule conditions (server/engine/evaluator.go): `f == "v"`, `f != "v"`,
    `&&`, `||`, `!` and parentheses, evaluated against the packet's field map
    by recursive descent over a parenthesis-aware splitter. */
module Evaluator {
  import opened Wrappers
  import opened GoText
  import opened Values
  import opened Parser

  // ---------------------------------------------------------------------------
  // The operator splitter
  // ---------------------------------------------------------------------------

  /** Puts `t` in front of the first piece. */
  function PrependStr(t: string, parts: seq<string>): (r: seq<string>)
    requires |parts| >= 1
    ensures |r| == |parts| && r[0] == t + parts[0] && r[1..] == parts[1..]
  {
    [t + parts[0]] + parts[1..]
  }

  /** The pieces the splitter's scan produces from `s` when entered at
      parenthesis depth `depth`: the first piece is the text read before the
      first split point, and the last one is the text left when the scan ends
      (possibly empty). */
  function Segments(s: string, op: string, depth: int): (r: seq<string>)
    requires op != ""
    ensures |r| >= 1
    decreases |s|
  {
    if s == [] then [""]
    else if s[0] == '(' then PrependStr("(", Segments(s[1..], op, depth + 1))
    else if s[0] == ')' then PrependStr(")", Segments(s[1..], op, depth - 1))
    else if depth == 0 && HasPrefix(s, op) then [""] + Segments(s[|op|..], op, depth)
    else PrependStr([s[0]], Segments(s[1..], op, depth))
  }

  /** `strings.Join` with a separator string. */
  function JoinWith(parts: seq<string>, sep: string): string {
    if parts == [] then ""
    else if |parts| == 1 then parts[0]
    else parts[0] + sep + JoinWith(parts[1..], sep)
  }

  lemma JoinWithPrepend(t: string, parts: seq<string>, sep: string)
    requires |parts| >= 1
    ensures JoinWith(PrependStr(t, parts), sep) == t + JoinWith(parts, sep)
  {
    if |parts| > 1 {
      assert PrependStr(t, parts)[1..] == parts[1..];
    }
  }

  /** The pieces, joined with the operator, are the scanned text. */
  lemma {:induction false} JoinSegments(s: string, op: string, depth: int)
    requires op != ""
    ensures JoinWith(Segments(s, op, depth), op) == s
    decreases |s|
  {
    if s == [] {
    } else if s[0] == '(' || s[0] == ')' || !(depth == 0 && HasPrefix(s, op)) {
      var d := if s[0] == '(' then depth + 1 else if s[0] == ')' then depth - 1 else depth;
      JoinSegments(s[1..], op, d);
      JoinWithPrepend([s[0]], Segments(s[1..], op, d), op);
      assert [s[0]] + s[1..] == s;
    } else {
      JoinSegments(s[|op|..], op, depth);
      assert s == op + s[|op|..];
    }
  }

  /** Every piece is no longer than the text, and once the text has been split
      each piece is shorter than the text by at least the operator. */
  lemma {:induction false} SegmentsShorter(s: string, op: string, depth: int)
    requires op != ""
    ensures forall k :: 0 <= k < |Segments(s, op, depth)| ==> |Segments(s, op, depth)[k]| <= |s|
    ensures |Segments(s, op, depth)| > 1 ==>
      forall k :: 0 <= k < |Segments(s, op, depth)| ==> |Segments(s, op, depth)[k]| + |op| <= |s|
    decreases |s|
  {
    if s != [] {
      if s[0] == '(' || s[0] == ')' || !(depth == 0 && HasPrefix(s, op)) {
        var d := if s[0] == '(' then depth + 1 else if s[0] == ')' then depth - 1 else depth;
        SegmentsShorter(s[1..], op, d);
        var t := Segments(s[1..], op, d);
        assert Segments(s, op, depth) == PrependStr([s[0]], t);
      } else {
        SegmentsShorter(s[|op|..], op, depth);
        assert Segments(s, op, depth) == [""] + Segments(s[|op|..], op, depth);
      }
    }
  }

  /** `splitByOperator`: the scanned pieces without a trailing empty one, or
      the expression itself when that leaves nothing. */
  function SplitByOperatorSpec(expr: string, op: string): (parts: seq<string>)
    requires op != ""
    ensures |parts| >= 1
    ensures |parts| > 1 ==> forall k :: 0 <= k < |parts| ==> |parts[k]| < |expr|
  {
    var segs := Segments(expr, op, 0);
    var parts := if segs[|segs| - 1] == "" then segs[..|segs| - 1] else segs;
    SegmentsShorter(expr, op, 0);
    if parts == [] then [expr] else parts
  }

  lemma JoinWithDropLast(parts: seq<string>, sep: string)
    requires |parts| >= 2 && parts[|parts| - 1] == ""
    ensures JoinWith(parts, sep) == JoinWith(parts[..|parts| - 1], sep) + sep
    decreases |parts|
  {
    if |parts| > 2 {
      JoinWithDropLast(parts[1..], sep);
      assert parts[1..][..|parts| - 2] == parts[..|parts| - 1][1..];
    }
  }

  /** Joining the parts with the operator gives back the expression, except
      that a trailing empty part is dropped when the expression ends with the
      operator. */
  lemma SplitJoinsBack(expr: string, op: string)
    requires op != ""
    ensures var parts := SplitByOperatorSpec(expr, op);
      JoinWith(parts, op) == expr || (HasSuffix(expr, op) && JoinWith(parts, op) + op == expr)
  {
    var segs := Segments(expr, op, 0);
    JoinSegments(expr, op, 0);
    if segs[|segs| - 1] == "" && |segs| >= 2 {
      JoinWithDropLast(segs, op);
      var j := JoinWith(segs[..|segs| - 1], op);
      assert expr == j + op;
      assert expr[|expr| - |op|..] == op;
    }
  }

  /** An occurrence of the operator in `s` at position i found by the scan at
      depth 0, counting from entry depth `depth`. */
  function DepthAt(s: string, depth: int, i: nat): int
    requires i <= |s|
  {
    if i == 0 then depth
    else DepthAt(s, depth, i - 1) + (if s[i - 1] == '(' then 1 else if s[i - 1] == ')' then -1 else 0)
  }

  predicate TopLevelAt(s: string, op: string, depth: int, i: nat)
    requires i <= |s|
  {
    DepthAt(s, depth, i) == 0 && HasPrefix(s[i..], op)
  }

  /** Parentheses do not occur in the operators the evaluator splits on. */
  predicate ParenFree(op: string) {
    '(' !in op && ')' !in op
  }

  lemma {:induction false} DepthAtShift(s: string, depth: int, i: nat)
    requires 1 <= i <= |s|
    ensures DepthAt(s, depth, i) ==
      DepthAt(s[1..], depth + (if s[0] == '(' then 1 else if s[0] == ')' then -1 else 0), i - 1)
  {
    if i > 1 {
      DepthAtShift(s, depth, i - 1);
      assert s[1..][i - 2] == s[i - 1];
    }
  }

  /** A scan step that does not split is not at a depth-0 occurrence. */
  lemma NotTopLevelAtStart(s: string, op: string, depth: int)
    requires op != "" && ParenFree(op) && s != []
    requires s[0] == '(' || s[0] == ')' || !(depth == 0 && HasPrefix(s, op))
    ensures !TopLevelAt(s, op, depth, 0)
  {
    assert s[0..] == s;
    assert HasPrefix(s, op) ==> s[0] == op[0];
    assert op[0] in op;
  }

  /** Without a depth-0 occurrence of the operator the scan does not split. */
  lemma {:induction false} NoTopLevelNoSplit(s: string, op: string, depth: int)
    requires op != "" && ParenFree(op)
    requires forall i :: 0 <= i <= |s| ==> !TopLevelAt(s, op, depth, i)
    ensures |Segments(s, op, depth)| == 1
    decreases |s|
  {
    if s != [] {
      assert !TopLevelAt(s, op, depth, 0);
      assert s[0..] == s;
      var d := depth + (if s[0] == '(' then 1 else if s[0] == ')' then -1 else 0);
      forall i | 0 <= i <= |s[1..]| ensures !TopLevelAt(s[1..], op, d, i) {
        DepthAtShift(s, depth, i + 1);
        assert s[i + 1..] == s[1..][i..];
        assert !TopLevelAt(s, op, depth, i + 1);
      }
      NoTopLevelNoSplit(s[1..], op, d);
    }
  }

  /** A depth-0 occurrence of the operator makes the scan split. */
  lemma {:induction false} TopLevelSplits(s: string, op: string, depth: int, i: nat)
    requires op != "" && ParenFree(op)
    requires i <= |s| && TopLevelAt(s, op, depth, i)
    ensures |Segments(s, op, depth)| > 1
    decreases |s|
  {
    if s[0] == '(' || s[0] == ')' || !(depth == 0 && HasPrefix(s, op)) {
      var d := depth + (if s[0] == '(' then 1 else if s[0] == ')' then -1 else 0);
      NotTopLevelAtStart(s, op, depth);
      DepthAtShift(s, depth, i);
      assert s[i..] == s[1..][i - 1..];
      TopLevelSplits(s[1..], op, d, i - 1);
    }
  }

  /** A scan that does not split returns the whole text as its one piece. */
  lemma SingleSegmentIsText(s: string, op: string, depth: int)
    requires op != ""
    requires |Segments(s, op, depth)| == 1
    ensures Segments(s, op, depth) == [s]
  {
    JoinSegments(s, op, depth);
  }

  /** `splitByOperator` returns `[expr]` when the operator does not occur at
      parenthesis depth 0, and more than one part when it occurs there
      anywhere before the final position. */
  lemma SplitSingleIffNoTopLevel(expr: string, op: string)
    requires op != "" && ParenFree(op)
    ensures (forall i :: 0 <= i <= |expr| ==> !TopLevelAt(expr, op, 0, i)) ==> SplitByOperatorSpec(expr, op) == [expr]
    ensures (exists i :: 0 <= i <= |expr| && TopLevelAt(expr, op, 0, i) && i + |op| < |expr|) ==>
      |SplitByOperatorSpec(expr, op)| > 1
  {
    var segs := Segments(expr, op, 0);
    if forall i :: 0 <= i <= |expr| ==> !TopLevelAt(expr, op, 0, i) {
      NoTopLevelNoSplit(expr, op, 0);
      SingleSegmentIsText(expr, op, 0);
    } else if exists i :: 0 <= i <= |expr| && TopLevelAt(expr, op, 0, i) && i + |op| < |expr| {
      var i :| 0 <= i <= |expr| && TopLevelAt(expr, op, 0, i) && i + |op| < |expr|;
      TopLevelSplits(expr, op, 0, i);
      if |segs| == 2 && segs[1] == "" {
        // The only split point would be the final occurrence of the operator.
        SegmentsSingleSplit(expr, op, 0, i);
        assert false;
      }
    }
  }

  /** With exactly two pieces, the second empty, the only depth-0 occurrence
      of the operator is at the very end. */
  lemma {:induction false} SegmentsSingleSplit(s: string, op: string, depth: int, i: nat)
    requires op != "" && ParenFree(op)
    requires i <= |s| && TopLevelAt(s, op, depth, i)
    requires |Segments(s, op, depth)| == 2 && Segments(s, op, depth)[1] == ""
    ensures i + |op| >= |s|
    decreases |s|
  {
    if s[0] == '(' || s[0] == ')' || !(depth == 0 && HasPrefix(s, op)) {
      var d := depth + (if s[0] == '(' then 1 else if s[0] == ')' then -1 else 0);
      NotTopLevelAtStart(s, op, depth);
      DepthAtShift(s, depth, i);
      assert s[i..] == s[1..][i - 1..];
      SegmentsSingleSplit(s[1..], op, d, i - 1);
    } else {
      var rest := s[|op|..];
      assert Segments(rest, op, depth) == [""];
      JoinSegments(rest, op, depth);
      assert rest == "";
    }
  }

  lemma PrependTwice(a: string, b: string, parts: seq<string>)
    requires |parts| >= 1
    ensures PrependStr(a, PrependStr(b, parts)) == PrependStr(a + b, parts)
  {
    assert a + (b + parts[0]) == (a + b) + parts[0];
  }

  lemma PrependEmpty(parts: seq<string>)
    requires |parts| >= 1
    ensures PrependStr("", parts) == parts
  {
    assert "" + parts[0] == parts[0];
  }

  lemma PrependCut(done: seq<string>, current: string, parts: seq<string>)
    requires |parts| >= 1
    ensures done + PrependStr(current, [""] + parts) == (done + [current]) + PrependStr("", parts)
  {
    PrependEmpty(parts);
    assert current + "" == current;
    assert ([""] + parts)[1..] == parts;
  }

  /** When the scan ends, the pieces are the parts cut so far and the text
      read since the last cut. */
  lemma SplitFinish(expr: string, op: string, parts: seq<string>, current: string, depth: int, i: nat)
    requires op != "" && i == |expr|
    requires parts + PrependStr(current, Segments(expr[i..], op, depth)) == Segments(expr, op, 0)
    ensures SplitByOperatorSpec(expr, op) ==
      var kept := if |current| > 0 then parts + [current] else parts;
      if kept == [] then [expr] else kept
  {
    assert expr[i..] == [];
    assert current + "" == current;
    assert PrependStr(current, [""]) == [current];
    var segs := Segments(expr, op, 0);
    assert segs == parts + [current];
    assert segs[..|segs| - 1] == parts;
  }

  /** The scan's invariant: the pieces cut so far, then the current piece
      glued to the pieces of the text not yet read, are the pieces of the
      whole expression. */
  predicate ScanState(expr: string, op: string, parts: seq<string>, current: string, depth: int, i: nat)
    requires op != "" && i <= |expr|
  {
    parts + PrependStr(current, Segments(expr[i..], op, depth)) == Segments(expr, op, 0)
  }

  /** Reading one character that is not a depth-0 operator occurrence adds it
      to the current piece and moves the depth over a parenthesis. */
  lemma ScanChar(expr: string, op: string, parts: seq<string>, current: string, depth: int, i: nat)
    requires op != "" && i < |expr| && ScanState(expr, op, parts, current, depth, i)
    requires expr[i] == '(' || expr[i] == ')' || !(depth == 0 && i + |op| <= |expr| && expr[i..i + |op|] == op)
    ensures ScanState(expr, op, parts, current + [expr[i]],
                      depth + (if expr[i] == '(' then 1 else if expr[i] == ')' then -1 else 0), i + 1)
  {
    var rest := expr[i..];
    var d := depth + (if expr[i] == '(' then 1 else if expr[i] == ')' then -1 else 0);
    assert rest[1..] == expr[i + 1..];
    assert expr[i] != '(' && expr[i] != ')' ==> !(depth == 0 && HasPrefix(rest, op));
    assert Segments(rest, op, depth) == PrependStr([expr[i]], Segments(expr[i + 1..], op, d));
    PrependTwice(current, [expr[i]], Segments(expr[i + 1..], op, d));
  }

  /** Reading a depth-0 operator occurrence closes the current piece. */
  lemma ScanCut(expr: string, op: string, parts: seq<string>, current: string, i: nat)
    requires op != "" && i < |expr| && ScanState(expr, op, parts, current, 0, i)
    requires expr[i] != '(' && expr[i] != ')' && i + |op| <= |expr| && expr[i..i + |op|] == op
    ensures ScanState(expr, op, parts + [current], "", 0, i + |op|)
  {
    var rest := expr[i..];
    assert rest[..|op|] == op && rest[|op|..] == expr[i + |op|..];
    PrependCut(parts, current, Segments(expr[i + |op|..], op, 0));
  }

  /** `splitByOperator`: a scan that tracks the parenthesis depth and cuts at
      each depth-0 operator occurrence. */
  method SplitByOperator(expr: string, op: string) returns (parts: seq<string>)
    requires op != ""
    ensures parts == SplitByOperatorSpec(expr, op)
  {
    parts := [];
    var current := "";
    var depth := 0;
    var i := 0;
    assert expr[0..] == expr;
    PrependEmpty(Segments(expr, op, 0));
    while i < |expr|
      invariant 0 <= i <= |expr|
      invariant ScanState(expr, op, parts, current, depth, i)
    {
      if expr[i] == '(' {
        ScanChar(expr, op, parts, current, depth, i);
        depth := depth + 1;
        current := current + [expr[i]];
        i := i + 1;
      } else if expr[i] == ')' {
        ScanChar(expr, op, parts, current, depth, i);
        depth := depth - 1;
        current := current + [expr[i]];
        i := i + 1;
      } else if depth == 0 && i + |op| <= |expr| && expr[i..i + |op|] == op {
        ScanCut(expr, op, parts, current, i);
        parts := parts + [current];
        current := "";
        i := i + |op|;
      } else {
        ScanChar(expr, op, parts, current, depth, i);
        current := current + [expr[i]];
        i := i + 1;
      }
    }
    SplitFinish(expr, op, parts, current, depth, i);
    if |current| > 0 {
      parts := parts + [current];
    }
    if |parts| == 0 {
      parts := [expr];
    }
  }

  // ---------------------------------------------------------------------------
  // The comparison matcher (the two regular expressions)
  // ---------------------------------------------------------------------------

  /** The regular expression class `\w`. */
  predicate IsWordChar(c: char) {
    ('0' <= c <= '9') || ('A' <= c <= 'Z') || ('a' <= c <= 'z') || c == '_'
  }

  /** The regular expression class `\s` (RE2 syntax: no vertical tab). */
  predicate IsRegexSpace(c: char) {
    c == '\t' || c == '\n' || c == '\U{000C}' || c == '\r' || c == ' '
  }

  /** The end of the run of word characters starting at p. */
  function WordEnd(s: string, p: nat): (e: nat)
    requires p <= |s|
    ensures p <= e <= |s|
    ensures forall k :: p <= k < e ==> IsWordChar(s[k])
    ensures e == |s| || !IsWordChar(s[e])
    decreases |s| - p
  {
    if p < |s| && IsWordChar(s[p]) then WordEnd(s, p + 1) else p
  }

  /** The end of the run of `\s` characters starting at p. */
  function SpaceEnd(s: string, p: nat): (e: nat)
    requires p <= |s|
    ensures p <= e <= |s|
    ensures forall k :: p <= k < e ==> IsRegexSpace(s[k])
    ensures e == |s| || !IsRegexSpace(s[e])
    decreases |s| - p
  {
    if p < |s| && IsRegexSpace(s[p]) then SpaceEnd(s, p + 1) else p
  }

  /** The position of the next `"` at or after p, or the end. */
  function QuoteEnd(s: string, p: nat): (e: nat)
    requires p <= |s|
    ensures p <= e <= |s|
    ensures forall k :: p <= k < e ==> s[k] != '"'
    ensures e == |s| || s[e] == '"'
    decreases |s| - p
  {
    if p < |s| && s[p] != '"' then QuoteEnd(s, p + 1) else p
  }

  /** The two submatches of `(\w+)\s*OP\s*"([^"]*)"`. */
  datatype Comparison = Comparison(field: string, expected: string)

  /** A match of `(\w+)\s*OP\s*"([^"]*)"` starting at p: the greedy word
      run, spaces, the operator, spaces, a quote, everything up to the next
      quote, and that quote. Backtracking never helps: a shorter word run is
      followed by a word character, which neither `\s` nor the operator
      accepts. */
  function MatchAt(s: string, op: string, p: nat): (m: Option<Comparison>)
    requires p <= |s|
    ensures m.Some? ==> m.value.field != [] && forall k :: 0 <= k < |m.value.field| ==> IsWordChar(m.value.field[k])
    ensures m.Some? ==> '"' !in m.value.expected
  {
    var e := WordEnd(s, p);
    var a := SpaceEnd(s, e);
    if e == p || !HasPrefix(s[a..], op) then None
    else
      var b := SpaceEnd(s, a + |op|);
      if b == |s| || s[b] != '"' then None
      else
        var q := QuoteEnd(s, b + 1);
        if q == |s| then None else Some(Comparison(s[p..e], s[b + 1..q]))
  }

  /** `FindStringSubmatch`: the leftmost match, searching from p on. */
  function FindMatch(s: string, op: string, p: nat): (m: Option<Comparison>)
    requires p <= |s|
    ensures m.Some? ==> IsWord(m.value.field) && '"' !in m.value.expected
    decreases |s| - p
  {
    var here := MatchAt(s, op, p);
    if here.Some? || p == |s| then here else FindMatch(s, op, p + 1)
  }

  /** The search returns the match at the first position that has one. */
  lemma FindMatchLeftmost(s: string, op: string, p: nat, q: nat)
    requires p <= q <= |s|
    requires forall q' :: p <= q' < q ==> MatchAt(s, op, q').None?
    requires MatchAt(s, op, q).Some?
    ensures FindMatch(s, op, p) == MatchAt(s, op, q)
  {
    var f := (k: nat) => if k <= |s| then MatchAt(s, op, k) else None;
    FindMatchFirst(s, op, p);
    assert forall q' :: p <= q' < q ==> f(q').None?;
    FirstSomeLeftmost(f, p, q, |s|);
  }

  /** The first of f(p), ..., f(n) that is a value, or f(n). */
  ghost function FirstSome(f: nat -> Option<Comparison>, p: nat, n: nat): Option<Comparison>
    requires p <= n
    decreases n - p
  {
    if f(p).Some? || p == n then f(p) else FirstSome(f, p + 1, n)
  }

  lemma {:induction false} FirstSomeLeftmost(f: nat -> Option<Comparison>, p: nat, q: nat, n: nat)
    requires p <= q <= n
    requires forall q' :: p <= q' < q ==> f(q').None?
    requires f(q).Some?
    ensures FirstSome(f, p, n) == f(q)
    decreases q - p
  {
    if p < q {
      FirstSomeLeftmost(f, p + 1, q, n);
    }
  }

  /** `FindMatch` is the first-match search over the positions of the text. */
  lemma {:induction false} FindMatchFirst(s: string, op: string, p: nat)
    requires p <= |s|
    ensures FindMatch(s, op, p) == FirstSome((k: nat) => if k <= |s| then MatchAt(s, op, k) else None, p, |s|)
    decreases |s| - p
  {
    if p < |s| {
      FindMatchFirst(s, op, p + 1);
    }
  }

  /** The search fails exactly when no position matches. */
  lemma {:induction false} FindMatchNone(s: string, op: string, p: nat)
    requires p <= |s|
    ensures FindMatch(s, op, p).None? <==> forall q :: p <= q <= |s| ==> MatchAt(s, op, q).None?
    decreases |s| - p
  {
    if p < |s| && MatchAt(s, op, p).None? {
      FindMatchNone(s, op, p + 1);
    }
  }

  /** A match needs the operator somewhere in the text. */
  lemma NoOperatorNoMatch(s: string, op: string)
    requires forall i :: 0 <= i <= |s| ==> !HasPrefix(s[i..], op)
    ensures forall q :: 0 <= q <= |s| ==> MatchAt(s, op, q).None?
  {
    forall q | 0 <= q <= |s| ensures MatchAt(s, op, q).None? {
      var a := SpaceEnd(s, WordEnd(s, q));
      assert !HasPrefix(s[a..], op);
    }
  }

  // ---------------------------------------------------------------------------
  // Evaluation
  // ---------------------------------------------------------------------------

  /** `EvaluateCondition`'s field map: the definitions by name, the last one
      of each name winning. */
  function FieldMap(defs: seq<Field>): (m: map<string, Field>)
    ensures forall k :: k in m <==> exists i :: 0 <= i < |defs| && defs[i].name == k
  {
    if defs == [] then map[]
    else
      var init := defs[..|defs| - 1];
      var m := FieldMap(init);
      assert forall i :: 0 <= i < |init| ==> init[i] == defs[i];
      m[defs[|defs| - 1].name := defs[|defs| - 1]]
  }

  /** The loop of `EvaluateCondition` that builds the field map. */
  method BuildFieldMap(defs: seq<Field>) returns (m: map<string, Field>)
    ensures m == FieldMap(defs)
  {
    m := map[];
    var i := 0;
    while i < |defs|
      invariant 0 <= i <= |defs|
      invariant m == FieldMap(defs[..i])
    {
      assert defs[..i + 1][..i] == defs[..i];
      m := m[defs[i].name := defs[i]];
      i := i + 1;
    }
    assert defs[..i] == defs;
  }

  /** `compareField`: an undefined field is an error; otherwise the typed
      comparison of the field's current value, negated for `!=`. */
  function CompareField(name: string, expected: string, equality: bool,
                        fields: map<string, Value>, fmap: map<string, Field>): (r: Result<bool, EngineError>)
    ensures r.Err? <==> name !in fmap
    ensures r.Err? ==> r.error == FieldNotFound(name)
    ensures r.Ok? ==> r.value == (CompareFieldValue(Lookup(fields, name), expected, fmap[name].kind) == equality)
  {
    if name !in fmap then Err(FieldNotFound(name))
    else
      var result := CompareFieldValue(Lookup(fields, name), expected, fmap[name].kind);
      Ok(if equality then result else !result)
  }

  /** `evaluateComparison`: the `==` form is tried before the `!=` form, each
      found anywhere in the trimmed text. */
  function EvaluateComparison(expr: string, fields: map<string, Value>, fmap: map<string, Field>): Result<bool, EngineError> {
    var e := TrimSpace(expr);
    var eq := FindMatch(e, "==", 0);
    if eq.Some? then CompareField(eq.value.field, eq.value.expected, true, fields, fmap)
    else
      var ne := FindMatch(e, "!=", 0);
      if ne.Some? then CompareField(ne.value.field, ne.value.expected, false, fields, fmap)
      else Err(InvalidComparison(e))
  }

  /** `evaluateExpression`. */
  function Evaluate(expr: string, fields: map<string, Value>, fmap: map<string, Field>): Result<bool, EngineError>
    decreases |expr|, 1
  {
    var e := TrimSpace(expr);
    var orParts := SplitByOperatorSpec(e, "||");
    if |orParts| > 1 then
      Combine(PartResults(orParts, fields, fmap, |expr|), true)
    else
      var andParts := SplitByOperatorSpec(e, "&&");
      if |andParts| > 1 then
        Combine(PartResults(andParts, fields, fmap, |expr|), false)
      else if HasPrefix(e, "!") then
        match Evaluate(e[1..], fields, fmap)
        case Ok(b) => Ok(!b)
        case Err(err) => Err(err)
      else if HasPrefix(e, "(") && HasSuffix(e, ")") then
        WrappedLength(e);
        Evaluate(e[1..|e| - 1], fields, fmap)
      else EvaluateComparison(e, fields, fmap)
  }

  /** A string that starts with `(` and ends with `)` has both. */
  lemma WrappedLength(e: string)
    requires HasPrefix(e, "(") && HasSuffix(e, ")")
    ensures |e| >= 2
  {
    assert e[0] == e[..1][0] == '(';
    assert e[|e| - 1] == e[|e| - 1..][0] == ')';
  }

  /** The result of evaluating each part. */
  function PartResults(parts: seq<string>, fields: map<string, Value>, fmap: map<string, Field>, bound: nat)
    : (rs: seq<Result<bool, EngineError>>)
    requires forall k :: 0 <= k < |parts| ==> |parts[k]| < bound
    ensures |rs| == |parts| && forall k :: 0 <= k < |parts| ==> rs[k] == Evaluate(parts[k], fields, fmap)
    decreases bound, 0
  {
    seq(|parts|, k requires 0 <= k < |parts| => Evaluate(parts[k], fields, fmap))
  }

  /** The loops over the parts of an OR (`decisive` true) or an AND
      (`decisive` false), given the result of evaluating each part: the first
      part that evaluates to `decisive` decides, an error stops the loop, and
      if no part decides the result is the opposite of `decisive`. Evaluation
      has no side effects, so the parts after the deciding one do not
      matter. */
  function Combine(results: seq<Result<bool, EngineError>>, decisive: bool): Result<bool, EngineError> {
    if results == [] then Ok(!decisive)
    else
      match results[0]
      case Err(err) => Err(err)
      case Ok(b) => if b == decisive then Ok(decisive) else Combine(results[1..], decisive)
  }

  /** The condition of a rule: blank matches without reading any field. */
  function Condition(condition: string, fields: map<string, Value>, defs: seq<Field>): (r: Result<bool, EngineError>)
    ensures IsBlank(condition) ==> r == Ok(true)
  {
    if IsBlank(condition) then Ok(true) else Evaluate(condition, fields, FieldMap(defs))
  }

  /** `EvaluateCondition`. */
  method EvaluateCondition(condition: string, ctx: PacketContext, defs: seq<Field>) returns (r: Result<bool, EngineError>)
    ensures r == Condition(condition, ctx.fields, defs)
  {
    if TrimSpace(condition) == "" {
      return Ok(true);
    }
    var fmap := BuildFieldMap(defs);
    r := Evaluate(condition, ctx.fields, fmap);
  }

  // ---------------------------------------------------------------------------
  // Properties of evaluation
  // ---------------------------------------------------------------------------

  /** A blank condition matches whatever the fields hold. */
  lemma BlankConditionMatches(condition: string, fields: map<string, Value>, fields': map<string, Value>, defs: seq<Field>)
    requires IsBlank(condition)
    ensures Condition(condition, fields, defs) == Condition(condition, fields', defs) == Ok(true)
  {
  }

  /** The OR/AND loops: every part evaluating to the opposite of `decisive`
      is exactly what yields that opposite. */
  lemma {:induction false} CombineNoneDecides(results: seq<Result<bool, EngineError>>, decisive: bool)
    ensures Combine(results, decisive) == Ok(!decisive) <==>
      forall k :: 0 <= k < |results| ==> results[k] == Ok(!decisive)
  {
    if results != [] {
      CombineNoneDecides(results[1..], decisive);
      assert forall k :: 1 <= k < |results| ==> results[k] == results[1..][k - 1];
    }
  }

  /** The OR/AND loops: the first part that is decisive or an error decides,
      provided every earlier part evaluated to the opposite. */
  lemma {:induction false} CombineFirstDecides(results: seq<Result<bool, EngineError>>, decisive: bool, k: nat)
    requires k < |results|
    requires forall j :: 0 <= j < k ==> results[j] == Ok(!decisive)
    requires results[k] != Ok(!decisive)
    ensures Combine(results, decisive) == results[k]
  {
    if k > 0 {
      assert forall j :: 0 <= j < k - 1 ==> results[1..][j] == results[j + 1];
      CombineFirstDecides(results[1..], decisive, k - 1);
    }
  }

  /** `||` binds looser than `&&`: with two or more top-level OR parts the
      result is false exactly when every part evaluates to false. */
  lemma OrNone(expr: string, fields: map<string, Value>, fmap: map<string, Field>)
    requires |SplitByOperatorSpec(TrimSpace(expr), "||")| > 1
    ensures var parts := SplitByOperatorSpec(TrimSpace(expr), "||");
      Evaluate(expr, fields, fmap) == Ok(false) <==>
        forall j :: 0 <= j < |parts| ==> Evaluate(parts[j], fields, fmap) == Ok(false)
  {
    var parts := SplitByOperatorSpec(TrimSpace(expr), "||");
    CombineNoneDecides(PartResults(parts, fields, fmap, |expr|), true);
  }

  /** With two or more top-level OR parts, the first part that is not false
      (true or an error) is the result. */
  lemma OrFirst(expr: string, fields: map<string, Value>, fmap: map<string, Field>, k: nat)
    requires var parts := SplitByOperatorSpec(TrimSpace(expr), "||"); |parts| > 1 && k < |parts|
    requires var parts := SplitByOperatorSpec(TrimSpace(expr), "||");
      (forall j :: 0 <= j < k ==> Evaluate(parts[j], fields, fmap) == Ok(false)) &&
      Evaluate(parts[k], fields, fmap) != Ok(false)
    ensures Evaluate(expr, fields, fmap) == Evaluate(SplitByOperatorSpec(TrimSpace(expr), "||")[k], fields, fmap)
  {
    var parts := SplitByOperatorSpec(TrimSpace(expr), "||");
    var rs := PartResults(parts, fields, fmap, |expr|);
    assert Combine(rs, true) == rs[k] by {
      CombineFirstDecides(rs, true, k);
    }
  }

  /** Without a top-level OR, two or more top-level AND parts give true
      exactly when every part evaluates to true. */
  lemma AndNone(expr: string, fields: map<string, Value>, fmap: map<string, Field>)
    requires |SplitByOperatorSpec(TrimSpace(expr), "||")| == 1
    requires |SplitByOperatorSpec(TrimSpace(expr), "&&")| > 1
    ensures var parts := SplitByOperatorSpec(TrimSpace(expr), "&&");
      Evaluate(expr, fields, fmap) == Ok(true) <==>
        forall j :: 0 <= j < |parts| ==> Evaluate(parts[j], fields, fmap) == Ok(true)
  {
    var parts := SplitByOperatorSpec(TrimSpace(expr), "&&");
    CombineNoneDecides(PartResults(parts, fields, fmap, |expr|), false);
  }

  /** Without a top-level OR, the first AND part that is not true (false or
      an error) is the result. */
  lemma AndFirst(expr: string, fields: map<string, Value>, fmap: map<string, Field>, k: nat)
    requires |SplitByOperatorSpec(TrimSpace(expr), "||")| == 1
    requires var parts := SplitByOperatorSpec(TrimSpace(expr), "&&"); |parts| > 1 && k < |parts|
    requires var parts := SplitByOperatorSpec(TrimSpace(expr), "&&");
      (forall j :: 0 <= j < k ==> Evaluate(parts[j], fields, fmap) == Ok(true)) &&
      Evaluate(parts[k], fields, fmap) != Ok(true)
    ensures Evaluate(expr, fields, fmap) == Evaluate(SplitByOperatorSpec(TrimSpace(expr), "&&")[k], fields, fmap)
  {
    var parts := SplitByOperatorSpec(TrimSpace(expr), "&&");
    var rs := PartResults(parts, fields, fmap, |expr|);
    assert Combine(rs, false) == rs[k] by {
      CombineFirstDecides(rs, false, k);
    }
  }

  /** Without top-level `||` or `&&`, a leading `!` negates the rest and
      keeps its error. */
  lemma NotNegates(expr: string, fields: map<string, Value>, fmap: map<string, Field>)
    requires var e := TrimSpace(expr);
      |SplitByOperatorSpec(e, "||")| == 1 && |SplitByOperatorSpec(e, "&&")| == 1
    ensures var e := TrimSpace(expr);
      HasPrefix(e, "!") ==>
        && (Evaluate(expr, fields, fmap).Ok? <==> Evaluate(e[1..], fields, fmap).Ok?)
        && (Evaluate(expr, fields, fmap).Ok? ==> Evaluate(expr, fields, fmap).value == !Evaluate(e[1..], fields, fmap).value)
        && (Evaluate(expr, fields, fmap).Err? ==> Evaluate(expr, fields, fmap) == Evaluate(e[1..], fields, fmap))
  {
  }

  /** Without top-level `||`, `&&` or a leading `!`, a parenthesised
      expression evaluates as its interior. */
  lemma ParensEvaluateInterior(expr: string, fields: map<string, Value>, fmap: map<string, Field>)
    requires var e := TrimSpace(expr);
      |SplitByOperatorSpec(e, "||")| == 1 && |SplitByOperatorSpec(e, "&&")| == 1
    ensures var e := TrimSpace(expr);
      !HasPrefix(e, "!") && HasPrefix(e, "(") && HasSuffix(e, ")") ==>
        |e| >= 2 && Evaluate(expr, fields, fmap) == Evaluate(e[1..|e| - 1], fields, fmap)
  {
    var e := TrimSpace(expr);
    if !HasPrefix(e, "!") && HasPrefix(e, "(") && HasSuffix(e, ")") {
      WrappedLength(e);
    }
  }

  // The two comparison forms ---------------------------------------------------

  /** The text `name OP "value"`. */
  function ComparisonText(name: string, op: string, value: string): string {
    name + " " + op + " \"" + value + "\""
  }

  /** A field name the `\w+` group accepts. */
  predicate IsWord(name: string) {
    name != [] && forall k :: 0 <= k < |name| ==> IsWordChar(name[k])
  }

  /** A literal that neither the splitter nor the two patterns can misread:
      no quote, no `|`, `&` or `=`. */
  predicate IsPlainLiteral(value: string) {
    forall k :: 0 <= k < |value| ==> value[k] !in "\"|&="
  }

  lemma ComparisonTextShape(name: string, op: string, value: string)
    requires IsWord(name) && (op == "==" || op == "!=") && IsPlainLiteral(value)
    ensures var s := ComparisonText(name, op, value);
      && |s| == |name| + |value| + 6
      && s[..|name|] == name && s[|name|] == ' ' && s[|name| + 1..|name| + 3] == op && s[|name| + 3] == ' '
      && s[|name| + 4] == '"' && s[|name| + 5..|name| + 5 + |value|] == value && s[|s| - 1] == '"'
  {
  }

  /** The matcher reads `name OP "value"` back as its two submatches. */
  lemma MatchComparisonText(name: string, op: string, value: string)
    requires IsWord(name) && (op == "==" || op == "!=") && IsPlainLiteral(value)
    ensures FindMatch(ComparisonText(name, op, value), op, 0) == Some(Comparison(name, value))
  {
    var s := ComparisonText(name, op, value);
    var n := |name|;
    ComparisonTextScan(name, op, value);
    ComparisonTextShape(name, op, value);
    MatchAtEnds(s, op, 0, n, n + 1, n + 4, n + 5 + |value|);
    assert s[0..n] == name;
    FindMatchLeftmost(s, op, 0, 0);
  }

  /** The match at p, given where each of its scans stops. */
  lemma MatchAtEnds(s: string, op: string, p: nat, e: nat, a: nat, b: nat, q: nat)
    requires p < e <= |s| && WordEnd(s, p) == e && SpaceEnd(s, e) == a
    requires a + |op| <= |s| && s[a..a + |op|] == op && SpaceEnd(s, a + |op|) == b
    requires b < |s| && s[b] == '"' && QuoteEnd(s, b + 1) == q && q < |s|
    ensures MatchAt(s, op, p) == Some(Comparison(s[p..e], s[b + 1..q]))
  {
    assert s[a..][..|op|] == s[a..a + |op|];
  }

  /** Where the scans of the matcher stop in a comparison text. */
  lemma ComparisonTextScan(name: string, op: string, value: string)
    requires IsWord(name) && (op == "==" || op == "!=") && IsPlainLiteral(value)
    ensures var s := ComparisonText(name, op, value); var n := |name|;
      && WordEnd(s, 0) == n && SpaceEnd(s, n) == n + 1 && SpaceEnd(s, n + 3) == n + 4
      && QuoteEnd(s, n + 5) == n + 5 + |value|
  {
    ComparisonTextWords(name, op, value);
    ComparisonTextQuote(name, op, value);
  }

  lemma ComparisonTextWords(name: string, op: string, value: string)
    requires IsWord(name) && (op == "==" || op == "!=") && IsPlainLiteral(value)
    ensures var s := ComparisonText(name, op, value); var n := |name|;
      WordEnd(s, 0) == n && SpaceEnd(s, n) == n + 1 && SpaceEnd(s, n + 3) == n + 4
  {
    var s := ComparisonText(name, op, value);
    ComparisonTextShape(name, op, value);
    var n := |name|;
    assert WordEnd(s, 0) == n by {
      assert forall k :: 0 <= k < n ==> s[k] == name[k];
      WordEndAt(s, 0, n);
    }
    assert SpaceEnd(s, n + 1) == n + 1;
    assert SpaceEnd(s, n + 4) == n + 4;
  }

  lemma ComparisonTextQuote(name: string, op: string, value: string)
    requires IsWord(name) && (op == "==" || op == "!=") && IsPlainLiteral(value)
    ensures var s := ComparisonText(name, op, value);
      QuoteEnd(s, |name| + 5) == |name| + 5 + |value|
  {
    ComparisonTextShape(name, op, value);
    QuoteEndAfter(ComparisonText(name, op, value), |name| + 5, value);
  }

  /** A quote-free run followed by a quote ends where the quote is. */
  lemma QuoteEndAfter(s: string, p: nat, v: string)
    requires p + |v| < |s| && s[p..p + |v|] == v && s[p + |v|] == '"'
    requires forall k :: 0 <= k < |v| ==> v[k] != '"'
    ensures QuoteEnd(s, p) == p + |v|
  {
    forall k | p <= k < p + |v| ensures s[k] != '"' {
      assert s[k] == s[p..p + |v|][k - p];
    }
    QuoteEndAt(s, p, p + |v|);
  }

  lemma {:induction false} WordEndAt(s: string, p: nat, e: nat)
    requires p <= e <= |s|
    requires forall k :: p <= k < e ==> IsWordChar(s[k])
    requires e == |s| || !IsWordChar(s[e])
    ensures WordEnd(s, p) == e
    decreases e - p
  {
    if p < e {
      WordEndAt(s, p + 1, e);
    }
  }

  lemma {:induction false} QuoteEndAt(s: string, p: nat, e: nat)
    requires p <= e <= |s|
    requires forall k :: p <= k < e ==> s[k] != '"'
    requires e == |s| || s[e] == '"'
    ensures QuoteEnd(s, p) == e
    decreases e - p
  {
    if p < e {
      QuoteEndAt(s, p + 1, e);
    }
  }

  /** `name != "value"` holds no `==`, so the `==` pattern finds nothing. */
  lemma NoEqualsInNotEqual(name: string, value: string)
    requires IsWord(name) && IsPlainLiteral(value)
    ensures FindMatch(ComparisonText(name, "!=", value), "==", 0).None?
  {
    var s := ComparisonText(name, "!=", value);
    ComparisonTextShape(name, "!=", value);
    var n := |name|;
    forall i | 0 <= i <= |s| ensures !HasPrefix(s[i..], "==") {
      if i + 2 <= |s| {
        assert s[i..][..2] == [s[i], s[i + 1]];
        if i < n {
          assert s[i] == name[i];
        } else if n + 5 <= i < n + 5 + |value| {
          assert s[i] == value[i - n - 5];
        } else if i == n + 1 || i == n + 2 {
          assert s[n + 1..n + 3] == "!=";
          assert s[n + 1] == '!' && s[n + 3] == ' ';
        }
      }
    }
    NoOperatorNoMatch(s, "==");
    FindMatchNone(s, "==", 0);
  }

  /** A comparison text is already trimmed and starts with neither `!` nor
      `(`. */
  lemma ComparisonTextTrimmed(name: string, op: string, value: string)
    requires IsWord(name) && (op == "==" || op == "!=") && IsPlainLiteral(value)
    ensures var s := ComparisonText(name, op, value);
      TrimSpace(s) == s && !HasPrefix(s, "!") && !HasPrefix(s, "(")
  {
    var s := ComparisonText(name, op, value);
    assert s[0] == name[0] && IsWordChar(name[0]);
    assert s[|s| - 1] == '"';
    assert s[..1] == [s[0]];
    TrimSpaceOfTrimmed(s);
  }

  /** A comparison text has no top-level `||` or `&&`. */
  lemma ComparisonTextUnsplit(name: string, op: string, value: string)
    requires IsWord(name) && (op == "==" || op == "!=") && IsPlainLiteral(value)
    ensures var s := ComparisonText(name, op, value);
      SplitByOperatorSpec(s, "||") == [s] && SplitByOperatorSpec(s, "&&") == [s]
  {
    var s := ComparisonText(name, op, value);
    ComparisonTextLacks(name, op, value, '|');
    ComparisonTextLacks(name, op, value, '&');
    NoOperatorNoSplit(s, "||");
    NoOperatorNoSplit(s, "&&");
  }

  /** A character outside the name, the operator, the literal, the space and
      the quote does not occur in the comparison text. */
  lemma ComparisonTextLacks(name: string, op: string, value: string, c: char)
    requires IsWord(name) && (op == "==" || op == "!=") && IsPlainLiteral(value)
    requires !IsWordChar(c) && c in "|&"
    ensures c !in ComparisonText(name, op, value)
  {
    assert forall k :: 0 <= k < |name| ==> name[k] != c;
    assert forall k :: 0 <= k < |value| ==> value[k] != c;
  }

  lemma NoOperatorNoSplit(s: string, op: string)
    requires |op| == 2 && ParenFree(op) && op[0] !in s
    ensures SplitByOperatorSpec(s, op) == [s]
  {
    forall i | 0 <= i <= |s| ensures !TopLevelAt(s, op, 0, i) {
      if i < |s| {
        assert s[i..][0] == s[i] && s[i] in s;
      }
    }
    SplitSingleIffNoTopLevel(s, op);
  }

  /** A comparison written out as text evaluates as `compareField` on its
      two sides. */
  lemma ComparisonTextEvaluates(name: string, op: string, value: string, fields: map<string, Value>, fmap: map<string, Field>)
    requires IsWord(name) && (op == "==" || op == "!=") && IsPlainLiteral(value)
    ensures Evaluate(ComparisonText(name, op, value), fields, fmap) == CompareField(name, value, op == "==", fields, fmap)
  {
    ComparisonTextTrimmed(name, op, value);
    ComparisonTextUnsplit(name, op, value);
    MatchComparisonText(name, op, value);
    if op == "!=" {
      NoEqualsInNotEqual(name, value);
    }
  }

  /** For a defined field, `name != "value"` is exactly the negation of
      `name == "value"`. */
  lemma NotEqualNegatesEqual(name: string, value: string, fields: map<string, Value>, fmap: map<string, Field>)
    requires IsWord(name) && IsPlainLiteral(value) && name in fmap
    ensures Evaluate(ComparisonText(name, "==", value), fields, fmap).Ok?
    ensures Evaluate(ComparisonText(name, "!=", value), fields, fmap) ==
            Ok(!Evaluate(ComparisonText(name, "==", value), fields, fmap).value)
  {
    ComparisonTextEvaluates(name, "==", value, fields, fmap);
    ComparisonTextEvaluates(name, "!=", value, fields, fmap);
  }

  /** A comparison on a field the rule's field list does not define is an
      error, whichever form it takes. */
  lemma UndefinedFieldIsError(name: string, op: string, value: string, fields: map<string, Value>, fmap: map<string, Field>)
    requires IsWord(name) && (op == "==" || op == "!=") && IsPlainLiteral(value) && name !in fmap
    ensures Evaluate(ComparisonText(name, op, value), fields, fmap) == Err(FieldNotFound(name))
  {
    ComparisonTextEvaluates(name, op, value, fields, fmap);
  }

  /** Text matching neither pattern is an invalid comparison. */
  lemma UnmatchedTextIsError(expr: string, fields: map<string, Value>, fmap: map<string, Field>)
    requires var e := TrimSpace(expr);
      |SplitByOperatorSpec(e, "||")| == 1 && |SplitByOperatorSpec(e, "&&")| == 1
      && !HasPrefix(e, "!") && !HasPrefix(e, "(")
      && (forall q :: 0 <= q <= |e| ==> MatchAt(e, "==", q).None? && MatchAt(e, "!=", q).None?)
    ensures Evaluate(expr, fields, fmap) == Err(InvalidComparison(TrimSpace(expr)))
  {
    var e := TrimSpace(expr);
    assert TrimSpace(e) == e by {
      TrimSpaceIdempotent(expr);
    }
    assert FindMatch(e, "==", 0).None? && FindMatch(e, "!=", 0).None? by {
      FindMatchNone(e, "==", 0);
      FindMatchNone(e, "!=", 0);
    }
  }

  lemma TrimSpaceIdempotent(s: string)
    ensures TrimSpace(TrimSpace(s)) == TrimSpace(s)
  {
    TrimSpaceOfTrimmed(TrimSpace(s));
  }
}
