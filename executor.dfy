/** The action executor: field updates ("set", int64 arithmetic, the output
    of a shell command) applied in order to a packet's field map. */
module Executor {
  import opened Wrappers
  import opened GoText
  import opened Values
  import opened Parser

  /** `Action`: which field to change, how, and with what. */
  datatype Action = Action(field: string, op: string, value: string)

  // ---------------------------------------------------------------------------
  // performArithmetic
  // ---------------------------------------------------------------------------

  function Abs(x: int): nat {
    if x < 0 then -x else x
  }

  /** Go's integer division, which truncates toward zero. */
  function TruncDiv(a: int, b: int): int
    requires b != 0
  {
    var q := Abs(a) / Abs(b);
    if (a < 0) == (b < 0) then q else -q
  }

  /** Truncating division leaves a remainder smaller than the divisor that
      is zero or has the sign of the dividend. */
  lemma TruncDivRemainder(a: int, b: int)
    requires b != 0
    ensures var r := a - TruncDiv(a, b) * b;
      Abs(r) < Abs(b) && (r == 0 || (r < 0) == (a < 0))
  {
    var q0 := Abs(a) / Abs(b);
    var r0 := Abs(a) % Abs(b);
    assert Abs(a) == q0 * Abs(b) + r0;
    if b < 0 {
      assert q0 * Abs(b) == -(q0 * b);
    } else {
      assert q0 * Abs(b) == q0 * b;
    }
    var q := TruncDiv(a, b);
    if (a < 0) == (b < 0) {
      assert q * b == q0 * b;
    } else {
      assert q * b == -(q0 * b);
    }
    if a < 0 {
      assert a - q * b == -r0;
    } else {
      assert a - q * b == r0;
    }
  }

  predicate IsArithmeticOp(op: string) {
    op == "add" || op == "sub" || op == "mul" || op == "div"
  }

  /** The current value as an int64: an int64, an int, or a string that
      `strconv.ParseInt` accepts in base 10. */
  function CurrentNumber(current: Value): (r: Result<int, EngineError>)
    ensures r.Ok? <==> current.I64? || current.I? || (current.Str? && ParseInt64(current.s).Ok?)
    ensures r.Ok? ==> InInt64(r.value)
    ensures r.Ok? && (current.I64? || current.I?) && InInt64(current.n) ==> r.value == current.n
    ensures r.Ok? && current.Str? ==> ParseInt64(current.s) == Ok(r.value)
    ensures r.Err? ==> r.error == (if current.Str? then NotANumber(current) else UnsupportedArithmetic(current))
  {
    match current
    case I64(n) => Ok(Wrap64(n))
    case I(n) => Ok(Wrap64(n))
    case Null => Err(UnsupportedArithmetic(current))
    case Str(s) =>
      match ParseInt64(s)
      case Ok(v) => Ok(v)
      case Err(_) => Err(NotANumber(current))
  }

  /** One int64 operation, wrapping around on overflow as Go does. */
  function Compute(op: string, current: int, operand: int): Result<int, EngineError> {
    if op == "add" then Ok(Wrap64(current + operand))
    else if op == "sub" then Ok(Wrap64(current - operand))
    else if op == "mul" then Ok(Wrap64(current * operand))
    else if op == "div" then
      if operand == 0 then Err(DivisionByZero) else Ok(Wrap64(TruncDiv(current, operand)))
    else Err(UnknownArithmetic(op))
  }

  /** The exact, unbounded result of an arithmetic operation on two
      integers; division truncates toward zero. */
  function Unbounded(op: string, c: int, o: int): int
    requires IsArithmeticOp(op) && (op == "div" ==> o != 0)
  {
    match op
    case "add" => c + o
    case "sub" => c - o
    case "mul" => c * o
    case _ => TruncDiv(c, o)
  }

  /** `performArithmetic`: the current value and the operand text as int64s,
      combined by `op`; the stored result is an int64. */
  function PerformArithmetic(current: Value, valueStr: string, op: string): (r: Result<Value, EngineError>)
    ensures r.Ok? <==>
      && CurrentNumber(current).Ok?
      && ParseInt64(valueStr).Ok?
      && IsArithmeticOp(op)
      && !(op == "div" && ParseInt64(valueStr).value == 0)
    ensures r.Ok? ==> r.value.I64? && InInt64(r.value.n)
    ensures CurrentNumber(current).Err? ==> r == Err(CurrentNumber(current).error)
    ensures CurrentNumber(current).Ok? && ParseInt64(valueStr).Err? ==> r == Err(InvalidOperand(valueStr))
    ensures op == "div" && CurrentNumber(current).Ok? && ParseInt64(valueStr) == Ok(0) ==> r == Err(DivisionByZero)
  {
    match CurrentNumber(current)
    case Err(e) => Err(e)
    case Ok(c) =>
      match ParseInt64(valueStr)
      case Err(_) => Err(InvalidOperand(valueStr))
      case Ok(o) =>
        match Compute(op, c, o)
        case Err(e) => Err(e)
        case Ok(n) => Ok(I64(n))
  }

  /** A successful operation stores the exact result of `op` on the two
      int64s when it fits in an int64, and otherwise the int64 congruent to
      it modulo 2^64, as Go's wrap-around gives. */
  lemma ArithmeticValue(current: Value, valueStr: string, op: string)
    requires PerformArithmetic(current, valueStr, op).Ok?
    ensures var n := PerformArithmetic(current, valueStr, op).value.n;
      var exact := Unbounded(op, CurrentNumber(current).value, ParseInt64(valueStr).value);
      (n - exact) % TwoTo64 == 0 && (InInt64(exact) ==> n == exact)
  {
    var c, o := CurrentNumber(current).value, ParseInt64(valueStr).value;
    ComputeWraps(op, c, o);
    WrappedExact(PerformArithmetic(current, valueStr, op).value.n, Unbounded(op, c, o));
  }

  /** Each operation Go performs is the wrapped exact result. */
  lemma ComputeWraps(op: string, c: int, o: int)
    requires IsArithmeticOp(op) && (op == "div" ==> o != 0)
    ensures Compute(op, c, o) == Ok(Wrap64(Unbounded(op, c, o)))
  {
  }

  /** What wrapping an integer into an int64 keeps of it. */
  lemma WrappedExact(n: int, x: int)
    requires n == Wrap64(x)
    ensures (n - x) % TwoTo64 == 0 && (InInt64(x) ==> n == x)
  {
  }

  /** Adding and then subtracting the same operand restores an int64 value,
      overflow or not. */
  lemma AddThenSub(c: int, valueStr: string)
    requires InInt64(c) && ParseInt64(valueStr).Ok?
    ensures PerformArithmetic(I64(c), valueStr, "add").Ok?
    ensures PerformArithmetic(PerformArithmetic(I64(c), valueStr, "add").value, valueStr, "sub") == Ok(I64(c))
  {
    var o := ParseInt64(valueStr).value;
    var s := Wrap64(c + o);
    assert PerformArithmetic(I64(c), valueStr, "add") == Ok(I64(s));
    Wrap64Congruent(c, s - o);
    assert CurrentNumber(I64(s)) == Ok(s);
  }

  /** Division by a non-zero operand stores the truncated quotient: the
      remainder is smaller than the operand and has the sign of the current
      value, unless the quotient overflows (only the most negative int64
      divided by -1 does). */
  lemma DivisionTruncates(current: Value, valueStr: string)
    requires CurrentNumber(current).Ok? && ParseInt64(valueStr).Ok? && ParseInt64(valueStr).value != 0
    ensures var c := CurrentNumber(current).value;
      var o := ParseInt64(valueStr).value;
      var r := PerformArithmetic(current, valueStr, "div");
      && r.Ok?
      && (InInt64(TruncDiv(c, o)) ==>
            var rem := c - r.value.n * o;
            Abs(rem) < Abs(o) && (rem == 0 || (rem < 0) == (c < 0)))
  {
    var c := CurrentNumber(current).value;
    var o := ParseInt64(valueStr).value;
    TruncDivRemainder(c, o);
  }

  // ---------------------------------------------------------------------------
  // executeAction
  // ---------------------------------------------------------------------------

  /** The field map after one action, or the action's error (the map is
      then left as it was). `shell` runs a command and yields its output, or
      None when the command fails. */
  function ActionResult(fields: map<string, Value>, action: Action, shell: string -> Option<string>): (r: Result<map<string, Value>, EngineError>)
    ensures r.Ok? ==> r.value.Keys == fields.Keys + {action.field}
    ensures r.Ok? ==> forall k :: k in fields && k != action.field ==> r.value[k] == fields[k]
  {
    if action.op == "set" then Ok(fields[action.field := Str(action.value)])
    else if IsArithmeticOp(action.op) then
      match PerformArithmetic(Lookup(fields, action.field), action.value, action.op)
      case Err(e) => Err(e)
      case Ok(v) => Ok(fields[action.field := v])
    else if action.op == "shell" then
      match shell(action.value)
      case None => Err(ShellFailed)
      case Some(out) => Ok(fields[action.field := Str(TrimSpace(out))])
    else Err(UnknownOperation(action.op))
  }

  /** `set` stores the literal text; arithmetic stores an int64. */
  lemma ActionStores(fields: map<string, Value>, action: Action, shell: string -> Option<string>)
    ensures action.op == "set" ==> ActionResult(fields, action, shell) == Ok(fields[action.field := Str(action.value)])
    ensures IsArithmeticOp(action.op) && ActionResult(fields, action, shell).Ok? ==>
      Lookup(ActionResult(fields, action, shell).value, action.field).I64?
  {
  }

  /** Only "set", the four arithmetic operations and "shell" are known. */
  lemma UnknownOperationFails(fields: map<string, Value>, action: Action, shell: string -> Option<string>)
    ensures ActionResult(fields, action, shell) == Err(UnknownOperation(action.op)) <==>
      !(action.op == "set" || IsArithmeticOp(action.op) || action.op == "shell")
  {
    if action.op == "set" || IsArithmeticOp(action.op) || action.op == "shell" {
      var r := ActionResult(fields, action, shell);
      assert r.Err? ==> r.error != UnknownOperation(action.op);
    }
  }

  /** Division by zero fails and so leaves the field as it was. */
  lemma DivisionByZeroFails(fields: map<string, Value>, field: string, shell: string -> Option<string>)
    requires CurrentNumber(Lookup(fields, field)).Ok?
    ensures ActionResult(fields, Action(field, "div", "0"), shell) == Err(DivisionByZero)
  {
    assert ParseInt64("0") == Ok(0);
  }

  /** `executeAction`: updates the field in place, or reports the error and
      changes nothing. */
  method ExecuteAction(action: Action, ctx: PacketContext, shell: string -> Option<string>) returns (err: Option<EngineError>)
    modifies ctx
    ensures match ActionResult(old(ctx.fields), action, shell)
      case Ok(m) => ctx.fields == m && err == None
      case Err(e) => ctx.fields == old(ctx.fields) && err == Some(e)
  {
    var currentValue := Lookup(ctx.fields, action.field);
    if action.op == "set" {
      ctx.fields := ctx.fields[action.field := Str(action.value)];
    } else if IsArithmeticOp(action.op) {
      var result := PerformArithmetic(currentValue, action.value, action.op);
      if result.Err? {
        return Some(result.error);
      }
      ctx.fields := ctx.fields[action.field := result.value];
    } else if action.op == "shell" {
      var result := shell(action.value);
      if result.None? {
        return Some(ShellFailed);
      }
      ctx.fields := ctx.fields[action.field := Str(TrimSpace(result.value))];
    } else {
      return Some(UnknownOperation(action.op));
    }
    return None;
  }

  // ---------------------------------------------------------------------------
  // ExecuteActions
  // ---------------------------------------------------------------------------

  /** The field map after a run of actions, and the error that stopped it. */
  datatype Run = Run(fields: map<string, Value>, error: Option<EngineError>)

  /** The actions applied in order; the first failure stops the run and
      keeps what the earlier actions did. */
  function RunActions(fields: map<string, Value>, actions: seq<Action>, shell: string -> Option<string>): Run
    decreases |actions|
  {
    if actions == [] then Run(fields, None)
    else
      var before := RunActions(fields, actions[..|actions| - 1], shell);
      var last := actions[|actions| - 1];
      if before.error.Some? then before
      else
        match ActionResult(before.fields, last, shell)
        case Err(e) => Run(before.fields, Some(ActionFailed(last.field, e)))
        case Ok(m) => Run(m, None)
  }

  /** `ExecuteActions`' effect: a blank actions text does nothing; text that
      `decode` cannot read as an action list is an error; otherwise the
      actions run. */
  function Executed(fields: map<string, Value>, actionsJSON: string, decode: string -> Option<seq<Action>>,
                    shell: string -> Option<string>): Run {
    if IsBlank(actionsJSON) then Run(fields, None)
    else
      match decode(actionsJSON)
      case None => Run(fields, Some(ActionsUndecodable))
      case Some(actions) => RunActions(fields, actions, shell)
  }

  /** Running `a` and then `b` is running `a + b`, unless `a` already failed. */
  lemma {:induction false} RunActionsAppend(fields: map<string, Value>, a: seq<Action>, b: seq<Action>, shell: string -> Option<string>)
    ensures RunActions(fields, a + b, shell) ==
      (var ra := RunActions(fields, a, shell);
       if ra.error.Some? then ra else RunActions(ra.fields, b, shell))
    decreases |b|
  {
    if b == [] {
      assert a + b == a;
    } else {
      var init := b[..|b| - 1];
      RunActionsAppend(fields, a, init, shell);
      assert (a + b)[..|a + b| - 1] == a + init;
      assert (a + b)[|a + b| - 1] == b[|b| - 1];
    }
  }

  /** The first failing action ends the run with its error, and the map is
      the one the actions before it produced. */
  lemma RunStopsAtFirstFailure(fields: map<string, Value>, actions: seq<Action>, k: nat, shell: string -> Option<string>)
    requires k < |actions|
    requires RunActions(fields, actions[..k], shell).error.None?
    requires ActionResult(RunActions(fields, actions[..k], shell).fields, actions[k], shell).Err?
    ensures var before := RunActions(fields, actions[..k], shell).fields;
      RunActions(fields, actions, shell) ==
        Run(before, Some(ActionFailed(actions[k].field, ActionResult(before, actions[k], shell).error)))
  {
    var before := RunActions(fields, actions[..k], shell);
    var failed := RunActions(fields, actions[..k + 1], shell);
    assert actions[..k + 1][..k] == actions[..k];
    assert failed.error.Some?;
    assert actions == actions[..k + 1] + actions[k + 1..];
    RunActionsAppend(fields, actions[..k + 1], actions[k + 1..], shell);
  }

  /** A run changes only the fields its actions name. */
  lemma {:induction false} RunTouchesOnlyNamedFields(fields: map<string, Value>, actions: seq<Action>, shell: string -> Option<string>, k: string)
    requires forall i :: 0 <= i < |actions| ==> actions[i].field != k
    ensures Lookup(RunActions(fields, actions, shell).fields, k) == Lookup(fields, k)
    decreases |actions|
  {
    if actions != [] {
      var init := actions[..|actions| - 1];
      RunTouchesOnlyNamedFields(fields, init, shell, k);
    }
  }

  /** A blank actions text is a no-op. */
  lemma BlankActionsNoOp(fields: map<string, Value>, actionsJSON: string, decode: string -> Option<seq<Action>>,
                         shell: string -> Option<string>)
    requires forall i :: 0 <= i < |actionsJSON| ==> IsSpace(actionsJSON[i])
    ensures Executed(fields, actionsJSON, decode, shell) == Run(fields, None)
  {
    BlankIffAllSpace(actionsJSON);
  }

  lemma {:induction false} RunErrSticks(fields: map<string, Value>, actions: seq<Action>, shell: string -> Option<string>, k: nat)
    requires k <= |actions| && RunActions(fields, actions[..k], shell).error.Some?
    ensures RunActions(fields, actions, shell) == RunActions(fields, actions[..k], shell)
  {
    assert actions == actions[..k] + actions[k..];
    RunActionsAppend(fields, actions[..k], actions[k..], shell);
  }

  /** `ExecuteActions`' loop: the actions executed on the context in order
      until the first failure. */
  method ExecuteAll(actions: seq<Action>, ctx: PacketContext, shell: string -> Option<string>) returns (err: Option<EngineError>)
    modifies ctx
    ensures Run(ctx.fields, err) == RunActions(old(ctx.fields), actions, shell)
  {
    ghost var start := ctx.fields;
    var i := 0;
    while i < |actions|
      invariant 0 <= i <= |actions|
      invariant RunActions(start, actions[..i], shell) == Run(ctx.fields, None)
    {
      assert actions[..i + 1][..i] == actions[..i];
      assert actions[..i + 1][i] == actions[i];
      var e := ExecuteAction(actions[i], ctx, shell);
      if e.Some? {
        RunErrSticks(start, actions, shell, i + 1);
        return Some(ActionFailed(actions[i].field, e.value));
      }
      i := i + 1;
    }
    assert actions[..i] == actions;
    return None;
  }

  /** `ExecuteActions`: runs the decoded actions on the context in order and
      returns the first error. */
  method ExecuteActions(actionsJSON: string, ctx: PacketContext, decode: string -> Option<seq<Action>>,
                        shell: string -> Option<string>) returns (err: Option<EngineError>)
    modifies ctx
    ensures Run(ctx.fields, err) == Executed(old(ctx.fields), actionsJSON, decode, shell)
  {
    if TrimSpace(actionsJSON) == "" {
      return None;
    }
    var decoded := decode(actionsJSON);
    if decoded.None? {
      return Some(ActionsUndecodable);
    }
    err := ExecuteAll(decoded.value, ctx, shell);
  }
}
