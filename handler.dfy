/** The queue's packet callback: parse the packet, extract the fields, pick
    the first rule whose condition holds, run its actions, repackage the
    packet, issue the verdict and write the processing log. */
module Handler {
  import opened Wrappers
  import opened GoText
  import opened Values
  import opened Parser
  import opened Evaluator
  import opened Executor
  import opened Repackager

  /** `models.Rule` as the configuration cache holds it. */
  datatype Rule = Rule(id: nat, name: string, enabled: bool, matchCondition: string,
                       actions: string, outputOptions: string, priority: int)

  /** The two attributes of a queued packet the callback reads. */
  datatype Attribute = Attribute(packetId: Option<nat>, payload: Option<seq<byte>>)

  datatype Verdict = NfAccept | NfDrop

  /** A verdict call: `SetVerdict`, or `SetVerdictModPacket` with new bytes. */
  datatype VerdictCall = SetVerdict(id: nat, verdict: Verdict) | SetVerdictModPacket(id: nat, verdict: Verdict, data: seq<byte>)

  /** `models.ProcessLog` without its timestamp; the error is kept as a value
      and the before/after comparison as a map from field name to pair. */
  datatype ProcessLog = ProcessLog(
    ruleId: nat, ruleName: string,
    originalPacket: string, modifiedPacket: string,
    fieldValues: map<string, (Value, Value)>,
    result: string, error: Option<EngineError>,
    srcIp: string, dstIp: string, srcPort: nat, dstPort: nat, protocol: string)

  /** What one callback does: the verdict calls issued, the log entry
      written, and whether it ended in a run-time panic. */
  datatype Outcome = Outcome(verdicts: seq<VerdictCall>, log: Option<ProcessLog>, panicked: bool)

  /** What the callback depends on but does not compute: the layer decoder,
      the JSON decoders, the shell, the checksum recalculation, and whether
      the kernel accepts a modified-packet verdict. */
  datatype Env = Env(
    decodeLayers: (Decoder, seq<byte>) -> Layers,
    decodeActions: string -> Option<seq<Action>>,
    shell: string -> Option<string>,
    decodeOptions: string -> Option<seq<string>>,
    recalc: seq<byte> -> Option<seq<byte>>,
    modVerdictOk: bool)

  /** The engine stages the callback strings together: parsing, field
      extraction (`None` when it panics), condition evaluation, the action
      run and repackaging. */
  datatype Stages = Stages(
    parse: seq<byte> -> Result<Packet, EngineError>,
    extract: Packet -> Option<map<string, Value>>,
    cond: (string, map<string, Value>) -> Result<bool, EngineError>,
    run: (string, map<string, Value>) -> Run,
    repack: (Packet, map<string, Value>, string) -> Result<seq<byte>, EngineError>,
    modVerdictOk: bool)

  /** Condition evaluation against the configured fields. */
  function CondStage(defs: seq<Field>): (string, map<string, Value>) -> Result<bool, EngineError> {
    (c, fields) => Condition(c, fields, defs)
  }

  /** The stages as the engine implements them, for the configured fields. */
  function EngineStages(defs: seq<Field>, env: Env): Stages {
    Stages(
      raw => ParsePacket(raw, env.decodeLayers),
      p => if ExtractionPanics(p, defs) then None else Some(ExtractedFields(map[], p, defs)),
      CondStage(defs),
      (actions, fields) => Executed(fields, actions, env.decodeActions, env.shell),
      (p: Packet, fields, options) => Repackaged(p.raw, fields, defs, options, env.decodeOptions, env.recalc),
      env.modVerdictOk)
  }

  // ---------------------------------------------------------------------------
  // Rule selection
  // ---------------------------------------------------------------------------

  /** The first rule from index `i` on whose condition evaluates to true;
      a rule whose condition fails to evaluate is passed over. */
  function FirstMatchFrom(rules: seq<Rule>, i: nat, fields: map<string, Value>,
                          cond: (string, map<string, Value>) -> Result<bool, EngineError>): (r: Option<nat>)
    requires i <= |rules|
    ensures r.Some? ==> i <= r.value < |rules| && cond(rules[r.value].matchCondition, fields) == Ok(true)
    ensures r.Some? ==> forall j :: i <= j < r.value ==> cond(rules[j].matchCondition, fields) != Ok(true)
    ensures r.None? ==> forall j :: i <= j < |rules| ==> cond(rules[j].matchCondition, fields) != Ok(true)
    decreases |rules| - i
  {
    if i == |rules| then None
    else if cond(rules[i].matchCondition, fields) == Ok(true) then Some(i)
    else FirstMatchFrom(rules, i + 1, fields, cond)
  }

  function FirstMatch(rules: seq<Rule>, fields: map<string, Value>,
                      cond: (string, map<string, Value>) -> Result<bool, EngineError>): Option<nat> {
    FirstMatchFrom(rules, 0, fields, cond)
  }

  /** The cache holds the enabled rules, highest priority first. */
  predicate CacheOrdered(rules: seq<Rule>) {
    && (forall i :: 0 <= i < |rules| ==> rules[i].enabled)
    && (forall i, j :: 0 <= i < j < |rules| ==> rules[i].priority >= rules[j].priority)
  }

  /** With the cache in its order, the chosen rule is enabled and has the
      highest priority of all rules whose condition holds. */
  lemma ChosenHasTopPriority(rules: seq<Rule>, fields: map<string, Value>,
                             cond: (string, map<string, Value>) -> Result<bool, EngineError>)
    requires CacheOrdered(rules)
    ensures var m := FirstMatch(rules, fields, cond);
      m.Some? ==>
        (rules[m.value].enabled &&
         forall j :: 0 <= j < |rules| && cond(rules[j].matchCondition, fields) == Ok(true) ==>
           rules[j].priority <= rules[m.value].priority)
  {
  }

  // ---------------------------------------------------------------------------
  // The callback
  // ---------------------------------------------------------------------------

  /** The log entry's rule and 5-tuple part, before the result is known. */
  function BaseLog(p: Packet, rule: Rule): (log: ProcessLog)
    ensures log.ruleId == rule.id && log.ruleName == rule.name
    ensures HexDecode(log.originalPacket) == Ok(p.raw)
    ensures p.layers.tcp.Some? ==> log.protocol == "TCP" && log.srcPort == p.layers.tcp.value.srcPort
    ensures p.layers.tcp.None? && p.layers.udp.Some? ==> log.protocol == "UDP" && log.dstPort == p.layers.udp.value.dstPort
  {
    HexRoundTrip(p.raw);
    var ip := p.layers.ipv4;
    var log := ProcessLog(rule.id, rule.name, HexEncode(p.raw), "", map[], "", None,
                          if ip.Some? then ip.value.srcIp else "",
                          if ip.Some? then ip.value.dstIp else "",
                          0, 0,
                          if ip.Some? then ip.value.protocolName else "");
    if p.layers.tcp.Some? then
      log.(srcPort := p.layers.tcp.value.srcPort, dstPort := p.layers.tcp.value.dstPort, protocol := "TCP")
    else if p.layers.udp.Some? then
      log.(srcPort := p.layers.udp.value.srcPort, dstPort := p.layers.udp.value.dstPort, protocol := "UDP")
    else log
  }

  /** Every field after the actions, with its value before and after. */
  function Comparison(before: map<string, Value>, after: map<string, Value>): (c: map<string, (Value, Value)>)
    ensures c.Keys == after.Keys
    ensures forall k :: k in c ==> c[k] == (Lookup(before, k), after[k])
  {
    map k | k in after :: (Lookup(before, k), after[k])
  }

  /** The outcome once a rule has matched: the actions run on the extracted
      fields, then the packet is repackaged; a failure of either is logged as
      an error and the original packet accepted, except that a run-time
      panic while repackaging ends the callback. */
  function MatchedOutcome(id: nat, p: Packet, fields: map<string, Value>, rule: Rule, st: Stages): Outcome {
    var log := BaseLog(p, rule);
    var run := st.run(rule.actions, fields);
    if run.error.Some? then
      Outcome([SetVerdict(id, NfAccept)], Some(log.(result := "error", error := run.error)), false)
    else
      match st.repack(p, run.fields, rule.outputOptions)
      case Err(e) =>
        if IsPanic(e) then Outcome([], None, true)
        else Outcome([SetVerdict(id, NfAccept)], Some(log.(result := "error", error := Some(e))), false)
      case Ok(data) =>
        Outcome([SetVerdictModPacket(id, NfAccept, data)] + (if st.modVerdictOk then [] else [SetVerdict(id, NfAccept)]),
                Some(log.(fieldValues := Comparison(fields, run.fields), modifiedPacket := HexEncode(data), result := "success")),
                false)
  }

  /** What `handlePacket` does with one queued packet. */
  function Handled(attr: Attribute, rules: seq<Rule>, st: Stages): Outcome {
    if attr.packetId.None? then Outcome([], None, false)
    else
      var id := attr.packetId.value;
      if attr.payload.None? then Outcome([SetVerdict(id, NfAccept)], None, false)
      else
        match st.parse(attr.payload.value)
        case Err(_) => Outcome([SetVerdict(id, NfAccept)], None, false)
        case Ok(p) =>
          match st.extract(p)
          case None => Outcome([], None, true)
          case Some(fields) =>
            match FirstMatch(rules, fields, st.cond)
            case None => Outcome([SetVerdict(id, NfAccept)], None, false)
            case Some(k) => MatchedOutcome(id, p, fields, rules[k], st)
  }

  /** The rule-matching loop of `handlePacket`: the index of the first rule
      whose condition holds for the context's fields. */
  method SelectRule(rules: seq<Rule>, ctx: PacketContext, defs: seq<Field>) returns (matched: Option<nat>)
    ensures matched == FirstMatch(rules, ctx.fields, CondStage(defs))
  {
    ghost var cond := CondStage(defs);
    matched := None;
    var i := 0;
    while i < |rules|
      invariant 0 <= i <= |rules|
      invariant FirstMatch(rules, ctx.fields, cond) == FirstMatchFrom(rules, i, ctx.fields, cond)
    {
      var m := EvaluateCondition(rules[i].matchCondition, ctx, defs);
      assert cond(rules[i].matchCondition, ctx.fields) == m;
      if m == Ok(true) {
        return Some(i);
      }
      i := i + 1;
    }
  }

  /** The action stage of `st` is the engine's `executeActions`. */
  ghost predicate ActionStage(st: Stages, env: Env) {
    forall actions, fields :: st.run(actions, fields) == Executed(fields, actions, env.decodeActions, env.shell)
  }

  /** The repackaging stage of `st` is the engine's `RepackagePacket`, and
      its verdict setting is the environment's. */
  ghost predicate RepackStage(st: Stages, defs: seq<Field>, env: Env) {
    && (forall p: Packet, fields, options :: st.repack(p, fields, options) == Repackaged(p.raw, fields, defs, options, env.decodeOptions, env.recalc))
    && st.modVerdictOk == env.modVerdictOk
  }

  lemma EngineAfterMatchStages(defs: seq<Field>, env: Env)
    ensures ActionStage(EngineStages(defs, env), env) && RepackStage(EngineStages(defs, env), defs, env)
  {
  }

  /** `handlePacket` after a rule has matched: run the actions, repackage,
      log, and issue the verdict. */
  method ProcessMatched(id: nat, ctx: PacketContext, rule: Rule, defs: seq<Field>, env: Env, ghost st: Stages)
    returns (out: Outcome)
    requires ActionStage(st, env) && RepackStage(st, defs, env)
    modifies ctx
    ensures out == MatchedOutcome(id, ctx.packet, old(ctx.fields), rule, st)
  {
    var verdict := NfAccept;
    var logEntry := BaseLog(ctx.packet, rule);
    var originalFields := ctx.fields;
    var err := ExecuteActions(rule.actions, ctx, env.decodeActions, env.shell);
    assert st.run(rule.actions, originalFields) == Run(ctx.fields, err);
    if err.Some? {
      logEntry := logEntry.(result := "error", error := err);
      return Outcome([SetVerdict(id, verdict)], Some(logEntry), false);
    }
    var modifiedPacket := RepackagePacket(rule.outputOptions, ctx, defs, env.decodeOptions, env.recalc);
    assert st.repack(ctx.packet, ctx.fields, rule.outputOptions) == modifiedPacket;
    out := RecordRepackaged(id, ctx, rule, env, logEntry, originalFields, modifiedPacket, st);
  }

  /** The rest of `handlePacket` once the actions have run without error
      and the packet has been repackaged: log the result and issue the
      verdict. */
  method RecordRepackaged(id: nat, ctx: PacketContext, rule: Rule, env: Env, logEntry: ProcessLog,
                          originalFields: map<string, Value>, modifiedPacket: Result<seq<byte>, EngineError>,
                          ghost st: Stages)
    returns (out: Outcome)
    requires st.modVerdictOk == env.modVerdictOk
    requires logEntry == BaseLog(ctx.packet, rule)
    requires st.run(rule.actions, originalFields) == Run(ctx.fields, None)
    requires st.repack(ctx.packet, ctx.fields, rule.outputOptions) == modifiedPacket
    ensures out == MatchedOutcome(id, ctx.packet, originalFields, rule, st)
  {
    var verdict := NfAccept;
    if modifiedPacket.Err? {
      if IsPanic(modifiedPacket.error) {
        return Outcome([], None, true);
      }
      var failed := logEntry.(result := "error", error := Some(modifiedPacket.error));
      return Outcome([SetVerdict(id, verdict)], Some(failed), false);
    }
    var data := modifiedPacket.value;
    var done := logEntry.(fieldValues := Comparison(originalFields, ctx.fields));
    done := done.(modifiedPacket := HexEncode(data), result := "success");
    var verdicts := [SetVerdictModPacket(id, verdict, data)];
    if !env.modVerdictOk {
      verdicts := verdicts + [SetVerdict(id, verdict)];
    }
    return Outcome(verdicts, Some(done), false);
  }

  /** `handlePacket`. */
  method HandlePacket(attr: Attribute, defs: seq<Field>, rules: seq<Rule>, env: Env) returns (out: Outcome)
    ensures out == Handled(attr, rules, EngineStages(defs, env))
  {
    ghost var st := EngineStages(defs, env);
    if attr.packetId.None? {
      return Outcome([], None, false);
    }
    if attr.payload.None? {
      return Outcome([SetVerdict(attr.packetId.value, NfAccept)], None, false);
    }
    var packetId := attr.packetId.value;
    var rawPacket := attr.payload.value;
    var parsed := ParsePacket(rawPacket, env.decodeLayers);
    assert st.parse(rawPacket) == parsed;
    if parsed.Err? {
      return Outcome([SetVerdict(packetId, NfAccept)], None, false);
    }
    var ctx := new PacketContext(parsed.value);
    var panicked := ExtractAllFields(ctx, defs);
    if panicked {
      return Outcome([], None, true);
    }
    assert st.extract(parsed.value) == Some(ctx.fields);
    var matched := SelectRule(rules, ctx, defs);
    if matched.None? {
      return Outcome([SetVerdict(packetId, NfAccept)], None, false);
    }
    EngineAfterMatchStages(defs, env);
    out := ProcessMatched(packetId, ctx, rules[matched.value], defs, env, st);
  }

  // ---------------------------------------------------------------------------
  // Properties of the callback
  // ---------------------------------------------------------------------------

  /** Without a packet id no verdict is issued and nothing is logged. */
  lemma NilPacketIdNoVerdict(attr: Attribute, rules: seq<Rule>, st: Stages)
    requires attr.packetId.None?
    ensures Handled(attr, rules, st) == Outcome([], None, false)
  {
  }

  /** Every verdict issued is an accept for the packet's own id, and unless
      the callback panics or has no id it issues at least one. */
  lemma AlwaysAccepts(attr: Attribute, rules: seq<Rule>, st: Stages)
    ensures var out := Handled(attr, rules, st);
      && (forall k :: 0 <= k < |out.verdicts| ==>
            out.verdicts[k].verdict == NfAccept && attr.packetId == Some(out.verdicts[k].id))
      && (attr.packetId.Some? && !out.panicked ==> |out.verdicts| >= 1)
  {
  }

  /** A field definition whose slice panics ends the callback for every
      packet that parses: no verdict is issued and nothing is logged. */
  lemma ExtractionPanicEndsCallback(id: nat, raw: seq<byte>, rules: seq<Rule>, defs: seq<Field>, env: Env)
    requires ParsePacket(raw, env.decodeLayers).Ok?
    requires ExtractionPanics(ParsePacket(raw, env.decodeLayers).value, defs)
    ensures Handled(Attribute(Some(id), Some(raw)), rules, EngineStages(defs, env)) == Outcome([], None, true)
  {
  }

  /** When no rule's condition holds, the original packet is accepted as it
      is and nothing is logged. */
  lemma NoMatchPassesThrough(id: nat, raw: seq<byte>, rules: seq<Rule>, st: Stages)
    requires st.parse(raw).Ok? && st.extract(st.parse(raw).value).Some?
    requires forall j :: 0 <= j < |rules| ==> st.cond(rules[j].matchCondition, st.extract(st.parse(raw).value).value) != Ok(true)
    ensures Handled(Attribute(Some(id), Some(raw)), rules, st) == Outcome([SetVerdict(id, NfAccept)], None, false)
  {
  }

  /** A log entry names the first rule whose condition holds. */
  lemma LogNamesFirstMatch(id: nat, raw: seq<byte>, rules: seq<Rule>, st: Stages)
    requires Handled(Attribute(Some(id), Some(raw)), rules, st).log.Some?
    ensures st.parse(raw).Ok? && st.extract(st.parse(raw).value).Some?
    ensures var fields := st.extract(st.parse(raw).value).value;
      var log := Handled(Attribute(Some(id), Some(raw)), rules, st).log.value;
      exists k :: 0 <= k < |rules|
        && st.cond(rules[k].matchCondition, fields) == Ok(true)
        && (forall j :: 0 <= j < k ==> st.cond(rules[j].matchCondition, fields) != Ok(true))
        && log.ruleId == rules[k].id && log.ruleName == rules[k].name
  {
    var p := st.parse(raw).value;
    var fields := st.extract(p).value;
    var k := FirstMatch(rules, fields, st.cond).value;
    MatchedLogNamesRule(id, p, fields, rules[k], st);
  }

  /** Every log entry of a matched rule names that rule. */
  lemma MatchedLogNamesRule(id: nat, p: Packet, fields: map<string, Value>, rule: Rule, st: Stages)
    requires MatchedOutcome(id, p, fields, rule, st).log.Some?
    ensures var log := MatchedOutcome(id, p, fields, rule, st).log.value;
      log.ruleId == rule.id && log.ruleName == rule.name
  {
  }

  /** A failed action run is logged as an error with its cause, and the
      original packet is accepted. */
  lemma ActionFailureLogsError(id: nat, p: Packet, fields: map<string, Value>, rule: Rule, st: Stages)
    requires st.run(rule.actions, fields).error.Some?
    ensures var out := MatchedOutcome(id, p, fields, rule, st);
      && out.verdicts == [SetVerdict(id, NfAccept)]
      && out.log.Some? && out.log.value.result == "error"
      && out.log.value.error == st.run(rule.actions, fields).error
  {
  }

  /** A repackaging failure other than a panic is logged as an error with its
      cause, and the original packet is accepted. */
  lemma RepackageFailureLogsError(id: nat, p: Packet, fields: map<string, Value>, rule: Rule, st: Stages)
    requires st.run(rule.actions, fields).error.None?
    requires var r := st.repack(p, st.run(rule.actions, fields).fields, rule.outputOptions);
      r.Err? && !IsPanic(r.error)
    ensures var out := MatchedOutcome(id, p, fields, rule, st);
      && out.verdicts == [SetVerdict(id, NfAccept)]
      && out.log.Some? && out.log.value.result == "error"
      && out.log.value.error == Some(st.repack(p, st.run(rule.actions, fields).fields, rule.outputOptions).error)
  {
  }

  /** A successful run logs "success" with the before/after value of every
      field, and the verdict carries the repackaged bytes. */
  lemma SuccessCarriesModifiedPacket(id: nat, p: Packet, fields: map<string, Value>, rule: Rule, st: Stages)
    requires MatchedOutcome(id, p, fields, rule, st).log.Some?
    requires MatchedOutcome(id, p, fields, rule, st).log.value.result == "success"
    ensures var run := st.run(rule.actions, fields);
      var out := MatchedOutcome(id, p, fields, rule, st);
      var data := st.repack(p, run.fields, rule.outputOptions);
      && run.error.None? && data.Ok?
      && out.verdicts[0] == SetVerdictModPacket(id, NfAccept, data.value)
      && HexDecode(out.log.value.modifiedPacket) == Ok(data.value)
      && out.log.value.fieldValues.Keys == run.fields.Keys
      && forall k :: k in run.fields ==> out.log.value.fieldValues[k] == (Lookup(fields, k), run.fields[k])
  {
    var run := st.run(rule.actions, fields);
    var data := st.repack(p, run.fields, rule.outputOptions);
    HexRoundTrip(data.value);
  }

  /** With the engine's own stages, a rule with no actions and no checksum
      option forwards the packet's own bytes, for fields with distinct names
      that lie inside the packet without overlapping, decimal fields of up
      to eight bytes and builtin fields that can be extracted. */
  lemma NoActionsForwardsOriginal(id: nat, p: Packet, rule: Rule, defs: seq<Field>, env: Env)
    requires IsBlank(rule.actions)
    requires InertOptions(rule.outputOptions, env.decodeOptions)
    requires |p.raw| <= MaxInt64
    requires Laid(SortByOffset(defs), 0, |p.raw|)
    requires forall i, j :: 0 <= i < j < |defs| ==> defs[i].name != defs[j].name
    requires forall i :: 0 <= i < |defs| && defs[i].kind == "decimal" ==> defs[i].length <= 8
    requires forall i :: 0 <= i < |defs| && defs[i].kind == "builtin" ==> ExtractField(p, defs[i]).Ok?
    ensures var out := MatchedOutcome(id, p, ExtractedFields(map[], p, defs), rule, EngineStages(defs, env));
      |out.verdicts| >= 1 && out.verdicts[0] == SetVerdictModPacket(id, NfAccept, p.raw)
  {
    var st := EngineStages(defs, env);
    var fields := ExtractedFields(map[], p, defs);
    assert st.run(rule.actions, fields) == Run(fields, None);
    assert st.repack(p, fields, rule.outputOptions) == Ok(p.raw) by {
      RepackagedIdentity(map[], p, defs, rule.outputOptions, env.decodeOptions, env.recalc);
    }
  }
}
