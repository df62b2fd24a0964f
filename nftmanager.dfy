/** The nftables side of the server: the rule command built from an
    `NFTRule` row, the one-line summary of its filters, and the loop that
    re-applies the enabled rules. */
module NftManager {
  import opened Wrappers
  import opened GoText

  /** `models.NFTRule`; `id` is gorm's primary key. Empty filter fields mean
      "any". */
  datatype NFTRule = NFTRule(id: nat, name: string, enabled: bool, priority: int,
                             srcIP: string, dstIP: string, srcPort: string, dstPort: string,
                             protocol: string, logEnabled: bool, logPrefix: string,
                             action: string, queueNum: string)

  const BaseCommand: string := "nft add rule bridge netvine-table base-rule-chain"
  const FlushCommand: string := "nft flush chain bridge netvine-table base-rule-chain"

  // ---------------------------------------------------------------------------
  // BuildNFTCommand
  // ---------------------------------------------------------------------------

  /** One space-separated term of an nft rule command. */
  datatype Term =
    | Base
    | SourceAddr(ip: string)
    | DestAddr(ip: string)
    | Protocol(proto: string)
    | SourcePort(proto: string, port: string)
    | DestPort(proto: string, port: string)
    | LogPrefix(prefix: string)
    | Verdict(verdict: string)
    | Queue(num: string)

  function Render(t: Term): string {
    match t
    case Base => BaseCommand
    case SourceAddr(ip) => "ip saddr " + ip
    case DestAddr(ip) => "ip daddr " + ip
    case Protocol(p) => p
    case SourcePort(p, port) => p + " sport " + port
    case DestPort(p, port) => p + " dport " + port
    case LogPrefix(prefix) => "log prefix \"" + prefix + "\""
    case Verdict(v) => v
    case Queue(num) => "queue num " + num + " bypass"
  }

  /** Where a term may stand in a command: terms appear in strictly
      increasing rank. */
  function Rank(t: Term): nat {
    match t
    case Base => 0
    case SourceAddr(_) => 1
    case DestAddr(_) => 2
    case Protocol(_) => 3
    case SourcePort(_, _) => 3
    case DestPort(_, _) => 4
    case LogPrefix(_) => 5
    case Verdict(_) => 6
    case Queue(_) => 6
  }

  function AddrTerms(rule: NFTRule): seq<Term> {
    (if rule.srcIP != "" then [SourceAddr(rule.srcIP)] else []) +
    (if rule.dstIP != "" then [DestAddr(rule.dstIP)] else [])
  }

  function ProtocolTerms(rule: NFTRule): seq<Term> {
    var p := rule.protocol;
    if p == "" || p == "any" then []
    else if p == "tcp" || p == "udp" then
      if rule.srcPort == "" && rule.dstPort == "" then [Protocol(p)]
      else (if rule.srcPort != "" then [SourcePort(p, rule.srcPort)] else []) +
           (if rule.dstPort != "" then [DestPort(p, rule.dstPort)] else [])
    else [Protocol(p)]
  }

  /** The prefix the log term carries: the rule's, or else its name. */
  function LogName(rule: NFTRule): string {
    if rule.logPrefix == "" then rule.name else rule.logPrefix
  }

  function LogTerms(rule: NFTRule): seq<Term> {
    if rule.logEnabled then [LogPrefix(LogName(rule))] else []
  }

  function ActionTerms(rule: NFTRule): seq<Term> {
    if rule.action == "accept" then [Verdict("accept")]
    else if rule.action == "drop" then [Verdict("drop")]
    else if rule.action == "queue" then [Queue(if rule.queueNum != "" then rule.queueNum else "0-3")]
    else []
  }

  /** The terms of a rule's command, in order. */
  function Terms(rule: NFTRule): seq<Term> {
    [Base] + AddrTerms(rule) + ProtocolTerms(rule) + LogTerms(rule) + ActionTerms(rule)
  }

  function RenderAll(ts: seq<Term>): (parts: seq<string>)
    ensures |parts| == |ts|
    ensures forall i :: 0 <= i < |ts| ==> parts[i] == Render(ts[i])
  {
    seq(|ts|, i requires 0 <= i < |ts| => Render(ts[i]))
  }

  /** The command `BuildNFTCommand` returns. */
  function Command(rule: NFTRule): string {
    Join(RenderAll(Terms(rule)), ' ')
  }

  lemma RenderAllAppend(a: seq<Term>, b: seq<Term>)
    ensures RenderAll(a + b) == RenderAll(a) + RenderAll(b)
  {
  }

  /** The address filters appended to `parts`. */
  method AppendAddrs(rule: NFTRule, parts: seq<string>) returns (out: seq<string>)
    ensures out == parts + RenderAll(AddrTerms(rule))
  {
    out := parts;
    if rule.srcIP != "" {
      out := out + ["ip saddr " + rule.srcIP];
    }
    if rule.dstIP != "" {
      out := out + ["ip daddr " + rule.dstIP];
    }
  }

  /** The protocol and port filters appended to `parts`. */
  method AppendProtocol(rule: NFTRule, parts: seq<string>) returns (out: seq<string>)
    ensures out == parts + RenderAll(ProtocolTerms(rule))
  {
    out := parts;
    if rule.protocol != "" && rule.protocol != "any" {
      if rule.protocol == "tcp" || rule.protocol == "udp" {
        if rule.srcPort != "" {
          out := out + [rule.protocol + " sport " + rule.srcPort];
        }
        if rule.dstPort != "" {
          out := out + [rule.protocol + " dport " + rule.dstPort];
        }
        if rule.srcPort == "" && rule.dstPort == "" {
          out := out + [rule.protocol];
        }
      } else {
        out := out + [rule.protocol];
      }
    }
  }

  /** The log term appended to `parts`. */
  method AppendLog(rule: NFTRule, parts: seq<string>) returns (out: seq<string>)
    ensures out == parts + RenderAll(LogTerms(rule))
  {
    out := parts;
    if rule.logEnabled {
      var prefix := rule.logPrefix;
      if prefix == "" {
        prefix := rule.name;
      }
      out := out + ["log prefix \"" + prefix + "\""];
    }
  }

  /** The verdict term appended to `parts`. */
  method AppendAction(rule: NFTRule, parts: seq<string>) returns (out: seq<string>)
    ensures out == parts + RenderAll(ActionTerms(rule))
  {
    out := parts;
    if rule.action == "accept" {
      out := out + ["accept"];
    } else if rule.action == "drop" {
      out := out + ["drop"];
    } else if rule.action == "queue" {
      if rule.queueNum != "" {
        out := out + ["queue num " + rule.queueNum + " bypass"];
      } else {
        assert Render(Queue("0-3")) == "queue num 0-3 bypass";
        out := out + ["queue num 0-3 bypass"];
      }
    }
  }

  method BuildNFTCommand(rule: NFTRule) returns (cmd: string)
    ensures cmd == Command(rule)
  {
    var parts: seq<string> := [BaseCommand];
    parts := AppendAddrs(rule, parts);
    parts := AppendProtocol(rule, parts);
    parts := AppendLog(rule, parts);
    parts := AppendAction(rule, parts);
    var t0 := [Base];
    var t1 := t0 + AddrTerms(rule);
    var t2 := t1 + ProtocolTerms(rule);
    var t3 := t2 + LogTerms(rule);
    RenderAllAppend(t0, AddrTerms(rule));
    RenderAllAppend(t1, ProtocolTerms(rule));
    RenderAllAppend(t2, LogTerms(rule));
    RenderAllAppend(t3, ActionTerms(rule));
    assert RenderAll(t0) == [BaseCommand];
    assert parts == RenderAll(Terms(rule));
    cmd := Join(parts, ' ');
  }

  /** Every command starts with the base command. */
  lemma CommandStartsWithBase(rule: NFTRule)
    ensures HasPrefix(Command(rule), BaseCommand)
    ensures Terms(rule)[0] == Base
  {
    var parts := RenderAll(Terms(rule));
    if |parts| > 1 {
      assert Command(rule) == BaseCommand + [' '] + Join(parts[1..], ' ');
    }
  }

  /** Each term outranks the one before it. */
  predicate Ascending(ts: seq<Term>) {
    forall i :: 0 < i < |ts| ==> Rank(ts[i - 1]) < Rank(ts[i])
  }

  /** Two ascending runs, the second starting above where the first ends,
      make an ascending run ending where the second (or, if empty, the
      first) ends. */
  lemma RankedConcat(a: seq<Term>, b: seq<Term>)
    requires Ascending(a) && Ascending(b)
    requires a != [] && b != [] ==> Rank(a[|a| - 1]) < Rank(b[0])
    ensures Ascending(a + b)
    ensures b != [] ==> (a + b)[|a + b| - 1] == b[|b| - 1]
    ensures b == [] ==> a + b == a
  {
    forall i | 0 < i < |a + b| ensures Rank((a + b)[i - 1]) < Rank((a + b)[i]) {
      if i < |a| {
      } else if i == |a| {
      } else {
        assert (a + b)[i - 1] == b[i - 1 - |a|];
      }
    }
  }

  lemma AddrOrdered(rule: NFTRule)
    ensures var a := [Base] + AddrTerms(rule); Ascending(a) && Rank(a[|a| - 1]) <= 2
  {
  }

  lemma ProtocolOrdered(rule: NFTRule)
    ensures var p := ProtocolTerms(rule);
      Ascending(p) && (p != [] ==> 3 <= Rank(p[0]) && Rank(p[|p| - 1]) <= 4)
  {
  }

  lemma LogOrdered(rule: NFTRule)
    ensures var l := LogTerms(rule); |l| <= 1 && Ascending(l) && (l != [] ==> Rank(l[0]) == 5)
  {
  }

  lemma ActionOrdered(rule: NFTRule)
    ensures var v := ActionTerms(rule); |v| <= 1 && Ascending(v) && (v != [] ==> Rank(v[0]) == 6)
  {
  }

  /** The terms come in the documented order: base, source address,
      destination address, protocol and ports, log, verdict, with each kind
      at most once. */
  lemma TermsOrdered(rule: NFTRule)
    ensures Ascending(Terms(rule))
  {
    AddrOrdered(rule);
    ProtocolOrdered(rule);
    LogOrdered(rule);
    ActionOrdered(rule);
    PartsOrdered([Base] + AddrTerms(rule), ProtocolTerms(rule), LogTerms(rule), ActionTerms(rule));
  }

  /** The four parts of a command, each ascending within the rank band of
      its kind, make an ascending run. */
  lemma PartsOrdered(a: seq<Term>, p: seq<Term>, l: seq<Term>, v: seq<Term>)
    requires a != [] && Ascending(a) && Rank(a[|a| - 1]) <= 2
    requires Ascending(p) && (p != [] ==> 3 <= Rank(p[0]) && Rank(p[|p| - 1]) <= 4)
    requires |l| <= 1 && Ascending(l) && (l != [] ==> Rank(l[0]) == 5)
    requires |v| <= 1 && Ascending(v) && (v != [] ==> Rank(v[0]) == 6)
    ensures Ascending(a + p + l + v)
  {
    RankedConcat(a, p);
    assert Rank((a + p)[|a + p| - 1]) <= 4;
    RankedConcat(a + p, l);
    assert Rank((a + p + l)[|a + p + l| - 1]) <= 5;
    RankedConcat(a + p + l, v);
  }

  /** A log term appears exactly when logging is on, and it carries the log
      prefix or, without one, the rule's name. */
  lemma LogTermIff(rule: NFTRule)
    ensures (exists i :: 0 <= i < |Terms(rule)| && Terms(rule)[i].LogPrefix?) <==> rule.logEnabled
    ensures forall i :: 0 <= i < |Terms(rule)| && Terms(rule)[i].LogPrefix? ==>
      Terms(rule)[i].prefix == (if rule.logPrefix != "" then rule.logPrefix else rule.name)
  {
    var ts := Terms(rule);
    var before := [Base] + AddrTerms(rule) + ProtocolTerms(rule);
    assert forall i :: 0 <= i < |before| ==> !before[i].LogPrefix?;
    assert forall i :: 0 <= i < |ActionTerms(rule)| ==> !ActionTerms(rule)[i].LogPrefix?;
    if rule.logEnabled {
      assert ts[|before|].LogPrefix?;
    }
  }

  /** A protocol or port term appears exactly when the protocol is set and
      is not "any"; tcp and udp name the ports given, or stand bare. */
  lemma ProtocolTermIff(rule: NFTRule)
    ensures ProtocolTerms(rule) != [] <==> rule.protocol != "" && rule.protocol != "any"
    ensures (rule.protocol == "tcp" || rule.protocol == "udp") ==>
      ((SourcePort(rule.protocol, rule.srcPort) in ProtocolTerms(rule)) <==> rule.srcPort != "") &&
      ((DestPort(rule.protocol, rule.dstPort) in ProtocolTerms(rule)) <==> rule.dstPort != "")
    ensures rule.protocol != "" && rule.protocol != "any" && rule.protocol != "tcp" && rule.protocol != "udp" ==>
      ProtocolTerms(rule) == [Protocol(rule.protocol)]
  {
  }

  /** A verdict term appears exactly for the actions accept, drop and queue;
      a queue without a number goes to queues 0-3. */
  lemma ActionTermIff(rule: NFTRule)
    ensures |ActionTerms(rule)| == (if rule.action in {"accept", "drop", "queue"} then 1 else 0)
    ensures rule.action == "queue" && rule.queueNum == "" ==>
      Render(ActionTerms(rule)[0]) == "queue num 0-3 bypass"
  {
  }

  // ---------------------------------------------------------------------------
  // GetRuleSummary
  // ---------------------------------------------------------------------------

  /** The arrow between source and destination, as the bytes the source file
      holds (a right arrow encoded twice). */
  const Arrow: string := "\U{00C3}\U{00A2}\U{00E2}\U{0080}\U{00A0}\U{00E2}\U{0080}\U{0099}"

  /** The five fields a summary shows, after placeholders replace the empty
      ones. */
  datatype Shown = Shown(srcIP: string, srcPort: string, dstIP: string, dstPort: string, proto: string)

  function ShownFields(rule: NFTRule): Shown {
    Shown(if rule.srcIP == "" then "any" else rule.srcIP,
          if rule.srcPort == "" then "*" else rule.srcPort,
          if rule.dstIP == "" then "any" else rule.dstIP,
          if rule.dstPort == "" then "*" else rule.dstPort,
          if rule.protocol == "" || rule.protocol == "any" then "any" else rule.protocol)
  }

  /** `"%s:%s <arrow> %s:%s (%s)"`, written as the text around its two colons. */
  function Format(f: Shown): string {
    f.srcIP + [':'] + Crossing(f) + [':'] + Closing(f)
  }

  function Crossing(f: Shown): string {
    f.srcPort + [' '] + Arrow + [' '] + f.dstIP
  }

  function Closing(f: Shown): string {
    f.dstPort + [' '] + Parenthesised(f.proto)
  }

  function Parenthesised(s: string): string {
    ['('] + s + [')']
  }

  /** What `GetRuleSummary` returns. */
  function RuleSummary(rule: NFTRule): string {
    Format(ShownFields(rule))
  }

  /** Reads the fields back out of a summary. */
  function ParseSummary(s: string): Option<Shown> {
    var parts := Split(s, ':');
    if |parts| != 3 then None
    else
      var middle := Split(parts[1], ' ');
      var tail := Split(parts[2], ' ');
      if |middle| != 3 || middle[1] != Arrow || |tail| != 2 then None
      else
        var p := tail[1];
        if |p| < 2 || p[0] != '(' || p[|p| - 1] != ')' then None
        else Some(Shown(parts[0], middle[0], middle[2], tail[0], p[1..|p| - 1]))
  }

  /** A field that separates cleanly: no colon, no space. */
  predicate Plain(s: string) {
    ':' !in s && ' ' !in s
  }

  /** The fields shown, empty ones as their placeholder. */
  lemma ShownPlaceholders(rule: NFTRule)
    ensures var f := ShownFields(rule);
      (f.srcIP == "any" <==> rule.srcIP in {"", "any"}) && (f.dstIP == "any" <==> rule.dstIP in {"", "any"}) &&
      (f.srcPort == "*" <==> rule.srcPort in {"", "*"}) && (f.dstPort == "*" <==> rule.dstPort in {"", "*"}) &&
      (f.proto == "any" <==> rule.protocol in {"", "any"})
    ensures var f := ShownFields(rule); f.srcIP != "" && f.srcPort != "" && f.dstIP != "" && f.dstPort != "" && f.proto != ""
  {
  }

  lemma SplitThree(a: string, b: string, c: string, sep: char)
    requires sep !in a && sep !in b && sep !in c
    ensures Split(a + [sep] + b + [sep] + c, sep) == [a, b, c]
  {
    SplitOverSeparator(b, sep, c);
    assert a + [sep] + b + [sep] + c == a + [sep] + (b + [sep] + c);
    SplitOverSeparator(a, sep, b + [sep] + c);
  }

  lemma SplitTwo(a: string, b: string, sep: char)
    requires sep !in a && sep !in b
    ensures Split(a + [sep] + b, sep) == [a, b]
  {
    SplitOverSeparator(a, sep, b);
  }

  /** Fields without colons or spaces (an IPv4 address or CIDR, a port or
      range, a protocol name) are read back exactly from their summary. */
  lemma FormatRoundTrip(f: Shown)
    requires Plain(f.srcIP) && Plain(f.srcPort) && Plain(f.dstIP) && Plain(f.dstPort) && Plain(f.proto)
    ensures ParseSummary(Format(f)) == Some(f)
  {
    var p := Parenthesised(f.proto);
    assert ' ' !in p;
    assert p[1..|p| - 1] == f.proto;
    SplitThree(f.srcIP, Crossing(f), Closing(f), ':');
    SplitThree(f.srcPort, Arrow, f.dstIP, ' ');
    SplitTwo(f.dstPort, p, ' ');
  }

  /** A summary gives back exactly the fields it shows, for fields without
      colons or spaces. */
  lemma SummaryRoundTrip(rule: NFTRule)
    requires Plain(rule.srcIP) && Plain(rule.srcPort) && Plain(rule.dstIP) && Plain(rule.dstPort)
    requires Plain(rule.protocol)
    ensures ParseSummary(RuleSummary(rule)) == Some(ShownFields(rule))
  {
    FormatRoundTrip(ShownFields(rule));
  }

  // ---------------------------------------------------------------------------
  // ApplyNFTRules
  // ---------------------------------------------------------------------------

  /** The database order `priority ASC, id ASC`. */
  predicate RuleLe(a: NFTRule, b: NFTRule) {
    a.priority < b.priority || (a.priority == b.priority && a.id <= b.id)
  }

  predicate RulesSorted(rs: seq<NFTRule>) {
    forall i :: 0 < i < |rs| ==> RuleLe(rs[i - 1], rs[i])
  }

  function InsertRule(x: NFTRule, rs: seq<NFTRule>): (r: seq<NFTRule>)
    ensures multiset(r) == multiset(rs) + multiset{x}
    ensures r[0] == x || (rs != [] && r[0] == rs[0])
  {
    if rs == [] || RuleLe(x, rs[0]) then [x] + rs
    else
      assert rs == [rs[0]] + rs[1..];
      [rs[0]] + InsertRule(x, rs[1..])
  }

  lemma {:induction false} InsertRuleSorted(x: NFTRule, rs: seq<NFTRule>)
    requires RulesSorted(rs)
    ensures RulesSorted(InsertRule(x, rs))
  {
    if rs != [] && !RuleLe(x, rs[0]) {
      InsertRuleSorted(x, rs[1..]);
    }
  }

  function SortRules(rs: seq<NFTRule>): (r: seq<NFTRule>)
    ensures multiset(r) == multiset(rs)
  {
    if rs == [] then []
    else
      assert rs == [rs[0]] + rs[1..];
      InsertRule(rs[0], SortRules(rs[1..]))
  }

  lemma {:induction false} SortRulesSorted(rs: seq<NFTRule>)
    ensures RulesSorted(SortRules(rs))
  {
    if rs != [] {
      SortRulesSorted(rs[1..]);
      InsertRuleSorted(rs[0], SortRules(rs[1..]));
    }
  }

  function Enabled(rs: seq<NFTRule>): (r: seq<NFTRule>)
    ensures forall x :: x in r <==> x in rs && x.enabled
  {
    if rs == [] then []
    else
      var init := Enabled(rs[..|rs| - 1]);
      assert rs == rs[..|rs| - 1] + [rs[|rs| - 1]];
      if rs[|rs| - 1].enabled then init + [rs[|rs| - 1]] else init
  }

  /** The rows `Where("enabled = ?", true).Order("priority ASC, id ASC")`
      loads. */
  function Loaded(table: seq<NFTRule>): seq<NFTRule> {
    SortRules(Enabled(table))
  }

  /** The selection holds exactly the enabled rows, each once per
      occurrence, in priority-then-id order. */
  lemma LoadedRules(table: seq<NFTRule>)
    ensures forall x :: x in Loaded(table) <==> x in table && x.enabled
    ensures multiset(Loaded(table)) == multiset(Enabled(table))
    ensures RulesSorted(Loaded(table))
  {
    SortRulesSorted(Enabled(table));
    forall x ensures x in Loaded(table) <==> x in Enabled(table) {
      assert x in Loaded(table) <==> x in multiset(Loaded(table));
      assert x in Enabled(table) <==> x in multiset(Enabled(table));
    }
  }

  function Commands(rs: seq<NFTRule>): (cmds: seq<string>)
    ensures |cmds| == |rs|
    ensures forall i :: 0 <= i < |rs| ==> cmds[i] == Command(rs[i])
  {
    seq(|rs|, i requires 0 <= i < |rs| => Command(rs[i]))
  }

  /** The number of commands the shell accepts. */
  function Successes(cmds: seq<string>, shell: string -> bool): (n: nat)
    ensures n <= |cmds|
  {
    if cmds == [] then 0
    else Successes(cmds[..|cmds| - 1], shell) + (if shell(cmds[|cmds| - 1]) then 1 else 0)
  }

  /** `ApplyNFTRules`'s one error: the chain could not be flushed. */
  datatype ApplyError = FlushFailed

  /** What a run issues and returns: the rule commands sent to the shell in
      order, how many of them it accepted, and the error. */
  datatype ApplyReport = ApplyReport(issued: seq<string>, applied: nat, err: Option<ApplyError>)

  /** What `ApplyNFTRules` does, given the rule table and whether the shell
      accepts each command (the flush command included). */
  function Applied(table: seq<NFTRule>, shell: string -> bool): ApplyReport {
    if !shell(FlushCommand) then ApplyReport([], 0, Some(FlushFailed))
    else
      var cmds := Commands(Loaded(table));
      ApplyReport(cmds, Successes(cmds, shell), None)
  }

  lemma CommandsSnoc(rules: seq<NFTRule>, k: nat)
    requires k < |rules|
    ensures Commands(rules[..k + 1]) == Commands(rules[..k]) + [Command(rules[k])]
  {
    var l := Commands(rules[..k + 1]);
    var r := Commands(rules[..k]) + [Command(rules[k])];
    forall i | 0 <= i < |l| ensures l[i] == r[i] {
      if i < k {
        assert rules[..k + 1][i] == rules[..k][i];
      } else {
        assert rules[..k + 1][i] == rules[k];
      }
    }
  }

  /** `ApplyNFTRules`'s loop: each rule's command issued in order, counting
      the ones the shell accepts. */
  method IssueAll(rules: seq<NFTRule>, shell: string -> bool) returns (issued: seq<string>, successCount: nat)
    ensures issued == Commands(rules)
    ensures successCount == Successes(issued, shell)
  {
    issued := [];
    successCount := 0;
    var k := 0;
    while k < |rules|
      invariant 0 <= k <= |rules|
      invariant issued == Commands(rules[..k])
      invariant successCount == Successes(issued, shell)
    {
      var cmd := BuildNFTCommand(rules[k]);
      CommandsSnoc(rules, k);
      ghost var prev := issued;
      issued := issued + [cmd];
      assert issued[..|issued| - 1] == prev;
      if shell(cmd) {
        successCount := successCount + 1;
      }
      k := k + 1;
    }
    assert rules[..k] == rules;
  }

  method ApplyNFTRules(table: seq<NFTRule>, shell: string -> bool) returns (report: ApplyReport)
    ensures report == Applied(table, shell)
  {
    if !shell(FlushCommand) {
      return ApplyReport([], 0, Some(FlushFailed));
    }
    var rules := Loaded(table);
    var issued, successCount := IssueAll(rules, shell);
    return ApplyReport(issued, successCount, None);
  }

  /** A failed flush applies nothing; otherwise one command is issued per
      enabled rule, in load order, and a failing rule only lowers the count:
      the run still succeeds. */
  lemma AppliedCases(table: seq<NFTRule>, shell: string -> bool)
    ensures !shell(FlushCommand) <==> Applied(table, shell).err.Some?
    ensures !shell(FlushCommand) ==> Applied(table, shell).issued == []
    ensures shell(FlushCommand) ==>
      |Applied(table, shell).issued| == |Enabled(table)| &&
      forall i :: 0 <= i < |Loaded(table)| ==> Applied(table, shell).issued[i] == Command(Loaded(table)[i])
    ensures Applied(table, shell).applied <= |Applied(table, shell).issued|
  {
    assert |multiset(Loaded(table))| == |multiset(Enabled(table))|;
  }

  /** Every command is applied exactly when the shell takes each of them. */
  lemma {:induction false} AllApplied(cmds: seq<string>, shell: string -> bool)
    ensures Successes(cmds, shell) == |cmds| <==> forall i :: 0 <= i < |cmds| ==> shell(cmds[i])
  {
    if cmds != [] {
      var init := cmds[..|cmds| - 1];
      AllApplied(init, shell);
      if forall i :: 0 <= i < |cmds| ==> shell(cmds[i]) {
        assert forall i :: 0 <= i < |init| ==> shell(init[i]) by {
          forall i | 0 <= i < |init| ensures shell(init[i]) {
            assert init[i] == cmds[i];
          }
        }
      }
      if Successes(cmds, shell) == |cmds| {
        forall i | 0 <= i < |cmds| ensures shell(cmds[i]) {
          if i < |init| {
            assert init[i] == cmds[i];
          }
        }
      }
    }
  }
}
