/** The `-queues` command-line flag of the server: a comma-separated list of
    NFQUEUE numbers and inclusive ranges `a-b`, each a 16-bit number. */
module QueueDefs {
  import opened Wrappers
  import opened GoText

  /** The errors of `parseQueueDefs`, one per `fmt.Errorf` site. */
  datatype QueueError =
    | InvalidRangeFormat(part: string)    // "invalid range format: %s"
    | InvalidStart(text: string)          // "invalid start of range: %s"
    | InvalidEnd(text: string)            // "invalid end of range: %s"
    | StartAfterEnd(start: nat, end: nat) // "invalid range: start %d > end %d"
    | InvalidQueue(part: string)          // "invalid queue number: %s"
    | NoQueues                            // "no valid queues specified"

  /** `strconv.ParseUint(s, 10, 16)`. */
  function ParseQueue(s: string): (r: Result<nat, NumError>)
    ensures r.Ok? ==> r.value <= MaxUint16
  {
    ParseUint(s, MaxUint16)
  }

  /** The numbers `start` to `end`, in order. */
  function Span(start: nat, end: int): (qs: seq<nat>)
    ensures |qs| == if start <= end then end - start + 1 else 0
    ensures forall k :: 0 <= k < |qs| ==> qs[k] == start + k
  {
    if start > end then [] else seq(end - start + 1, k => start + k)
  }

  /** The queues of a range part `lo-hi`; the messages quote the untrimmed
      sides. */
  function RangeQueues(lo: string, hi: string): Result<seq<nat>, QueueError> {
    match ParseQueue(TrimSpace(lo))
    case Err(_) => Err(InvalidStart(lo))
    case Ok(start) =>
      (match ParseQueue(TrimSpace(hi))
       case Err(_) => Err(InvalidEnd(hi))
       case Ok(end) => if start > end then Err(StartAfterEnd(start, end)) else Ok(Span(start, end)))
  }

  /** The queues one comma-separated part stands for: none for a blank part,
      a range, or a single number. */
  function PartQueues(raw: string): Result<seq<nat>, QueueError> {
    var part := TrimSpace(raw);
    if part == "" then Ok([])
    else if '-' in part then
      var rangeParts := Split(part, '-');
      if |rangeParts| != 2 then Err(InvalidRangeFormat(part)) else RangeQueues(rangeParts[0], rangeParts[1])
    else
      match ParseQueue(part)
      case Err(_) => Err(InvalidQueue(part))
      case Ok(q) => Ok([q])
  }

  function PartResults(parts: seq<string>): (rs: seq<Result<seq<nat>, QueueError>>)
    ensures |rs| == |parts|
    ensures forall k :: 0 <= k < |parts| ==> rs[k] == PartQueues(parts[k])
  {
    seq(|parts|, k requires 0 <= k < |parts| => PartQueues(parts[k]))
  }

  /** The queues of the results left to right, or the first error. */
  function Collected(rs: seq<Result<seq<nat>, QueueError>>): Result<seq<nat>, QueueError> {
    if rs == [] then Ok([])
    else
      match Collected(rs[..|rs| - 1])
      case Err(e) => Err(e)
      case Ok(qs) =>
        (match rs[|rs| - 1]
         case Err(e) => Err(e)
         case Ok(more) => Ok(qs + more))
  }

  /** What `parseQueueDefs(def)` returns. */
  function QueueList(def: string): Result<seq<nat>, QueueError> {
    match Collected(PartResults(Split(def, ',')))
    case Err(e) => Err(e)
    case Ok(qs) => if qs == [] then Err(NoQueues) else Ok(qs)
  }

  lemma {:induction false} CollectedErrSticks(rs: seq<Result<seq<nat>, QueueError>>, k: nat)
    requires k <= |rs|
    requires Collected(rs[..k]).Err?
    ensures Collected(rs) == Collected(rs[..k])
    decreases |rs| - k
  {
    if k < |rs| {
      assert rs[..k + 1][..k] == rs[..k];
      CollectedErrSticks(rs, k + 1);
    } else {
      assert rs[..k] == rs;
    }
  }

  /** The range loop of `parseQueueDefs`. */
  method SpanLoop(start: nat, end: nat) returns (queues: seq<nat>)
    requires start <= end
    ensures queues == Span(start, end)
  {
    queues := [];
    var i := start;
    while i <= end
      invariant start <= i <= end + 1
      invariant queues == Span(start, i - 1)
    {
      assert Span(start, i) == queues + [i];
      queues := queues + [i];
      i := i + 1;
    }
  }

  method ExpandRange(lo: string, hi: string) returns (r: Result<seq<nat>, QueueError>)
    ensures r == RangeQueues(lo, hi)
  {
    var start := ParseQueue(TrimSpace(lo));
    if start.Err? {
      return Err(InvalidStart(lo));
    }
    var end := ParseQueue(TrimSpace(hi));
    if end.Err? {
      return Err(InvalidEnd(hi));
    }
    if start.value > end.value {
      return Err(StartAfterEnd(start.value, end.value));
    }
    var queues := SpanLoop(start.value, end.value);
    return Ok(queues);
  }

  method ExpandPart(raw: string) returns (r: Result<seq<nat>, QueueError>)
    ensures r == PartQueues(raw)
  {
    var part := TrimSpace(raw);
    if part == "" {
      return Ok([]);
    }
    if '-' in part {
      var rangeParts := Split(part, '-');
      if |rangeParts| != 2 {
        return Err(InvalidRangeFormat(part));
      }
      r := ExpandRange(rangeParts[0], rangeParts[1]);
      return r;
    }
    var q := ParseQueue(part);
    if q.Err? {
      return Err(InvalidQueue(part));
    }
    return Ok([q.value]);
  }

  method ParseQueueDefs(def: string) returns (r: Result<seq<nat>, QueueError>)
    ensures r == QueueList(def)
  {
    var parts := Split(def, ',');
    ghost var rs := PartResults(parts);
    var queues: seq<nat> := [];
    var k := 0;
    while k < |parts|
      invariant 0 <= k <= |parts|
      invariant Collected(rs[..k]) == Ok(queues)
    {
      assert rs[..k + 1][..k] == rs[..k];
      var more := ExpandPart(parts[k]);
      if more.Err? {
        CollectedErrSticks(rs, k + 1);
        return Err(more.error);
      }
      queues := queues + more.value;
      k := k + 1;
    }
    assert rs[..k] == rs;
    if |queues| == 0 {
      return Err(NoQueues);
    }
    return Ok(queues);
  }

  // ---------------------------------------------------------------------------
  // Properties
  // ---------------------------------------------------------------------------

  lemma {:induction false} CollectedBounded(rs: seq<Result<seq<nat>, QueueError>>)
    requires forall k :: 0 <= k < |rs| && rs[k].Ok? ==> forall j :: 0 <= j < |rs[k].value| ==> rs[k].value[j] <= MaxUint16
    ensures Collected(rs).Ok? ==> forall j :: 0 <= j < |Collected(rs).value| ==> Collected(rs).value[j] <= MaxUint16
  {
    if rs != [] {
      CollectedBounded(rs[..|rs| - 1]);
    }
  }

  /** A successful parse gives at least one queue, each a 16-bit number. */
  lemma QueueListBounded(def: string)
    ensures QueueList(def).Ok? ==> QueueList(def).value != []
    ensures QueueList(def).Ok? ==> forall j :: 0 <= j < |QueueList(def).value| ==> QueueList(def).value[j] <= MaxUint16
  {
    var rs := PartResults(Split(def, ','));
    forall k | 0 <= k < |rs| && rs[k].Ok?
      ensures forall j :: 0 <= j < |rs[k].value| ==> rs[k].value[j] <= MaxUint16
    {
    }
    CollectedBounded(rs);
  }

  lemma {:induction false} CollectedBlank(rs: seq<Result<seq<nat>, QueueError>>)
    requires forall k :: 0 <= k < |rs| ==> rs[k].Ok? && rs[k].value == []
    ensures Collected(rs).Ok? && Collected(rs).value == []
  {
    if rs != [] {
      var init := rs[..|rs| - 1];
      assert forall k :: 0 <= k < |init| ==> init[k] == rs[k];
      CollectedBlank(init);
    }
  }

  /** Blank parts are skipped, so a list of only blank parts names no queue. */
  lemma AllBlankNoQueues(def: string)
    requires forall k :: 0 <= k < |Split(def, ',')| ==> IsBlank(Split(def, ',')[k])
    ensures QueueList(def) == Err(NoQueues)
  {
    CollectedBlank(PartResults(Split(def, ',')));
  }

  /** A part `x-y` of two digit strings is its own trim, holds a dash, and
      splits at it into the two digit strings. */
  lemma RangePartText(x: string, y: string)
    requires x != [] && y != []
    requires forall i :: 0 <= i < |x| ==> IsDigit(x[i])
    requires forall i :: 0 <= i < |y| ==> IsDigit(y[i])
    ensures var part := x + ['-'] + y;
      TrimSpace(part) == part && '-' in part && Split(part, '-') == [x, y]
  {
    var part := x + ['-'] + y;
    assert part[|x|] == '-';
    assert part[0] == x[0];
    assert part[|part| - 1] == y[|y| - 1];
    TrimSpaceOfTrimmed(part);
    DigitsTrimmed(x);
    DigitsTrimmed(y);
    SplitOverSeparator(x, '-', y);
  }

  /** A part `a-b` written in decimal splits into its two numbers. */
  lemma RangePart(a: nat, b: nat)
    ensures var part := NatToString(a) + ['-'] + NatToString(b);
      TrimSpace(part) == part && '-' in part && Split(part, '-') == [NatToString(a), NatToString(b)]
  {
    RangePartText(NatToString(a), NatToString(b));
  }

  /** A range runs from its start to its end inclusive, in order. */
  lemma RangeExpands(a: nat, b: nat)
    requires a <= b <= MaxUint16
    ensures PartQueues(NatToString(a) + ['-'] + NatToString(b)) == Ok(Span(a, b))
  {
    RangePart(a, b);
    DigitsTrimmed(NatToString(a));
    DigitsTrimmed(NatToString(b));
    ParseUintNatToString(a, MaxUint16);
    ParseUintNatToString(b, MaxUint16);
  }

  /** A range that runs backwards is refused. */
  lemma BackwardRangeRejected(a: nat, b: nat)
    requires b < a <= MaxUint16
    ensures PartQueues(NatToString(a) + ['-'] + NatToString(b)) == Err(StartAfterEnd(a, b))
  {
    RangePart(a, b);
    DigitsTrimmed(NatToString(a));
    DigitsTrimmed(NatToString(b));
    ParseUintNatToString(a, MaxUint16);
    ParseUintNatToString(b, MaxUint16);
  }

  /** A part with two or more dashes is refused. */
  lemma ManyDashesRejected(raw: string)
    requires multiset(TrimSpace(raw))['-'] >= 2
    ensures PartQueues(raw) == Err(InvalidRangeFormat(TrimSpace(raw)))
  {
    SplitCount(TrimSpace(raw), '-');
  }

  /** A number past 65535 is refused. */
  lemma LargeQueueRejected(n: nat)
    requires n > MaxUint16
    ensures PartQueues(NatToString(n)) == Err(InvalidQueue(NatToString(n)))
  {
    DigitsTrimmed(NatToString(n));
    FoldNatToString(n);
    if ParseQueue(NatToString(n)).Ok? {
      ParseUintFolds(NatToString(n), MaxUint16);
    }
  }

  /** Decimal digits are their own trim and hold no dash or comma. */
  lemma DigitsTrimmed(s: string)
    requires forall i :: 0 <= i < |s| ==> IsDigit(s[i]) || s[i] == '-'
    ensures TrimSpace(s) == s && ',' !in s
    ensures (forall i :: 0 <= i < |s| ==> IsDigit(s[i])) ==> '-' !in s
  {
    TrimSpaceOfTrimmed(s);
  }

  /** What strconv reads from a digit string is its value. */
  lemma ParseUintFolds(s: string, maxVal: nat)
    requires ParseUint(s, maxVal).Ok?
    requires forall i :: 0 <= i < |s| ==> IsDigit(s[i])
    ensures ParseUint(s, maxVal).value == FoldDigits(s, 0)
  {
    ScanDigitsValue(s, 0, maxVal);
  }

  lemma {:induction false} ScanDigitsValue(s: string, acc: nat, maxVal: nat)
    requires ScanDigits(s, acc, maxVal).Ok?
    requires forall i :: 0 <= i < |s| ==> IsDigit(s[i])
    ensures ScanDigits(s, acc, maxVal).value == FoldDigits(s, acc)
  {
    if s != [] {
      ScanDigitsValue(s[1..], acc * 10 + DigitValue(s[0]), maxVal);
    }
  }

  /** The decimal forms of a list of queues, comma-separated. */
  function Written(qs: seq<nat>): (parts: seq<string>)
    ensures |parts| == |qs|
    ensures forall k :: 0 <= k < |qs| ==> parts[k] == NatToString(qs[k])
  {
    seq(|qs|, k requires 0 <= k < |qs| => NatToString(qs[k]))
  }

  lemma {:induction false} CollectedSingles(rs: seq<Result<seq<nat>, QueueError>>, qs: seq<nat>)
    requires |rs| == |qs|
    requires forall k :: 0 <= k < |rs| ==> rs[k] == Ok([qs[k]])
    ensures Collected(rs) == Ok(qs)
  {
    if rs != [] {
      CollectedSingles(rs[..|rs| - 1], qs[..|qs| - 1]);
      assert qs == qs[..|qs| - 1] + [qs[|qs| - 1]];
    }
  }

  /** Single numbers keep their order and their duplicates: writing a list
      of 16-bit queues out and parsing it gives the list back. */
  lemma QueueListRoundTrip(qs: seq<nat>)
    requires qs != []
    requires forall k :: 0 <= k < |qs| ==> qs[k] <= MaxUint16
    ensures QueueList(Join(Written(qs), ',')) == Ok(qs)
  {
    var parts := Written(qs);
    forall k | 0 <= k < |parts| ensures ',' !in parts[k] && PartQueues(parts[k]) == Ok([qs[k]]) {
      DigitsTrimmed(parts[k]);
      ParseUintNatToString(qs[k], MaxUint16);
      assert '-' !in parts[k];
    }
    SplitJoin(parts, ',');
    CollectedSingles(PartResults(parts), qs);
  }
}
