/** The VLAN-interface bookkeeping of the server's network package: trunk-list
    expansion, merging and pruning of comma-separated interface lists, and the
    create/merge/delete rules over the `vlan_config` table. The `ip link` and
    `bridge` shell commands these functions also issue are no-ops here. */
module Bridge {
  import opened Wrappers
  import opened GoText
  import opened GoSort

  const LinkTypeAccess: string := "access"
  const LinkTypeTrunk: string := "trunk"

  /** The name of the VLAN interface for a VLAN id. */
  function VlanInterface(vlanId: string): string {
    "vlan_" + vlanId
  }

  /** The errors of this file: a malformed trunk list, strconv's error for a
      non-numeric entry, and the failed insert of a new row. */
  datatype VlanError = BadTrunkFormat | BadNumber(cause: NumError) | AddFailed

  // ---------------------------------------------------------------------------
  // Trunk lists: SplitAndAddList
  // ---------------------------------------------------------------------------

  /** The decimal ids `start`, `start + 1`, ..., `end`; none when `start > end`. */
  function RangeIds(start: int, end: int): (ids: seq<string>)
    ensures |ids| == if start <= end then end - start + 1 else 0
    ensures forall k :: 0 <= k < |ids| ==> ids[k] == Itoa(start + k)
  {
    if start > end then [] else seq(end - start + 1, k => Itoa(start + k))
  }

  lemma RangeIdsSnoc(start: int, last: int)
    requires start <= last
    ensures RangeIds(start, last) == RangeIds(start, last - 1) + [Itoa(last)]
  {
  }

  /** A number of a trunk list, read as `strconv.Atoi` reads it. */
  function ParseId(s: string): (r: Result<int, VlanError>)
    ensures r.Ok? <==> ParseInt64(s).Ok?
    ensures r.Ok? ==> r.value == ParseInt64(s).value
  {
    match ParseInt64(s)
    case Err(e) => Err(BadNumber(e))
    case Ok(n) => Ok(n)
  }

  /** The ids of a range `lo-hi`, each side trimmed. */
  function RangeOf(lo: string, hi: string): Result<seq<string>, VlanError> {
    match ParseId(TrimSpace(lo))
    case Err(e) => Err(e)
    case Ok(start) =>
      (match ParseId(TrimSpace(hi))
       case Err(e) => Err(e)
       case Ok(end) => Ok(RangeIds(start, end)))
  }

  /** The ids of a trimmed entry: `a-b` or a single number, which is written
      back in canonical form. */
  function EntryOf(t: string): Result<seq<string>, VlanError> {
    if '-' in t then
      var nums := Split(t, '-');
      if |nums| != 2 then Err(BadTrunkFormat) else RangeOf(nums[0], nums[1])
    else
      (match ParseId(t)
       case Err(e) => Err(e)
       case Ok(n) => Ok([Itoa(n)]))
  }

  /** The ids one comma-separated entry of a trunk list stands for: the entry
      is trimmed first. */
  function Entry(r: string): Result<seq<string>, VlanError> {
    EntryOf(TrimSpace(r))
  }

  /** The result of each entry, in order. */
  function EntryResults(entries: seq<string>): (rs: seq<Result<seq<string>, VlanError>>)
    ensures |rs| == |entries|
    ensures forall k :: 0 <= k < |entries| ==> rs[k] == Entry(entries[k])
  {
    seq(|entries|, k requires 0 <= k < |entries| => Entry(entries[k]))
  }

  /** The ids of the results concatenated left to right, or the first error. */
  function Gathered(rs: seq<Result<seq<string>, VlanError>>): Result<seq<string>, VlanError> {
    if rs == [] then Ok([])
    else
      match Gathered(rs[..|rs| - 1])
      case Err(e) => Err(e)
      case Ok(ids) =>
        (match rs[|rs| - 1]
         case Err(e) => Err(e)
         case Ok(more) => Ok(ids + more))
  }

  /** The entries expanded left to right, stopping at the first bad one. */
  function Expanded(entries: seq<string>): Result<seq<string>, VlanError> {
    Gathered(EntryResults(entries))
  }

  /** The default id, appended when the list does not hold it already. */
  function WithDefault(ids: seq<string>, defaultId: string): seq<string> {
    if defaultId in ids then ids else ids + [defaultId]
  }

  /** What `SplitAndAddList(trunkVlanId, defaultID)` returns. */
  function TrunkIds(trunkVlanId: string, defaultId: string): Result<seq<string>, VlanError> {
    match Expanded(Split(trunkVlanId, ','))
    case Err(e) => Err(e)
    case Ok(ids) => Ok(WithDefault(ids, defaultId))
  }

  lemma {:induction false} GatheredErrSticks(rs: seq<Result<seq<string>, VlanError>>, k: nat)
    requires k <= |rs|
    requires Gathered(rs[..k]).Err?
    ensures Gathered(rs) == Gathered(rs[..k])
    decreases |rs| - k
  {
    if k < |rs| {
      assert rs[..k + 1][..k] == rs[..k];
      GatheredErrSticks(rs, k + 1);
    } else {
      assert rs[..k] == rs;
    }
  }

  lemma {:induction false} GatheredFailsIff(rs: seq<Result<seq<string>, VlanError>>)
    ensures Gathered(rs).Err? <==> exists k :: 0 <= k < |rs| && rs[k].Err?
  {
    if rs != [] {
      var init := rs[..|rs| - 1];
      GatheredFailsIff(init);
      if exists k :: 0 <= k < |rs| && rs[k].Err? {
        var k :| 0 <= k < |rs| && rs[k].Err?;
        if k < |init| {
          assert init[k].Err?;
        }
      }
      if exists k :: 0 <= k < |init| && init[k].Err? {
        var k :| 0 <= k < |init| && init[k].Err?;
        assert rs[k].Err?;
      }
    }
  }

  /** A list fails to expand exactly when one of its entries is bad. */
  lemma ExpandedFailsIffBadEntry(entries: seq<string>)
    ensures Expanded(entries).Err? <==> exists k :: 0 <= k < |entries| && Entry(entries[k]).Err?
  {
    var rs := EntryResults(entries);
    GatheredFailsIff(rs);
    if exists k :: 0 <= k < |rs| && rs[k].Err? {
      var k :| 0 <= k < |rs| && rs[k].Err?;
      assert Entry(entries[k]).Err?;
    }
  }

  /** The loop over a range `start-end`: the ids from `start` to `end`. */
  method AppendRange(start: int, end: int) returns (more: seq<string>)
    ensures more == RangeIds(start, end)
  {
    var i := start;
    more := [];
    while i <= end
      invariant start <= i <= end + 1 || (start > end && i == start)
      invariant more == RangeIds(start, i - 1)
      decreases end - i
    {
      RangeIdsSnoc(start, i);
      more := more + [Itoa(i)];
      i := i + 1;
    }
  }

  /** One pass of `SplitAndAddList`'s loop: the ids of one entry. */
  method ExpandEntry(r: string) returns (res: Result<seq<string>, VlanError>)
    ensures res == Entry(r)
  {
    var entry := TrimSpace(r);
    if '-' in entry {
      var nums := Split(entry, '-');
      if |nums| != 2 {
        return Err(BadTrunkFormat);
      }
      var start := ParseId(TrimSpace(nums[0]));
      if start.Err? {
        return Err(start.error);
      }
      var end := ParseId(TrimSpace(nums[1]));
      if end.Err? {
        return Err(end.error);
      }
      var more := AppendRange(start.value, end.value);
      return Ok(more);
    }
    var num := ParseId(entry);
    if num.Err? {
      return Err(num.error);
    }
    return Ok([Itoa(num.value)]);
  }

  /** `SplitAndAddList`'s first loop: the entries expanded in order. */
  /** Gathering one more successful result appends its ids. */
  lemma GatheredSnoc(rs: seq<Result<seq<string>, VlanError>>, k: nat, ids: seq<string>)
    requires k < |rs| && Gathered(rs[..k]) == Ok(ids) && rs[k].Ok?
    ensures Gathered(rs[..k + 1]) == Ok(ids + rs[k].value)
  {
    assert rs[..k + 1][..k] == rs[..k];
  }

    method ExpandEntries(ranges: seq<string>) returns (r: Result<seq<string>, VlanError>)
    ensures r == Expanded(ranges)
  {
    ghost var rs := EntryResults(ranges);
    var result: seq<string> := [];
    var k := 0;
    while k < |ranges|
      invariant 0 <= k <= |ranges|
      invariant Gathered(rs[..k]) == Ok(result)
    {
      var more := ExpandEntry(ranges[k]);
      if more.Err? {
        assert rs[..k + 1][..k] == rs[..k];
        GatheredErrSticks(rs, k + 1);
        return Err(more.error);
      }
      GatheredSnoc(rs, k, result);
      result := result + more.value;
      k := k + 1;
    }
    assert rs[..|ranges|] == rs;
    return Ok(result);
  }

  /** `SplitAndAddList`'s second loop: the default id appended unless found. */
  method AddDefault(result: seq<string>, defaultId: string) returns (r: seq<string>)
    ensures r == WithDefault(result, defaultId)
  {
    var found := false;
    var j := 0;
    while j < |result|
      invariant 0 <= j <= |result|
      invariant forall i :: 0 <= i < j ==> result[i] != defaultId
    {
      if result[j] == defaultId {
        found := true;
        break;
      }
      j := j + 1;
    }
    if !found {
      return result + [defaultId];
    }
    return result;
  }

  method SplitAndAddList(trunkVlanId: string, defaultId: string) returns (r: Result<seq<string>, VlanError>)
    ensures r == TrunkIds(trunkVlanId, defaultId)
  {
    var ranges := Split(trunkVlanId, ',');
    var expanded := ExpandEntries(ranges);
    if expanded.Err? {
      return Err(expanded.error);
    }
    var result := AddDefault(expanded.value, defaultId);
    return Ok(result);
  }

  /** Entries are trimmed before they are read. */
  lemma EntryTrims(r: string)
    ensures Entry(r) == Entry(TrimSpace(r))
  {
    TrimSpaceOfTrimmed(TrimSpace(r));
  }

  /** An entry with two or more dashes is malformed. */
  lemma ManyDashesRejected(r: string)
    requires multiset(TrimSpace(r))['-'] >= 2
    ensures Entry(r) == Err(BadTrunkFormat)
  {
    SplitCount(TrimSpace(r), '-');
  }

  /** An empty entry, and so an empty trunk list, is a syntax error. */
  lemma EmptyEntryRejected(r: string, defaultId: string)
    requires IsBlank(r)
    ensures Entry(r) == Err(BadNumber(Syntax))
    ensures TrunkIds("", defaultId) == Err(BadNumber(Syntax))
  {
    assert Split("", ',') == [""];
    assert [""][..0] == [];
  }

  lemma SplitDigitRange(a: nat, b: nat)
    ensures Split(NatToString(a) + "-" + NatToString(b), '-') == [NatToString(a), NatToString(b)]
  {
    var sa, sb := NatToString(a), NatToString(b);
    assert '-' !in sa && '-' !in sb by {
      assert forall i :: 0 <= i < |sa| ==> IsDigit(sa[i]);
      assert forall i :: 0 <= i < |sb| ==> IsDigit(sb[i]);
    }
    SplitOverSeparator(sa, '-', sb);
  }

  /** The decimal text of an id needs no trimming, holds no dash and parses
      back to the id. */
  lemma DigitsRead(n: nat)
    requires n <= MaxInt64
    ensures TrimSpace(NatToString(n)) == NatToString(n)
    ensures '-' !in NatToString(n)
    ensures ParseId(NatToString(n)) == Ok(n)
  {
    var s := NatToString(n);
    assert IsDigit(s[0]) && IsDigit(s[|s| - 1]);
    TrimSpaceOfTrimmed(s);
    assert forall i :: 0 <= i < |s| ==> IsDigit(s[i]);
    ParseItoa(n);
  }

  /** `a-b` expands to the ids a..b in ascending order, and to nothing (with no
      error) when a > b. */
  lemma RangeEntry(a: nat, b: nat)
    requires a <= MaxInt64 && b <= MaxInt64
    ensures Entry(NatToString(a) + "-" + NatToString(b)) == Ok(RangeIds(a, b))
    ensures a > b ==> Entry(NatToString(a) + "-" + NatToString(b)) == Ok([])
  {
    var sa, sb := NatToString(a), NatToString(b);
    var s := sa + "-" + sb;
    assert s[|sa|] == '-';
    assert !IsSpace(s[0]) && !IsSpace(s[|s| - 1]) by {
      assert s[0] == sa[0] && IsDigit(sa[0]);
      assert s[|s| - 1] == sb[|sb| - 1] && IsDigit(sb[|sb| - 1]);
    }
    assert TrimSpace(s) == s by { TrimSpaceOfTrimmed(s); }
    assert Split(s, '-') == [sa, sb] by { SplitDigitRange(a, b); }
    DigitsRead(a);
    DigitsRead(b);
    assert RangeOf(sa, sb) == Ok(RangeIds(a, b));
  }

  /** A dash-free entry that parses as a number is written back in canonical
      form, the decimal text of that number, which parses back to it. */
  lemma SingleEntryNormalised(r: string, n: int)
    requires '-' !in TrimSpace(r) && ParseInt64(TrimSpace(r)) == Ok(n)
    ensures Entry(r) == Ok([Itoa(n)])
    ensures ParseInt64(Itoa(n)) == Ok(n)
  {
    ParseItoa(n);
  }

  /** For instance, "007" becomes "7". */
  lemma LeadingZerosDropped()
    ensures Entry("007") == Ok(["7"])
  {
    assert TrimSpace("007") == "007" by { TrimSpaceOfTrimmed("007"); }
    assert ScanDigits("7", 0, MaxUint64) == Ok(7);
    assert ScanDigits("07", 0, MaxUint64) == Ok(7);
    assert ParseInt64("007") == Ok(7);
    SingleEntryNormalised("007", 7);
  }

  /** On success the default id is in the result, after the expanded entries,
      and is added at most once. */
  lemma DefaultIdAppended(trunkVlanId: string, defaultId: string, ids: seq<string>)
    requires Expanded(Split(trunkVlanId, ',')) == Ok(ids)
    ensures TrunkIds(trunkVlanId, defaultId).Ok?
    ensures var r := TrunkIds(trunkVlanId, defaultId).value;
      defaultId in r && r[..|ids|] == ids &&
      |r| == |ids| + (if defaultId in ids then 0 else 1)
  {
  }

  // ---------------------------------------------------------------------------
  // Comma lists: combineAndSortStrings
  // ---------------------------------------------------------------------------

  /** Some entry of `list` equals `x` once both are trimmed. */
  predicate Covers(list: seq<string>, x: string) {
    exists i :: 0 <= i < |list| && TrimSpace(list[i]) == TrimSpace(x)
  }

  /** `b`'s entries appended to `a` in order, each unless the list built so far
      already covers it. */
  function Merge(a: seq<string>, b: seq<string>): (r: seq<string>)
    ensures |r| >= |a| && r[..|a|] == a
  {
    if b == [] then a
    else
      var m := Merge(a, b[..|b| - 1]);
      if Covers(m, b[|b| - 1]) then m else m + [b[|b| - 1]]
  }

  /** What `combineAndSortStrings(A, B)` returns. */
  function Combined(a: string, b: string): string {
    Join(SortStrings(Merge(Split(a, ','), Split(b, ','))), ',')
  }

  /** `combineAndSortStrings`' inner loop: whether the list holds the entry
      once both are trimmed. */
  method Contains(list: seq<string>, entry: string) returns (found: bool)
    ensures found == Covers(list, entry)
  {
    var j := 0;
    while j < |list|
      invariant 0 <= j <= |list|
      invariant forall i :: 0 <= i < j ==> TrimSpace(list[i]) != TrimSpace(entry)
    {
      if TrimSpace(list[j]) == TrimSpace(entry) {
        return true;
      }
      j := j + 1;
    }
    return false;
  }

  method CombineAndSortStrings(a: string, b: string) returns (r: string)
    ensures r == Combined(a, b)
  {
    var aList := Split(a, ',');
    var bList := Split(b, ',');
    ghost var a0 := aList;
    var k := 0;
    while k < |bList|
      invariant 0 <= k <= |bList|
      invariant aList == Merge(a0, bList[..k])
    {
      var entry := bList[k];
      var found := Contains(aList, entry);
      MergeSnoc(a0, bList, k);
      if !found {
        aList := aList + [entry];
      }
      k := k + 1;
    }
    assert bList[..|bList|] == bList;
    aList := SortStrings(aList);
    r := Join(aList, ',');
  }

  /** Merging one more entry of `b`. */
  lemma MergeSnoc(a: seq<string>, b: seq<string>, k: nat)
    requires k < |b|
    ensures var m := Merge(a, b[..k]);
      Merge(a, b[..k + 1]) == if Covers(m, b[k]) then m else m + [b[k]]
  {
    assert b[..k + 1][..k] == b[..k];
  }

  lemma CoversExtended(m: seq<string>, x: string, y: string)
    requires Covers(m, y)
    ensures Covers(m + [x], y)
  {
    var i :| 0 <= i < |m| && TrimSpace(m[i]) == TrimSpace(y);
    assert (m + [x])[i] == m[i];
  }

  lemma CoversPermuted(l: seq<string>, p: seq<string>, x: string)
    requires multiset(l) == multiset(p)
    requires Covers(l, x)
    ensures Covers(p, x)
  {
    var i :| 0 <= i < |l| && TrimSpace(l[i]) == TrimSpace(x);
    assert l[i] in multiset(p);
    var j :| 0 <= j < |p| && p[j] == l[i];
  }

  lemma {:induction false} MergeCovers(a: seq<string>, b: seq<string>)
    ensures forall j :: 0 <= j < |b| ==> Covers(Merge(a, b), b[j])
  {
    if b != [] {
      var init := b[..|b| - 1];
      var x := b[|b| - 1];
      var m := Merge(a, init);
      MergeCovers(a, init);
      forall j | 0 <= j < |b|
        ensures Covers(Merge(a, b), b[j])
      {
        if j < |init| {
          assert b[j] == init[j];
          if !Covers(m, x) {
            CoversExtended(m, x, b[j]);
          }
        } else if !Covers(m, x) {
          assert (m + [x])[|m|] == x;
        }
      }
    }
  }

  lemma {:induction false} MergeFrom(a: seq<string>, b: seq<string>)
    ensures forall e :: e in Merge(a, b) ==> e in a || e in b
  {
    if b != [] {
      var init := b[..|b| - 1];
      MergeFrom(a, init);
      assert forall e :: e in init ==> e in b;
    }
  }

  lemma {:induction false} MergeAllCovered(a: seq<string>, b: seq<string>)
    requires forall j :: 0 <= j < |b| ==> Covers(a, b[j])
    ensures Merge(a, b) == a
  {
    if b != [] {
      MergeAllCovered(a, b[..|b| - 1]);
    }
  }

  lemma PiecesNoComma(a: string, b: string)
    ensures forall e :: e in Merge(Split(a, ','), Split(b, ',')) ==> ',' !in e
  {
    MergeFrom(Split(a, ','), Split(b, ','));
  }

  /** The pieces of a combined list are the merged entries in sorted order. */
  lemma SplitCombined(a: string, b: string)
    ensures Split(Combined(a, b), ',') == SortStrings(Merge(Split(a, ','), Split(b, ',')))
  {
    var l := Merge(Split(a, ','), Split(b, ','));
    var s := SortStrings(l);
    PiecesNoComma(a, b);
    forall i | 0 <= i < |s| ensures ',' !in s[i] {
      assert s[i] in multiset(l);
    }
    SplitJoin(s, ',');
  }

  /** The combined list is sorted. */
  lemma CombinedSorted(a: string, b: string)
    ensures Sorted(Split(Combined(a, b), ','))
  {
    SplitCombined(a, b);
    SortStringsSorted(Merge(Split(a, ','), Split(b, ',')));
  }

  /** The combined list keeps every entry of `a`, duplicates included. */
  lemma CombinedKeepsFirst(a: string, b: string)
    ensures multiset(Split(a, ',')) <= multiset(Split(Combined(a, b), ','))
  {
    var sa := Split(a, ',');
    var l := Merge(sa, Split(b, ','));
    assert multiset(sa) <= multiset(SortStrings(l)) by {
      assert l == sa + l[|sa|..];
      assert multiset(l) == multiset(sa) + multiset(l[|sa|..]);
    }
    SplitCombined(a, b);
  }

  /** Every entry of `b` is in the combined list, under trimmed comparison. */
  lemma CombinedCoversSecond(a: string, b: string)
    ensures forall x :: x in Split(b, ',') ==> Covers(Split(Combined(a, b), ','), x)
  {
    var sa, sb := Split(a, ','), Split(b, ',');
    var l := Merge(sa, sb);
    forall x | x in sb ensures Covers(SortStrings(l), x) {
      var j :| 0 <= j < |sb| && sb[j] == x;
      MergeCovers(sa, sb);
      CoversPermuted(l, SortStrings(l), x);
    }
    SplitCombined(a, b);
  }

  /** The combined list holds only entries of `a` and `b`. */
  lemma CombinedFromInputs(a: string, b: string)
    ensures forall e :: e in Split(Combined(a, b), ',') ==> e in Split(a, ',') || e in Split(b, ',')
  {
    var sa, sb := Split(a, ','), Split(b, ',');
    var l := Merge(sa, sb);
    SplitCombined(a, b);
    MergeFrom(sa, sb);
    forall e | e in SortStrings(l) ensures e in sa || e in sb {
      assert e in multiset(l);
    }
  }

  /** Combining the same second list twice changes nothing. */
  lemma CombinedIdempotent(a: string, b: string)
    ensures Combined(Combined(a, b), b) == Combined(a, b)
  {
    var sb := Split(b, ',');
    var l := Merge(Split(a, ','), sb);
    var s := SortStrings(l);
    SplitCombined(a, b);
    MergeCovers(Split(a, ','), sb);
    forall j | 0 <= j < |sb| ensures Covers(s, sb[j]) {
      CoversPermuted(l, s, sb[j]);
    }
    MergeAllCovered(s, sb);
    SortStringsSorted(l);
    SortStringsOfSorted(s);
  }

  // ---------------------------------------------------------------------------
  // The vlan_config table
  // ---------------------------------------------------------------------------

  /** `models.InterfaceConfig`: how a physical port joins VLANs. */
  datatype InterfaceConfig = InterfaceConfig(outInterface: string, linkType: string, vlanId: string,
                                             trunkVlanId: string, defaultId: string)

  /** A row of `vlan_config` (`models.VlanConfig`); `kind` is its `Type` column. */
  datatype VlanRecord = VlanRecord(vlanId: int, outInterface: string, kind: string, isManager: int,
                                   physicalInterface: string, status: int)

  /** The table as a value: the live rows by `out_interface`, and the
      `out_interface` of every soft-deleted row. gorm keeps soft-deleted rows
      in the table, so their keys still occupy its unique index. */
  datatype Store = Store(rows: map<string, VlanRecord>, retired: set<string>)

  /** A key the unique index on `out_interface` already holds. */
  predicate Occupied(s: Store, key: string) {
    key in s.rows || key in s.retired
  }

  /** The row `addVlanIfAdd` inserts: VLAN id read by `strconv.Atoi` with its
      error ignored, type "2", not a management interface, status up. */
  function NewRecord(eth: string, vlanId: string, key: string): VlanRecord {
    VlanRecord(ParseInt64Value(vlanId), key, "2", 0, eth, 1)
  }

  /** `Update("physical_interface", phys)` on the row with this key; with no
      such row nothing changes. */
  function WithPhysical(s: Store, key: string, phys: string): Store {
    if key in s.rows then s.(rows := s.rows[key := s.rows[key].(physicalInterface := phys)]) else s
  }

  /** gorm's soft `Delete`: the row leaves the live rows, its key stays taken. */
  function SoftDeleted(s: Store, key: string): Store {
    Store(s.rows - {key}, s.retired + {key})
  }

  /** The table after an operation and the error the operation returned. */
  datatype Outcome = Outcome(store: Store, err: Option<VlanError>)

  /** `addVlanIfAdd`: inserts the new row, which fails when the key is taken. */
  function Added(s: Store, eth: string, vlanId: string, key: string): Outcome {
    if Occupied(s, key) then Outcome(s, Some(AddFailed))
    else Outcome(s.(rows := s.rows[key := NewRecord(eth, vlanId, key)]), None)
  }

  /** `addVlanIfUpdate`: the row's interface list combined with `eth`, where
      `current` is the list as the caller read it. */
  function Merged(s: Store, key: string, current: string, eth: string): Store {
    WithPhysical(s, key, Combined(current, eth))
  }

  /** The in-memory `vlan_config` table that the VLAN functions read and write. */
  class VlanTable {
    var rows: map<string, VlanRecord>
    var retired: set<string>

    function State(): Store
      reads this
    {
      Store(rows, retired)
    }

    constructor()
      ensures rows == map[] && retired == {}
    {
      rows := map[];
      retired := {};
    }

    /** `db.Create`: refused when the unique index already holds the key. */
    method Create(rec: VlanRecord) returns (ok: bool)
      modifies this
      ensures ok == !Occupied(old(State()), rec.outInterface)
      ensures ok ==> rows == old(rows)[rec.outInterface := rec] && retired == old(retired)
      ensures !ok ==> rows == old(rows) && retired == old(retired)
    {
      ok := !(rec.outInterface in rows || rec.outInterface in retired);
      if ok {
        rows := rows[rec.outInterface := rec];
      }
    }

    /** `db.Model(&row).Update("physical_interface", phys)`. */
    method UpdatePhysical(key: string, phys: string)
      modifies this
      ensures State() == WithPhysical(old(State()), key, phys)
    {
      if key in rows {
        rows := rows[key := rows[key].(physicalInterface := phys)];
      }
    }

    /** `db.Delete(&row)`, a soft delete. */
    method SoftDelete(key: string)
      modifies this
      ensures State() == SoftDeleted(old(State()), key)
    {
      rows := rows - {key};
      retired := retired + {key};
    }

    /** `db.Unscoped().Delete(&row)`, which removes the row for good. */
    method HardDelete(key: string)
      modifies this
      ensures rows == old(rows) - {key} && retired == old(retired)
    {
      rows := rows - {key};
    }
  }

  method AddVlanIfAdd(table: VlanTable, eth: string, vlanId: string, key: string) returns (err: Option<VlanError>)
    modifies table
    ensures Outcome(table.State(), err) == Added(old(table.State()), eth, vlanId, key)
  {
    var vlanIntId := ParseInt64Value(vlanId);
    var ok := table.Create(VlanRecord(vlanIntId, key, "2", 0, eth, 1));
    if !ok {
      return Some(AddFailed);
    }
    return None;
  }

  method AddVlanIfUpdate(table: VlanTable, key: string, current: VlanRecord, eth: string)
    modifies table
    ensures table.State() == Merged(old(table.State()), key, current.physicalInterface, eth)
  {
    var phys := CombineAndSortStrings(current.physicalInterface, eth);
    table.UpdatePhysical(key, phys);
  }

  // ---------------------------------------------------------------------------
  // AddVlanIf
  // ---------------------------------------------------------------------------

  /** One id of a trunk: merge into the row the snapshot read, or create one. */
  function TrunkStep(s: Store, snapshot: map<string, VlanRecord>, eth: string, id: string): Outcome {
    var key := VlanInterface(id);
    if key in snapshot then Outcome(Merged(s, key, snapshot[key].physicalInterface, eth), None)
    else Added(s, eth, id, key)
  }

  /** The trunk ids handled in order against the snapshot taken before the
      loop, stopping at the first error. */
  function TrunkAdded(s: Store, snapshot: map<string, VlanRecord>, eth: string, ids: seq<string>): Outcome {
    if ids == [] then Outcome(s, None)
    else
      var prev := TrunkAdded(s, snapshot, eth, ids[..|ids| - 1]);
      if prev.err.Some? then prev else TrunkStep(prev.store, snapshot, eth, ids[|ids| - 1])
  }

  /** What `AddVlanIf` does to the table and returns. */
  function AddedVlanIf(s: Store, cfg: InterfaceConfig): Outcome {
    if cfg.linkType == LinkTypeAccess then
      var key := VlanInterface(cfg.vlanId);
      if key in s.rows then Outcome(Merged(s, key, s.rows[key].physicalInterface, cfg.outInterface), None)
      else Added(s, cfg.outInterface, cfg.vlanId, key)
    else if cfg.linkType == LinkTypeTrunk then
      match TrunkIds(cfg.trunkVlanId, cfg.defaultId)
      case Err(e) => Outcome(s, Some(e))
      case Ok(ids) => TrunkAdded(s, s.rows, cfg.outInterface, ids)
    else Outcome(s, None)
  }

  lemma {:induction false} TrunkAddedErrSticks(s: Store, snapshot: map<string, VlanRecord>, eth: string, ids: seq<string>, k: nat)
    requires k <= |ids|
    requires TrunkAdded(s, snapshot, eth, ids[..k]).err.Some?
    ensures TrunkAdded(s, snapshot, eth, ids) == TrunkAdded(s, snapshot, eth, ids[..k])
    decreases |ids| - k
  {
    if k < |ids| {
      assert ids[..k + 1][..k] == ids[..k];
      TrunkAddedErrSticks(s, snapshot, eth, ids, k + 1);
    } else {
      assert ids[..k] == ids;
    }
  }

  /** Handling one more id of the list. */
  lemma TrunkAddedSnoc(s: Store, snapshot: map<string, VlanRecord>, eth: string, ids: seq<string>, k: nat)
    requires k < |ids|
    ensures var prev := TrunkAdded(s, snapshot, eth, ids[..k]);
      TrunkAdded(s, snapshot, eth, ids[..k + 1]) == if prev.err.Some? then prev else TrunkStep(prev.store, snapshot, eth, ids[k])
  {
    assert ids[..k + 1][..k] == ids[..k];
  }

  /** One pass of the trunk loop: a row the snapshot lacks is added, one it
      has gets the interface merged into its list. */
  method AddTrunkId(table: VlanTable, snapshot: map<string, VlanRecord>, eth: string, id: string)
    returns (err: Option<VlanError>)
    modifies table
    ensures Outcome(table.State(), err) == TrunkStep(old(table.State()), snapshot, eth, id)
  {
    var key := VlanInterface(id);
    if key !in snapshot {
      err := AddVlanIfAdd(table, eth, id, key);
    } else {
      AddVlanIfUpdate(table, key, snapshot[key], eth);
      err := None;
    }
  }

  /** `AddVlanIf`'s trunk loop over the parsed ids. */
  method AddTrunkIds(table: VlanTable, snapshot: map<string, VlanRecord>, eth: string, ids: seq<string>)
    returns (err: Option<VlanError>)
    modifies table
    ensures Outcome(table.State(), err) == TrunkAdded(old(table.State()), snapshot, eth, ids)
  {
    ghost var start := table.State();
    var k := 0;
    while k < |ids|
      invariant 0 <= k <= |ids|
      invariant TrunkAdded(start, snapshot, eth, ids[..k]) == Outcome(table.State(), None)
    {
      TrunkAddedSnoc(start, snapshot, eth, ids, k);
      err := AddTrunkId(table, snapshot, eth, ids[k]);
      if err.Some? {
        TrunkAddedErrSticks(start, snapshot, eth, ids, k + 1);
        return err;
      }
      k := k + 1;
    }
    assert ids[..k] == ids;
    return None;
  }

  method AddVlanIf(table: VlanTable, cfg: InterfaceConfig) returns (err: Option<VlanError>)
    modifies table
    ensures Outcome(table.State(), err) == AddedVlanIf(old(table.State()), cfg)
  {
    if cfg.linkType == LinkTypeAccess {
      var key := VlanInterface(cfg.vlanId);
      if key !in table.rows {
        err := AddVlanIfAdd(table, cfg.outInterface, cfg.vlanId, key);
      } else {
        AddVlanIfUpdate(table, key, table.rows[key], cfg.outInterface);
        err := None;
      }
    } else if cfg.linkType == LinkTypeTrunk {
      var snapshot := table.rows;
      var ids := SplitAndAddList(cfg.trunkVlanId, cfg.defaultId);
      if ids.Err? {
        return Some(ids.error);
      }
      err := AddTrunkIds(table, snapshot, cfg.outInterface, ids.value);
    } else {
      err := None;
    }
  }

  // ---------------------------------------------------------------------------
  // RemoveVlanIf
  // ---------------------------------------------------------------------------

  /** The trimmed entries of an interface list other than `phys`, in order. */
  function Kept(list: seq<string>, phys: string): seq<string> {
    if list == [] then []
    else
      var init := Kept(list[..|list| - 1], phys);
      var iface := TrimSpace(list[|list| - 1]);
      if iface != phys then init + [iface] else init
  }

  /** One VLAN id of `RemoveVlanIf`: a missing row is skipped; a row left
      with no interface is deleted, any other gets the shortened list. */
  function RemoveStep(s: Store, phys: string, vlanId: string): Store {
    var key := VlanInterface(vlanId);
    if key !in s.rows then s
    else
      var kept := Kept(Split(s.rows[key].physicalInterface, ','), phys);
      if kept == [] then SoftDeleted(s, key) else WithPhysical(s, key, Join(kept, ','))
  }

  /** What `RemoveVlanIf` does to the table: the ids handled in order. */
  function Removed(s: Store, phys: string, vlanIds: seq<string>): Store {
    if vlanIds == [] then s
    else RemoveStep(Removed(s, phys, vlanIds[..|vlanIds| - 1]), phys, vlanIds[|vlanIds| - 1])
  }

  /** `RemoveVlanIf`'s inner loop: the list without `phys`. */
  method Prune(list: seq<string>, phys: string) returns (newList: seq<string>)
    ensures newList == Kept(list, phys)
  {
    newList := [];
    var j := 0;
    while j < |list|
      invariant 0 <= j <= |list|
      invariant newList == Kept(list[..j], phys)
    {
      assert list[..j + 1][..j] == list[..j];
      var iface := TrimSpace(list[j]);
      if iface != phys {
        newList := newList + [iface];
      }
      j := j + 1;
    }
    assert list[..j] == list;
  }

  method RemoveVlanIf(table: VlanTable, physicalInterface: string, vlanIds: seq<string>)
    modifies table
    ensures table.State() == Removed(old(table.State()), physicalInterface, vlanIds)
  {
    ghost var start := table.State();
    var k := 0;
    while k < |vlanIds|
      invariant 0 <= k <= |vlanIds|
      invariant table.State() == Removed(start, physicalInterface, vlanIds[..k])
    {
      assert vlanIds[..k + 1][..k] == vlanIds[..k];
      var key := VlanInterface(vlanIds[k]);
      if key in table.rows {
        var newList := Prune(Split(table.rows[key].physicalInterface, ','), physicalInterface);
        if |newList| == 0 {
          table.SoftDelete(key);
        } else {
          table.UpdatePhysical(key, Join(newList, ','));
        }
      }
      k := k + 1;
    }
    assert vlanIds[..k] == vlanIds;
  }

  // ---------------------------------------------------------------------------
  // Properties of AddVlanIf
  // ---------------------------------------------------------------------------

  /** Every entry of `eth` is in the list `phys`, under trimmed comparison. */
  predicate Lists(phys: string, eth: string) {
    forall x :: x in Split(eth, ',') ==> Covers(Split(phys, ','), x)
  }

  /** A row as `addVlanIfAdd` creates it for `key` and the interface `eth`. */
  predicate CreatedAs(r: VlanRecord, key: string, eth: string) {
    r.outInterface == key && r.kind == "2" && r.isManager == 0 && r.physicalInterface == eth && r.status == 1
  }

  /** The VLAN interfaces a list of VLAN ids names. */
  function Keys(ids: seq<string>): set<string> {
    set i | 0 <= i < |ids| :: VlanInterface(ids[i])
  }

  /** The VLAN ids `AddVlanIf` works on: the access VLAN, the parsed trunk
      list, or none. */
  function ListedIds(cfg: InterfaceConfig): seq<string> {
    if cfg.linkType == LinkTypeAccess then [cfg.vlanId]
    else if cfg.linkType == LinkTypeTrunk then
      (match TrunkIds(cfg.trunkVlanId, cfg.defaultId)
       case Err(_) => []
       case Ok(ids) => ids)
    else []
  }

  lemma ListsItself(eth: string)
    ensures Lists(eth, eth)
  {
    var parts := Split(eth, ',');
    forall x | x in parts ensures Covers(parts, x) {
      var i :| 0 <= i < |parts| && parts[i] == x;
    }
  }

  lemma KeysSnoc(ids: seq<string>)
    requires ids != []
    ensures Keys(ids) == Keys(ids[..|ids| - 1]) + {VlanInterface(ids[|ids| - 1])}
  {
    var init := ids[..|ids| - 1];
    forall k | k in Keys(ids) ensures k in Keys(init) + {VlanInterface(ids[|ids| - 1])} {
      var i :| 0 <= i < |ids| && k == VlanInterface(ids[i]);
      if i < |init| {
        assert init[i] == ids[i];
      }
    }
    forall k | k in Keys(init) ensures k in Keys(ids) {
      var i :| 0 <= i < |init| && k == VlanInterface(init[i]);
      assert ids[i] == init[i];
    }
  }

  /** The trunk loop only ever adds rows or changes the rows of listed ids,
      and never touches the soft-deleted keys. */
  lemma {:induction false} TrunkAddedFrame(s: Store, snapshot: map<string, VlanRecord>, eth: string, ids: seq<string>)
    ensures var t := TrunkAdded(s, snapshot, eth, ids).store;
      t.retired == s.retired && s.rows.Keys <= t.rows.Keys &&
      (forall k :: k in t.rows && k !in Keys(ids) ==> k in s.rows && t.rows[k] == s.rows[k])
  {
    if ids != [] {
      TrunkAddedFrame(s, snapshot, eth, ids[..|ids| - 1]);
      KeysSnoc(ids);
    }
  }

  /** Rows the trunk loop creates carry `addVlanIfAdd`'s defaults; a row made
      in this loop is never merged afterwards, since the snapshot predates it. */
  lemma {:induction false} TrunkAddedCreates(s: Store, snapshot: map<string, VlanRecord>, eth: string, ids: seq<string>)
    requires snapshot.Keys <= s.rows.Keys
    ensures var t := TrunkAdded(s, snapshot, eth, ids).store;
      forall k :: k in t.rows && k !in s.rows ==> CreatedAs(t.rows[k], k, eth)
  {
    if ids != [] {
      TrunkAddedCreates(s, snapshot, eth, ids[..|ids| - 1]);
    }
  }

  /** A successful trunk step leaves a row for its id that lists the
      interface, and every other row as it was. */
  lemma TrunkStepLists(s: Store, snapshot: map<string, VlanRecord>, eth: string, id: string)
    requires VlanInterface(id) in snapshot ==> VlanInterface(id) in s.rows
    requires TrunkStep(s, snapshot, eth, id).err.None?
    ensures var t := TrunkStep(s, snapshot, eth, id).store; var key := VlanInterface(id);
      key in t.rows && Lists(t.rows[key].physicalInterface, eth) &&
      forall k :: k in s.rows && k != key ==> k in t.rows && t.rows[k] == s.rows[k]
  {
    var key := VlanInterface(id);
    if key in snapshot {
      CombinedCoversSecond(snapshot[key].physicalInterface, eth);
    } else {
      ListsItself(eth);
    }
  }

  /** After a successful trunk loop every listed id has a row that lists the
      interface. */
  lemma {:induction false} TrunkAddedLists(s: Store, snapshot: map<string, VlanRecord>, eth: string, ids: seq<string>)
    requires snapshot.Keys <= s.rows.Keys
    requires TrunkAdded(s, snapshot, eth, ids).err.None?
    ensures var t := TrunkAdded(s, snapshot, eth, ids).store;
      forall i :: 0 <= i < |ids| ==> VlanInterface(ids[i]) in t.rows && Lists(t.rows[VlanInterface(ids[i])].physicalInterface, eth)
  {
    if ids != [] {
      var init := ids[..|ids| - 1];
      var prev := TrunkAdded(s, snapshot, eth, init);
      var t := TrunkAdded(s, snapshot, eth, ids).store;
      assert prev.err.None? && t == TrunkStep(prev.store, snapshot, eth, ids[|ids| - 1]).store;
      TrunkAddedLists(s, snapshot, eth, init);
      TrunkAddedFrame(s, snapshot, eth, init);
      TrunkStepLists(prev.store, snapshot, eth, ids[|ids| - 1]);
      var key := VlanInterface(ids[|ids| - 1]);
      forall i | 0 <= i < |ids|
        ensures VlanInterface(ids[i]) in t.rows && Lists(t.rows[VlanInterface(ids[i])].physicalInterface, eth)
      {
        if i < |init| && VlanInterface(ids[i]) != key {
          assert init[i] == ids[i];
          assert t.rows[VlanInterface(ids[i])] == prev.store.rows[VlanInterface(init[i])];
        }
      }
    }
  }

  /** `AddVlanIf` changes only the rows of the VLAN ids it works on, adds rows
      but never removes one, and leaves the soft-deleted keys alone. With a
      trunk list that does not parse, or a link type that is neither access
      nor trunk, it changes nothing. */
  lemma AddVlanIfFrame(s: Store, cfg: InterfaceConfig)
    ensures var t := AddedVlanIf(s, cfg).store;
      t.retired == s.retired && s.rows.Keys <= t.rows.Keys &&
      (forall k :: k in t.rows && k !in Keys(ListedIds(cfg)) ==> k in s.rows && t.rows[k] == s.rows[k])
    ensures ListedIds(cfg) == [] ==> AddedVlanIf(s, cfg).store == s
  {
    if cfg.linkType == LinkTypeAccess {
      assert [cfg.vlanId][0] == cfg.vlanId;
    } else if cfg.linkType == LinkTypeTrunk && TrunkIds(cfg.trunkVlanId, cfg.defaultId).Ok? {
      TrunkAddedFrame(s, s.rows, cfg.outInterface, TrunkIds(cfg.trunkVlanId, cfg.defaultId).value);
    }
  }

  /** A row `AddVlanIf` creates is `vlan_<id>` with status 1, type "2", not a
      management interface, listing just the configured interface. */
  lemma AddVlanIfCreates(s: Store, cfg: InterfaceConfig)
    ensures var t := AddedVlanIf(s, cfg).store;
      forall k :: k in t.rows && k !in s.rows ==> CreatedAs(t.rows[k], k, cfg.outInterface)
  {
    if cfg.linkType != LinkTypeAccess && cfg.linkType == LinkTypeTrunk && TrunkIds(cfg.trunkVlanId, cfg.defaultId).Ok? {
      TrunkAddedCreates(s, s.rows, cfg.outInterface, TrunkIds(cfg.trunkVlanId, cfg.defaultId).value);
    }
  }

  /** On success every VLAN id `AddVlanIf` works on has a row `vlan_<id>`
      whose interface list holds the configured interface. */
  lemma AddVlanIfLists(s: Store, cfg: InterfaceConfig)
    requires AddedVlanIf(s, cfg).err.None?
    ensures var t := AddedVlanIf(s, cfg).store; var ids := ListedIds(cfg);
      forall i :: 0 <= i < |ids| ==> VlanInterface(ids[i]) in t.rows && Lists(t.rows[VlanInterface(ids[i])].physicalInterface, cfg.outInterface)
  {
    if cfg.linkType == LinkTypeAccess {
      var key := VlanInterface(cfg.vlanId);
      if key in s.rows {
        CombinedCoversSecond(s.rows[key].physicalInterface, cfg.outInterface);
      } else {
        ListsItself(cfg.outInterface);
      }
    } else if cfg.linkType == LinkTypeTrunk && TrunkIds(cfg.trunkVlanId, cfg.defaultId).Ok? {
      TrunkAddedLists(s, s.rows, cfg.outInterface, TrunkIds(cfg.trunkVlanId, cfg.defaultId).value);
    }
  }

  /** In access mode `AddVlanIf` fails exactly when `vlan_<id>` has no live
      row but was soft-deleted before, since its key still holds the unique
      index; the failure changes nothing. */
  lemma AccessAddFails(s: Store, cfg: InterfaceConfig)
    requires cfg.linkType == LinkTypeAccess
    ensures AddedVlanIf(s, cfg).err.Some? <==>
      VlanInterface(cfg.vlanId) !in s.rows && VlanInterface(cfg.vlanId) in s.retired
    ensures AddedVlanIf(s, cfg).err.Some? ==> AddedVlanIf(s, cfg) == Outcome(s, Some(AddFailed))
  {
  }

  /** A trunk list that does not parse aborts before any row changes; an
      unknown link type does nothing and succeeds. */
  lemma AddVlanIfAborts(s: Store, cfg: InterfaceConfig)
    ensures cfg.linkType == LinkTypeTrunk && TrunkIds(cfg.trunkVlanId, cfg.defaultId).Err? ==>
      AddedVlanIf(s, cfg) == Outcome(s, Some(TrunkIds(cfg.trunkVlanId, cfg.defaultId).error))
    ensures cfg.linkType != LinkTypeAccess && cfg.linkType != LinkTypeTrunk ==> AddedVlanIf(s, cfg) == Outcome(s, None)
  {
  }

  // ---------------------------------------------------------------------------
  // Properties of RemoveVlanIf
  // ---------------------------------------------------------------------------

  /** No entry of the list trims to `phys`. */
  predicate Lacks(list: string, phys: string) {
    forall e :: e in Split(list, ',') ==> TrimSpace(e) != phys
  }

  lemma TrimSpaceKeepsOut(s: string, c: char)
    requires c !in s
    ensures c !in TrimSpace(s)
  {
    var l := TrimLeftSpace(s);
    assert c !in l by {
      forall i | 0 <= i < |l| ensures l[i] != c {
        assert l[i] == s[LeadingSpaces(s) + i];
      }
    }
    var r := TrimRightSpace(l);
    forall i | 0 <= i < |r| ensures r[i] != c {
      assert r[i] == l[i];
    }
  }

  /** Every entry that does not trim to `phys` is kept, trimmed. */
  lemma {:induction false} KeptHas(list: seq<string>, phys: string, i: nat)
    requires i < |list| && TrimSpace(list[i]) != phys
    ensures TrimSpace(list[i]) in Kept(list, phys)
  {
    var init := list[..|list| - 1];
    if i < |init| {
      assert init[i] == list[i];
      KeptHas(init, phys, i);
    }
  }

  /** Everything kept is an entry, trimmed, other than `phys`. */
  lemma {:induction false} KeptFrom(list: seq<string>, phys: string, x: string)
    requires x in Kept(list, phys)
    ensures x != phys && exists i :: 0 <= i < |list| && TrimSpace(list[i]) == x
  {
    var init := list[..|list| - 1];
    if x in Kept(init, phys) {
      KeptFrom(init, phys, x);
      var i :| 0 <= i < |init| && TrimSpace(init[i]) == x;
      assert list[i] == init[i];
    }
  }

  /** `Kept` holds exactly the trimmed entries other than `phys`. */
  lemma KeptMembers(list: seq<string>, phys: string)
    ensures forall x :: x in Kept(list, phys) <==> x != phys && exists i :: 0 <= i < |list| && TrimSpace(list[i]) == x
  {
    forall x ensures x in Kept(list, phys) <==> x != phys && exists i :: 0 <= i < |list| && TrimSpace(list[i]) == x {
      if x in Kept(list, phys) {
        KeptFrom(list, phys, x);
      } else if x != phys && exists i :: 0 <= i < |list| && TrimSpace(list[i]) == x {
        var i :| 0 <= i < |list| && TrimSpace(list[i]) == x;
        KeptHas(list, phys, i);
      }
    }
  }

  /** The entries of `Kept` are trimmed, and comma-free when the list is. */
  lemma {:induction false} KeptTrimmed(list: seq<string>, phys: string)
    requires forall i :: 0 <= i < |list| ==> ',' !in list[i]
    ensures forall x :: x in Kept(list, phys) ==> TrimSpace(x) == x && ',' !in x
  {
    if list != [] {
      var last := list[|list| - 1];
      KeptTrimmed(list[..|list| - 1], phys);
      TrimSpaceKeepsOut(last, ',');
      TrimSpaceOfTrimmed(TrimSpace(last));
    }
  }

  /** `Kept` is empty exactly when every entry trims to `phys`. */
  lemma KeptEmpty(list: seq<string>, phys: string)
    ensures Kept(list, phys) == [] <==> forall i :: 0 <= i < |list| ==> TrimSpace(list[i]) == phys
  {
    if Kept(list, phys) != [] {
      KeptFrom(list, phys, Kept(list, phys)[0]);
    } else {
      forall i | 0 <= i < |list| ensures TrimSpace(list[i]) == phys {
        if TrimSpace(list[i]) != phys {
          KeptHas(list, phys, i);
        }
      }
    }
  }

  /** The list a row keeps after a `RemoveVlanIf` step: its entries are
      exactly the trimmed entries of the old list other than `phys`. */
  lemma KeptList(list: string, phys: string)
    requires Kept(Split(list, ','), phys) != []
    ensures var joined := Join(Kept(Split(list, ','), phys), ',');
      Lacks(joined, phys) &&
      var parts := Split(list, ',');
      forall x :: x in Split(joined, ',') <==> (x != phys && exists i :: 0 <= i < |parts| && TrimSpace(parts[i]) == x)
  {
    var parts := Split(list, ',');
    var kept := Kept(parts, phys);
    KeptMembers(parts, phys);
    KeptTrimmed(parts, phys);
    forall i | 0 <= i < |kept| ensures ',' !in kept[i] {
      assert kept[i] in kept;
    }
    SplitJoin(kept, ',');
  }

  /** `RemoveVlanIf` changes only the rows of the listed VLAN ids, only ever
      removes rows, and keeps every soft-deleted key. */
  lemma {:induction false} RemoveVlanIfFrame(s: Store, phys: string, vlanIds: seq<string>)
    ensures var t := Removed(s, phys, vlanIds);
      s.retired <= t.retired && t.rows.Keys <= s.rows.Keys &&
      (forall k :: k in s.rows && k !in Keys(vlanIds) ==> k in t.rows && t.rows[k] == s.rows[k])
  {
    if vlanIds != [] {
      RemoveVlanIfFrame(s, phys, vlanIds[..|vlanIds| - 1]);
      KeysSnoc(vlanIds);
    }
  }

  lemma RemoveStepLacks(s: Store, phys: string, vlanId: string)
    ensures var key := VlanInterface(vlanId); var t := RemoveStep(s, phys, vlanId);
      key in t.rows ==> Lacks(t.rows[key].physicalInterface, phys)
  {
    var key := VlanInterface(vlanId);
    if key in s.rows {
      var parts := Split(s.rows[key].physicalInterface, ',');
      var kept := Kept(parts, phys);
      if kept != [] {
        KeptList(s.rows[key].physicalInterface, phys);
      }
    }
  }

  /** After `RemoveVlanIf`, no remaining row of a listed VLAN id lists the
      interface. */
  lemma {:induction false} RemoveVlanIfDrops(s: Store, phys: string, vlanIds: seq<string>)
    ensures var t := Removed(s, phys, vlanIds);
      forall i :: 0 <= i < |vlanIds| && VlanInterface(vlanIds[i]) in t.rows ==>
        Lacks(t.rows[VlanInterface(vlanIds[i])].physicalInterface, phys)
  {
    if vlanIds != [] {
      var init := vlanIds[..|vlanIds| - 1];
      var prev := Removed(s, phys, init);
      var t := Removed(s, phys, vlanIds);
      var key := VlanInterface(vlanIds[|vlanIds| - 1]);
      RemoveVlanIfDrops(s, phys, init);
      RemoveStepLacks(prev, phys, vlanIds[|vlanIds| - 1]);
      forall i | 0 <= i < |vlanIds| && VlanInterface(vlanIds[i]) in t.rows
        ensures Lacks(t.rows[VlanInterface(vlanIds[i])].physicalInterface, phys)
      {
        if VlanInterface(vlanIds[i]) != key {
          assert init[i] == vlanIds[i];
          RemoveStepOthers(prev, phys, vlanIds[|vlanIds| - 1], VlanInterface(vlanIds[i]));
        }
      }
    }
  }

  /** A `RemoveVlanIf` step leaves the rows of other keys alone. */
  lemma RemoveStepOthers(s: Store, phys: string, vlanId: string, k: string)
    requires k != VlanInterface(vlanId)
    ensures var t := RemoveStep(s, phys, vlanId);
      (k in t.rows <==> k in s.rows) && (k in t.rows ==> t.rows[k] == s.rows[k])
  {
  }

  /** For one VLAN id with a row: the row is deleted exactly when every entry
      of its list trims to the interface, and then its key stays taken;
      otherwise it keeps the other interfaces, trimmed. A missing row is
      skipped. */
  lemma RemoveVlanIfDeletesEmptied(s: Store, phys: string, vlanId: string)
    ensures var key := VlanInterface(vlanId); var t := Removed(s, phys, [vlanId]);
      key !in s.rows ==> t == s
    ensures var key := VlanInterface(vlanId); var t := Removed(s, phys, [vlanId]);
      key in s.rows ==>
        var parts := Split(s.rows[key].physicalInterface, ',');
        (key !in t.rows <==> forall i :: 0 <= i < |parts| ==> TrimSpace(parts[i]) == phys)
    ensures var key := VlanInterface(vlanId); var t := Removed(s, phys, [vlanId]);
      key in s.rows && key !in t.rows ==> key in t.retired
  {
    assert [vlanId][..0] == [];
    assert Removed(s, phys, [vlanId]) == RemoveStep(s, phys, vlanId);
    var key := VlanInterface(vlanId);
    if key in s.rows {
      RemoveStepDeletesEmptied(s, phys, vlanId, key, Split(s.rows[key].physicalInterface, ','));
    }
  }

  /** The single step behind `RemoveVlanIfDeletesEmptied`, for the row
      `key` whose list splits into `parts`. */
  lemma RemoveStepDeletesEmptied(s: Store, phys: string, vlanId: string, key: string, parts: seq<string>)
    requires key == VlanInterface(vlanId) && key in s.rows
    requires parts == Split(s.rows[key].physicalInterface, ',')
    ensures key !in RemoveStep(s, phys, vlanId).rows <==> forall i :: 0 <= i < |parts| ==> TrimSpace(parts[i]) == phys
    ensures key !in RemoveStep(s, phys, vlanId).rows ==> key in RemoveStep(s, phys, vlanId).retired
  {
    KeptEmpty(parts, phys);
    if Kept(parts, phys) != [] {
      assert RemoveStep(s, phys, vlanId) == WithPhysical(s, key, Join(Kept(parts, phys), ','));
    } else {
      assert RemoveStep(s, phys, vlanId) == SoftDeleted(s, key);
    }
  }

  /** For one VLAN id whose row keeps some interface: the new list holds
      exactly the trimmed entries of the old one other than the interface. */
  lemma RemoveVlanIfKeepsOthers(s: Store, phys: string, vlanId: string)
    requires VlanInterface(vlanId) in s.rows
    requires VlanInterface(vlanId) in Removed(s, phys, [vlanId]).rows
    ensures var key := VlanInterface(vlanId); var t := Removed(s, phys, [vlanId]);
      var parts := Split(s.rows[key].physicalInterface, ',');
      forall x :: x in Split(t.rows[key].physicalInterface, ',') <==>
        (x != phys && exists i :: 0 <= i < |parts| && TrimSpace(parts[i]) == x)
  {
    assert [vlanId][..0] == [];
    KeptList(s.rows[VlanInterface(vlanId)].physicalInterface, phys);
  }

  /** Because the delete is soft, adding the same access VLAN again after its
      row was removed fails. */
  lemma AddAfterRemoveFails(s: Store, phys: string, cfg: InterfaceConfig)
    requires cfg.linkType == LinkTypeAccess
    requires VlanInterface(cfg.vlanId) in s.rows
    requires VlanInterface(cfg.vlanId) !in Removed(s, phys, [cfg.vlanId]).rows
    ensures AddedVlanIf(Removed(s, phys, [cfg.vlanId]), cfg).err == Some(AddFailed)
  {
    RemoveVlanIfDeletesEmptied(s, phys, cfg.vlanId);
  }
}
