/** The older copy of the VLAN bookkeeping: the same table rules as the
    server's, except that trunk entries are not trimmed, a trunk list that
    does not parse is ignored, entries are removed by exact match, and rows
    are deleted for good. */
module LegacyBridge {
  import opened Wrappers
  import opened GoText
  import opened Bridge

  // ---------------------------------------------------------------------------
  // splitAndAddList
  // ---------------------------------------------------------------------------

  /** The ids one comma-separated entry stands for, read as it is written:
      `a-b` or a single number, neither side trimmed. */
  function RawEntry(r: string): Result<seq<string>, VlanError> {
    if '-' in r then
      var nums := Split(r, '-');
      if |nums| != 2 then Err(BadTrunkFormat)
      else
        (match ParseId(nums[0])
         case Err(e) => Err(e)
         case Ok(start) =>
           (match ParseId(nums[1])
            case Err(e) => Err(e)
            case Ok(end) => Ok(RangeIds(start, end))))
    else
      (match ParseId(r)
       case Err(e) => Err(e)
       case Ok(n) => Ok([Itoa(n)]))
  }

  /** The result of each entry, in order. */
  function RawEntryResults(entries: seq<string>): (rs: seq<Result<seq<string>, VlanError>>)
    ensures |rs| == |entries|
    ensures forall k :: 0 <= k < |entries| ==> rs[k] == RawEntry(entries[k])
  {
    seq(|entries|, k requires 0 <= k < |entries| => RawEntry(entries[k]))
  }

  /** What `splitAndAddList(trunkVlanId, defaultID)` returns. */
  function RawTrunkIds(trunkVlanId: string, defaultId: string): Result<seq<string>, VlanError> {
    match Gathered(RawEntryResults(Split(trunkVlanId, ',')))
    case Err(e) => Err(e)
    case Ok(ids) => Ok(WithDefault(ids, defaultId))
  }

  method ExpandRawEntry(r: string) returns (res: Result<seq<string>, VlanError>)
    ensures res == RawEntry(r)
  {
    if '-' in r {
      var nums := Split(r, '-');
      if |nums| != 2 {
        return Err(BadTrunkFormat);
      }
      var start := ParseId(nums[0]);
      if start.Err? {
        return Err(start.error);
      }
      var end := ParseId(nums[1]);
      if end.Err? {
        return Err(end.error);
      }
      var i := start.value;
      var more := [];
      while i <= end.value
        invariant start.value <= i <= end.value + 1 || (start.value > end.value && i == start.value)
        invariant more == RangeIds(start.value, i - 1)
        decreases end.value - i
      {
        RangeIdsSnoc(start.value, i);
        more := more + [Itoa(i)];
        i := i + 1;
      }
      return Ok(more);
    }
    var num := ParseId(r);
    if num.Err? {
      return Err(num.error);
    }
    return Ok([Itoa(num.value)]);
  }

  method SplitAndAddList(trunkVlanId: string, defaultId: string) returns (r: Result<seq<string>, VlanError>)
    ensures r == RawTrunkIds(trunkVlanId, defaultId)
  {
    var ranges := Split(trunkVlanId, ',');
    ghost var rs := RawEntryResults(ranges);
    var result: seq<string> := [];
    var k := 0;
    while k < |ranges|
      invariant 0 <= k <= |ranges|
      invariant Gathered(rs[..k]) == Ok(result)
    {
      assert rs[..k + 1][..k] == rs[..k];
      var more := ExpandRawEntry(ranges[k]);
      if more.Err? {
        GatheredErrSticks(rs, k + 1);
        return Err(more.error);
      }
      result := result + more.value;
      k := k + 1;
    }
    assert rs[..|ranges|] == rs;
    var withDefault := AddDefault(result, defaultId);
    return Ok(withDefault);
  }

  lemma JoinTwo(a: string, b: string, sep: char)
    ensures Join([a, b], sep) == a + [sep] + b
  {
    assert [a, b][1..] == [b];
  }

  /** An entry this version accepts holds no white space. */
  lemma RawEntryNoSpace(r: string)
    requires RawEntry(r).Ok?
    ensures forall i :: 0 <= i < |r| ==> !IsSpace(r[i])
  {
    if '-' in r {
      var nums := Split(r, '-');
      ParseInt64NoSpace(nums[0]);
      ParseInt64NoSpace(nums[1]);
      JoinSplit(r, '-');
      JoinTwo(nums[0], nums[1], '-');
      assert r == nums[0] + ['-'] + nums[1];
      forall i | 0 <= i < |r| ensures !IsSpace(r[i]) {
        if i > |nums[0]| {
          assert r[i] == nums[1][i - |nums[0]| - 1];
        } else if i < |nums[0]| {
          assert r[i] == nums[0][i];
        }
      }
    } else {
      ParseInt64NoSpace(r);
    }
  }

  /** Entries are not trimmed, so one with white space in it is refused. */
  lemma SpacedEntryRejected(r: string, i: nat)
    requires i < |r| && IsSpace(r[i])
    ensures RawEntry(r).Err?
  {
    if RawEntry(r).Ok? {
      RawEntryNoSpace(r);
    }
  }

  lemma NoSpaceTrimmed(s: string)
    requires forall i :: 0 <= i < |s| ==> !IsSpace(s[i])
    ensures TrimSpace(s) == s
  {
    TrimSpaceOfTrimmed(s);
  }

  /** Where this version accepts an entry, the server's trimming version
      reads it the same way. */
  lemma RawEntryAgrees(r: string)
    requires RawEntry(r).Ok?
    ensures Entry(r) == RawEntry(r)
  {
    RawEntryNoSpace(r);
    NoSpaceTrimmed(r);
    if '-' in r {
      var nums := Split(r, '-');
      ParseInt64NoSpace(nums[0]);
      ParseInt64NoSpace(nums[1]);
      NoSpaceTrimmed(nums[0]);
      NoSpaceTrimmed(nums[1]);
    }
  }

  /** A trunk list this version accepts gives the server's ids. */
  lemma RawTrunkIdsAgree(trunkVlanId: string, defaultId: string)
    requires RawTrunkIds(trunkVlanId, defaultId).Ok?
    ensures TrunkIds(trunkVlanId, defaultId) == RawTrunkIds(trunkVlanId, defaultId)
  {
    var entries := Split(trunkVlanId, ',');
    var raw := RawEntryResults(entries);
    GatheredFailsIff(raw);
    forall k | 0 <= k < |entries| ensures EntryResults(entries)[k] == raw[k] {
      assert raw[k].Ok?;
      RawEntryAgrees(entries[k]);
    }
    assert EntryResults(entries) == raw;
  }

  // ---------------------------------------------------------------------------
  // removeStringFromSlice
  // ---------------------------------------------------------------------------

  /** The entries other than `x`, in order; nothing is trimmed. */
  function Without(list: seq<string>, x: string): seq<string> {
    if list == [] then []
    else
      var init := Without(list[..|list| - 1], x);
      if list[|list| - 1] != x then init + [list[|list| - 1]] else init
  }

  /** `Without` drops every copy of `x` and keeps every other entry as often
      as it occurs. */
  lemma {:induction false} WithoutCounts(list: seq<string>, x: string)
    ensures multiset(Without(list, x))[x] == 0
    ensures forall y :: y != x ==> multiset(Without(list, x))[y] == multiset(list)[y]
  {
    if list != [] {
      var init := list[..|list| - 1];
      WithoutCounts(init, x);
      assert list == init + [list[|list| - 1]];
    }
  }

  /** Without `x` in the list, `Without` changes nothing. */
  lemma {:induction false} WithoutAbsent(list: seq<string>, x: string)
    requires x !in list
    ensures Without(list, x) == list
  {
    if list != [] {
      var init := list[..|list| - 1];
      assert x !in init by {
        forall i | 0 <= i < |init| ensures init[i] != x {
          assert init[i] == list[i];
        }
      }
      WithoutAbsent(init, x);
    }
  }

  lemma {:induction false} WithoutNoSeparator(list: seq<string>, x: string, sep: char)
    requires forall i :: 0 <= i < |list| ==> sep !in list[i]
    ensures forall i :: 0 <= i < |Without(list, x)| ==> sep !in Without(list, x)[i]
  {
    if list != [] {
      WithoutNoSeparator(list[..|list| - 1], x, sep);
    }
  }

  /** What `removeStringFromSlice(sliceString, strToRemove)` returns. */
  function RemovedString(sliceString: string, strToRemove: string): string {
    Join(Without(Split(sliceString, ','), strToRemove), ',')
  }

  method RemoveStringFromSlice(sliceString: string, strToRemove: string) returns (r: string)
    ensures r == RemovedString(sliceString, strToRemove)
  {
    var result: seq<string> := [];
    var slice := Split(sliceString, ',');
    var k := 0;
    while k < |slice|
      invariant 0 <= k <= |slice|
      invariant result == Without(slice[..k], strToRemove)
    {
      assert slice[..k + 1][..k] == slice[..k];
      if slice[k] != strToRemove {
        result := result + [slice[k]];
      }
      k := k + 1;
    }
    assert slice[..k] == slice;
    return Join(result, ',');
  }

  /** The list `removeStringFromSlice` returns holds the other entries, each
      as often as before and in their order, and no exact copy of the
      removed one; when nothing is left it is "". */
  lemma RemovedStringEntries(sliceString: string, x: string)
    ensures var parts := Split(sliceString, ',');
      Without(parts, x) == [] ==> RemovedString(sliceString, x) == ""
    ensures var parts := Split(sliceString, ',');
      Without(parts, x) != [] ==>
        Split(RemovedString(sliceString, x), ',') == Without(parts, x) &&
        x !in Split(RemovedString(sliceString, x), ',') &&
        forall y :: y != x ==> multiset(Split(RemovedString(sliceString, x), ','))[y] == multiset(parts)[y]
  {
    var parts := Split(sliceString, ',');
    WithoutCounts(parts, x);
    if Without(parts, x) != [] {
      WithoutNoSeparator(parts, x, ',');
      SplitJoin(Without(parts, x), ',');
    }
  }

  /** A list without the entry comes back unchanged. */
  lemma RemovedStringAbsent(sliceString: string, x: string)
    requires x !in Split(sliceString, ',')
    ensures RemovedString(sliceString, x) == sliceString
  {
    WithoutAbsent(Split(sliceString, ','), x);
    JoinSplit(sliceString, ',');
  }

  // ---------------------------------------------------------------------------
  // AddVlanIf
  // ---------------------------------------------------------------------------

  /** What this version's `AddVlanIf` does. A trunk list that does not parse
      is dropped and the call succeeds. The access lookup passes the column
      name without a `?` placeholder, which gorm reads as a primary-key
      condition on the two strings; it finds no row, so access mode always
      inserts, and fails when the key is taken. */
  function RawAddedVlanIf(s: Store, cfg: InterfaceConfig): Outcome {
    if cfg.linkType == LinkTypeAccess then
      Added(s, cfg.outInterface, cfg.vlanId, VlanInterface(cfg.vlanId))
    else if cfg.linkType == LinkTypeTrunk then
      (match RawTrunkIds(cfg.trunkVlanId, cfg.defaultId)
       case Err(_) => Outcome(s, None)
       case Ok(ids) => TrunkAdded(s, s.rows, cfg.outInterface, ids))
    else Outcome(s, None)
  }

  method AddVlanIf(table: VlanTable, cfg: InterfaceConfig) returns (err: Option<VlanError>)
    modifies table
    ensures Outcome(table.State(), err) == RawAddedVlanIf(old(table.State()), cfg)
  {
    if cfg.linkType == LinkTypeAccess {
      // The lookup by `out_interface` finds no row: always an insert.
      err := AddVlanIfAdd(table, cfg.outInterface, cfg.vlanId, VlanInterface(cfg.vlanId));
      return err;
    } else if cfg.linkType == LinkTypeTrunk {
      var snapshot := table.rows;
      var arr := SplitAndAddList(cfg.trunkVlanId, cfg.defaultId);
      if arr.Err? {
        return None;
      }
      err := AddTrunkIds(table, snapshot, cfg.outInterface, arr.value);
      return err;
    }
    return None;
  }

  /** A trunk list that does not parse changes nothing and reports success. */
  lemma BadTrunkIgnored(s: Store, cfg: InterfaceConfig)
    requires cfg.linkType == LinkTypeTrunk
    requires RawTrunkIds(cfg.trunkVlanId, cfg.defaultId).Err?
    ensures RawAddedVlanIf(s, cfg) == Outcome(s, None)
  {
  }

  /** Whenever the trunk list parses here, and an access VLAN has no live
      row yet, this version does what the server's `AddVlanIf` does. */
  lemma RawAddedVlanIfAgrees(s: Store, cfg: InterfaceConfig)
    requires cfg.linkType == LinkTypeTrunk ==> RawTrunkIds(cfg.trunkVlanId, cfg.defaultId).Ok?
    requires cfg.linkType == LinkTypeAccess ==> VlanInterface(cfg.vlanId) !in s.rows
    ensures RawAddedVlanIf(s, cfg) == AddedVlanIf(s, cfg)
  {
    if cfg.linkType == LinkTypeTrunk {
      RawTrunkIdsAgree(cfg.trunkVlanId, cfg.defaultId);
    }
  }

  /** For an access VLAN whose row is already live the versions part: this
      one attempts an insert, which fails on the taken key and changes
      nothing, where the server's merges the interface into the row. */
  lemma LiveAccessKeyInsertFails(s: Store, cfg: InterfaceConfig)
    requires cfg.linkType == LinkTypeAccess && VlanInterface(cfg.vlanId) in s.rows
    ensures RawAddedVlanIf(s, cfg) == Outcome(s, Some(AddFailed))
    ensures AddedVlanIf(s, cfg).err.None?
    ensures AddedVlanIf(s, cfg).store.rows[VlanInterface(cfg.vlanId)].physicalInterface ==
      Combined(s.rows[VlanInterface(cfg.vlanId)].physicalInterface, cfg.outInterface)
  {
  }

  // ---------------------------------------------------------------------------
  // DelVlanIf
  // ---------------------------------------------------------------------------

  /** gorm refuses `Delete` on a row with no primary key
      (`gorm.ErrMissingWhereClause`). */
  datatype DelError = MissingWhereClause

  datatype DelOutcome = DelOutcome(store: Store, err: Option<DelError>)

  /** The interface row `Find` leaves untouched when none matches. */
  const ZeroConfig: InterfaceConfig := InterfaceConfig("", "", "", "", "")

  /** The VLAN ids `DelVlanIf` visits for the interface's old configuration:
      its access VLAN, else its trunk list, else none. */
  function DelIds(oldConfig: InterfaceConfig): seq<string> {
    if |oldConfig.vlanId| != 0 then [oldConfig.vlanId]
    else
      match RawTrunkIds(oldConfig.trunkVlanId, oldConfig.defaultId)
      case Err(_) => []
      case Ok(ids) => ids
  }

  /** One VLAN interface of `DelVlanIf`. A missing row reads as the zero row,
      whose empty list equals an empty interface name; deleting it fails. */
  function DelStep(s: Store, phys: string, key: string): DelOutcome {
    var current := if key in s.rows then s.rows[key].physicalInterface else "";
    if current == phys then
      if key in s.rows then DelOutcome(s.(rows := s.rows - {key}), None)
      else DelOutcome(s, Some(MissingWhereClause))
    else if |current| > 0 then DelOutcome(WithPhysical(s, key, RemovedString(current, phys)), None)
    else DelOutcome(s, None)
  }

  /** The interfaces handled in order, stopping at the first error. */
  function Deleted(s: Store, phys: string, keys: seq<string>): DelOutcome {
    if keys == [] then DelOutcome(s, None)
    else
      var prev := Deleted(s, phys, keys[..|keys| - 1]);
      if prev.err.Some? then prev else DelStep(prev.store, phys, keys[|keys| - 1])
  }

  /** The interfaces of a list of VLAN ids. */
  function Interfaces(ids: seq<string>): (keys: seq<string>)
    ensures |keys| == |ids|
    ensures forall i :: 0 <= i < |ids| ==> keys[i] == VlanInterface(ids[i])
  {
    seq(|ids|, i requires 0 <= i < |ids| => VlanInterface(ids[i]))
  }

  /** What `DelVlanIf(physicalInterface, tx)` does, given the interface's old
      configuration as read from the interface table. */
  function DelVlanIfResult(s: Store, phys: string, oldConfig: InterfaceConfig): DelOutcome {
    Deleted(s, phys, Interfaces(DelIds(oldConfig)))
  }

  lemma {:induction false} DeletedErrSticks(s: Store, phys: string, keys: seq<string>, k: nat)
    requires k <= |keys|
    requires Deleted(s, phys, keys[..k]).err.Some?
    ensures Deleted(s, phys, keys) == Deleted(s, phys, keys[..k])
    decreases |keys| - k
  {
    if k < |keys| {
      assert keys[..k + 1][..k] == keys[..k];
      DeletedErrSticks(s, phys, keys, k + 1);
    } else {
      assert keys[..k] == keys;
    }
  }

  method DelInterfaces(table: VlanTable, phys: string, keys: seq<string>) returns (err: Option<DelError>)
    modifies table
    ensures DelOutcome(table.State(), err) == Deleted(old(table.State()), phys, keys)
  {
    ghost var start := table.State();
    var k := 0;
    while k < |keys|
      invariant 0 <= k <= |keys|
      invariant Deleted(start, phys, keys[..k]) == DelOutcome(table.State(), None)
    {
      assert keys[..k + 1][..k] == keys[..k];
      var v := keys[k];
      var current := if v in table.rows then table.rows[v].physicalInterface else "";
      if current == phys {
        if v !in table.rows {
          DeletedErrSticks(start, phys, keys, k + 1);
          return Some(MissingWhereClause);
        }
        table.HardDelete(v);
      } else if |current| > 0 {
        var newInterface := RemoveStringFromSlice(current, phys);
        table.UpdatePhysical(v, newInterface);
      }
      k := k + 1;
    }
    assert keys[..k] == keys;
    return None;
  }

  method DelVlanIf(table: VlanTable, phys: string, oldConfig: InterfaceConfig) returns (err: Option<DelError>)
    modifies table
    ensures DelOutcome(table.State(), err) == DelVlanIfResult(old(table.State()), phys, oldConfig)
  {
    var arr: seq<string>;
    if |oldConfig.vlanId| != 0 {
      arr := [oldConfig.vlanId];
    } else {
      var parsed := SplitAndAddList(oldConfig.trunkVlanId, oldConfig.defaultId);
      arr := if parsed.Ok? then parsed.value else [];
    }
    assert arr == DelIds(oldConfig);
    var vlanList := VlanNames(arr);
    err := DelInterfaces(table, phys, vlanList);
  }

  /** The loop that prefixes every id with "vlan_". */
  method VlanNames(arr: seq<string>) returns (vlanList: seq<string>)
    ensures vlanList == Interfaces(arr)
  {
    vlanList := [];
    var k := 0;
    while k < |arr|
      invariant 0 <= k <= |arr|
      invariant vlanList == Interfaces(arr[..k])
    {
      vlanList := vlanList + [VlanInterface(arr[k])];
      k := k + 1;
    }
    assert arr[..k] == arr;
  }

  /** An interface with no stored configuration reads as the zero one, whose
      empty trunk list does not parse: nothing is visited. */
  lemma ZeroConfigVisitsNothing()
    ensures DelIds(ZeroConfig) == []
  {
    assert Split("", ',') == [""];
    assert RawEntryResults([""])[0] == RawEntry("");
    GatheredFailsIff(RawEntryResults([""]));
  }

  /** `DelVlanIf` touches only the rows of the interfaces it visits, never adds
      a row, and never marks a key as soft-deleted: its deletes are hard. */
  lemma {:induction false} DeletedFrame(s: Store, phys: string, keys: seq<string>)
    ensures var t := Deleted(s, phys, keys).store;
      t.retired == s.retired && t.rows.Keys <= s.rows.Keys &&
      forall k :: k in s.rows && k !in keys ==> k in t.rows && t.rows[k] == s.rows[k]
  {
    if keys != [] {
      DeletedFrame(s, phys, keys[..|keys| - 1]);
    }
  }

  /** A failed step changes nothing; it happens exactly when the interface
      name is empty and the row is missing. */
  lemma DelStepFails(s: Store, phys: string, key: string)
    ensures DelStep(s, phys, key).err.Some? <==> phys == "" && key !in s.rows
    ensures DelStep(s, phys, key).err.Some? ==> DelStep(s, phys, key).store == s
  {
  }

  /** One step: a row whose list is exactly the interface is deleted and its
      key freed; any other row with a list keeps every other entry, each as
      often as before, and loses every exact copy of the interface. */
  lemma DelStepRule(s: Store, phys: string, key: string)
    requires key in s.rows
    ensures var t := DelStep(s, phys, key).store;
      s.rows[key].physicalInterface == phys ==> key !in t.rows && !Occupied(t, key) == (key !in s.retired)
    ensures var t := DelStep(s, phys, key).store; var old_list := Split(s.rows[key].physicalInterface, ',');
      s.rows[key].physicalInterface != phys && s.rows[key].physicalInterface != "" ==>
        key in t.rows && phys !in Without(old_list, phys) &&
        (Without(old_list, phys) != [] ==> Split(t.rows[key].physicalInterface, ',') == Without(old_list, phys)) &&
        forall y :: y != phys ==> multiset(Without(old_list, phys))[y] == multiset(old_list)[y]
  {
    RemovedStringEntries(s.rows[key].physicalInterface, phys);
    WithoutCounts(Split(s.rows[key].physicalInterface, ','), phys);
  }

  /** Entries are compared untrimmed, so a padded copy of the interface is
      not removed. */
  lemma PaddedEntryKept(x: string)
    requires ',' !in x
    ensures RemovedString(" " + x, x) == " " + x
  {
    assert ',' !in " " + x;
    assert |" " + x| != |x|;
    RemovedStringAbsent(" " + x, x);
  }
}
