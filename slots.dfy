/**
 * The slot reconciler of `device_inventory` (libs/device.py, lines 53-93):
 * when the report's primary MAC is the stored record's secondary MAC (rule A),
 * or its secondary MAC is the stored primary MAC (rule B), the report's
 * primary/secondary MAC and IP entries are exchanged or moved before diffing.
 * `Reconcile` is the reconciler with rule B's MAC exchange as its authors
 * evidently meant it; `ReconcileAsWritten` keeps lines 80-82 as they stand.
 */
module Slots {
  import opened Results
  import opened Values
  import opened Dicts
  import opened Settings

  const MacPrimary := "mac_primary"
  const MacSecondary := "mac_secondary"
  const IpPrimary := "ip_primary"
  const IpSecondary := "ip_secondary"

  /** The config section that maps report keys to device columns. */
  const DevicesSection := "devices"

  /** `m = d[x]; d[x] = d[y]; d[y] = m` */
  function Exchange(d: Dict<Value>, x: string, y: string): (r: Dict<Value>)
    requires x in Keys(d) && y in Keys(d)
    ensures Keys(r) == Keys(d)
    ensures Get(r, x) == Get(d, y) && Get(r, y) == Get(d, x)
    ensures forall k :: k in Keys(d) && k != x && k != y ==> Get(r, k) == Get(d, k)
    ensures Distinct(d) ==> Distinct(r)
  {
    Set(Set(d, x, Get(d, y)), y, Get(d, x))
  }

  /** `d[y] = d[x]; del d[x]` */
  function Move(d: Dict<Value>, x: string, y: string): (r: Dict<Value>)
    requires x in Keys(d) && x != y
    ensures y in Keys(r) && Get(r, y) == Get(d, x)
    ensures forall k :: k != x && k != y ==> (k in Keys(r) <==> k in Keys(d))
    ensures forall k :: k in Keys(d) && k != x && k != y ==> Get(r, k) == Get(d, k)
    ensures Distinct(d) ==> Distinct(r) && x !in Keys(r)
  {
    Del(Set(d, y, Get(d, x)), x)
  }

  /** Exchange rewrites the two entries where they stand. */
  lemma ExchangeInPlace(d: Dict<Value>, x: string, y: string)
    requires x in Keys(d) && y in Keys(d)
    ensures Exchange(d, x, y) == d[IndexOf(d, x) := (x, Get(d, y))][IndexOf(d, y) := (y, Get(d, x))]
  {
    var a := Set(d, x, Get(d, y));
    SetInPlace(d, x, Get(d, y));
    SetInPlace(a, y, Get(d, x));
    SameKeysSameIndex(d, a, y);
  }

  /** Exchanging two present entries twice gives back the report, entry order included. */
  lemma ExchangeInvolutive(d: Dict<Value>, x: string, y: string)
    requires x in Keys(d) && y in Keys(d)
    ensures Exchange(Exchange(d, x, y), x, y) == d
  {
    var ix, iy := IndexOf(d, x), IndexOf(d, y);
    var r := Exchange(d, x, y);
    ExchangeInPlace(d, x, y);
    ExchangeInPlace(r, x, y);
    SameKeysSameIndex(d, r, x);
    SameKeysSameIndex(d, r, y);
    assert Exchange(r, x, y) == r[ix := (x, Get(d, x))][iy := (y, Get(d, y))];
    RestoreTwo(d, ix, iy, r, Get(d, y), Get(d, x));
  }

  /** Overwriting two entries and then writing their old contents back restores the sequence. */
  lemma RestoreTwo(d: Dict<Value>, ix: nat, iy: nat, r: Dict<Value>, u: Value, w: Value)
    requires ix < |d| && iy < |d|
    requires r == d[ix := (d[ix].0, u)][iy := (d[iy].0, w)]
    ensures r[ix := (d[ix].0, d[ix].1)][iy := (d[iy].0, d[iy].1)] == d
  {
    var r2 := r[ix := (d[ix].0, d[ix].1)][iy := (d[iy].0, d[iy].1)];
    assert forall p :: 0 <= p < |d| ==> r2[p] == d[p];
  }

  /** Rule A (lines 56-58): the report's `mac_primary` is the value in the stored secondary-MAC column. */
  predicate RuleAFires(cfg: Config, data: Dict<Value>, stored: map<string, Value>)
  {
    && MacPrimary in Keys(data)
    && Read(cfg, DevicesSection, MacSecondary).Ok?
    && var col := Read(cfg, DevicesSection, MacSecondary).value;
       col in stored && Get(data, MacPrimary) == stored[col]
  }

  /** Reading rule A's column name raises: the report has `mac_primary` and the config lacks `mac_secondary`. */
  predicate RuleATestRaises(cfg: Config, data: Dict<Value>)
  {
    MacPrimary in Keys(data) && Read(cfg, DevicesSection, MacSecondary).Raised?
  }

  /** Rule B (lines 75-77): the report's `mac_secondary` is the value in the stored primary-MAC column. */
  predicate RuleBFires(cfg: Config, data: Dict<Value>, stored: map<string, Value>)
  {
    && MacSecondary in Keys(data)
    && Read(cfg, DevicesSection, MacPrimary).Ok?
    && var col := Read(cfg, DevicesSection, MacPrimary).value;
       col in stored && Get(data, MacSecondary) == stored[col]
  }

  predicate RuleBTestRaises(cfg: Config, data: Dict<Value>)
  {
    MacSecondary in Keys(data) && Read(cfg, DevicesSection, MacPrimary).Raised?
  }

  /** Both tests of lines 56 and 75 read their columns and come out false, so `data` is left as it is. */
  predicate NoRuleFires(cfg: Config, data: Dict<Value>, stored: map<string, Value>)
  {
    !RuleATestRaises(cfg, data) && !RuleAFires(cfg, data, stored) && !RuleBTestRaises(cfg, data) && !RuleBFires(cfg, data, stored)
  }

  /** Rule A's rewrite, lines 60-74. */
  function PrimaryToSecondary(data: Dict<Value>): (r: Result<Dict<Value>>)
    requires MacPrimary in Keys(data)
    ensures r.Ok? ==> OthersKept(data, r.value)
  {
    var d := if MacSecondary in Keys(data) then Exchange(data, MacSecondary, MacPrimary)
             else Move(data, MacPrimary, MacSecondary);
    if IpPrimary !in Keys(d) then Raised(KeyError(IpPrimary))
    else if IpSecondary in Keys(d) then Ok(Exchange(d, IpSecondary, IpPrimary))
    else Ok(Move(d, IpPrimary, IpSecondary))
  }

  /**
   * Rule B's rewrite, lines 79-93, with the MAC exchange the authors evidently
   * meant at lines 80-82 (the mirror image of lines 61-63): the MACs are
   * exchanged or moved, then the IPs.
   */
  function SecondaryToPrimary(data: Dict<Value>): Result<Dict<Value>>
    requires MacSecondary in Keys(data)
  {
    var d := if MacPrimary in Keys(data) then Exchange(data, MacPrimary, MacSecondary)
             else Move(data, MacSecondary, MacPrimary);
    IpToPrimary(d)
  }

  /**
   * Rule B's rewrite exactly as lines 79-93 are written: with both MACs present
   * it assigns `mac_primary` twice (lines 80-82), which leaves it as it was.
   */
  function SecondaryToPrimaryAsWritten(data: Dict<Value>): (r: Result<Dict<Value>>)
    requires MacSecondary in Keys(data)
    ensures r.Ok? ==> OthersKept(data, r.value)
  {
    var d := if MacPrimary in Keys(data)
             then Set(Set(data, MacPrimary, Get(data, MacSecondary)), MacPrimary, Get(data, MacPrimary))
             else Move(data, MacSecondary, MacPrimary);
    IpToPrimary(d)
  }

  /** Rule B's IP step, lines 87-93: reading `ip_secondary` raises KeyError when it is absent. */
  function IpToPrimary(d: Dict<Value>): (r: Result<Dict<Value>>)
    ensures r.Ok? ==> OthersKept(d, r.value)
  {
    if IpSecondary !in Keys(d) then Raised(KeyError(IpSecondary))
    else if IpPrimary in Keys(d) then Ok(Exchange(d, IpPrimary, IpSecondary))
    else Ok(Move(d, IpSecondary, IpPrimary))
  }

  /**
   * Lines 53-93 on a found device, with rule B's MAC exchange corrected.
   * Python's `and` short-circuits, so rule A's column name is read only when
   * the report has `mac_primary`, and rule B is tested only when rule A's test
   * came out false.
   */
  function Reconcile(cfg: Config, data: Dict<Value>, stored: map<string, Value>): (r: Result<Dict<Value>>)
    ensures NoRuleFires(cfg, data, stored) ==> r == Ok(data)
  {
    if RuleATestRaises(cfg, data) then Raised(Read(cfg, DevicesSection, MacSecondary).error)
    else if RuleAFires(cfg, data, stored) then PrimaryToSecondary(data)
    else if RuleBTestRaises(cfg, data) then Raised(Read(cfg, DevicesSection, MacPrimary).error)
    else if RuleBFires(cfg, data, stored) then SecondaryToPrimary(data)
    else Ok(data)
  }

  /**
   * Lines 53-93 exactly as written, the reconciler `device_inventory` runs.
   * It touches only the four slots, and what it raises is a configuration
   * error of a rule test or the KeyError of an empty IP slot.
   */
  function ReconcileAsWritten(cfg: Config, data: Dict<Value>, stored: map<string, Value>): (r: Result<Dict<Value>>)
    ensures NoRuleFires(cfg, data, stored) ==> r == Ok(data)
    ensures r.Ok? ==> OthersKept(data, r.value)
    ensures r.Raised? ==>
      || r.error == KeyError(IpPrimary) || r.error == KeyError(IpSecondary)
      || Read(cfg, DevicesSection, MacSecondary) == Raised(r.error)
      || Read(cfg, DevicesSection, MacPrimary) == Raised(r.error)
  {
    if RuleATestRaises(cfg, data) then Raised(Read(cfg, DevicesSection, MacSecondary).error)
    else if RuleAFires(cfg, data, stored) then PrimaryToSecondary(data)
    else if RuleBTestRaises(cfg, data) then Raised(Read(cfg, DevicesSection, MacPrimary).error)
    else if RuleBFires(cfg, data, stored) then SecondaryToPrimaryAsWritten(data)
    else Ok(data)
  }

  /** `r` holds in slot `p` what `d` held in slot `s`, and the other way round (absence included). */
  ghost predicate PairSwapped(d: Dict<Value>, r: Dict<Value>, p: string, s: string)
  {
    && (p in Keys(r) <==> s in Keys(d))
    && (s in Keys(r) <==> p in Keys(d))
    && (p in Keys(r) && s in Keys(d) ==> Get(r, p) == Get(d, s))
    && (s in Keys(r) && p in Keys(d) ==> Get(r, s) == Get(d, p))
  }

  /** Slots `p` and `s` of `r` are those of `d`. */
  ghost predicate PairKept(d: Dict<Value>, r: Dict<Value>, p: string, s: string)
  {
    && (p in Keys(r) <==> p in Keys(d))
    && (s in Keys(r) <==> s in Keys(d))
    && (p in Keys(r) && p in Keys(d) ==> Get(r, p) == Get(d, p))
    && (s in Keys(r) && s in Keys(d) ==> Get(r, s) == Get(d, s))
  }

  predicate IsSlotKey(k: string)
  {
    k == MacPrimary || k == MacSecondary || k == IpPrimary || k == IpSecondary
  }

  /** Every entry other than the four slots is untouched. */
  ghost predicate OthersKept(d: Dict<Value>, r: Dict<Value>)
  {
    forall k :: !IsSlotKey(k) ==>
      (k in Keys(r) <==> k in Keys(d)) && (k in Keys(r) && k in Keys(d) ==> Get(r, k) == Get(d, k))
  }
}

/** Properties of the slot reconciler, and how rule B as written departs from it. */
module SlotFacts {
  import opened Results
  import opened Values
  import opened Dicts
  import opened Settings
  import opened Slots

  /** Every entry other than slots `p` and `s` is untouched. */
  ghost predicate KeptExcept(d: Dict<Value>, r: Dict<Value>, p: string, s: string)
  {
    forall k :: k != p && k != s ==>
      (k in Keys(r) <==> k in Keys(d)) && (k in Keys(r) && k in Keys(d) ==> Get(r, k) == Get(d, k))
  }

  lemma ExchangeSwapsPair(d: Dict<Value>, p: string, s: string)
    requires Distinct(d) && p in Keys(d) && s in Keys(d) && p != s
    ensures Distinct(Exchange(d, p, s))
    ensures PairSwapped(d, Exchange(d, p, s), p, s) && KeptExcept(d, Exchange(d, p, s), p, s)
  {
  }

  lemma MoveSwapsPair(d: Dict<Value>, p: string, s: string)
    requires Distinct(d) && p in Keys(d) && s !in Keys(d) && p != s
    ensures Distinct(Move(d, p, s))
    ensures PairSwapped(d, Move(d, p, s), p, s) && PairSwapped(d, Move(d, p, s), s, p)
    ensures KeptExcept(d, Move(d, p, s), p, s) && KeptExcept(d, Move(d, p, s), s, p)
  {
  }

  /** A MAC-pair swap followed by an IP-pair swap swaps both pairs and keeps everything else. */
  lemma ComposeSwaps(data: Dict<Value>, d: Dict<Value>, r: Dict<Value>)
    requires PairSwapped(data, d, MacPrimary, MacSecondary) && KeptExcept(data, d, MacPrimary, MacSecondary)
    requires PairSwapped(d, r, IpPrimary, IpSecondary) && KeptExcept(d, r, IpPrimary, IpSecondary)
    ensures PairSwapped(data, r, MacPrimary, MacSecondary) && PairSwapped(data, r, IpPrimary, IpSecondary)
    ensures OthersKept(data, r)
  {
    assert PairKept(data, d, IpPrimary, IpSecondary);
    assert PairKept(d, r, MacPrimary, MacSecondary);
  }

  /** Lines 80-82 as written: `m = d[p]; d[p] = d[s]; d[p] = m` leaves the report as it was. */
  lemma DoubleAssignIsIdentity(data: Dict<Value>)
    requires MacPrimary in Keys(data) && MacSecondary in Keys(data)
    ensures Set(Set(data, MacPrimary, Get(data, MacSecondary)), MacPrimary, Get(data, MacPrimary)) == data
  {
    var a := Set(data, MacPrimary, Get(data, MacSecondary));
    SetInPlace(data, MacPrimary, Get(data, MacSecondary));
    SetInPlace(a, MacPrimary, Get(data, MacPrimary));
    SameKeysSameIndex(data, a, MacPrimary);
    var i := IndexOf(data, MacPrimary);
    assert data[i] == (MacPrimary, Get(data, MacPrimary));
    RestoreOne(data, i, (MacPrimary, Get(data, MacSecondary)));
  }

  lemma RestoreOne(d: Dict<Value>, i: nat, u: (string, Value))
    requires i < |d|
    ensures d[i := u][i := d[i]] == d
  {
    var r := d[i := u][i := d[i]];
    assert forall p :: 0 <= p < |d| ==> r[p] == d[p];
  }

  /** Rule A's MAC step (lines 60-66) swaps the MAC pair. */
  lemma RuleAMacStep(data: Dict<Value>) returns (d: Dict<Value>)
    requires Distinct(data) && MacPrimary in Keys(data)
    ensures d == if MacSecondary in Keys(data) then Exchange(data, MacSecondary, MacPrimary)
                 else Move(data, MacPrimary, MacSecondary)
    ensures Distinct(d) && PairSwapped(data, d, MacPrimary, MacSecondary) && KeptExcept(data, d, MacPrimary, MacSecondary)
  {
    if MacSecondary in Keys(data) {
      d := Exchange(data, MacSecondary, MacPrimary);
      ExchangeSwapsPair(data, MacSecondary, MacPrimary);
    } else {
      d := Move(data, MacPrimary, MacSecondary);
      MoveSwapsPair(data, MacPrimary, MacSecondary);
    }
  }

  /** The IP step of either rule (lines 68-74, 87-93) swaps the IP pair when the slot it reads from is filled. */
  lemma IpStep(d: Dict<Value>, from: string, to: string) returns (r: Dict<Value>)
    requires Distinct(d) && from in Keys(d)
    requires (from, to) == (IpPrimary, IpSecondary) || (from, to) == (IpSecondary, IpPrimary)
    ensures r == if to in Keys(d) then Exchange(d, to, from) else Move(d, from, to)
    ensures Distinct(r) && PairSwapped(d, r, IpPrimary, IpSecondary) && KeptExcept(d, r, IpPrimary, IpSecondary)
  {
    if to in Keys(d) {
      r := Exchange(d, to, from);
      ExchangeSwapsPair(d, to, from);
    } else {
      r := Move(d, from, to);
      MoveSwapsPair(d, from, to);
    }
  }

  /**
   * Rule A, as the code has it and as the corrected reconciler keeps it, swaps
   * the report's whole primary/secondary assignment, so its secondary MAC
   * becomes the stored one; without `ip_primary` it raises KeyError.
   */
  lemma RuleAOutcome(cfg: Config, data: Dict<Value>, stored: map<string, Value>)
    requires Distinct(data) && RuleAFires(cfg, data, stored)
    ensures Reconcile(cfg, data, stored) == ReconcileAsWritten(cfg, data, stored)
    ensures IpPrimary !in Keys(data) ==> ReconcileAsWritten(cfg, data, stored) == Raised(KeyError(IpPrimary))
    ensures IpPrimary in Keys(data) ==>
      && ReconcileAsWritten(cfg, data, stored).Ok?
      && var r := ReconcileAsWritten(cfg, data, stored).value;
         && Distinct(r)
         && PairSwapped(data, r, MacPrimary, MacSecondary)
         && PairSwapped(data, r, IpPrimary, IpSecondary)
         && OthersKept(data, r)
         && MacSecondary in Keys(r)
         && Get(r, MacSecondary) == stored[Read(cfg, DevicesSection, MacSecondary).value]
  {
    assert ReconcileAsWritten(cfg, data, stored) == PrimaryToSecondary(data);
    assert Reconcile(cfg, data, stored) == PrimaryToSecondary(data);
    if IpPrimary in Keys(data) {
      var r := PrimaryToSecondarySwaps(data);
    } else {
      PrimaryToSecondaryNeedsIp(data);
    }
  }

  /** Rule A's rewrite, with `ip_primary` present, swaps both pairs and keeps every other entry. */
  lemma PrimaryToSecondarySwaps(data: Dict<Value>) returns (r: Dict<Value>)
    requires Distinct(data) && MacPrimary in Keys(data) && IpPrimary in Keys(data)
    ensures PrimaryToSecondary(data) == Ok(r)
    ensures Distinct(r) && OthersKept(data, r)
    ensures PairSwapped(data, r, MacPrimary, MacSecondary) && PairSwapped(data, r, IpPrimary, IpSecondary)
  {
    var d := RuleAMacStep(data);
    assert IpPrimary in Keys(d);
    r := IpStep(d, IpPrimary, IpSecondary);
    assert PrimaryToSecondary(data) == Ok(r);
    ComposeSwaps(data, d, r);
  }

  /** Corrected rule B's MAC step (lines 79-85) swaps the MAC pair. */
  lemma RuleBMacStep(data: Dict<Value>) returns (d: Dict<Value>)
    requires Distinct(data) && MacSecondary in Keys(data)
    ensures d == if MacPrimary in Keys(data) then Exchange(data, MacPrimary, MacSecondary)
                 else Move(data, MacSecondary, MacPrimary)
    ensures Distinct(d) && PairSwapped(data, d, MacPrimary, MacSecondary) && KeptExcept(data, d, MacPrimary, MacSecondary)
  {
    if MacPrimary in Keys(data) {
      d := Exchange(data, MacPrimary, MacSecondary);
      ExchangeSwapsPair(data, MacPrimary, MacSecondary);
    } else {
      d := Move(data, MacSecondary, MacPrimary);
      MoveSwapsPair(data, MacSecondary, MacPrimary);
    }
  }

  /**
   * Rule B, tested only when rule A's test is false, mirrors rule A: the
   * whole primary/secondary assignment is swapped, so the report's primary
   * MAC becomes the stored one; without `ip_secondary` it raises KeyError.
   */
  lemma RuleBOutcome(cfg: Config, data: Dict<Value>, stored: map<string, Value>)
    requires Distinct(data)
    requires !RuleATestRaises(cfg, data) && !RuleAFires(cfg, data, stored) && RuleBFires(cfg, data, stored)
    ensures IpSecondary !in Keys(data) ==> Reconcile(cfg, data, stored) == Raised(KeyError(IpSecondary))
    ensures IpSecondary in Keys(data) ==>
      && Reconcile(cfg, data, stored).Ok?
      && var r := Reconcile(cfg, data, stored).value;
         && Distinct(r)
         && PairSwapped(data, r, MacPrimary, MacSecondary)
         && PairSwapped(data, r, IpPrimary, IpSecondary)
         && OthersKept(data, r)
         && MacPrimary in Keys(r)
         && Get(r, MacPrimary) == stored[Read(cfg, DevicesSection, MacPrimary).value]
  {
    assert Reconcile(cfg, data, stored) == SecondaryToPrimary(data);
    if IpSecondary in Keys(data) {
      var r := SecondaryToPrimarySwaps(data);
    } else {
      SecondaryToPrimaryNeedsIp(data);
    }
  }

  /** Corrected rule B's rewrite with `ip_secondary` present swaps both pairs and keeps the rest. */
  lemma SecondaryToPrimarySwaps(data: Dict<Value>) returns (r: Dict<Value>)
    requires Distinct(data) && MacSecondary in Keys(data) && IpSecondary in Keys(data)
    ensures SecondaryToPrimary(data) == Ok(r)
    ensures Distinct(r) && OthersKept(data, r)
    ensures PairSwapped(data, r, MacPrimary, MacSecondary) && PairSwapped(data, r, IpPrimary, IpSecondary)
  {
    var d := RuleBMacStep(data);
    assert SecondaryToPrimary(data) == IpToPrimary(d);
    assert IpSecondary in Keys(d);
    r := IpStep(d, IpSecondary, IpPrimary);
    ComposeSwaps(data, d, r);
  }

  /** Rule B's rewrite as written, with both MACs and `ip_secondary` present: the MAC pair is kept, the IPs swapped. */
  lemma AsWrittenRuleBOutcome(data: Dict<Value>) returns (r: Dict<Value>)
    requires Distinct(data) && MacSecondary in Keys(data) && MacPrimary in Keys(data) && IpSecondary in Keys(data)
    ensures SecondaryToPrimaryAsWritten(data) == Ok(r)
    ensures Distinct(r) && PairSwapped(data, r, IpPrimary, IpSecondary) && OthersKept(data, r)
    ensures PairKept(data, r, MacPrimary, MacSecondary)
  {
    DoubleAssignIsIdentity(data);
    assert SecondaryToPrimaryAsWritten(data) == IpToPrimary(data);
    r := IpStep(data, IpSecondary, IpPrimary);
    IpOnlyKeepsRest(data, r);
  }

  /** A change confined to the IP pair keeps the MAC pair and every other entry. */
  lemma IpOnlyKeepsRest(d: Dict<Value>, r: Dict<Value>)
    requires KeptExcept(d, r, IpPrimary, IpSecondary)
    ensures OthersKept(d, r) && PairKept(d, r, MacPrimary, MacSecondary)
  {
  }

  /**
   * The discrepancy of rule B as written: with both MACs and `ip_secondary`
   * present and two different MACs, the IPs are exchanged but the MACs are
   * not, so the report's primary MAC still differs from the stored primary
   * MAC and each MAC now sits beside the other interface's IP.
   */
  lemma RuleBKeepsMacPair(cfg: Config, data: Dict<Value>, stored: map<string, Value>)
    requires Distinct(data)
    requires !RuleATestRaises(cfg, data) && !RuleAFires(cfg, data, stored) && RuleBFires(cfg, data, stored)
    requires MacPrimary in Keys(data) && IpSecondary in Keys(data)
    requires Get(data, MacPrimary) != Get(data, MacSecondary)
    ensures ReconcileAsWritten(cfg, data, stored).Ok?
    ensures var r := ReconcileAsWritten(cfg, data, stored).value;
      && MacPrimary in Keys(r) && MacSecondary in Keys(r)
      && Get(r, MacPrimary) == Get(data, MacPrimary)
      && Get(r, MacSecondary) == Get(data, MacSecondary)
      && Get(r, MacPrimary) != stored[Read(cfg, DevicesSection, MacPrimary).value]
      && !PairSwapped(data, r, MacPrimary, MacSecondary)
      && PairSwapped(data, r, IpPrimary, IpSecondary)
  {
    assert ReconcileAsWritten(cfg, data, stored) == SecondaryToPrimaryAsWritten(data);
    var r := AsWrittenRuleBOutcome(data);
  }

  /** Outside rule B with both MACs present, the code as written and the corrected reconciler agree. */
  lemma AsWrittenAgreesElsewhere(cfg: Config, data: Dict<Value>, stored: map<string, Value>)
    requires !(!RuleATestRaises(cfg, data) && !RuleAFires(cfg, data, stored) && !RuleBTestRaises(cfg, data)
               && RuleBFires(cfg, data, stored) && MacPrimary in Keys(data))
    ensures ReconcileAsWritten(cfg, data, stored) == Reconcile(cfg, data, stored)
  {
  }

  /** A report that shows the rule B discrepancy: the stored device has primary MAC "A". */
  lemma RuleBExample()
    ensures
      var cfg := Config(map[DevicesSection := map[MacPrimary := "Mac", MacSecondary := "Mac2"]]);
      var stored := map["Mac" := Str("A"), "Mac2" := Str("C")];
      && ReconcileAsWritten(cfg, ExampleReport(), stored)
           == Ok(ExampleReport()[2 := (IpPrimary, Str("10.0.0.1"))][3 := (IpSecondary, Str("10.0.0.2"))])
      && Reconcile(cfg, ExampleReport(), stored)
           == Ok(ExampleReport()[0 := (MacPrimary, Str("A"))][1 := (MacSecondary, Str("B"))]
                                [2 := (IpPrimary, Str("10.0.0.1"))][3 := (IpSecondary, Str("10.0.0.2"))])
  {
    var cfg := Config(map[DevicesSection := map[MacPrimary := "Mac", MacSecondary := "Mac2"]]);
    var data := ExampleReport();
    var stored := map["Mac" := Str("A"), "Mac2" := Str("C")];
    assert Keys(data) == [MacPrimary, MacSecondary, IpPrimary, IpSecondary];
    IndexOfUnique(data, MacPrimary, 0);
    IndexOfUnique(data, MacSecondary, 1);
    assert Read(cfg, DevicesSection, MacSecondary) == Ok("Mac2");
    assert Read(cfg, DevicesSection, MacPrimary) == Ok("Mac");
    assert !RuleAFires(cfg, data, stored);
    assert !RuleATestRaises(cfg, data) && !RuleBTestRaises(cfg, data);
    assert RuleBFires(cfg, data, stored);
    assert ReconcileAsWritten(cfg, data, stored) == SecondaryToPrimaryAsWritten(data);
    assert Reconcile(cfg, data, stored) == SecondaryToPrimary(data);
    ExampleRewrite();
    ExampleSwap();
  }

  /** A report whose secondary MAC is the stored primary MAC, so that rule B fires. */
  function ExampleReport(): Dict<Value>
  {
    [(MacPrimary, Str("B")), (MacSecondary, Str("A")), (IpPrimary, Str("10.0.0.2")), (IpSecondary, Str("10.0.0.1"))]
  }

  lemma ExampleRewrite()
    ensures SecondaryToPrimaryAsWritten(ExampleReport())
      == Ok(ExampleReport()[2 := (IpPrimary, Str("10.0.0.1"))][3 := (IpSecondary, Str("10.0.0.2"))])
  {
    var data := ExampleReport();
    assert Keys(data) == [MacPrimary, MacSecondary, IpPrimary, IpSecondary];
    IndexOfUnique(data, IpPrimary, 2);
    IndexOfUnique(data, IpSecondary, 3);
    DoubleAssignIsIdentity(data);
    var r := Exchange(data, IpPrimary, IpSecondary);
    assert SecondaryToPrimaryAsWritten(data) == Ok(r);
    ExchangeInPlace(data, IpPrimary, IpSecondary);
    assert r == data[2 := (IpPrimary, Str("10.0.0.1"))][3 := (IpSecondary, Str("10.0.0.2"))];
  }

  lemma ExampleSwap()
    ensures SecondaryToPrimary(ExampleReport())
      == Ok(ExampleReport()[0 := (MacPrimary, Str("A"))][1 := (MacSecondary, Str("B"))]
                           [2 := (IpPrimary, Str("10.0.0.1"))][3 := (IpSecondary, Str("10.0.0.2"))])
  {
    var data := ExampleReport();
    var d := ExampleMacSwap();
    assert SecondaryToPrimary(data) == IpToPrimary(d);
    ExampleIpSwap(d);
  }

  /** The corrected MAC step on the example report. */
  lemma ExampleMacSwap() returns (d: Dict<Value>)
    ensures MacPrimary in Keys(ExampleReport()) && MacSecondary in Keys(ExampleReport())
    ensures d == Exchange(ExampleReport(), MacPrimary, MacSecondary)
    ensures d == ExampleReport()[0 := (MacPrimary, Str("A"))][1 := (MacSecondary, Str("B"))]
  {
    var data := ExampleReport();
    assert Keys(data) == [MacPrimary, MacSecondary, IpPrimary, IpSecondary];
    IndexOfUnique(data, MacPrimary, 0);
    IndexOfUnique(data, MacSecondary, 1);
    d := Exchange(data, MacPrimary, MacSecondary);
    ExchangeInPlace(data, MacPrimary, MacSecondary);
  }

  /** The IP step on the example report once its MACs are exchanged. */
  lemma ExampleIpSwap(d: Dict<Value>)
    requires d == ExampleReport()[0 := (MacPrimary, Str("A"))][1 := (MacSecondary, Str("B"))]
    ensures IpToPrimary(d) == Ok(d[2 := (IpPrimary, Str("10.0.0.1"))][3 := (IpSecondary, Str("10.0.0.2"))])
  {
    assert d == [(MacPrimary, Str("A")), (MacSecondary, Str("B")), (IpPrimary, Str("10.0.0.2")), (IpSecondary, Str("10.0.0.1"))];
    assert Keys(d) == [MacPrimary, MacSecondary, IpPrimary, IpSecondary];
    IndexOfUnique(d, IpPrimary, 2);
    IndexOfUnique(d, IpSecondary, 3);
    ExchangeInPlace(d, IpPrimary, IpSecondary);
  }

  /** A swap that fires on a report without any IP raises KeyError. */
  lemma SwapWithoutIpRaises(cfg: Config, data: Dict<Value>, stored: map<string, Value>)
    requires IpPrimary !in Keys(data) && IpSecondary !in Keys(data)
    requires RuleAFires(cfg, data, stored) || (!RuleATestRaises(cfg, data) && RuleBFires(cfg, data, stored))
    ensures ReconcileAsWritten(cfg, data, stored).Raised? && ReconcileAsWritten(cfg, data, stored).error.KeyError?
    ensures Reconcile(cfg, data, stored).Raised? && Reconcile(cfg, data, stored).error.KeyError?
  {
    if RuleAFires(cfg, data, stored) {
      PrimaryToSecondaryNeedsIp(data);
    } else {
      SecondaryToPrimaryNeedsIp(data);
      SecondaryToPrimaryAsWrittenNeedsIp(data);
    }
  }

  lemma PrimaryToSecondaryNeedsIp(data: Dict<Value>)
    requires MacPrimary in Keys(data) && IpPrimary !in Keys(data)
    ensures PrimaryToSecondary(data) == Raised(KeyError(IpPrimary))
  {
    if MacSecondary in Keys(data) {
      assert IpPrimary !in Keys(Exchange(data, MacSecondary, MacPrimary));
    } else {
      assert IpPrimary !in Keys(Move(data, MacPrimary, MacSecondary));
    }
  }

  lemma SecondaryToPrimaryNeedsIp(data: Dict<Value>)
    requires MacSecondary in Keys(data) && IpSecondary !in Keys(data)
    ensures SecondaryToPrimary(data) == Raised(KeyError(IpSecondary))
  {
    if MacPrimary in Keys(data) {
      assert IpSecondary !in Keys(Exchange(data, MacPrimary, MacSecondary));
    } else {
      assert IpSecondary !in Keys(Move(data, MacSecondary, MacPrimary));
    }
  }

  lemma SecondaryToPrimaryAsWrittenNeedsIp(data: Dict<Value>)
    requires MacSecondary in Keys(data) && IpSecondary !in Keys(data)
    ensures SecondaryToPrimaryAsWritten(data) == Raised(KeyError(IpSecondary))
  {
    var d := if MacPrimary in Keys(data)
             then Set(Set(data, MacPrimary, Get(data, MacSecondary)), MacPrimary, Get(data, MacPrimary))
             else Move(data, MacSecondary, MacPrimary);
    assert IpSecondary !in Keys(d);
  }
}
