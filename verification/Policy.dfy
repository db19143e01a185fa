/** Ordered routing rules: validation, and the first-match choice that fails closed. */
module Policy {
  import opened Bytes
  import opened Ipv4

  datatype Mode = All | Apps | Exclude | Subnets | Unknown
  datatype Subnet = Unreadable | SixBytes | FourBytes(prefix: Prefix)

  /** A rule as decoded from text, and as kept after validation. */
  datatype RawRule = RawRule(id: string, mode: Mode, uids: seq<int>, subnets: seq<Subnet>)
  datatype Rule = Rule(id: string, mode: Mode, uids: seq<int>, prefixes: seq<Prefix>)

  datatype Why = ByAll | BySubnet | ByApps | ByExclude | UnknownUid | Unmatched
  datatype Decision = Decision(profile: string, why: Why)

  const DIRECT := "direct"
  const NONE := ""
  const MAX_RULES: nat := 32

  // ---------------------------------------------------------------- validation

  predicate Readable(s: Subnet) { s.FourBytes? && ValidPrefix(s.prefix) }

  predicate ValidRule(r: RawRule) {
    && r.id != NONE && r.id != DIRECT
    && match r.mode
       case All => true
       case Apps => r.uids != [] && forall i :: 0 <= i < |r.uids| ==> r.uids[i] >= 0
       case Exclude => forall i :: 0 <= i < |r.uids| ==> r.uids[i] >= 0
       case Subnets => r.subnets != [] && forall i :: 0 <= i < |r.subnets| ==> Readable(r.subnets[i])
       case Unknown => false
  }

  ghost predicate Distinct(rules: seq<RawRule>) {
    forall i, j :: 0 <= i < j < |rules| ==> rules[i].id != rules[j].id
  }

  ghost predicate Valid(rules: seq<RawRule>) {
    && 1 <= |rules| <= MAX_RULES
    && (forall i :: 0 <= i < |rules| ==> ValidRule(rules[i]))
    && Distinct(rules)
  }

  function Kept(r: RawRule): Rule
    requires ValidRule(r)
  {
    Rule(r.id, r.mode, r.uids,
         if r.mode.Subnets?
         then seq(|r.subnets|, i requires 0 <= i < |r.subnets| => Masked(r.subnets[i].prefix)) else [])
  }

  /** Accepts exactly the valid rule lists, keeping every rule in order with its subnets masked. */
  method Parse(raw: seq<RawRule>) returns (policy: Option<seq<Rule>>)
    ensures policy.Some? <==> Valid(raw)
    ensures policy.Some? ==> |policy.value| == |raw| && forall i :: 0 <= i < |raw| ==> policy.value[i] == Kept(raw[i])
  {
    if |raw| == 0 || |raw| > MAX_RULES { return None; }
    var rules: seq<Rule> := [];
    var seen: set<string> := {};
    var i := 0;
    while i < |raw|
      invariant 0 <= i <= |raw| && |rules| == i
      invariant forall j :: 0 <= j < i ==> ValidRule(raw[j]) && rules[j] == Kept(raw[j])
      invariant Distinct(raw[..i])
      invariant forall id :: id in seen <==> exists j :: 0 <= j < i && raw[j].id == id
    {
      var r := raw[i];
      if r.id == NONE || r.id == DIRECT || r.id in seen { return None; }
      seen := seen + {r.id};
      var prefixes, ok := CheckRule(r);
      if !ok { return None; }
      rules := rules + [Rule(r.id, r.mode, r.uids, prefixes)];
      assert raw[..i + 1] == raw[..i] + [r];
      i := i + 1;
    }
    assert raw[..|raw|] == raw;
    return Some(rules);
  }

  method CheckRule(r: RawRule) returns (prefixes: seq<Prefix>, ok: bool)
    requires r.id != NONE && r.id != DIRECT
    ensures ok <==> ValidRule(r)
    ensures ok ==> prefixes == Kept(r).prefixes
  {
    prefixes := [];
    match r.mode
    case All => ok := true;
    case Unknown => ok := false;
    case Apps | Exclude =>
      if r.mode.Apps? && |r.uids| == 0 { return [], false; }
      var i := 0;
      while i < |r.uids|
        invariant 0 <= i <= |r.uids| && forall j :: 0 <= j < i ==> r.uids[j] >= 0
      {
        if r.uids[i] < 0 { return [], false; }
        i := i + 1;
      }
      ok := true;
    case Subnets =>
      if |r.subnets| == 0 { return [], false; }
      var i := 0;
      while i < |r.subnets|
        invariant 0 <= i <= |r.subnets| && |prefixes| == i
        invariant forall j :: 0 <= j < i ==> Readable(r.subnets[j]) && prefixes[j] == Masked(r.subnets[j].prefix)
      {
        if !Readable(r.subnets[i]) { return [], false; }
        prefixes := prefixes + [Masked(r.subnets[i].prefix)];
        i := i + 1;
      }
      ok := true;
  }

  /** What is wrong with a rule on its own. */
  predicate Wrong(r: RawRule) {
    || r.id == "" || r.id == "direct" || r.mode.Unknown?
    || (r.mode.Apps? && r.uids == [])
    || ((r.mode.Apps? || r.mode.Exclude?) && exists i :: 0 <= i < |r.uids| && r.uids[i] < 0)
    || (r.mode.Subnets? && r.subnets == [])
    || (r.mode.Subnets? && exists i :: 0 <= i < |r.subnets|
                                       && (!r.subnets[i].FourBytes? || r.subnets[i].prefix.bits > 32))
  }

  /** Exactly why a rule list is refused: none or more than 32 rules, a rule that is wrong on its own,
      or two rules of one name. */
  lemma RefusedExactly(rules: seq<RawRule>)
    ensures !Valid(rules) <==>
      || |rules| == 0 || |rules| > 32 || (exists i :: 0 <= i < |rules| && Wrong(rules[i]))
      || exists i, j :: 0 <= i < j < |rules| && rules[i].id == rules[j].id
  {
    forall i | 0 <= i < |rules| ensures ValidRule(rules[i]) <==> !Wrong(rules[i]) { WrongOrValid(rules[i]); }
    hide ValidRule, Wrong;
  }

  lemma WrongOrValid(r: RawRule)
    ensures ValidRule(r) <==> !Wrong(r)
  {
    if r.mode.Subnets? {
      forall i | 0 <= i < |r.subnets|
        ensures Readable(r.subnets[i]) <==> r.subnets[i].FourBytes? && r.subnets[i].prefix.bits <= 32 { }
    }
  }

  // ---------------------------------------------------------------- choice

  ghost predicate Usable(rules: seq<Rule>) {
    forall i, j :: 0 <= i < |rules| && 0 <= j < |rules[i].prefixes| ==> ValidPrefix(rules[i].prefixes[j])
  }

  ghost predicate InSubnets(r: Rule, dst: address)
    requires forall j :: 0 <= j < |r.prefixes| ==> ValidPrefix(r.prefixes[j])
  {
    exists j :: 0 <= j < |r.prefixes| && Contains(r.prefixes[j], dst)
  }

  /** What one rule says of a flow: a profile, a refusal for want of an owner, or nothing. */
  ghost function Verdict(r: Rule, dst: address, uid: int): Option<Decision>
    requires forall j :: 0 <= j < |r.prefixes| ==> ValidPrefix(r.prefixes[j])
  {
    match r.mode
    case All => Some(Decision(r.id, ByAll))
    case Subnets => if InSubnets(r, dst) then Some(Decision(r.id, BySubnet)) else None
    case Apps => if uid < 0 then Some(Decision(NONE, UnknownUid))
      else if uid in r.uids then Some(Decision(r.id, ByApps)) else None
    case Exclude => if uid < 0 then Some(Decision(NONE, UnknownUid)) else if uid in r.uids then None
      else Some(Decision(r.id, ByExclude))
    case Unknown => None
  }

  /** The first rule with something to say decides; without one the flow goes direct. */
  ghost predicate FirstMatch(rules: seq<Rule>, dst: address, uid: int, d: Decision)
    requires Usable(rules)
  {
    if forall i :: 0 <= i < |rules| ==> Verdict(rules[i], dst, uid).None? then d == Decision(DIRECT, Unmatched)
    else exists i :: 0 <= i < |rules| && Verdict(rules[i], dst, uid) == Some(d)
                     && forall j :: 0 <= j < i ==> Verdict(rules[j], dst, uid).None?
  }

  method Choose(rules: seq<Rule>, dst: address, uid: int) returns (d: Decision)
    requires Usable(rules)
    ensures FirstMatch(rules, dst, uid, d)
  {
    var i := 0;
    while i < |rules|
      invariant 0 <= i <= |rules|
      invariant forall j :: 0 <= j < i ==> Verdict(rules[j], dst, uid).None?
    {
      var r := rules[i];
      if r.mode.All? {
        assert Verdict(rules[i], dst, uid) == Some(Decision(r.id, ByAll));
        return Decision(r.id, ByAll);
      } else if r.mode.Subnets? {
        var k := 0;
        while k < |r.prefixes|
          invariant 0 <= k <= |r.prefixes| && forall j :: 0 <= j < k ==> !Contains(r.prefixes[j], dst)
        {
          if Contains(r.prefixes[k], dst) {
            assert Verdict(rules[i], dst, uid) == Some(Decision(r.id, BySubnet));
            return Decision(r.id, BySubnet);
          }
          k := k + 1;
        }
      } else if r.mode.Apps? || r.mode.Exclude? {
        if uid < 0 {
          assert Verdict(rules[i], dst, uid) == Some(Decision(NONE, UnknownUid));
          return Decision(NONE, UnknownUid);
        }
        var found := false;
        var k := 0;
        while k < |r.uids| && !found
          invariant 0 <= k <= |r.uids| && (found <==> uid in r.uids[..k])
          decreases |r.uids| - k
        {
          if r.uids[k] == uid { found := true; }
          assert r.uids[..k + 1] == r.uids[..k] + [r.uids[k]];
          k := k + 1;
        }
        assert found <==> uid in r.uids by { assert r.uids[..|r.uids|] == r.uids; }
        if (r.mode.Apps? && found) || (r.mode.Exclude? && !found) {
          var d := Decision(r.id, if r.mode.Apps? then ByApps else ByExclude);
          assert Verdict(rules[i], dst, uid) == Some(d);
          return d;
        }
      }
      i := i + 1;
    }
    return Decision(DIRECT, Unmatched);
  }

  ghost predicate Named(rules: seq<Rule>) {
    forall i :: 0 <= i < |rules| ==> rules[i].id != NONE && rules[i].id != DIRECT
  }

  /** Rule `i` is about applications and no earlier rule says anything of the flow. */
  ghost predicate ReachesApps(rules: seq<Rule>, dst: address, uid: int, i: int)
    requires Usable(rules)
  {
    && 0 <= i < |rules| && (rules[i].mode.Apps? || rules[i].mode.Exclude?)
    && forall j :: 0 <= j < i ==> Verdict(rules[j], dst, uid).None?
  }

  /** A validated policy sends a flow direct only when no rule says anything about it, and never
      when its owner is unknown and it reaches a rule about applications. */
  lemma DirectOnlyUnmatched(rules: seq<Rule>, dst: address, uid: int, d: Decision)
    requires Usable(rules) && Named(rules) && FirstMatch(rules, dst, uid, d)
    ensures d.profile == DIRECT <==> forall i :: 0 <= i < |rules| ==> Verdict(rules[i], dst, uid).None?
    ensures d.profile == NONE <==> d.why.UnknownUid?
    ensures d.profile == NONE || d.profile == DIRECT || exists i :: 0 <= i < |rules| && rules[i].id == d.profile
    ensures forall i :: uid < 0 && ReachesApps(rules, dst, uid, i) ==> d == Decision(NONE, UnknownUid)
  {
    if exists i :: 0 <= i < |rules| && Verdict(rules[i], dst, uid).Some? {
      var i :| 0 <= i < |rules| && Verdict(rules[i], dst, uid) == Some(d)
               && forall j :: 0 <= j < i ==> Verdict(rules[j], dst, uid).None?;
      assert d.profile == rules[i].id || d == Decision(NONE, UnknownUid);
      forall k | uid < 0 && ReachesApps(rules, dst, uid, k) ensures d == Decision(NONE, UnknownUid) {
        assert Verdict(rules[k], dst, uid) == Some(Decision(NONE, UnknownUid));
        assert k == i;
      }
    }
  }

  /** The choice as a scan: the first verdict, or direct. */
  ghost function Decide(rules: seq<Rule>, dst: address, uid: int): Decision
    requires Usable(rules)
  {
    if rules == [] then Decision(DIRECT, Unmatched)
    else
      var v := Verdict(rules[0], dst, uid);
      if v.Some? then v.value
      else
        assert Usable(rules[1..]) by { UsableRest(rules); }
        Decide(rules[1..], dst, uid)
  }

  lemma UsableRest(rules: seq<Rule>)
    requires Usable(rules) && rules != []
    ensures Usable(rules[1..])
  {
    forall i, j | 0 <= i < |rules[1..]| && 0 <= j < |rules[1..][i].prefixes|
      ensures ValidPrefix(rules[1..][i].prefixes[j])
    {
      assert rules[1..][i] == rules[i + 1];
    }
  }

  lemma FirstMatchRest(rules: seq<Rule>, dst: address, uid: int, d: Decision)
    requires Usable(rules) && rules != [] && Verdict(rules[0], dst, uid).None?
    ensures Usable(rules[1..]) && (FirstMatch(rules, dst, uid, d) <==> FirstMatch(rules[1..], dst, uid, d))
  {
    UsableRest(rules);
    hide Verdict;
    var rest := rules[1..];
    assert forall i :: 0 <= i < |rest| ==> rest[i] == rules[i + 1];
    if exists i :: 0 <= i < |rest| && Verdict(rest[i], dst, uid).Some? {
      var i :| 0 <= i < |rest| && Verdict(rest[i], dst, uid).Some?;
      assert Verdict(rules[i + 1], dst, uid).Some?;
    }
    if i :| 0 <= i < |rules| && Verdict(rules[i], dst, uid) == Some(d)
            && forall j :: 0 <= j < i ==> Verdict(rules[j], dst, uid).None? {
      assert rest[i - 1] == rules[i];
      assert forall j :: 0 <= j < i - 1 ==> rest[j] == rules[j + 1];
    }
    if k :| 0 <= k < |rest| && Verdict(rest[k], dst, uid) == Some(d)
            && forall j :: 0 <= j < k ==> Verdict(rest[j], dst, uid).None? {
      assert rules[k + 1] == rest[k];
      forall j | 0 <= j < k + 1 ensures Verdict(rules[j], dst, uid).None?
      {
        if j > 0 { assert rest[j - 1] == rules[j]; }
      }
    }
  }

  /** The rules leave exactly one decision for a flow, the one the scan finds. */
  lemma {:induction false} FirstMatchIs(rules: seq<Rule>, dst: address, uid: int, d: Decision)
    requires Usable(rules)
    ensures FirstMatch(rules, dst, uid, d) <==> d == Decide(rules, dst, uid)
    decreases |rules|
  {
    if rules != [] {
      if Verdict(rules[0], dst, uid).None? {
        FirstMatchRest(rules, dst, uid, d);
        hide Verdict, FirstMatch;
        FirstMatchIs(rules[1..], dst, uid, d);
      } else {
        hide Verdict;
        assert !(forall i :: 0 <= i < |rules| ==> Verdict(rules[i], dst, uid).None?);
      }
    }
  }

  /** What a rule says by its text: subnets as written, host bits and all. */
  ghost function Says(r: RawRule, dst: address, uid: int): Option<Decision>
    requires ValidRule(r)
  {
    if r.mode.Subnets? then
      if exists i :: 0 <= i < |r.subnets| && Contains(r.subnets[i].prefix, dst) then Some(Decision(r.id, BySubnet))
        else None
    else Verdict(Rule(r.id, r.mode, r.uids, []), dst, uid)
  }

  /** Validation keeps the meaning of a rule: masking its subnets changes no verdict. */
  lemma KeptSaysTheSame(r: RawRule, dst: address, uid: int)
    requires ValidRule(r)
    ensures Usable([Kept(r)]) && Verdict(Kept(r), dst, uid) == Says(r, dst, uid)
  {
    if r.mode.Subnets? {
      var k := Kept(r);
      hide Contains, Masked;
      forall i | 0 <= i < |r.subnets|
        ensures ValidPrefix(k.prefixes[i]) && (Contains(k.prefixes[i], dst) <==> Contains(r.subnets[i].prefix, dst))
      {
        assert Readable(r.subnets[i]);
        MaskedContains(r.subnets[i].prefix, dst);
        assert Masked(r.subnets[i].prefix).bits == r.subnets[i].prefix.bits by { MaskedBits(r.subnets[i].prefix); }
      }
    }
  }

  lemma MaskedBits(p: Prefix)
    requires ValidPrefix(p)
    ensures Masked(p).bits == p.bits
  {
  }

  /** The address lies in the block of addresses that starts at the subnet's base. */
  predicate Covers(s: Subnet, dst: address) {
    Readable(s) && Base(s.prefix) <= dst < Base(s.prefix) + Size(s.prefix.bits)
  }

  /** One rule alone, by its mode: which flows go to its profile, which go direct, and which are
      refused. A rule for applications and one for all but the same applications split the flows
      of known owners between them, and refuse those of unknown ones. */
  lemma SingleRuleMeans(r: RawRule, dst: address, uid: int)
    requires ValidRule(r)
    ensures Usable([Kept(r)])
    ensures Decide([Kept(r)], dst, uid) ==
      match r.mode
      case All => Decision(r.id, ByAll)
      case Apps =>
        if uid < 0 then Decision(NONE, UnknownUid)
        else if uid in r.uids then Decision(r.id, ByApps) else Decision(DIRECT, Unmatched)
      case Exclude =>
        if uid < 0 then Decision(NONE, UnknownUid)
        else if uid in r.uids then Decision(DIRECT, Unmatched) else Decision(r.id, ByExclude)
      case Subnets =>
        if exists i :: 0 <= i < |r.subnets| && Covers(r.subnets[i], dst) then Decision(r.id, BySubnet)
        else Decision(DIRECT, Unmatched)
  {
    KeptSaysTheSame(r, dst, uid);
    assert [Kept(r)][1..] == [];
    if r.mode.Subnets? {
      hide Contains;
      forall i | 0 <= i < |r.subnets| ensures Covers(r.subnets[i], dst) <==> Contains(r.subnets[i].prefix, dst) {
        assert Readable(r.subnets[i]);
        ContainsInterval(r.subnets[i].prefix, dst);
      }
    }
  }
}
