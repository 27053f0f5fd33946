/**
 * The generic hw_params rule engine (sound/soc/generic/hw-params-rules.c):
 * the build phase that turns `hw-params-rule` nodes into a list of rules,
 * and the run phase that walks that list for one PCM request.
 */
module RuleEngine {
  import opened Kernel
  import opened RuleMethods

  /** `snd_soc_hw_param_rule`: its node's full name and its two entry lists. */
  datatype Rule = Rule(name: string, matches: seq<ActionMatch>, actions: seq<ActionMatch>)

  /** Every entry's payload has the shape its callable reads. */
  predicate AllShaped(ams: seq<ActionMatch>) {
    forall i :: 0 <= i < |ams| ==> Shaped(ams[i])
  }

  predicate RuleShaped(rule: Rule) {
    AllShaped(rule.matches) && AllShaped(rule.actions)
  }

  predicate RulesShaped(rules: seq<Rule>) {
    forall i :: 0 <= i < |rules| ==> RuleShaped(rules[i])
  }

  /**
   * A `hw-params-rule` node as the tree reader shows it: its full name,
   * whether allocating its rule fails, and the `match` and `action` nodes
   * that `of_find_node_by_name` enumerates from it, in that order.
   */
  datatype RuleNode = RuleNode(
    fullName: string,
    allocFails: bool,
    matches: seq<EntryNode>,
    actions: seq<EntryNode>)

  /**
   * The node handed to the parser: whether `of_get_child_by_name` finds a
   * `hw-params-rule` child, and the `hw-params-rule` nodes that
   * `of_find_node_by_name` enumerates from it.
   */
  datatype ConfigNode = ConfigNode(hasRuleChild: bool, rules: seq<RuleNode>)

  // ---------------------------------------------------------------- run phase

  /**
   * Index of the first entry whose result is 0 (when `zero`) or nonzero
   * (when `!zero`), or `|ams|` when there is none.
   */
  function FirstWith(ams: seq<ActionMatch>, params: PcmParams, setBclkRatio: BclkSetter, zero: bool): (k: nat)
    requires AllShaped(ams)
    ensures k <= |ams|
    ensures forall j :: 0 <= j < k ==> (Eval(ams[j], params, setBclkRatio) == 0) != zero
    ensures k < |ams| ==> (Eval(ams[k], params, setBclkRatio) == 0) == zero
    decreases |ams|
  {
    if ams == [] then 0
    else if (Eval(ams[0], params, setBclkRatio) == 0) == zero then 0
    else 1 + FirstWith(ams[1..], params, setBclkRatio, zero)
  }

  /** What `handle_rule` returns, and the entries it called, in call order. */
  datatype Handled = Handled(ret: int, ran: seq<ActionMatch>)

  /**
   * `asoc_generic_hw_params_handle_rule` as a value: the first matcher that
   * returns 0 makes the result 1 and nothing after it runs; otherwise the
   * actions run until the first nonzero result, which is returned; 0 when
   * every action returns 0.
   */
  function Handle(rule: Rule, params: PcmParams, setBclkRatio: BclkSetter): (h: Handled)
    requires RuleShaped(rule)
  {
    var k := FirstWith(rule.matches, params, setBclkRatio, true);
    if k < |rule.matches| then Handled(1, rule.matches[..k + 1])
    else
      var j := FirstWith(rule.actions, params, setBclkRatio, false);
      if j < |rule.actions| then
        Handled(Eval(rule.actions[j], params, setBclkRatio), rule.matches + rule.actions[..j + 1])
      else Handled(0, rule.matches + rule.actions)
  }

  /** A matcher that returns 0 skips the rule: the result is 1, and no action and no later matcher runs. */
  lemma HandleSkipsOnMiss(rule: Rule, params: PcmParams, setBclkRatio: BclkSetter, k: nat)
    requires RuleShaped(rule)
    requires k < |rule.matches| && Eval(rule.matches[k], params, setBclkRatio) == 0
    ensures Handle(rule, params, setBclkRatio).ret == 1
    ensures Handle(rule, params, setBclkRatio).ran <= rule.matches[..k + 1]
  {
    var m := FirstWith(rule.matches, params, setBclkRatio, true);
    assert m <= k;
    assert rule.matches[..m + 1] <= rule.matches[..k + 1];
  }

  /**
   * When every matcher returns nonzero (vacuously so for an empty match
   * list), all matchers run, then the actions in order: the result is the
   * first nonzero action result, after which nothing runs, or 0 when every
   * action returns 0.
   */
  lemma HandleRunsActions(rule: Rule, params: PcmParams, setBclkRatio: BclkSetter)
    requires RuleShaped(rule)
    requires forall i :: 0 <= i < |rule.matches| ==> Eval(rule.matches[i], params, setBclkRatio) != 0
    ensures var h := Handle(rule, params, setBclkRatio);
      (h.ret == 0 <==> forall i :: 0 <= i < |rule.actions| ==> Eval(rule.actions[i], params, setBclkRatio) == 0) &&
      (h.ret == 0 ==> h.ran == rule.matches + rule.actions) &&
      (h.ret != 0 ==> exists j :: FirstFailingAction(rule, params, setBclkRatio, j) &&
                                 h.ret == Eval(rule.actions[j], params, setBclkRatio) &&
                                 h.ran == rule.matches + rule.actions[..j + 1])
  {
    var j := FirstWith(rule.actions, params, setBclkRatio, false);
    if j < |rule.actions| {
      assert Eval(rule.actions[j], params, setBclkRatio) != 0;
    }
  }

  /** Action `j` is the first action of the rule with a nonzero result. */
  predicate FirstFailingAction(rule: Rule, params: PcmParams, setBclkRatio: BclkSetter, j: int)
    requires RuleShaped(rule)
  {
    0 <= j < |rule.actions| && Eval(rule.actions[j], params, setBclkRatio) != 0 &&
    forall i :: 0 <= i < j ==> Eval(rule.actions[i], params, setBclkRatio) == 0
  }

  /** `handle_rule`: runs the matchers, then (if none returned 0) the actions. */
  method HandleRule(rule: Rule, params: PcmParams, setBclkRatio: BclkSetter) returns (ret: int, ran: seq<ActionMatch>)
    requires RuleShaped(rule)
    ensures ret == Handle(rule, params, setBclkRatio).ret
    ensures ran == Handle(rule, params, setBclkRatio).ran
  {
    ran := [];
    for i := 0 to |rule.matches|
      invariant ran == rule.matches[..i]
      invariant forall j :: 0 <= j < i ==> Eval(rule.matches[j], params, setBclkRatio) != 0
    {
      ret := Invoke(rule.matches[i], params, setBclkRatio);
      assert rule.matches[..i + 1] == rule.matches[..i] + [rule.matches[i]];
      ran := ran + [rule.matches[i]];
      if ret == 0 {
        assert FirstWith(rule.matches, params, setBclkRatio, true) == i;
        return 1, ran;
      }
    }
    assert rule.matches[..|rule.matches|] == rule.matches;
    assert FirstWith(rule.matches, params, setBclkRatio, true) == |rule.matches|;
    for i := 0 to |rule.actions|
      invariant ran == rule.matches + rule.actions[..i]
      invariant forall j :: 0 <= j < i ==> Eval(rule.actions[j], params, setBclkRatio) == 0
    {
      ret := Invoke(rule.actions[i], params, setBclkRatio);
      assert rule.actions[..i + 1] == rule.actions[..i] + [rule.actions[i]];
      ran := ran + [rule.actions[i]];
      if ret != 0 {
        assert FirstWith(rule.actions, params, setBclkRatio, false) == i;
        return ret, ran;
      }
    }
    assert rule.actions[..|rule.actions|] == rule.actions;
    assert FirstWith(rule.actions, params, setBclkRatio, false) == |rule.actions|;
    return 0, ran;
  }

  /** Index of the first rule whose `handle_rule` result is <= 0, or `|rules|`. */
  function FirstStop(rules: seq<Rule>, params: PcmParams, setBclkRatio: BclkSetter): (k: nat)
    requires RulesShaped(rules)
    ensures k <= |rules|
    ensures forall j :: 0 <= j < k ==> Handle(rules[j], params, setBclkRatio).ret > 0
    ensures k < |rules| ==> Handle(rules[k], params, setBclkRatio).ret <= 0
    decreases |rules|
  {
    if rules == [] then 0
    else if Handle(rules[0], params, setBclkRatio).ret <= 0 then 0
    else 1 + FirstStop(rules[1..], params, setBclkRatio)
  }

  /**
   * `asoc_generic_hw_params_process_rules` as a value: 0 for a list head that
   * was never initialised; otherwise the result of the first rule whose
   * `handle_rule` result is <= 0, or 0 when there is none. A positive result
   * (a skipped rule or a positive action code) never escapes.
   */
  function Process(initialized: bool, rules: seq<Rule>, params: PcmParams, setBclkRatio: BclkSetter): (ret: int)
    requires RulesShaped(rules)
    ensures ret <= 0
    ensures rules == [] ==> ret == 0
  {
    if !initialized then 0
    else
      var k := FirstStop(rules, params, setBclkRatio);
      if k < |rules| then Handle(rules[k], params, setBclkRatio).ret else 0
  }

  /**
   * First matching rule wins: when every rule before `k` has a matcher that
   * returns 0, and rule `k`'s matchers all return nonzero and its actions
   * all return 0, the walk stops at rule `k` with 0.
   */
  lemma FirstApplicableRuleWins(rules: seq<Rule>, params: PcmParams, setBclkRatio: BclkSetter, k: nat)
    requires RulesShaped(rules)
    requires k < |rules|
    requires forall j :: 0 <= j < k ==> Skipped(rules[j], params, setBclkRatio)
    requires forall i :: 0 <= i < |rules[k].matches| ==> Eval(rules[k].matches[i], params, setBclkRatio) != 0
    requires forall i :: 0 <= i < |rules[k].actions| ==> Eval(rules[k].actions[i], params, setBclkRatio) == 0
    ensures FirstStop(rules, params, setBclkRatio) == k
    ensures Process(true, rules, params, setBclkRatio) == 0
  {
    EarlierRulesSkipped(rules, params, setBclkRatio, k);
    HandleRunsActions(rules[k], params, setBclkRatio);
  }

  /**
   * A failing action aborts the walk: when every rule before `k` is skipped
   * and rule `k` matches, the first action of rule `k` returning a negative
   * code is the result, and no later rule runs.
   */
  lemma FailingActionAborts(rules: seq<Rule>, params: PcmParams, setBclkRatio: BclkSetter, k: nat, j: nat)
    requires RulesShaped(rules)
    requires k < |rules| && j < |rules[k].actions|
    requires forall i :: 0 <= i < k ==> Skipped(rules[i], params, setBclkRatio)
    requires forall i :: 0 <= i < |rules[k].matches| ==> Eval(rules[k].matches[i], params, setBclkRatio) != 0
    requires forall i :: 0 <= i < j ==> Eval(rules[k].actions[i], params, setBclkRatio) == 0
    requires Eval(rules[k].actions[j], params, setBclkRatio) < 0
    ensures FirstStop(rules, params, setBclkRatio) == k
    ensures Process(true, rules, params, setBclkRatio) == Eval(rules[k].actions[j], params, setBclkRatio)
  {
    EarlierRulesSkipped(rules, params, setBclkRatio, k);
    var a := FirstWith(rules[k].actions, params, setBclkRatio, false);
    assert a == j;
    HandleRunsActions(rules[k], params, setBclkRatio);
  }

  /**
   * A positive action code does not stop the walk: the rule is passed over
   * exactly like a skipped one, and the next rule is tried.
   */
  lemma PositiveActionCodeContinues(rules: seq<Rule>, params: PcmParams, setBclkRatio: BclkSetter, k: nat)
    requires RulesShaped(rules)
    requires k < |rules|
    requires forall j :: 0 <= j <= k ==> Handle(rules[j], params, setBclkRatio).ret > 0
    ensures FirstStop(rules, params, setBclkRatio) > k
    ensures Process(true, rules, params, setBclkRatio) == Process(true, rules[k + 1..], params, setBclkRatio)
    decreases k
  {
    ProcessPassesOverFirst(rules, params, setBclkRatio);
    if k > 0 {
      PositiveActionCodeContinues(rules[1..], params, setBclkRatio, k - 1);
      assert rules[1..][k..] == rules[k + 1..];
    }
  }

  /** A first rule with a positive result is passed over: the walk goes on with the rest. */
  lemma ProcessPassesOverFirst(rules: seq<Rule>, params: PcmParams, setBclkRatio: BclkSetter)
    requires RulesShaped(rules)
    requires |rules| > 0 && Handle(rules[0], params, setBclkRatio).ret > 0
    ensures RulesShaped(rules[1..])
    ensures FirstStop(rules, params, setBclkRatio) == 1 + FirstStop(rules[1..], params, setBclkRatio)
    ensures Process(true, rules, params, setBclkRatio) == Process(true, rules[1..], params, setBclkRatio)
  {
    assert RulesShaped(rules[1..]) by {
      forall i | 0 <= i < |rules[1..]| ensures RuleShaped(rules[1..][i]) {
        assert rules[1..][i] == rules[i + 1];
      }
    }
  }

  /** Some matcher of the rule returns 0 for the request. */
  predicate Skipped(rule: Rule, params: PcmParams, setBclkRatio: BclkSetter)
    requires RuleShaped(rule)
  {
    exists i :: 0 <= i < |rule.matches| && Eval(rule.matches[i], params, setBclkRatio) == 0
  }

  /** Every rule before `k` with a matcher returning 0 is passed over. */
  lemma EarlierRulesSkipped(rules: seq<Rule>, params: PcmParams, setBclkRatio: BclkSetter, k: nat)
    requires RulesShaped(rules)
    requires k <= |rules|
    requires forall j :: 0 <= j < k ==> Skipped(rules[j], params, setBclkRatio)
    ensures FirstStop(rules, params, setBclkRatio) >= k
  {
    forall j | 0 <= j < k ensures Handle(rules[j], params, setBclkRatio).ret == 1 {
      var i :| 0 <= i < |rules[j].matches| && Eval(rules[j].matches[i], params, setBclkRatio) == 0;
      HandleSkipsOnMiss(rules[j], params, setBclkRatio, i);
    }
  }

  // -------------------------------------------------------------- build phase

  /**
   * What the enumeration loops of `actionmatches_parse_of` and
   * `rules_parse_of` leave behind: each parses nodes one by one and appends
   * each result to a list, so this is the items appended so far and, when
   * one node failed, the error that stopped the loop.
   */
  datatype Fold<T> = Fold(items: seq<T>, err: Option<Errno>) {
    /** The int the C function returns: 0, or the error that stopped it. */
    function Code(): int {
      if err.Some? then err.value else 0
    }
  }

  /**
   * Parse every node of `ns` in order with `f`, appending each value; the
   * first error stops the loop and leaves the items before it in the list.
   */
  function ParseAll<N, T(==)>(ns: seq<N>, f: N -> Result<T>): (p: Fold<T>)
    ensures |p.items| <= |ns|
    ensures forall i :: 0 <= i < |p.items| ==> f(ns[i]) == Ok(p.items[i])
    ensures p.err.None? ==> |p.items| == |ns|
    ensures p.err.Some? ==> |p.items| < |ns| && f(ns[|p.items|]) == Err(p.err.value)
    decreases |ns|
  {
    if ns == [] then Fold([], None)
    else
      var prev := ParseAll(ns[..|ns| - 1], f);
      if prev.err.Some? then prev
      else
        match f(ns[|ns| - 1])
        case Ok(x) => Fold(prev.items + [x], None)
        case Err(e) => Fold(prev.items, Some(e))
  }

  /** Once a prefix of the nodes has failed, the rest of them are never parsed. */
  lemma {:induction false} ParseAllStopsAtError<N, T>(ns: seq<N>, f: N -> Result<T>, i: nat)
    requires i <= |ns|
    requires ParseAll(ns[..i], f).err.Some?
    ensures ParseAll(ns, f) == ParseAll(ns[..i], f)
    decreases |ns| - i
  {
    if i < |ns| {
      assert ns[..i + 1][..i] == ns[..i];
      ParseAllStopsAtError(ns, f, i + 1);
    } else {
      assert ns[..i] == ns;
    }
  }

  /** Every node of `ns` parses into an entry. */
  predicate AllParse(ns: seq<EntryNode>) {
    forall i :: 0 <= i < |ns| ==> ParseEntry(ns[i]).Ok?
  }

  /** Node `i` is the first of `ns` that fails to parse, and it fails with `code`. */
  predicate FailsFirstAt(ns: seq<EntryNode>, i: int, code: Errno) {
    0 <= i < |ns| && ParseEntry(ns[i]) == Err(code) &&
    forall j :: 0 <= j < i ==> ParseEntry(ns[j]).Ok?
  }

  /**
   * `asoc_generic_hw_params_rule_parse_of` as a value: the rule allocation
   * fails first, then the match list, then the action list; a rule exists
   * only when both lists parse, and it keeps their entries in enumeration
   * order.
   */
  function ParseRule(node: RuleNode): (r: Result<Rule>)
    ensures r.Ok? ==> RuleShaped(r.value) && r.value.name == node.fullName
    ensures r.Ok? ==> (|r.value.matches| == |node.matches| &&
      forall i :: 0 <= i < |node.matches| ==> ParseEntry(node.matches[i]) == Ok(r.value.matches[i]))
    ensures r.Ok? ==> (|r.value.actions| == |node.actions| &&
      forall i :: 0 <= i < |node.actions| ==> ParseEntry(node.actions[i]) == Ok(r.value.actions[i]))
    ensures node.allocFails ==> r == Err(-ENOMEM)
    ensures r.Err? && !node.allocFails ==>
      (exists i :: FailsFirstAt(node.matches, i, r.code)) ||
      (AllParse(node.matches) && exists i :: FailsFirstAt(node.actions, i, r.code))
    ensures !node.allocFails && AllParse(node.matches) && AllParse(node.actions) ==> r.Ok?
  {
    if node.allocFails then Err(-ENOMEM)
    else
      var m := ParseAll(node.matches, ParseEntry);
      if m.err.Some? then
        assert FailsFirstAt(node.matches, |m.items|, m.err.value);
        Err(m.err.value)
      else
        var a := ParseAll(node.actions, ParseEntry);
        if a.err.Some? then
          assert AllParse(node.matches) by {
            forall i | 0 <= i < |node.matches| ensures ParseEntry(node.matches[i]).Ok? {
              assert ParseEntry(node.matches[i]) == Ok(m.items[i]);
            }
          }
          assert FailsFirstAt(node.actions, |a.items|, a.err.value);
          Err(a.err.value)
        else
          assert AllShaped(m.items) by {
            forall i | 0 <= i < |m.items| ensures Shaped(m.items[i]) {
              assert ParseEntry(node.matches[i]) == Ok(m.items[i]);
            }
          }
          assert AllShaped(a.items) by {
            forall i | 0 <= i < |a.items| ensures Shaped(a.items[i]) {
              assert ParseEntry(node.actions[i]) == Ok(a.items[i]);
            }
          }
          Ok(Rule(node.fullName, m.items, a.items))
  }

  /**
   * `asoc_generic_hw_params_rules_cmp_name`: takes both rules but reads the
   * name of the first one twice, so it never orders anything.
   */
  function CmpName(a: Rule, b: Rule): (r: int)
    ensures r == 0
  {
    StrCmp(a.name, a.name)
  }

  /** Insert `x` after every element of `sorted` that `cmp` does not put after it. */
  function Insert(sorted: seq<Rule>, x: Rule, cmp: (Rule, Rule) -> int): seq<Rule>
    decreases |sorted|
  {
    if sorted == [] then [x]
    else if cmp(sorted[|sorted| - 1], x) <= 0 then sorted + [x]
    else Insert(sorted[..|sorted| - 1], x, cmp) + [sorted[|sorted| - 1]]
  }

  /**
   * `list_sort`: a stable sort that keeps `a` before a later `b` whenever
   * `cmp(a, b) <= 0`. The kernel merges; inserting one element at a time
   * orders the list the same way.
   */
  function ListSort(rules: seq<Rule>, cmp: (Rule, Rule) -> int): seq<Rule>
    decreases |rules|
  {
    if rules == [] then []
    else Insert(ListSort(rules[..|rules| - 1], cmp), rules[|rules| - 1], cmp)
  }

  /** A comparator that finds every pair equal leaves the list as it is. */
  lemma {:induction false} ListSortKeepsOrder(rules: seq<Rule>, cmp: (Rule, Rule) -> int)
    requires forall a: Rule, b: Rule :: cmp(a, b) == 0
    ensures ListSort(rules, cmp) == rules
    decreases |rules|
  {
    if rules != [] {
      ListSortKeepsOrder(rules[..|rules| - 1], cmp);
      assert rules[..|rules| - 1] + [rules[|rules| - 1]] == rules;
    }
  }

  /** So the "sort by name" of the parser keeps the rules in parse order. */
  lemma SortByNameKeepsParseOrder(rules: seq<Rule>)
    ensures ListSort(rules, CmpName) == rules
  {
    ListSortKeepsOrder(rules, CmpName);
  }

  /**
   * `asoc_generic_hw_params_rules_parse_of` as a value: the rules parsed and
   * left in the list, and the error that stopped the parse, if any. With no
   * `hw-params-rule` child the list is empty; after a failure it holds the
   * rules parsed before it, unsorted; on success it is passed to `list_sort`.
   */
  function ParseRules(cfg: ConfigNode): Fold<Rule>
  {
    if !cfg.hasRuleChild then Fold([], None)
    else
      var p := ParseAll(cfg.rules, ParseRule);
      if p.err.Some? then p else Fold(ListSort(p.items, CmpName), None)
  }

  /** No `hw-params-rule` child: the parse succeeds with no rules, and every request passes. */
  lemma NoRuleNodePassesEverything(cfg: ConfigNode, params: PcmParams, setBclkRatio: BclkSetter)
    requires !cfg.hasRuleChild
    ensures ParseRules(cfg) == Fold([], None)
    ensures Process(true, ParseRules(cfg).items, params, setBclkRatio) == 0
  {
  }

  /**
   * A successful parse yields one rule per enumerated `hw-params-rule` node,
   * in enumeration order: the sort by name reorders nothing.
   */
  lemma ParseRulesInOrder(cfg: ConfigNode)
    requires cfg.hasRuleChild && ParseRules(cfg).err.None?
    ensures |ParseRules(cfg).items| == |cfg.rules|
    ensures forall i :: 0 <= i < |cfg.rules| ==> ParseRule(cfg.rules[i]) == Ok(ParseRules(cfg).items[i])
  {
    SortByNameKeepsParseOrder(ParseAll(cfg.rules, ParseRule).items);
  }

  /**
   * A failed parse returns the error of the first failing rule node, and the
   * list keeps exactly the rules parsed before it.
   */
  lemma ParseRulesStopsAtFirstError(cfg: ConfigNode)
    requires ParseRules(cfg).err.Some?
    ensures var p := ParseRules(cfg); var k := |p.items|;
      k < |cfg.rules| && ParseRule(cfg.rules[k]) == Err(p.err.value) &&
      forall i :: 0 <= i < k ==> ParseRule(cfg.rules[i]) == Ok(p.items[i])
  {
  }

  /**
   * One rule whose match node lists the sample widths 16 and 24 and whose
   * action node sets a bclk ratio of 64.
   */
  function BitWidthConfig(): ConfigNode {
    ConfigNode(true, [
      RuleNode("/sound/hw-params-rule", false,
        [EntryNode("/sound/hw-params-rule/match", Some("asoc_generic_hw_params_match_sample_bits"),
                   None, Some([16, 24]), false, false)],
        [EntryNode("/sound/hw-params-rule/action", Some("asoc_generic_hw_params_set_fixed_bclk_size"),
                   Some([64]), None, false, false)])])
  }

  /** The rule the bit-width configuration parses to. */
  const BitWidthRule: Rule :=
    Rule("/sound/hw-params-rule",
         [ActionMatch(SampleBits, Cells([16, 16]))],
         [ActionMatch(FixedBclkSize, Word(64))])

  /** The match and the action node of the bit-width configuration, each parsed on its own. */
  lemma BitWidthEntriesParse()
    ensures ParseEntry(BitWidthConfig().rules[0].matches[0]) == Ok(BitWidthRule.matches[0])
    ensures ParseEntry(BitWidthConfig().rules[0].actions[0]) == Ok(BitWidthRule.actions[0])
  {
    var m := BitWidthConfig().rules[0].matches[0];
    var a := BitWidthConfig().rules[0].actions[0];
    assert FirstNamed(MethodTable, m.methodName.value) == 0;
    var cells: seq<u32> := seq(2, _ => 16);
    assert cells == [16, 16] by { assert cells[0] == 16 && cells[1] == 16; }
    assert ParsedU32Array(m) == Ok([16, 16]);
    assert FirstNamed(MethodTable, a.methodName.value) == 3;
  }

  /**
   * The bit-width configuration parses to one rule whose matcher holds 16
   * twice: the array reader keeps the count of `values` but loses the 24.
   */
  lemma BitWidthConfigParses()
    ensures ParseRules(BitWidthConfig()) == Fold([BitWidthRule], None)
  {
    var cfg := BitWidthConfig();
    BitWidthEntriesParse();
    assert cfg.rules[0].matches[..0] == [] && cfg.rules[0].actions[..0] == [];
    assert ParseAll(cfg.rules[0].matches, ParseEntry) == Fold(BitWidthRule.matches, None);
    assert ParseAll(cfg.rules[0].actions, ParseEntry) == Fold(BitWidthRule.actions, None);
    assert ParseRule(cfg.rules[0]) == Ok(BitWidthRule);
    assert cfg.rules[..0] == [];
    SortByNameKeepsParseOrder([BitWidthRule]);
  }

  /**
   * The parsed bit-width rule at work: a 16-bit request runs the matcher and
   * then the action with ratio 64, and the walk returns the setter's result
   * when that is <= 0; a 24-bit request, though configured, skips the rule
   * and passes with 0, as does an 8-bit one.
   */
  lemma BitWidthRuleRuns(setBclkRatio: BclkSetter)
    ensures Handle(BitWidthRule, PcmParams(16, 48000, 2), setBclkRatio) ==
      Handled(setBclkRatio(64), BitWidthRule.matches + BitWidthRule.actions)
    ensures Process(true, [BitWidthRule], PcmParams(16, 48000, 2), setBclkRatio) ==
      (if setBclkRatio(64) <= 0 then setBclkRatio(64) else 0)
    ensures Handle(BitWidthRule, PcmParams(24, 48000, 2), setBclkRatio) == Handled(1, BitWidthRule.matches)
    ensures Process(true, [BitWidthRule], PcmParams(24, 48000, 2), setBclkRatio) == 0
    ensures Process(true, [BitWidthRule], PcmParams(8, 48000, 2), setBclkRatio) == 0
  {
    var cells: seq<u32> := [16, 16];
    assert Contains(cells, 16) by { assert cells[0] == 16; }
    assert !Contains(cells, 24);
    assert !Contains(cells, 8);
  }

  /** The entries of `nodes`, parsed in enumeration order into a fresh list (`INIT_LIST_HEAD`, then `list_add_tail`). */
  method ActionMatchesParseOf(nodes: seq<EntryNode>) returns (list: Fold<ActionMatch>)
    ensures list == ParseAll(nodes, ParseEntry)
  {
    var items := [];
    for i := 0 to |nodes|
      invariant ParseAll(nodes[..i], ParseEntry) == Fold(items, None)
    {
      assert nodes[..i + 1][..i] == nodes[..i];
      var am := ActionMatchParseOf(nodes[i]);
      if am.Err? {
        ParseAllStopsAtError(nodes, ParseEntry, i + 1);
        return Fold(items, Some(am.code));
      }
      items := items + [am.value];
    }
    assert nodes[..|nodes|] == nodes;
    return Fold(items, None);
  }

  /**
   * The list head a driver hands to the engine, with the rules linked into
   * it. A zeroed head has a null `next` pointer: `initialized` is false
   * until the parser runs `INIT_LIST_HEAD` on it.
   */
  class RuleList {
    var initialized: bool
    var rules: seq<Rule>

    ghost predicate Valid()
      reads this
    {
      (!initialized ==> rules == []) && RulesShaped(rules)
    }

    /** A zero-filled list head, as in a driver's freshly allocated private data. */
    constructor ()
      ensures Valid() && !initialized && rules == []
    {
      initialized := false;
      rules := [];
    }

    /** `asoc_generic_hw_params_rule_parse_of`: appends the rule only once both of its lists have parsed. */
    method RuleParseOf(node: RuleNode) returns (ret: int)
      requires Valid() && initialized
      modifies this
      ensures Valid() && initialized
      ensures ret == (if ParseRule(node).Err? then ParseRule(node).code else 0)
      ensures rules == if ParseRule(node).Ok? then old(rules) + [ParseRule(node).value] else old(rules)
    {
      if node.allocFails {
        return -ENOMEM;
      }
      var m := ActionMatchesParseOf(node.matches);
      if m.err.Some? {
        return m.err.value;
      }
      var a := ActionMatchesParseOf(node.actions);
      if a.err.Some? {
        return a.err.value;
      }
      var rule := Rule(node.fullName, m.items, a.items);
      assert ParseRule(node) == Ok(rule);
      rules := rules + [rule];
      return 0;
    }

    /**
     * `asoc_generic_hw_params_rules_parse_of`: initialises the head, returns
     * 0 at once when there is no `hw-params-rule` child, parses the rule
     * nodes in enumeration order until the first error, and sorts the list.
     */
    method RulesParseOf(cfg: ConfigNode) returns (ret: int)
      modifies this
      ensures Valid() && initialized
      ensures rules == ParseRules(cfg).items
      ensures ret == ParseRules(cfg).Code()
    {
      initialized, rules := true, [];
      if !cfg.hasRuleChild {
        return 0;
      }
      for i := 0 to |cfg.rules|
        invariant Valid() && initialized
        invariant ParseAll(cfg.rules[..i], ParseRule) == Fold(rules, None)
      {
        assert cfg.rules[..i + 1][..i] == cfg.rules[..i];
        ret := RuleParseOf(cfg.rules[i]);
        if ret != 0 {
          ParseAllStopsAtError(cfg.rules, ParseRule, i + 1);
          return ret;
        }
      }
      assert cfg.rules[..|cfg.rules|] == cfg.rules;
      SortByNameKeepsParseOrder(rules);
      rules := ListSort(rules, CmpName);
      return 0;
    }

    /**
     * `asoc_generic_hw_params_process_rules`: `visited` counts the rules
     * `handle_rule` was called on, so no rule after the one that ends the
     * walk is ever tried.
     */
    method ProcessRules(params: PcmParams, setBclkRatio: BclkSetter) returns (ret: int, visited: nat)
      requires Valid()
      ensures ret == Process(initialized, rules, params, setBclkRatio)
      ensures !initialized ==> visited == 0
      ensures initialized && FirstStop(rules, params, setBclkRatio) < |rules| ==>
                visited == FirstStop(rules, params, setBclkRatio) + 1
      ensures initialized && FirstStop(rules, params, setBclkRatio) == |rules| ==> visited == |rules|
    {
      if !initialized {
        return 0, 0;
      }
      visited := 0;
      for i := 0 to |rules|
        invariant visited == i
        invariant forall j :: 0 <= j < i ==> Handle(rules[j], params, setBclkRatio).ret > 0
      {
        var r, _ := HandleRule(rules[i], params, setBclkRatio);
        visited := visited + 1;
        if r <= 0 {
          assert FirstStop(rules, params, setBclkRatio) == i;
          return r, visited;
        }
      }
      return 0, visited;
    }
  }
}
