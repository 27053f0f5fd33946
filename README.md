# ASoC hw_params rules and the ES9023 DAC machine driver, in Dafny

This project models two pieces of a Linux sound tree.

The first is the generic, device-tree-driven hw_params rule engine
(`sound/soc/generic/hw-params-rules.c`). It works in two phases.

- **Build.** `asoc_generic_hw_params_rules_parse_of` turns `hw-params-rule`
  nodes into a list of rules. Each rule has an ordered list of `match`
  entries and an ordered list of `action` entries. Each entry names a
  callable from a fixed method table and carries a payload: a u32 array
  (for the matchers) or a single u32 (for the action).
- **Run.** `asoc_generic_hw_params_process_rules` walks the rules for one
  PCM request. A rule is skipped when one of its matchers returns 0.
  Otherwise its actions run, and the first nonzero action result ends the
  rule. The first rule whose result is <= 0 ends the walk.

The second is the ES9023 DAC machine driver (`sound/soc/bcm/es9023_dac.c`):
the bit-clock ratio it sets for a stream, the board variant it picks from
the node's compatible strings, and the checks and name fallbacks of probe.

Files:

- `kernel.dfy` (module `Kernel`): u32 and the conversion to it, negative
  errno codes, the PCM request as seen through its accessors, and `strcmp`.
- `rule_methods.dfy` (module `RuleMethods`): the method table, the array
  and scalar payload readers, the three matchers, the method lookup, and the
  parse of one `match`/`action` node.
- `rule_engine.dfy` (module `RuleEngine`): `handle_rule`, `process_rules`,
  the parse-and-append loop shared by the build phase (`ParseAll`), the rule
  and rule-list parsers, the name comparator and `list_sort`, and
  the class `RuleList` that holds the list head and the rules linked into it.
- `es9023_dac.dfy` (module `Es9023Dac`): the ratio computation, the variant
  lookup, and probe.

Imperative code (loops, lists grown in place, the array filled slot by slot)
is modelled by methods with loops. Each such method is proved equal to a
specification function, and the properties are proved about those functions.

## The model follows the code as written

The intended design of the engine and its code differ in several places.
The model follows the code.

- The comparator given to `list_sort` reads the name of its first argument
  twice (`hw-params-rules.c:348-349`). It always returns 0, so the list keeps
  parse order and is not sorted by name (`SortByNameKeepsParseOrder`).
- The array reader calls `of_property_read_u32` on `values` for every slot
  (`hw-params-rules.c:62-63`). That call reads the first cell, so every slot
  holds the first value (`ReadU32ArrayRepeatsFirstCell`). A rule listing
  sample widths 16 and 24 matches 16 only (`BitWidthConfigParses`,
  `BitWidthRuleRuns`).
- The sample-width matcher compares a `long` holding the physical width
  with `u32` cells (lines 82-88). On the 32-bit ARM kernels these boards run,
  both sides are then compared as unsigned 32-bit values. An unknown format,
  whose width is -EINVAL, therefore matches a cell of 4294967274
  (`UnknownFormatMatchesWrappedWidth`).
- The comment at `hw-params-rules.c:209` says a matcher returns 0 on a
  match. The code treats 0 as no match (line 211), and the matchers return 1
  on a match.
- A positive action result is treated like a skipped rule (line 244):
  the walk continues with the next rule (`PositiveActionCodeContinues`).
  `process_rules` therefore never returns a positive value (`Process`).
- When a rule fails to parse, the rules parsed before it stay linked in the
  list head (`RuleList.RulesParseOf`, `ParseRulesStopsAtFirstError`).
  Unsorted as well, since the sort runs only after success.
- Method names are the stringified C function names
  (`asoc_generic_hw_params_match_sample_bits`, ...), because the table is
  built with `#m` (lines 150-163).

## Model

| member | source | states |
|---|---|---|
| `Kernel.AsUnsigned32` | sound/soc/generic/hw-params-rules.c:82-88 | converting to 32-bit unsigned keeps every value in range and adds 2^32 to a negative one down to -2^32 |
| `RuleEngine.ParseAll` | sound/soc/generic/hw-params-rules.c:298-306 | nodes are parsed and appended in enumeration order; with no error every node yields one item; otherwise the items before the first failing node are kept and that node's error is reported |
| `RuleEngine.ParseAllStopsAtError` | sound/soc/generic/hw-params-rules.c:300-303 | once a node has failed, no later node affects the outcome |
| `Kernel.StrCmp` | sound/soc/generic/hw-params-rules.c:179 | `strcmp` returns 0 exactly when the two strings are equal |
| `RuleMethods.ReadU32Array` | sound/soc/generic/hw-params-rules.c:40-69 | a negative element count is the error; a failed allocation is -ENOMEM; otherwise exactly `count` slots are filled in index order, each by reading `values`, and the first failing read is returned |
| `RuleMethods.ReadU32ArrayRepeatsFirstCell` | sound/soc/generic/hw-params-rules.c:60-66 | the stored size equals the property's element count, every slot holds the property's first cell, and the array equals the property exactly when all of its cells are equal |
| `RuleMethods.ParsePayload` | sound/soc/generic/hw-params-rules.c:150-163 | the array parser produces an array payload and the scalar parser a single u32 |
| `RuleMethods.RunParser` | sound/soc/generic/hw-params-rules.c:181-182 | running an entry's parser yields what that parser specifies, for both parsers |
| `RuleMethods.FirstNamed` | sound/soc/generic/hw-params-rules.c:177-179 | the index found is the first table entry with the given name, or the table length when none has it |
| `RuleMethods.Lookup` | sound/soc/generic/hw-params-rules.c:165-191 | a name in no table entry gives -EINVAL; a success carries the callable of an entry with that name and a payload of the shape that callable reads |
| `RuleMethods.LookupSelects` | sound/soc/generic/hw-params-rules.c:177-182 | when entry i is the first named like the method, the lookup returns that entry's callable with its parser's payload, or the parser's error |
| `RuleMethods.LookupMethods` | sound/soc/generic/hw-params-rules.c:165-191 | the table scan with `strcmp` selects the first entry named like the method and returns its parser's result, or -EINVAL after the last entry |
| `RuleMethods.ParseEntry` | sound/soc/generic/hw-params-rules.c:252-286 | a missing `method` property is -EINVAL; then a failed entry allocation is -ENOMEM; otherwise the result is that of the lookup; every parsed entry is well shaped |
| `RuleMethods.ActionMatchParseOf` | sound/soc/generic/hw-params-rules.c:252-286 | the parse of one `match`/`action` node, step by step, gives the result `ParseEntry` specifies |
| `RuleMethods.MatchAny` | sound/soc/generic/hw-params-rules.c:87-92 | returns 1 exactly when some configured cell equals the request's value, and 0 otherwise, including for an empty array |
| `RuleMethods.MatchSampleBits` | sound/soc/generic/hw-params-rules.c:77-93 | returns 1 exactly when the request's physical sample width, converted to 32-bit unsigned, is one of the configured values, else 0 |
| `RuleMethods.SampleBitsComparesWidth` | sound/soc/generic/hw-params-rules.c:82-88 | for a known format (a width from 0 to 2^32-1) the sample-width matcher reports exactly whether that width is configured |
| `RuleMethods.UnknownFormatMatchesWrappedWidth` | sound/soc/generic/hw-params-rules.c:82-88 | an unknown format, width -EINVAL, matches none of 16, 24 and 32 but does match the cell 4294967274 |
| `RuleMethods.MatchRate` | sound/soc/generic/hw-params-rules.c:112-128 | returns 1 exactly when the request's rate is one of the configured values, else 0 |
| `RuleMethods.MatchChannels` | sound/soc/generic/hw-params-rules.c:95-110 | returns 1 exactly when the request's channel count is one of the configured values, else 0 |
| `RuleMethods.Invoke` | sound/soc/generic/hw-params-rules.c:130-139 | calling an entry dispatches on its callable: a matcher's 0/1, or the bclk-ratio setter's result for the configured ratio |
| `RuleEngine.FirstWith` | sound/soc/generic/hw-params-rules.c:206-223 | the index found is the first entry whose result is zero (matchers) or nonzero (actions), or the list length when there is none |
| `RuleEngine.HandleSkipsOnMiss` | sound/soc/generic/hw-params-rules.c:206-213 | when some matcher returns 0, `handle_rule` returns 1 and only matchers up to that one have run: no later matcher and no action |
| `RuleEngine.HandleRunsActions` | sound/soc/generic/hw-params-rules.c:215-225 | when every matcher returns nonzero (also for an empty match list), all matchers run and then the actions in order; the result is 0 exactly when every action returns 0, and otherwise the first nonzero action result, with no later action run |
| `RuleEngine.HandleRule` | sound/soc/generic/hw-params-rules.c:193-226 | the two loops of `handle_rule` return the result and call exactly the entries `Handle` specifies, in that order |
| `RuleEngine.FirstStop` | sound/soc/generic/hw-params-rules.c:241-246 | the index found is the first rule whose `handle_rule` result is <= 0; every rule before it has a positive result |
| `RuleEngine.Process` | sound/soc/generic/hw-params-rules.c:228-249 | the walk never returns a positive value, and returns 0 for an empty rule list |
| `RuleEngine.EarlierRulesSkipped` | sound/soc/generic/hw-params-rules.c:241-246 | rules with a matcher returning 0 never stop the walk |
| `RuleEngine.FirstApplicableRuleWins` | sound/soc/generic/hw-params-rules.c:241-246 | when the earlier rules are skipped and rule k matches with all actions succeeding, the walk stops at rule k with 0 |
| `RuleEngine.FailingActionAborts` | sound/soc/generic/hw-params-rules.c:219-222 | when rule k is the first matching rule and its first nonzero action code is negative, the walk returns that code and stops at rule k |
| `RuleEngine.PositiveActionCodeContinues` | sound/soc/generic/hw-params-rules.c:244-245 | rules with positive results, whether skipped or with a positive action code, are passed over and the walk goes on with the rest of the list |
| `RuleEngine.ProcessPassesOverFirst` | sound/soc/generic/hw-params-rules.c:241-246 | a first rule with a positive result leaves the walk's outcome to the remaining rules |
| `RuleEngine.ParseRule` | sound/soc/generic/hw-params-rules.c:309-340 | a failed rule allocation is -ENOMEM; otherwise the error is that of the first failing match node, or, when every match parses, of the first failing action node; a rule is produced exactly when the allocation and every entry succeed, and it keeps its node's name and one entry per enumerated node in order |
| `RuleEngine.CmpName` | sound/soc/generic/hw-params-rules.c:342-352 | the comparator always returns 0, because it compares a rule's name with itself |
| `RuleEngine.ListSortKeepsOrder` | sound/soc/generic/hw-params-rules.c:378 | a stable sort whose comparator finds every pair equal leaves the list unchanged |
| `RuleEngine.SortByNameKeepsParseOrder` | sound/soc/generic/hw-params-rules.c:377-378 | the "sort by name" leaves the rules in parse order |
| `RuleEngine.NoRuleNodePassesEverything` | sound/soc/generic/hw-params-rules.c:364-367 | with no `hw-params-rule` child, the parse returns 0 with an empty list, and every request then passes with 0 |
| `RuleEngine.ParseRulesInOrder` | sound/soc/generic/hw-params-rules.c:369-378 | a successful parse yields one rule per enumerated rule node, in enumeration order |
| `RuleEngine.ParseRulesStopsAtFirstError` | sound/soc/generic/hw-params-rules.c:369-375 | a failed parse returns the error of the first failing rule node and leaves exactly the rules before it in the list |
| `RuleEngine.BitWidthEntriesParse` | sound/soc/generic/hw-params-rules.c:60-66 | the match node listing widths 16 and 24 parses to a sample-width matcher holding 16 twice, and the action node to a bclk-ratio action of 64 |
| `RuleEngine.BitWidthConfigParses` | sound/soc/generic/hw-params-rules.c:46-66 | a rule whose match lists widths 16 and 24 parses into a matcher holding 16 twice, followed by a bclk-ratio action of 64 |
| `RuleEngine.BitWidthRuleRuns` | sound/soc/generic/hw-params-rules.c:206-225 | on that rule, a 16-bit request runs the matcher and then the action with 64; a 24-bit or 8-bit request skips the rule and passes with 0 |
| `RuleEngine.ActionMatchesParseOf` | sound/soc/generic/hw-params-rules.c:288-307 | the enumeration loop initialises a list and appends parsed entries in order, stopping at the first error, exactly as `ParseAll` specifies |
| `RuleEngine.RuleList.constructor` | sound/soc/generic/hw-params-rules.c:236-238 | a zero-filled list head is not initialised and holds no rules |
| `RuleEngine.RuleList.RuleParseOf` | sound/soc/generic/hw-params-rules.c:309-340 | appends the parsed rule to the list only when both of its lists parsed; on failure the list is unchanged and the error is returned |
| `RuleEngine.RuleList.RulesParseOf` | sound/soc/generic/hw-params-rules.c:354-382 | initialises the head, then leaves in it exactly the rules `ParseRules` specifies, and returns 0 or the first error |
| `RuleEngine.RuleList.ProcessRules` | sound/soc/generic/hw-params-rules.c:228-249 | returns 0 for an uninitialised head; otherwise returns what `Process` specifies, after calling `handle_rule` on the rules up to and including the one that stops the walk and on no later rule |
| `Es9023Dac.BclkRatioOverride` | sound/soc/bcm/es9023_dac.c:107-117 | the ratio differs from physical_bits * channels (the physical width converted to unsigned int, the product taken modulo 2^32) exactly when the flag is set, channels == 2, rate < 192000, rate % 8000 == 0 and the width is 16, 24 or 32; it is then 50 for 16 and 24 bits and 100 for 32 bits |
| `Es9023Dac.BclkRatioDefault` | sound/soc/bcm/es9023_dac.c:107-117 | with the flag off, channels other than 2, a rate of 192000 or more, a rate that is not a multiple of 8000, or another width, the ratio is physical_bits * channels |
| `Es9023Dac.BclkRatioCoversFrame` | sound/soc/bcm/es9023_dac.c:111-117 | for stereo 16-, 24- and 32-bit streams the ratio is never below the frame size |
| `Es9023Dac.HwParams` | sound/soc/bcm/es9023_dac.c:96-125 | sets the ratio the computation specifies, and returns exactly what setting it on the CPU DAI returns |
| `Es9023Dac.FirstCompatible` | sound/soc/bcm/es9023_dac.c:87-91 | the index found is the first variant whose compatible string the node has, or the table length |
| `Es9023Dac.VariantIndex` | sound/soc/bcm/es9023_dac.c:82-94 | the variant chosen is the first compatible entry in table order, or entry 0 (the generic ES9023) when none is compatible |
| `Es9023Dac.GetVariant` | sound/soc/bcm/es9023_dac.c:82-94 | the table scan with an early return selects the variant `VariantIndex` specifies |
| `Es9023Dac.Probe` | sound/soc/bcm/es9023_dac.c:152-252 | a missing `cpu` child, then a missing `codec` child, is -EINVAL with nothing allocated; a failed allocation is -ENOMEM; a failing CPU DAI, and then a failing codec DAI, returns that DAI's code with no card; otherwise the card is registered with each name from its property or else from the selected variant, and the registration result is returned |
| `Es9023Dac.MamboberryNames` | sound/soc/bcm/es9023_dac.c:224-236 | a MamboBerry board without name properties registers the card as "Mamboberry" with that variant's DAI and stream names |
| `Es9023Dac.UnknownBoardIsGeneric` | sound/soc/bcm/es9023_dac.c:87-93 | a node compatible with no table entry, without name properties, gets the generic ES9023 names |

## Left out

- The device-tree reader is an input, not a model.
  - The nodes that `of_find_node_by_name` enumerates are given as sequences. In the kernel this is a search of the whole tree after the start node, so it may return nodes that are not children of the rule. The model takes whatever list it yields.
  - `of_get_child_by_name` is a flag.
  - A property is either absent or a list of u32 cells. Properties whose byte length is not a multiple of four are not modelled.
  - `method` is a string property that is either present or absent. The other error codes of `of_property_read_string` (-ENODATA, -EILSEQ) are not modelled.
- `devm_kzalloc` is modelled only as a possible -ENOMEM, one flag per allocation. Freeing, lifetimes and the partly filled array that stays attached to a discarded entry are not modelled.
- The no-parser branch of the lookup (`hw-params-rules.c:181-184`) cannot be taken, because every table entry has a parser. It is not modelled.
- The bclk-ratio setter is a pure function from ratio to result. A setter that changes hardware state and answers differently on a repeated call is not modelled. The entries that ran, and the ratios they passed, are recorded in `Handled.ran`.
- `list_sort` is the kernel's merge sort. It is modelled by a stable insertion sort driven by the same comparator. Both keep an element before a later one whenever the comparator returns <= 0.
- `HwParams`: the private data and CPU DAI reached through `substream->private_data` are replaced by the int-div flag and the setter. `snd_pcm_format_width` is used only for a debug message and is not modelled.
- `Probe`: `of_parse_phandle_with_args` and `snd_soc_of_get_dai_name` are folded into one result code per DAI. The DAI-link fields that do not depend on the node (format, ops, platform node, `num_links`) and the `of_node_put` reference counting are not modelled. `of_device_is_compatible` is modelled as exact membership in the node's compatible strings.
- `MatchSampleBits`: follows a 32-bit `long`, as on the ARM boards these drivers serve. On a 64-bit kernel the cells are widened to a signed `long`, and a negative width then matches no cell.
- `GetVariant`: returns the index of the selected table entry in place of a pointer to it.
- Logging (`dev_dbg`, `dev_err`), `EXPORT_SYMBOL_GPL`, module and platform-driver registration, and the config-disabled stubs of `hw-params-rules.h` are not modelled.
- Concurrency: the build phase runs once and the run phase only reads the rule list.
- `include/uapi/drm/omap_drm.h`, `sound/soc/codecs/es9023.c` and `sound/soc/codecs/pcm5102a.c` hold declarations and codec registration and are not part of this model.
