/**
 * The method table of the generic hw_params rules (sound/soc/generic/hw-params-rules.c):
 * the three matchers and the one action, the two payload parsers that read
 * a `match`/`action` node's `values` or `value` property, the lookup of a
 * node's `method` name in the table, and the parse of one such node.
 */
module RuleMethods {
  import opened Kernel

  /** The callables of the method table. */
  datatype Method = SampleBits | Rate | Channels | FixedBclkSize

  /** The payload parsers of the method table. */
  datatype Parser = ParseU32Array | ParseU32

  datatype MethodDesc = MethodDesc(name: string, callable: Method, parse: Parser)

  /**
   * `asoc_generic_hw_params_methods`: each entry is named by the stringified
   * C function name, so a configuration must spell out the full name.
   */
  const MethodTable: seq<MethodDesc> := [
    MethodDesc("asoc_generic_hw_params_match_sample_bits", SampleBits, ParseU32Array),
    MethodDesc("asoc_generic_hw_params_match_rate", Rate, ParseU32Array),
    MethodDesc("asoc_generic_hw_params_match_channels", Channels, ParseU32Array),
    MethodDesc("asoc_generic_hw_params_set_fixed_bclk_size", FixedBclkSize, ParseU32)
  ]

  /**
   * The `void *data` of an entry: a single u32 stored in the pointer itself,
   * or a `snd_soc_size_u32array` whose `size` is the length of `cells`.
   */
  datatype Payload = Word(word: u32) | Cells(cells: seq<u32>)

  /** `snd_soc_hw_params_actionmatch`: the selected callable and its data. */
  datatype ActionMatch = ActionMatch(callable: Method, data: Payload)

  /** The payload has the shape the callable reads. */
  predicate Shaped(am: ActionMatch) {
    if am.callable == FixedBclkSize then am.data.Word? else am.data.Cells?
  }

  /** A u32-array property of a node: absent, or present with its cells. */
  type U32Prop = Option<seq<u32>>

  /**
   * A `match` or `action` node as the tree reader shows it: its full name,
   * its `method` string property, its `value` and `values` properties, and
   * whether the two `devm_kzalloc` calls made for it (the entry, then the
   * array) fail.
   */
  datatype EntryNode = EntryNode(
    fullName: string,
    methodName: Option<string>,
    value: U32Prop,
    values: U32Prop,
    allocFails: bool,
    arrayAllocFails: bool)

  /** `of_property_count_elems_of_size(node, name, sizeof(u32))`. */
  function CountElems(p: U32Prop): int {
    match p
    case None => -EINVAL
    case Some(cells) => |cells|
  }

  /** `of_property_read_u32(node, name, &out)`: reads the FIRST cell of the property. */
  function ReadFirstU32(p: U32Prop): Result<u32> {
    match p
    case None => Err(-EINVAL)
    case Some(cells) => if |cells| == 0 then Err(-EOVERFLOW) else Ok(cells[0])
  }

  /**
   * What `asoc_generic_hw_params_read_u32array` stores: `size` slots, each
   * filled by reading the `values` property with `of_property_read_u32`.
   */
  function ParsedU32Array(node: EntryNode): Result<seq<u32>> {
    var size := CountElems(node.values);
    if size < 0 then Err(size)
    else if node.arrayAllocFails then Err(-ENOMEM)
    else if size == 0 then Ok([])
    else
      match ReadFirstU32(node.values)
      case Err(e) => Err(e)
      case Ok(v) => Ok(seq(size, _ => v))
  }

  /**
   * `asoc_generic_hw_params_read_u32array`: a negative count is returned as
   * the error; otherwise an array of exactly `count` slots is filled in
   * index order, and the first failing read is returned.
   */
  method ReadU32Array(node: EntryNode) returns (r: Result<seq<u32>>)
    ensures r == ParsedU32Array(node)
  {
    var size := CountElems(node.values);
    if size < 0 {
      return Err(size);
    }
    if node.arrayAllocFails {
      return Err(-ENOMEM);
    }
    var data := new u32[size](_ => 0);
    for i := 0 to size
      invariant forall j :: 0 <= j < i ==> ReadFirstU32(node.values).Ok? && data[j] == ReadFirstU32(node.values).value
    {
      var cell := ReadFirstU32(node.values);
      if cell.Err? {
        return Err(cell.code);
      }
      data[i] := cell.value;
    }
    r := Ok(data[..]);
    if size > 0 {
      var v := ReadFirstU32(node.values).value;
      assert ParsedU32Array(node) == Ok(seq(size, _ => v));
      assert data[..] == seq(size, _ => v) by {
        forall j | 0 <= j < size ensures data[..][j] == v {
        }
      }
    } else {
      assert data[..] == [];
    }
  }

  /**
   * The array parser keeps the element count but copies the first cell of
   * `values` into every slot, so it reproduces a property exactly when all
   * of the property's cells are equal.
   */
  lemma ReadU32ArrayRepeatsFirstCell(node: EntryNode, cells: seq<u32>)
    requires node.values == Some(cells) && !node.arrayAllocFails
    ensures ParsedU32Array(node).Ok?
    ensures |ParsedU32Array(node).value| == |cells|
    ensures forall i :: 0 <= i < |cells| ==> ParsedU32Array(node).value[i] == cells[0]
    ensures ParsedU32Array(node).value == cells <==> forall i :: 0 <= i < |cells| ==> cells[i] == cells[0]
  {
    if ParsedU32Array(node).value == cells {
      forall i | 0 <= i < |cells| ensures cells[i] == cells[0] {
        assert ParsedU32Array(node).value[i] == cells[0];
      }
    }
  }

  /** The payload the parser of a table entry produces for a node. */
  function ParsePayload(parse: Parser, node: EntryNode): (r: Result<Payload>)
    ensures r.Ok? ==> (parse == ParseU32Array <==> r.value.Cells?)
  {
    match parse
    case ParseU32Array =>
      (match ParsedU32Array(node)
       case Ok(cells) => Ok(Cells(cells))
       case Err(e) => Err(e))
    case ParseU32 =>
      (match ReadFirstU32(node.value)
       case Ok(w) => Ok(Word(w))
       case Err(e) => Err(e))
  }

  /** `m->parse(dev, node, &am->data)`: runs the entry's parser. */
  method RunParser(parse: Parser, node: EntryNode) returns (r: Result<Payload>)
    ensures r == ParsePayload(parse, node)
  {
    match parse
    case ParseU32Array =>
      var a := ReadU32Array(node);
      r := if a.Ok? then Ok(Cells(a.value)) else Err(a.code);
    case ParseU32 =>
      var w := ReadFirstU32(node.value);
      r := if w.Ok? then Ok(Word(w.value)) else Err(w.code);
  }

  /** Index of the first entry of `table` named `name`, or `|table|` when there is none. */
  function FirstNamed(table: seq<MethodDesc>, name: string): (i: nat)
    ensures i <= |table|
    ensures forall j :: 0 <= j < i ==> table[j].name != name
    ensures i < |table| ==> table[i].name == name
    decreases |table|
  {
    if table == [] then 0
    else if table[0].name == name then 0
    else 1 + FirstNamed(table[1..], name)
  }

  /**
   * `asoc_generic_hw_params_lookup_methods` as a value: the first table entry
   * named `name` selects the callable and the parser whose result is returned;
   * an unknown name is -EINVAL.
   */
  function Lookup(name: string, node: EntryNode): (r: Result<ActionMatch>)
    ensures (forall j :: 0 <= j < |MethodTable| ==> MethodTable[j].name != name) ==> r == Err(-EINVAL)
    ensures r.Ok? ==> Shaped(r.value)
    ensures r.Ok? ==> exists j :: 0 <= j < |MethodTable| && MethodTable[j].name == name && MethodTable[j].callable == r.value.callable
  {
    var i := FirstNamed(MethodTable, name);
    if i == |MethodTable| then Err(-EINVAL)
    else
      match ParsePayload(MethodTable[i].parse, node)
      case Err(e) => Err(e)
      case Ok(d) => Ok(ActionMatch(MethodTable[i].callable, d))
  }

  /** The table scan of `asoc_generic_hw_params_lookup_methods`, comparing names with strcmp. */
  method LookupMethods(name: string, node: EntryNode) returns (r: Result<ActionMatch>)
    ensures r == Lookup(name, node)
  {
    for i := 0 to |MethodTable|
      invariant forall j :: 0 <= j < i ==> MethodTable[j].name != name
    {
      var m := MethodTable[i];
      if StrCmp(m.name, name) == 0 {
        var payload := RunParser(m.parse, node);
        LookupSelects(name, node, i);
        return if payload.Ok? then Ok(ActionMatch(m.callable, payload.value)) else Err(payload.code);
      }
    }
    assert FirstNamed(MethodTable, name) == |MethodTable|;
    return Err(-EINVAL);
  }

  /** When entry `i` is the first one named `name`, the lookup runs that entry's parser. */
  lemma LookupSelects(name: string, node: EntryNode, i: nat)
    requires i < |MethodTable| && MethodTable[i].name == name
    requires forall j :: 0 <= j < i ==> MethodTable[j].name != name
    ensures Lookup(name, node) ==
      (match ParsePayload(MethodTable[i].parse, node)
       case Err(e) => Err(e)
       case Ok(d) => Ok(ActionMatch(MethodTable[i].callable, d)))
  {
    assert FirstNamed(MethodTable, name) == i;
  }

  /**
   * `asoc_generic_hw_params_actionmatch_parse_of` as a value: a missing
   * `method` property fails first, then the allocation of the entry, then
   * the lookup and its parser.
   */
  function ParseEntry(node: EntryNode): (r: Result<ActionMatch>)
    ensures node.methodName.None? ==> r == Err(-EINVAL)
    ensures node.methodName.Some? && node.allocFails ==> r == Err(-ENOMEM)
    ensures node.methodName.Some? && !node.allocFails ==> r == Lookup(node.methodName.value, node)
    ensures r.Ok? ==> Shaped(r.value)
  {
    match node.methodName
    case None => Err(-EINVAL)
    case Some(name) => if node.allocFails then Err(-ENOMEM) else Lookup(name, node)
  }

  /** `asoc_generic_hw_params_actionmatch_parse_of`. */
  method ActionMatchParseOf(node: EntryNode) returns (r: Result<ActionMatch>)
    ensures r == ParseEntry(node)
  {
    if node.methodName.None? {
      return Err(-EINVAL);
    }
    if node.allocFails {
      return Err(-ENOMEM);
    }
    r := LookupMethods(node.methodName.value, node);
  }

  /** The request's value is one of the configured cells. */
  predicate Contains(cells: seq<u32>, x: int) {
    exists i :: 0 <= i < |cells| && cells[i] == x
  }

  /**
   * The result every callable reports for a request: a matcher returns 1
   * when the request's value is configured and 0 otherwise; the action
   * returns what the bclk-ratio setter returns.
   */
  function Eval(am: ActionMatch, params: PcmParams, setBclkRatio: BclkSetter): int
    requires Shaped(am)
  {
    match am.callable
    case SampleBits => if Contains(am.data.cells, AsUnsigned32(params.physicalWidth)) then 1 else 0
    case Rate => if Contains(am.data.cells, params.rate) then 1 else 0
    case Channels => if Contains(am.data.cells, params.channels) then 1 else 0
    case FixedBclkSize => setBclkRatio(am.data.word)
  }

  /** The scan shared by the three matchers: 1 on the first equal cell, 0 after the last. */
  method MatchAny(x: int, cells: seq<u32>) returns (ret: int)
    ensures ret == 1 <==> Contains(cells, x)
    ensures ret == 0 <==> !Contains(cells, x)
  {
    for i := 0 to |cells|
      invariant forall j :: 0 <= j < i ==> cells[j] != x
    {
      if x == cells[i] {
        return 1;
      }
    }
    return 0;
  }

  /**
   * `asoc_generic_hw_params_match_sample_bits`: the physical width is held
   * in a `long` and compared with `u32` cells, so on a 32-bit kernel both
   * sides are compared as unsigned 32-bit values.
   */
  method MatchSampleBits(params: PcmParams, cells: seq<u32>) returns (ret: int)
    ensures ret == (if Contains(cells, AsUnsigned32(params.physicalWidth)) then 1 else 0)
  {
    ret := MatchAny(AsUnsigned32(params.physicalWidth), cells);
  }

  /** A known format's width is compared as it is: the matcher reports whether it is configured. */
  lemma SampleBitsComparesWidth(params: PcmParams, cells: seq<u32>, setBclkRatio: BclkSetter)
    requires 0 <= params.physicalWidth < U32_MODULUS
    ensures Eval(ActionMatch(SampleBits, Cells(cells)), params, setBclkRatio) == 1 <==>
      exists i :: 0 <= i < |cells| && cells[i] == params.physicalWidth
  {
  }

  /**
   * An unknown format reports the width -EINVAL. It matches no ordinary
   * width, but it does match a cell holding -EINVAL wrapped to 32 bits.
   */
  lemma UnknownFormatMatchesWrappedWidth(params: PcmParams, setBclkRatio: BclkSetter)
    requires params.physicalWidth == -EINVAL
    ensures Eval(ActionMatch(SampleBits, Cells([16, 24, 32])), params, setBclkRatio) == 0
    ensures Eval(ActionMatch(SampleBits, Cells([0xFFFF_FFEA])), params, setBclkRatio) == 1
  {
    assert AsUnsigned32(params.physicalWidth) == 0xFFFF_FFEA;
    assert [0xFFFF_FFEA][0] == 0xFFFF_FFEA;
  }

  /** `asoc_generic_hw_params_match_rate`. */
  method MatchRate(params: PcmParams, cells: seq<u32>) returns (ret: int)
    ensures ret == (if Contains(cells, params.rate) then 1 else 0)
  {
    ret := MatchAny(params.rate, cells);
  }

  /** `asoc_generic_hw_params_match_channels`. */
  method MatchChannels(params: PcmParams, cells: seq<u32>) returns (ret: int)
    ensures ret == (if Contains(cells, params.channels) then 1 else 0)
  {
    ret := MatchAny(params.channels, cells);
  }

  /** The call `am->method(substream, params, am->data)`. */
  method Invoke(am: ActionMatch, params: PcmParams, setBclkRatio: BclkSetter) returns (ret: int)
    requires Shaped(am)
    ensures ret == Eval(am, params, setBclkRatio)
  {
    match am.callable
    case SampleBits => ret := MatchSampleBits(params, am.data.cells);
    case Rate => ret := MatchRate(params, am.data.cells);
    case Channels => ret := MatchChannels(params, am.data.cells);
    case FixedBclkSize => ret := setBclkRatio(am.data.word);
  }
}
