/** The sidebar: reading the per-cell widgets into the list of configured cells. */
module Configs {
  import opened Wrappers
  import opened Cells

  /** The two widgets of one cell: the type selectbox (None for the empty
      "Select type..." option) and the current input in centiamps (the widget's
      minimum of 0.0 makes it non-negative). */
  datatype CellInput = CellInput(kind: Option<Chemistry>, current: nat)

  /** One entry of `cell_configs`. */
  datatype CellConfig = CellConfig(cellNum: nat, chemistry: Chemistry, current: nat)

  /** A cell takes part only if a type is selected and its current is above zero. */
  predicate IsConfigured(input: CellInput) {
    input.kind.Some? && input.current > 0
  }

  /** The configuration comes from the widgets of cell `cellNum` (numbered from 1). */
  predicate DescribesCell(config: CellConfig, inputs: seq<CellInput>) {
    && 1 <= config.cellNum <= |inputs|
    && IsConfigured(inputs[config.cellNum - 1])
    && inputs[config.cellNum - 1].kind.value == config.chemistry
    && inputs[config.cellNum - 1].current == config.current
  }

  /** Cell numbers strictly increase along the list (so they are distinct). */
  predicate Increasing(configs: seq<CellConfig>) {
    forall k, l :: 0 <= k < l < |configs| ==> configs[k].cellNum < configs[l].cellNum
  }

  function CellNumbers(configs: seq<CellConfig>): set<nat> {
    set k | 0 <= k < |configs| :: configs[k].cellNum
  }

  lemma CellNumbersAppend(configs: seq<CellConfig>, config: CellConfig)
    ensures CellNumbers(configs + [config]) == CellNumbers(configs) + {config.cellNum}
  {
    var s := configs + [config];
    assert s[|configs|] == config;
    assert forall k :: 0 <= k < |configs| ==> s[k] == configs[k];
  }

  /** The sidebar loop over cells 1..numCells: a cell's configuration is kept
      exactly when the cell is configured, and the kept cells come out in
      increasing cell-number order, each carrying its own widgets' values. */
  method CollectConfigs(numCells: nat, inputs: seq<CellInput>) returns (configs: seq<CellConfig>)
    requires 1 <= numCells <= 8 && |inputs| == numCells
    ensures |configs| <= numCells
    ensures Increasing(configs)
    ensures forall k :: 0 <= k < |configs| ==> DescribesCell(configs[k], inputs)
    ensures forall i :: 1 <= i <= numCells ==> (i in CellNumbers(configs) <==> IsConfigured(inputs[i - 1]))
  {
    configs := [];
    var i := 1;
    while i <= numCells
      invariant 1 <= i <= numCells + 1
      invariant |configs| < i
      invariant Increasing(configs)
      invariant forall k :: 0 <= k < |configs| ==> configs[k].cellNum < i && DescribesCell(configs[k], inputs)
      invariant forall j :: 1 <= j < i ==> (j in CellNumbers(configs) <==> IsConfigured(inputs[j - 1]))
    {
      var input := inputs[i - 1];
      if input.kind.Some? && input.current > 0 {
        CellNumbersAppend(configs, CellConfig(i, input.kind.value, input.current));
        configs := configs + [CellConfig(i, input.kind.value, input.current)];
      }
      assert i !in CellNumbers(configs) <==> !IsConfigured(input);
      i := i + 1;
    }
  }

  /** The sidebar's "Voltage | Capacity" hint for one cell: shown exactly for a
      configured cell, with the nominal voltage and the capacity of its chemistry
      and current. */
  function Preview(input: CellInput): (hint: Option<(nat, nat)>)
    ensures hint.Some? <==> IsConfigured(input)
    ensures hint.Some? ==> hint.value.0 == NominalVoltage(input.kind.value)
    ensures hint.Some? ==> hint.value.0 * input.current - 5 < 10 * hint.value.1 < hint.value.0 * input.current + 5
  {
    if input.kind.Some? && input.current > 0 then
      var c := input.kind.value;
      Some((NominalVoltage(c), Capacity(c, input.current)))
    else
      None
  }
}
