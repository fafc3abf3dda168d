/** The generated records and the session state that holds them. */
module Results {
  import opened Cells
  import opened Configs
  import opened Wrappers

  /** One value of `cells_data`: the columns of one table row. Voltages are in
      decivolts, the current in centiamps, the temperature in tenths of a
      degree Celsius and the capacity in centi-watt-hours. */
  datatype CellRecord = CellRecord(
    id: string,
    kind: string,
    voltage: nat,
    current: nat,
    temperature: nat,
    capacity: nat,
    maxVoltage: nat,
    minVoltage: nat)

  /** `round(random.uniform(25, 40), 1)` in tenths: the range the injected draw keeps to. */
  predicate InTemperatureRange(t: nat) {
    250 <= t <= 400
  }

  /** The record the Generate loop writes for one configuration and one temperature draw. */
  function MakeRecord(config: CellConfig, temperature: nat): (r: CellRecord)
    ensures r.id == Key(config.cellNum, config.chemistry)
    ensures r.kind == Label(config.chemistry)
    ensures r.voltage == NominalVoltage(config.chemistry)
    ensures r.maxVoltage == MaxVoltage(config.chemistry) && r.minVoltage == MinVoltage(config.chemistry)
    ensures r.current == config.current && r.temperature == temperature
    ensures r.minVoltage < r.maxVoltage
    ensures 10 * r.capacity - 5 < r.voltage * r.current < 10 * r.capacity + 5
  {
    var c := config.chemistry;
    CellRecord(
      Key(config.cellNum, c), Label(c), NominalVoltage(c), config.current,
      temperature, Capacity(c, config.current), MaxVoltage(c), MinVoltage(c))
  }

  /** Every column but the id and the temperature is fixed by the chemistry and
      the current alone, and the voltages are those of the chemistry. */
  lemma RecordIsDerived(a: CellConfig, s: nat, b: CellConfig, t: nat)
    requires a.chemistry == b.chemistry && a.current == b.current
    ensures MakeRecord(a, s).(id := "", temperature := 0) == MakeRecord(b, t).(id := "", temperature := 0)
    ensures MakeRecord(a, s).minVoltage < MakeRecord(a, s).maxVoltage
    ensures MakeRecord(a, s).id != MakeRecord(b, t).id <==> a.cellNum != b.cellNum
  {
    if MakeRecord(a, s).id == MakeRecord(b, t).id {
      KeyInjective(a.cellNum, a.chemistry, b.cellNum, b.chemistry);
    }
  }

  /** The sidebar hint and the generated record agree on voltage and capacity. */
  lemma PreviewMatchesRecord(cellNum: nat, input: CellInput, temperature: nat)
    requires IsConfigured(input)
    ensures var r := MakeRecord(CellConfig(cellNum, input.kind.value, input.current), temperature);
            Preview(input) == Some((r.voltage, r.capacity))
  {
  }

  /** The keys of the dictionary. */
  function Ids(d: seq<CellRecord>): set<string> {
    if d == [] then {} else {d[0].id} + Ids(d[1..])
  }

  /** No key occurs twice. */
  predicate DistinctIds(d: seq<CellRecord>) {
    d == [] || (d[0].id !in Ids(d[1..]) && DistinctIds(d[1..]))
  }

  lemma {:induction false} IdsAt(d: seq<CellRecord>, y: string)
    ensures y in Ids(d) <==> exists k :: 0 <= k < |d| && d[k].id == y
  {
    if d != [] {
      IdsAt(d[1..], y);
      if exists k :: 0 <= k < |d| && d[k].id == y {
        var k :| 0 <= k < |d| && d[k].id == y;
        if k > 0 { assert d[1..][k - 1].id == y; }
      }
    }
  }

  lemma IdsCons(x: CellRecord, d: seq<CellRecord>)
    ensures Ids([x] + d) == {x.id} + Ids(d)
    ensures DistinctIds([x] + d) <==> x.id !in Ids(d) && DistinctIds(d)
  {
  }

  /** `d[r.id] = r` on an insertion-ordered dictionary whose values carry their
      own key: an entry with that key is replaced where it stands, otherwise the
      record goes at the end. */
  function Put(d: seq<CellRecord>, r: CellRecord): (e: seq<CellRecord>)
    ensures r in e
    ensures |d| <= |e| <= |d| + 1
  {
    if d == [] then [r]
    else if d[0].id == r.id then [r] + d[1..]
    else [d[0]] + Put(d[1..], r)
  }

  /** After `d[r.id] = r` the keys are the old keys plus `r.id`; a new key goes at the end. */
  lemma {:induction false} PutKeys(d: seq<CellRecord>, r: CellRecord)
    ensures Ids(Put(d, r)) == Ids(d) + {r.id}
    ensures r.id !in Ids(d) ==> Put(d, r) == d + [r]
  {
    if d == [] {
      IdsCons(r, []);
    } else {
      assert d == [d[0]] + d[1..];
      IdsCons(d[0], d[1..]);
      if d[0].id == r.id {
        IdsCons(r, d[1..]);
      } else {
        PutKeys(d[1..], r);
        IdsCons(d[0], Put(d[1..], r));
      }
    }
  }

  /** Assigning a key the dictionary already holds replaces that entry where
      it stands: the position of every entry, and so their order, is kept. */
  lemma {:induction false} PutInPlace(d: seq<CellRecord>, r: CellRecord, k: nat)
    requires DistinctIds(d) && k < |d| && d[k].id == r.id
    ensures Put(d, r) == d[k := r]
  {
    if k > 0 {
      assert d[1..][k - 1].id == r.id;
      IdsAt(d[1..], r.id);
      PutInPlace(d[1..], r, k - 1);
      assert [d[0]] + d[1..][k - 1 := r] == d[k := r];
    }
  }

  /** After `d[r.id] = r`, `r` is present, every entry under another key is
      kept, and nothing else is added. */
  lemma {:induction false} PutEntries(d: seq<CellRecord>, r: CellRecord)
    ensures r in Put(d, r)
    ensures forall x :: x in d && x.id != r.id ==> x in Put(d, r)
    ensures forall x :: x in Put(d, r) ==> x == r || x in d
  {
    if d != [] && d[0].id != r.id {
      PutEntries(d[1..], r);
    }
  }

  /** Assignment keeps the keys distinct, and an existing key keeps the size. */
  lemma {:induction false} PutDistinct(d: seq<CellRecord>, r: CellRecord)
    requires DistinctIds(d)
    ensures DistinctIds(Put(d, r))
    ensures r.id in Ids(d) ==> |Put(d, r)| == |d|
  {
    if d == [] {
    } else {
      assert d == [d[0]] + d[1..];
      IdsCons(d[0], d[1..]);
      if d[0].id == r.id {
        IdsCons(r, d[1..]);
      } else {
        IdsCons(d[0], d[1..]);
        PutDistinct(d[1..], r);
        PutKeys(d[1..], r);
        IdsCons(d[0], Put(d[1..], r));
      }
    }
  }

  /** The dictionary left by the Generate loop: starting from `{}`, one
      assignment per configuration, in order. */
  function Assigned(configs: seq<CellConfig>, temps: seq<nat>): seq<CellRecord>
    requires |temps| == |configs|
  {
    if configs == [] then []
    else
      var n := |configs| - 1;
      Put(Assigned(configs[..n], temps[..n]), MakeRecord(configs[n], temps[n]))
  }

  /** One record per configuration, in the configurations' order. */
  function Records(configs: seq<CellConfig>, temps: seq<nat>): (rs: seq<CellRecord>)
    requires |temps| == |configs|
    ensures |rs| == |configs|
  {
    seq(|configs|, k requires 0 <= k < |configs| => MakeRecord(configs[k], temps[k]))
  }

  /** Whatever the configurations, the dictionary has distinct keys, holds
      only records made from them with their own temperature draws, and is
      non-empty exactly when there was a configuration. */
  lemma {:induction false} AssignedShape(configs: seq<CellConfig>, temps: seq<nat>)
    requires |temps| == |configs|
    ensures DistinctIds(Assigned(configs, temps))
    ensures Assigned(configs, temps) == [] <==> configs == []
    ensures forall x :: x in Assigned(configs, temps) ==> x.temperature in temps
  {
    if configs != [] {
      var n := |configs| - 1;
      AssignedShape(configs[..n], temps[..n]);
      var r := MakeRecord(configs[n], temps[n]);
      PutEntries(Assigned(configs[..n], temps[..n]), r);
      PutDistinct(Assigned(configs[..n], temps[..n]), r);
      forall x | x in Assigned(configs, temps)
        ensures x.temperature in temps
      {
        if x != r {
          assert x.temperature in temps[..n];
        }
      }
    }
  }

  /** One more turn of the Generate loop is one more assignment. */
  lemma AssignedStep(configs: seq<CellConfig>, temps: seq<nat>, i: nat)
    requires |temps| == |configs| && i < |configs|
    ensures Assigned(configs[..i + 1], temps[..i + 1])
            == Put(Assigned(configs[..i], temps[..i]), MakeRecord(configs[i], temps[i]))
  {
    assert configs[..i + 1][..i] == configs[..i];
    assert temps[..i + 1][..i] == temps[..i];
  }

  lemma RecordsSnoc(configs: seq<CellConfig>, temps: seq<nat>)
    requires |temps| == |configs| > 0
    ensures var n := |configs| - 1;
            Records(configs[..n], temps[..n]) + [MakeRecord(configs[n], temps[n])] == Records(configs, temps)
  {
  }

  /** The key of a configuration with a cell number above all earlier ones is new. */
  lemma FreshKey(prefix: seq<CellConfig>, temps: seq<nat>, config: CellConfig, t: nat)
    requires |temps| == |prefix|
    requires forall k :: 0 <= k < |prefix| ==> prefix[k].cellNum < config.cellNum
    ensures MakeRecord(config, t).id !in Ids(Records(prefix, temps))
  {
    var before := Records(prefix, temps);
    IdsAt(before, MakeRecord(config, t).id);
    forall k | 0 <= k < |before|
      ensures before[k].id != MakeRecord(config, t).id
    {
      if before[k].id == MakeRecord(config, t).id {
        KeyInjective(prefix[k].cellNum, prefix[k].chemistry, config.cellNum, config.chemistry);
      }
    }
  }

  /** With distinct, increasing cell numbers (as the sidebar produces them) the
      keys never collide, so the dictionary holds exactly one record per
      configuration, in the same order. */
  lemma {:induction false} AssignedDistinctCells(configs: seq<CellConfig>, temps: seq<nat>)
    requires |temps| == |configs| && Increasing(configs)
    ensures Assigned(configs, temps) == Records(configs, temps)
  {
    if configs != [] {
      var n := |configs| - 1;
      var prefix := configs[..n];
      assert Increasing(prefix);
      AssignedDistinctCells(prefix, temps[..n]);
      var r := MakeRecord(configs[n], temps[n]);
      FreshKey(prefix, temps[..n], configs[n], temps[n]);
      PutKeys(Records(prefix, temps[..n]), r);
      RecordsSnoc(configs, temps);
    }
  }

  /** `st.session_state.cells_data` and `st.session_state.generated`. */
  class Session {
    var cellsData: seq<CellRecord>
    var generated: bool

    /** Keys are distinct, every temperature came from a draw in range, and
        the flag is set exactly when there are records. */
    ghost predicate Valid()
      reads this
    {
      && DistinctIds(cellsData)
      && (forall k :: 0 <= k < |cellsData| ==> InTemperatureRange(cellsData[k].temperature))
      && (generated <==> cellsData != [])
    }

    /** The first run of the script: an empty dictionary and the flag cleared. */
    constructor ()
      ensures Valid()
      ensures cellsData == [] && !generated
    {
      cellsData := [];
      generated := false;
    }

    /** The results view is shown when the flag is set and there are records. */
    function ResultsVisible(): (visible: bool)
      reads this
      ensures Valid() ==> (visible <==> generated)
      ensures visible ==> cellsData != []
    {
      generated && cellsData != []
    }

    /** "Generate Results": with at least one configuration the dictionary is
        rebuilt from scratch, one assignment per configuration, and the flag is
        set; with none, nothing changes. `temps` are the temperature draws, one
        per configuration. */
    method Generate(configs: seq<CellConfig>, temps: seq<nat>)
      requires Valid()
      requires |temps| == |configs|
      requires forall k :: 0 <= k < |temps| ==> InTemperatureRange(temps[k])
      modifies this
      ensures Valid()
      ensures configs == [] ==> cellsData == old(cellsData) && generated == old(generated)
      ensures configs != [] ==> cellsData == Assigned(configs, temps) && generated
      ensures configs != [] && Increasing(configs) ==>
                cellsData == Records(configs, temps) && |cellsData| == |configs|
    {
      if configs != [] {
        cellsData := [];
        var i := 0;
        while i < |configs|
          invariant 0 <= i <= |configs|
          invariant cellsData == Assigned(configs[..i], temps[..i])
        {
          var record := MakeRecord(configs[i], temps[i]);
          AssignedStep(configs, temps, i);
          cellsData := Put(cellsData, record);
          i := i + 1;
        }
        assert configs[..i] == configs && temps[..i] == temps;
        generated := true;
        AssignedShape(configs, temps);
        forall k | 0 <= k < |cellsData|
          ensures InTemperatureRange(cellsData[k].temperature)
        {
          assert cellsData[k] in cellsData;
        }
        if Increasing(configs) {
          AssignedDistinctCells(configs, temps);
        }
      }
    }

    /** "Reset All": both the dictionary and the flag are cleared, whatever
        they held, so a second reset changes nothing. */
    method Reset()
      requires Valid()
      modifies this
      ensures Valid()
      ensures cellsData == [] && !generated
      ensures !ResultsVisible()
    {
      cellsData := [];
      generated := false;
    }
  }
}
