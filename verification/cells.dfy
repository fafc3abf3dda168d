/** The chemistry table and the per-cell derivations of the battery manager.

    Units are scaled integers so that no floating point is involved:
    voltages in decivolts (3.2 V is 32), currents in centiamps (12.5 A is
    1250), capacities in centi-watt-hours (32.00 Wh is 3200). */
module Cells {
  import opened Text

  /** The three non-empty options of the cell-type selectbox. */
  datatype Chemistry = Lfp | Mnc | Other

  /** The selectbox option value of a chemistry, as stored in the configuration. */
  function Name(c: Chemistry): string {
    match c
    case Lfp => "lfp"
    case Mnc => "mnc"
    case Other => "other"
  }

  /** The "Max Voltage (V)" column, in decivolts. */
  function MaxVoltage(c: Chemistry): (v: nat)
    ensures v == 40 <==> c != Mnc
    ensures c == Mnc ==> v == 34
  {
    if c == Mnc then 34 else 40
  }

  /** The "Min Voltage (V)" column, in decivolts: always strictly below the maximum. */
  function MinVoltage(c: Chemistry): (v: nat)
    ensures v < MaxVoltage(c)
    ensures v == 28 <==> c == Lfp
    ensures c != Lfp ==> v == 32
  {
    if c == Lfp then 28 else 32
  }

  /** The nominal "Voltage (V)" column, in decivolts. It lies inside the
      chemistry's [min, max] band for LFP and Other, but above the maximum for MNC. */
  function NominalVoltage(c: Chemistry): (v: nat)
    ensures MinVoltage(c) <= v <= MaxVoltage(c) <==> c != Mnc
    ensures c == Mnc ==> v > MaxVoltage(c)
    ensures v == 32 <==> c == Lfp
    ensures c != Lfp ==> v == 36
  {
    if c == Lfp then 32 else 36
  }

  /** Rounding an even number of thousandths to the nearest hundredth never meets a tie. */
  lemma NearestHundredth(m: nat)
    requires m % 2 == 0
    ensures 10 * ((m + 5) / 10) - 5 < m < 10 * ((m + 5) / 10) + 5
  {
  }

  lemma EvenProduct(v: nat, current: nat)
    requires v % 2 == 0
    ensures (v * current) % 2 == 0
  {
    var h := v / 2;
    assert v * current == 2 * (h * current);
  }

  lemma TenthsProduct(v: nat, current: nat)
    ensures current % 10 == 0 ==> (v * current) % 10 == 0
  {
    if current % 10 == 0 {
      var t := current / 10;
      assert v * current == 10 * (v * t);
    }
  }

  /** `round(voltage * current, 2)`: the capacity in centi-watt-hours. Voltage
      times current is a whole number of milli-watt-hours; the capacity is the
      unique nearest multiple of ten of it (never a tie), and it is exact when
      the current is a whole number of tenths of an ampere (the widget's step). */
  function Capacity(c: Chemistry, current: nat): (cap: nat)
    ensures 10 * cap - 5 < NominalVoltage(c) * current < 10 * cap + 5
    ensures current % 10 == 0 ==> 10 * cap == NominalVoltage(c) * current
  {
    var m := NominalVoltage(c) * current;
    EvenProduct(NominalVoltage(c), current);
    NearestHundredth(m);
    TenthsProduct(NominalVoltage(c), current);
    (m + 5) / 10
  }

  /** The in-app help's "Cell Type Specifications" list the same table
      (nominal, min, max) for the three chemistries. */
  lemma DocumentedTable()
    ensures (NominalVoltage(Lfp), MinVoltage(Lfp), MaxVoltage(Lfp)) == (32, 28, 40)
    ensures (NominalVoltage(Mnc), MinVoltage(Mnc), MaxVoltage(Mnc)) == (36, 32, 34)
    ensures (NominalVoltage(Other), MinVoltage(Other), MaxVoltage(Other)) == (36, 32, 40)
  {
  }

  /** The dictionary key `cell_{num}_{type}` of a generated record: the
      prefix, the digits of the cell number, an underscore, the type name. */
  function Key(cellNum: nat, c: Chemistry): (k: string)
    ensures |k| == 6 + |Decimal(cellNum)| + |Name(c)|
    ensures k[5 + |Decimal(cellNum)|] == '_'
  {
    "cell_" + Decimal(cellNum) + "_" + Name(c)
  }

  lemma DigitsThenSeparator(a: string, b: string, x: string, y: string)
    requires AllDigits(a) && AllDigits(b)
    requires a + "_" + x == b + "_" + y
    ensures a == b && x == y
  {
    var s := a + "_" + x;
    assert s[|a|] == '_' && s[|b|] == '_';
    assert forall i :: 0 <= i < |a| ==> s[i] == a[i] && IsDigit(s[i]);
    assert forall i :: 0 <= i < |b| ==> s[i] == b[i] && IsDigit(s[i]);
    assert |a| == |b|;
    assert a == s[..|a|] && b == s[..|b|];
    assert x == s[|a| + 1..] && y == s[|b| + 1..];
  }

  lemma PrefixCancel(p: string, x: string, y: string)
    requires p + x == p + y
    ensures x == y
  {
    assert x == (p + x)[|p|..];
  }

  /** Two records get the same key only for the same cell number and chemistry. */
  lemma KeyInjective(m: nat, c: Chemistry, n: nat, d: Chemistry)
    requires Key(m, c) == Key(n, d)
    ensures m == n && c == d
  {
    var x, y := Decimal(m) + "_" + Name(c), Decimal(n) + "_" + Name(d);
    assert Key(m, c) == "cell_" + x;
    assert Key(n, d) == "cell_" + y;
    PrefixCancel("cell_", x, y);
    DigitsThenSeparator(Decimal(m), Decimal(n), Name(c), Name(d));
    DecimalInjective(m, n);
  }

  /** The "Type" column: the chemistry name upper-cased. */
  function Label(c: Chemistry): (l: string)
    ensures c == Lfp ==> l == "LFP"
    ensures c == Mnc ==> l == "MNC"
    ensures c == Other ==> l == "OTHER"
  {
    var l := Upper(Name(c));
    assert c == Lfp ==> l == "LFP";
    assert c == Mnc ==> l == "MNC";
    assert c == Other ==> l == "OTHER";
    l
  }

  /** The "Type" column shows LFP, MNC and OTHER, and so identifies the chemistry. */
  lemma LabelValues(c: Chemistry, d: Chemistry)
    ensures Label(Lfp) == "LFP" && Label(Mnc) == "MNC" && Label(Other) == "OTHER"
    ensures Label(c) == Label(d) ==> c == d
  {
    assert Label(Lfp) == "LFP";
    assert Label(Mnc) == "MNC";
    assert Label(Other) == "OTHER";
  }
}
