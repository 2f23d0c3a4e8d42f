/** The moon-phase lookup: a phase fraction is mapped to the first phase of an
    ascending threshold table whose threshold is at least the fraction. */
module Moon {

  /** One row of the table: the inclusive upper bound of the phase fraction,
      the phase's name and its symbol. */
  datatype Phase = Phase(bound: real, name: string, emoji: string)

  const MoonPhases: seq<Phase> := [
    Phase(0.02, "新月", "🌑"),
    Phase(0.23, "蛾眉月", "🌒"),
    Phase(0.27, "上弦月", "🌓"),
    Phase(0.48, "盈凸月", "🌔"),
    Phase(0.52, "滿月", "🌕"),
    Phase(0.73, "虧凸月", "🌖"),
    Phase(0.77, "下弦月", "🌗"),
    Phase(1.00, "殘月", "🌘")
  ]

  /** The answer when the fraction exceeds every bound: the new moon. */
  const NewMoon: (string, string) := ("新月", "🌑")

  predicate Ascending(table: seq<Phase>)
  {
    forall i, j :: 0 <= i < j < |table| ==> table[i].bound < table[j].bound
  }

  lemma MoonPhasesAscending()
    ensures Ascending(MoonPhases)
  {
  }

  /** The index of the first row whose bound is at least `v`, or `|table|`
      when there is none. */
  function FirstMatch(table: seq<Phase>, v: real): (k: nat)
    ensures k <= |table|
    ensures forall j :: 0 <= j < k ==> table[j].bound < v
    ensures k < |table| ==> v <= table[k].bound
  {
    if table == [] || v <= table[0].bound then 0 else 1 + FirstMatch(table[1..], v)
  }

  /** The name and symbol of the phase with fraction `v`. */
  function MoonPhaseName(v: real): (r: (string, string))
    ensures FirstMatch(MoonPhases, v) < |MoonPhases| ==>
      r == (MoonPhases[FirstMatch(MoonPhases, v)].name, MoonPhases[FirstMatch(MoonPhases, v)].emoji)
    ensures v > 1.00 ==> r == NewMoon
  {
    var k := FirstMatch(MoonPhases, v);
    if k < |MoonPhases| then (MoonPhases[k].name, MoonPhases[k].emoji) else NewMoon
  }

  /** Because the bounds ascend, every fraction in the half-open interval
      above row `i - 1`'s bound and up to row `i`'s bound names row `i`. */
  lemma PhaseInterval(v: real, i: nat)
    requires i < |MoonPhases|
    requires i == 0 || MoonPhases[i - 1].bound < v
    requires v <= MoonPhases[i].bound
    ensures MoonPhaseName(v) == (MoonPhases[i].name, MoonPhases[i].emoji)
  {
    MoonPhasesAscending();
  }

  /** Every fraction up to 1 names a row of the table; the fallback is never used. */
  lemma FractionsNameARow(v: real)
    requires v <= 1.00
    ensures exists i :: 0 <= i < |MoonPhases| && MoonPhaseName(v) == (MoonPhases[i].name, MoonPhases[i].emoji)
  {
    assert MoonPhases[|MoonPhases| - 1].bound == 1.00;
    var k := FirstMatch(MoonPhases, v);
    assert k < |MoonPhases|;
  }

  lemma FullMoonExample()
    ensures MoonPhaseName(0.5) == ("滿月", "🌕")
  {
    PhaseInterval(0.5, 4);
  }
}
